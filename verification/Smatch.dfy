/** MUCK wildcard matching: the search the server runs, and what it accepts.

    Patterns and subjects are byte strings. Outside "{...}" word sets the search is an
    ordinary glob; SmatchMeaning proves that, and how far a set can reach. */
module Smatch {
  import opened Text

  type Byte = c: char | c as int < 256 witness 'a'
  type Bytes = seq<Byte>

  // ---------- Delimiters ----------

  /** Offset of the first c in s not preceded by the escape e, or -1. */
  function UnescapedIndex(s: Bytes, c: Byte, e: Byte): (r: int)
    ensures -1 <= r < |s|
    ensures r >= 0 ==> s[r] == c
  {
    if s == [] then -1
    else if s[0] == c then 0
    else
      var step := if s[0] == e && |s| > 1 then 2 else 1;
      var r := UnescapedIndex(s[step..], c, e);
      if r < 0 then -1 else r + step
  }

  method FindUnescaped(s: Bytes, c: Byte, e: Byte) returns (r: int)
    ensures r == UnescapedIndex(s, c, e)
  {
    var i := 0;
    while i < |s|
      invariant 0 <= i <= |s|
      invariant
        var tail := UnescapedIndex(s[i..], c, e);
        UnescapedIndex(s, c, e) == if tail < 0 then -1 else i + tail
    {
      if s[i] == c { return i; }
      ghost var step := if s[i] == e && i + 1 < |s| then 2 else 1;
      assert s[i..][step..] == s[i + step..];
      if s[i] == e { i := i + 1; }
      if i < |s| { i := i + 1; }
    }
    return -1;
  }

  // ---------- Character classes ----------

  datatype ClassItem = One(ch: Byte) | Span(from: int, to: int)

  function ByteAt(body: Bytes, k: int): (b: int)
    ensures 0 <= b < 256
  {
    if 0 <= k < |body| then body[k] as int else 0
  }

  /** The item at position i of a class body, and where the next one starts. A dash takes
      its range from the bytes on either side of it, whatever they are; when those are the
      wrong way round, or when the class ends there, the dash stands for itself. */
  function ItemAt(body: Bytes, i: nat): (r: (ClassItem, nat))
    requires i < |body|
    ensures r.1 > i
    ensures r.0.Span? ==> 0 <= r.0.from <= r.0.to < 256
  {
    var k := if body[i] == '\\' && i + 1 < |body| then i + 1 else i;
    var from, to := ByteAt(body, k - 1), ByteAt(body, k + 1);
    if body[k] != '-' then (One(body[k]), k + 1)
    else if from > to then (One('-'), k + 1)
    else (Span(from, to), k + 2)
  }

  /** The items of a class body from position i on. */
  function ItemsFrom(body: Bytes, i: nat): seq<ClassItem>
    decreases |body| - i
  {
    if i >= |body| then [] else [ItemAt(body, i).0] + ItemsFrom(body, ItemAt(body, i).1)
  }

  function ClassItems(body: Bytes): seq<ClassItem> {
    if body != [] && body[0] == '-' then [One('-')] + ItemsFrom(body, 1) else ItemsFrom(body, 0)
  }

  /** Whether an item stands for the (lower-case) byte c. A range that ends at byte 255
      stands for every byte: its counter never passes the end. */
  predicate Hits(item: ClassItem, c: Byte) {
    match item
    case One(ch) => Lower(ch) == c
    case Span(from, to) => to >= 255 || exists b: Byte :: from <= b as int <= to && Lower(b) == c
  }

  predicate AnyHits(items: seq<ClassItem>, c: Byte) {
    exists k :: 0 <= k < |items| && Hits(items[k], c)
  }

  predicate ClassAccepts(body: Bytes, c: Byte) {
    if body != [] && body[0] == '^' then !AnyHits(ClassItems(body[1..]), Lower(c))
    else AnyHits(ClassItems(body), Lower(c))
  }

  lemma AnyHitsCons(item: ClassItem, rest: seq<ClassItem>, c: Byte)
    ensures AnyHits([item] + rest, c) <==> Hits(item, c) || AnyHits(rest, c)
  {
    var all := [item] + rest;
    assert all[0] == item;
    assert forall k :: 0 <= k < |rest| ==> all[k + 1] == rest[k];
  }

  /** Walk a range with a byte counter, which wraps from 255 to 0. */
  method RangeHits(from: int, to: int, c: Byte) returns (hit: bool)
    requires 0 <= from <= to < 256 && Lower(c) == c
    ensures hit == Hits(Span(from, to), c)
  {
    var b := from;
    while b <= to
      invariant 0 <= b < 256
      invariant to < 255 ==> from <= b <= to + 1
      invariant to < 255 ==> forall x: Byte :: from <= x as int < b ==> Lower(x) != c
      decreases if to < 255 then to - b + 1 else if b <= c as int then c as int - b else c as int - b + 256
    {
      if Lower(b as char) == c { return true; }
      b := (b + 1) % 256;
    }
    return false;
  }

  method MatchItems(body: Bytes, i0: nat, c: Byte) returns (hit: bool)
    requires Lower(c) == c
    ensures hit == AnyHits(ItemsFrom(body, i0), c)
  {
    var i := i0;
    while i < |body|
      invariant AnyHits(ItemsFrom(body, i0), c) == AnyHits(ItemsFrom(body, i), c)
    {
      ghost var (item, next) := ItemAt(body, i);
      AnyHitsCons(item, ItemsFrom(body, next), c);
      if body[i] == '\\' && i + 1 < |body| { i := i + 1; }
      if body[i] != '-' {
        if Lower(body[i]) == c { return true; }
        i := i + 1;
      } else {
        var from, to := ByteAt(body, i - 1), ByteAt(body, i + 1);
        if from > to {
          if Lower(body[i]) == c { return true; }
          i := i + 1;
        } else {
          var found := RangeHits(from, to, c);
          if found { return true; }
          i := i + 2;
        }
      }
      assert i == next;
    }
    return false;
  }

  method MatchClass(body0: Bytes, c0: Byte) returns (ok: bool)
    ensures ok == ClassAccepts(body0, c0)
  {
    var c: Byte := Lower(c0);
    var hit, body := true, body0;
    if |body| > 0 && body[0] == '^' { body, hit := body[1..], false; }
    var i := 0;
    if i < |body| && body[i] == '-' {
      AnyHitsCons(One('-'), ItemsFrom(body, 1), c);
      if Lower(body[i]) == c { return hit; }
      i := i + 1;
    }
    var found := MatchItems(body, i, c);
    return found == hit;
  }

  // ---------- What a pattern accepts ----------

  /** Where the word that starts at si ends: the next space, or the end of the subject. */
  function WordEnd(s: Bytes, si: nat): (e: nat)
    requires si <= |s|
    ensures si <= e <= |s|
    ensures forall k :: si <= k < e ==> s[k] != ' '
    ensures e == |s| || s[e] == ' '
    decreases |s| - si
  {
    if si == |s| || s[si] == ' ' then si else WordEnd(s, si + 1)
  }

  /** A set is tried only where the subject starts or just after a space. */
  predicate AtWord(s: Bytes, si: nat)
    requires si <= |s|
  {
    si == 0 || s[si - 1] == ' '
  }

  predicate Inverted(p: Bytes) {
    |p| > 1 && p[1] == '^'
  }

  /** The text between the braces of the set that p starts with. */
  function SetList(p: Bytes, end: nat): (list: Bytes)
    requires p != [] && p[0] == '{' && end < |p| && p[end] == '}'
    ensures |list| < |p|
  {
    p[if Inverted(p) then 2 else 1..end]
  }

  /** Whether one of the '|'-separated alternatives of a set accepts a word. */
  ghost predicate AnyAlternative(list: Bytes, word: Bytes)
    decreases |list|, 2
  {
    var bar := UnescapedIndex(list, '|', '\\');
    if bar < 0 then Matches(list, word, 0)
    else Matches(list[..bar], word, 0) || AnyAlternative(list[bar + 1..], word)
  }

  lemma AlternativeStep(list: Bytes, word: Bytes)
    ensures
      var bar := UnescapedIndex(list, '|', '\\');
      && (bar < 0 ==> AnyAlternative(list, word) == Matches(list, word, 0))
      && (bar >= 0 ==> AnyAlternative(list, word) == (Matches(list[..bar], word, 0) || AnyAlternative(list[bar + 1..], word)))
  {
    hide Matches, UnescapedIndex;
  }

  /** Whether the word at si is one of the alternatives. Nothing is a word at the end. */
  ghost predicate WordMatches(list: Bytes, s: Bytes, si: nat)
    requires si <= |s|
    decreases |list|, 3
  {
    si < |s| && AnyAlternative(list, s[si..WordEnd(s, si)])
  }

  /** Whether the rest of a pattern accepts subject s from position si on. */
  ghost predicate Matches(p: Bytes, s: Bytes, si: nat)
    requires si <= |s|
    decreases |p|, 0
  {
    if p == [] then si == |s|
    else if p[0] == '\\' then
      |p| > 1 && si < |s| && Lower(p[1]) == Lower(s[si]) && Matches(p[2..], s, si + 1)
    else if p[0] == '?' then
      si < |s| && Matches(p[1..], s, si + 1)
    else if p[0] == '*' then
      StarMatches(p[1..], s, si)
    else if p[0] == '[' then
      var end := UnescapedIndex(p, ']', '\\');
      end >= 0 && si < |s| && ClassAccepts(p[1..end], s[si]) && Matches(p[end + 1..], s, si + 1)
    else if p[0] == '{' then
      var end := UnescapedIndex(p, '}', '\\');
      && AtWord(s, si)
      && end >= 0
      && WordMatches(SetList(p, end), s, si) != Inverted(p)
      && Matches(p[end + 1..], s, WordEnd(s, si))
    else
      si < |s| && Lower(p[0]) == Lower(s[si]) && Matches(p[1..], s, si + 1)
  }

  /** What follows a star. Before a word set the star restarts the subject only at its very
      beginning or after a later space; before anything else it may stop anywhere. */
  ghost predicate StarMatches(q: Bytes, s: Bytes, si: nat)
    requires si <= |s|
    decreases |q|, 1
  {
    if q == [] then true
    else if q[0] == '*' then StarMatches(q[1..], s, si)
    else if q[0] == '?' then si < |s| && StarMatches(q[1..], s, si + 1)
    else if q[0] == '{' then
      || (si == 0 && Matches(q, s, 0))
      || exists k :: si <= k < |s| && s[k] == ' ' && Matches(q, s[k + 1..], 0)
    else
      exists k :: si <= k <= |s| && Matches(q, s[k..], 0)
  }

  // ---------- The search ----------

  /** The server's entry point: subject first. */
  method SMatch(s: Bytes, pattern: Bytes) returns (ok: bool)
    ensures ok == Matches(pattern, s, 0)
  {
    ok := MatchPattern(pattern, s);
  }

  /** The first symbol of p, when it is neither a star nor a set: how many bytes of the
      pattern it takes when it accepts the subject byte at si. */
  ghost predicate SymbolMatches(p: Bytes, s: Bytes, si: nat, n: nat)
    requires p != [] && p[0] != '*' && p[0] != '{' && si <= |s|
  {
    if p[0] == '\\' then n == 2 && |p| > 1 && si < |s| && Lower(p[1]) == Lower(s[si])
    else if p[0] == '?' then n == 1 && si < |s|
    else if p[0] == '[' then
      n == UnescapedIndex(p, ']', '\\') + 1 && n > 0 && si < |s| && ClassAccepts(p[1..n - 1], s[si])
    else n == 1 && si < |s| && Lower(p[0]) == Lower(s[si])
  }

  lemma SymbolStep(p: Bytes, s: Bytes, si: nat, n: nat)
    requires p != [] && p[0] != '*' && p[0] != '{' && si <= |s|
    requires SymbolMatches(p, s, si, n)
    ensures Matches(p, s, si) == Matches(p[n..], s, si + 1)
  {}

  lemma SymbolFails(p: Bytes, s: Bytes, si: nat)
    requires p != [] && p[0] != '*' && p[0] != '{' && si <= |s|
    requires forall n: nat :: !SymbolMatches(p, s, si, n)
    ensures !Matches(p, s, si)
  {
    assert !SymbolMatches(p, s, si, 1) && !SymbolMatches(p, s, si, 2);
    assert UnescapedIndex(p, ']', '\\') >= 0 ==> !SymbolMatches(p, s, si, UnescapedIndex(p, ']', '\\') + 1);
  }

  method MatchPattern(p: Bytes, s: Bytes) returns (ok: bool)
    ensures ok == Matches(p, s, 0)
    decreases |p|, 2
  {
    var pi, si := 0, 0;
    while pi < |p|
      invariant 0 <= pi <= |p| && 0 <= si <= |s|
      invariant Matches(p, s, 0) == Matches(p[pi..], s, si)
      decreases |p| - pi
    {
      if p[pi] == '*' {
        ok := MatchStar(p, s, pi, si);
        return;
      } else if p[pi] == '{' {
        pi, si, ok := MatchSet(p, s, pi, si);
        if !ok { return false; }
      } else {
        ghost var rest := p[pi..];
        var n;
        ok, n := MatchSymbol(p, s, pi, si);
        if !ok {
          SymbolFails(rest, s, si);
          return false;
        }
        SymbolStep(rest, s, si, n);
        assert rest[n..] == p[pi + n..];
        pi, si := pi + n, si + 1;
      }
    }
    return si == |s|;
  }

  /** One escaped byte, '?', class or plain byte against the subject byte at si. */
  method MatchSymbol(p: Bytes, s: Bytes, pi: nat, si: nat) returns (ok: bool, n: nat)
    requires pi < |p| && p[pi] != '*' && p[pi] != '{' && si <= |s|
    ensures ok ==> 0 < n <= |p| - pi && si < |s| && SymbolMatches(p[pi..], s, si, n)
    ensures !ok ==> forall n: nat :: !SymbolMatches(p[pi..], s, si, n)
  {
    ok, n := false, 1;
    if p[pi] == '\\' {
      if pi + 1 >= |p| { return; }
      if si >= |s| || Lower(p[pi + 1]) != Lower(s[si]) { return; }
      n := 2;
    } else if p[pi] == '?' {
      if si >= |s| { return; }
    } else if p[pi] == '[' {
      var end := FindUnescaped(p[pi..], ']', '\\');
      if end < 0 || si >= |s| { return; }
      assert p[pi..][1..end] == p[pi + 1..pi + end];
      var accepted := MatchClass(p[pi + 1..pi + end], s[si]);
      if !accepted { return; }
      n := end + 1;
    } else {
      if si >= |s| || Lower(p[pi]) != Lower(s[si]) { return; }
    }
    ok := true;
  }

  /** What a pattern must see first when it starts with an ordinary or escaped byte. */
  lemma LeadingByte(q: Bytes, t: Bytes)
    requires q != [] && q[0] !in {'*', '?', '[', '{'}
    ensures Matches(q, t, 0) ==>
      t != [] && Lower(t[0]) == Lower(if q[0] == '\\' && |q| > 1 then q[1] else q[0])
  {}

  /** The star resolves the whole rest of the pattern by searching for what follows it. */
  method MatchStar(p: Bytes, s: Bytes, pi0: nat, si0: nat) returns (ok: bool)
    requires pi0 < |p| && p[pi0] == '*' && si0 <= |s|
    ensures ok == Matches(p[pi0..], s, si0)
    decreases |p| - pi0, 1
  {
    var pi, si := pi0 + 1, si0;
    assert p[pi0..][1..] == p[pi..];
    while pi < |p| && (p[pi] == '*' || (p[pi] == '?' && si < |s|))
      invariant pi0 < pi <= |p| && si0 <= si <= |s|
      invariant Matches(p[pi0..], s, si0) == StarMatches(p[pi..], s, si)
    {
      assert p[pi..][1..] == p[pi + 1..];
      if p[pi] == '?' { si := si + 1; }
      pi := pi + 1;
    }
    if pi < |p| && p[pi] == '?' { return false; }
    if pi >= |p| { return true; }

    var q := p[pi..];
    if q[0] == '{' {
      ok := SearchWords(q, s, si);
    } else if q[0] == '[' {
      ok := SearchAnywhere(q, s, si);
    } else {
      ok := SearchByte(q, s, si, if q[0] == '\\' && |q| > 1 then q[1] else q[0]);
    }
  }

  /** A set after a star: the subject's beginning, then the place after each space. */
  method SearchWords(q: Bytes, s: Bytes, si: nat) returns (ok: bool)
    requires q != [] && q[0] == '{' && si <= |s|
    ensures ok == StarMatches(q, s, si)
    decreases |q|, 3
  {
    if si == 0 {
      assert s[0..] == s;
      ok := MatchPattern(q, s[si..]);
      if ok { return; }
    }
    for k := si to |s|
      invariant forall j :: si <= j < k && s[j] == ' ' ==> !Matches(q, s[j + 1..], 0)
    {
      if s[k] != ' ' { continue; }
      ok := MatchPattern(q, s[k + 1..]);
      if ok { return; }
    }
    return false;
  }

  /** A class after a star: every position. */
  method SearchAnywhere(q: Bytes, s: Bytes, si: nat) returns (ok: bool)
    requires q != [] && q[0] == '[' && si <= |s|
    ensures ok == StarMatches(q, s, si)
    decreases |q|, 3
  {
    for k := si to |s|
      invariant forall j :: si <= j < k ==> !Matches(q, s[j..], 0)
    {
      ok := MatchPattern(q, s[k..]);
      if ok { return; }
    }
    return false;
  }

  /** Anything else after a star: every position that holds the byte the rest starts with. */
  method SearchByte(q: Bytes, s: Bytes, si: nat, ch: Byte) returns (ok: bool)
    requires q != [] && q[0] !in {'*', '?', '[', '{'} && si <= |s|
    requires ch == if q[0] == '\\' && |q| > 1 then q[1] else q[0]
    ensures ok == StarMatches(q, s, si)
    decreases |q|, 3
  {
    for k := si to |s|
      invariant forall j :: si <= j < k ==> !Matches(q, s[j..], 0)
    {
      if Lower(s[k]) == Lower(ch) {
        ok := MatchPattern(q, s[k..]);
        if ok { return; }
      } else {
        LeadingByte(q, s[k..]);
      }
    }
    return false;
  }

  /** A word set: the pattern and subject positions after it, when it passes. */
  method MatchSet(p: Bytes, s: Bytes, pi: nat, si: nat) returns (pi': nat, si': nat, ok: bool)
    requires pi < |p| && p[pi] == '{' && si <= |s|
    ensures ok ==> pi < pi' <= |p| && si' <= |s| && Matches(p[pi..], s, si) == Matches(p[pi'..], s, si')
    ensures !ok ==> !Matches(p[pi..], s, si)
    decreases |p| - pi, 1
  {
    if si != 0 && s[si - 1] != ' ' { return pi, si, false; }
    ghost var rest := p[pi..];
    var neg := pi + 1 < |p| && p[pi + 1] == '^';
    var end := FindUnescaped(p[pi..], '}', '\\');
    if end < 0 { return pi, si, false; }
    var off := if neg then 2 else 1;
    assert p[pi + off..pi + end] == SetList(rest, end);
    assert rest[end + 1..] == p[pi + end + 1..];
    var matched, next := MatchWord(p[pi + off..pi + end], s, si);
    if matched == neg { return pi, si, false; }
    return pi + end + 1, next, true;
  }

  /** Take the next whole word and try each alternative on it. The cursor moves past the
      word whether or not one of them matched. */
  method MatchWord(wlist0: Bytes, s: Bytes, si: nat) returns (matched: bool, next: nat)
    requires si <= |s|
    ensures next == WordEnd(s, si)
    ensures matched == WordMatches(wlist0, s, si)
    decreases |wlist0|, 4
  {
    if si >= |s| { return false, si; }
    next := |s|;
    for k := si to |s|
      invariant WordEnd(s, si) == WordEnd(s, k)
      invariant next == |s|
    {
      if s[k] == ' ' { next := k; break; }
    }
    matched := TryAlternatives(wlist0, s[si..next]);
  }

  method TryAlternatives(wlist0: Bytes, word: Bytes) returns (matched: bool)
    ensures matched == AnyAlternative(wlist0, word)
    decreases |wlist0|, 3
  {
    hide Matches, AnyAlternative, UnescapedIndex;
    var wlist := wlist0;
    while true
      invariant |wlist| <= |wlist0|
      invariant AnyAlternative(wlist0, word) == AnyAlternative(wlist, word)
      decreases |wlist|
    {
      var bar := FindUnescaped(wlist, '|', '\\');
      var alt := if bar >= 0 then wlist[..bar] else wlist;
      AlternativeStep(wlist, word);
      var hit := MatchPattern(alt, word);
      if hit { return true; }
      if bar < 0 { return false; }
      wlist := wlist[bar + 1..];
    }
  }
}
