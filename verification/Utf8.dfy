/** UTF-8 over bytes: which sequences are valid, and the repair that replaces the rest. */
module Utf8 {
  import opened Text

  predicate InRange(c: char, lo: int, hi: int) {
    lo <= c as int <= hi
  }

  predicate Follows(s: string, i: nat) {
    i < |s| && InRange(s[i], 0x80, 0xBF)
  }

  /** The length of the character that s begins with, or 0 when it begins with none: no stray
      or missing follower, no needless length, no surrogate, nothing past the last plane. */
  function RuneLength(s: string): (n: nat)
    ensures n <= |s| && n <= 4
  {
    if s == "" then 0
    else if InRange(s[0], 0x00, 0x7F) then 1
    else if InRange(s[0], 0xC2, 0xDF) then if Follows(s, 1) then 2 else 0
    else if InRange(s[0], 0xE0, 0xEF) then
      if Follows(s, 1) && Follows(s, 2)
         && (s[0] as int == 0xE0 ==> s[1] as int >= 0xA0) && (s[0] as int == 0xED ==> s[1] as int <= 0x9F)
      then 3 else 0
    else if InRange(s[0], 0xF0, 0xF4) then
      if Follows(s, 1) && Follows(s, 2) && Follows(s, 3)
         && (s[0] as int == 0xF0 ==> s[1] as int >= 0x90) && (s[0] as int == 0xF4 ==> s[1] as int <= 0x8F)
      then 4 else 0
    else 0
  }

  /** utf8.ValidString. */
  predicate Valid(s: string)
    decreases |s|
  {
    s == "" || (RuneLength(s) > 0 && Valid(s[RuneLength(s)..]))
  }

  /** The bytes of U+FFFD. */
  const REPLACEMENT: string := [0xEF as char, 0xBF as char, 0xBD as char]

  /** strings.ToValidUTF8: each run of bytes that begin no character becomes one replacement. */
  function Repair(s: string, inRun: bool): string
    decreases |s|
  {
    if s == "" then ""
    else if RuneLength(s) == 0 then (if inRun then "" else REPLACEMENT) + Repair(s[1..], true)
    else s[..RuneLength(s)] + Repair(s[RuneLength(s)..], false)
  }

  /** Valid text is left alone. */
  lemma {:induction false} RepairKeeps(s: string, inRun: bool)
    requires Valid(s)
    ensures Repair(s, inRun) == s
    decreases |s|
  {
    hide RuneLength;
    if s != "" {
      RepairKeeps(s[RuneLength(s)..], false);
      assert s == s[..RuneLength(s)] + s[RuneLength(s)..];
    }
  }

  /** How long a character is depends on its own bytes alone. */
  lemma RuneIsLocal(s: string, more: string)
    requires RuneLength(s) > 0
    ensures RuneLength(s[..RuneLength(s)] + more) == RuneLength(s)
  {}

  lemma RuneValid(rune: string, rest: string)
    requires rune != "" && RuneLength(rune + rest) == |rune| && Valid(rest)
    ensures Valid(rune + rest)
  {
    assert (rune + rest)[|rune|..] == rest;
  }

  lemma ReplacementIsRune(rest: string)
    ensures RuneLength(REPLACEMENT + rest) == 3
  {}

  /** Whatever the bytes were, the repaired text is valid. */
  lemma {:induction false} RepairIsValid(s: string, inRun: bool)
    ensures Valid(Repair(s, inRun))
    decreases |s|
  {
    hide RuneLength;
    if s == "" {
    } else if RuneLength(s) == 0 {
      RepairIsValid(s[1..], true);
      var rest := Repair(s[1..], true);
      if inRun {
        assert "" + rest == rest;
      } else {
        ReplacementIsRune(rest);
        RuneValid(REPLACEMENT, rest);
      }
    } else {
      RepairIsValid(s[RuneLength(s)..], false);
      var rest := Repair(s[RuneLength(s)..], false);
      RuneIsLocal(s, rest);
      RuneValid(s[..RuneLength(s)], rest);
    }
  }

  /** Only valid text is left alone. */
  lemma RepairKeepsOnlyValid(s: string)
    ensures Repair(s, false) == s <==> Valid(s)
  {
    if Valid(s) {
      RepairKeeps(s, false);
    } else {
      RepairIsValid(s, false);
    }
  }

  // ---------- What is valid ----------

  /** A character: a code point that is no surrogate. */
  predicate Scalar(c: int) {
    0 <= c < 0xD800 || 0xE000 <= c <= 0x10FFFF
  }

  /** Its bytes, as few as will hold it. */
  function Encode(c: int): (r: string)
    requires Scalar(c)
    ensures r != ""
  {
    if c < 0x80 then [c as char]
    else if c < 0x800 then [(0xC0 + c / 64) as char, (0x80 + c % 64) as char]
    else if c < 0x10000 then [(0xE0 + c / 4096) as char, (0x80 + c / 64 % 64) as char, (0x80 + c % 64) as char]
    else [(0xF0 + c / 262144) as char, (0x80 + c / 4096 % 64) as char, (0x80 + c / 64 % 64) as char, (0x80 + c % 64) as char]
  }

  function EncodeAll(cs: seq<int>): string
    requires forall k :: 0 <= k < |cs| ==> Scalar(cs[k])
  {
    if cs == [] then "" else Encode(cs[0]) + EncodeAll(cs[1..])
  }

  lemma EncodedIsRune(c: int, rest: string)
    requires Scalar(c)
    ensures RuneLength(Encode(c) + rest) == |Encode(c)|
  {
    hide RuneLength;
    if c < 0x80 {
      RuneOfOne(c as char, rest);
    } else if c < 0x800 {
      RuneOfTwo(0xC0 + c / 64, 0x80 + c % 64, rest);
    } else if c < 0x10000 {
      Divided(c);
      RuneOfThree(0xE0 + c / 4096, 0x80 + c / 64 % 64, 0x80 + c % 64, rest);
    } else {
      Divided(c);
      RuneOfFour(0xF0 + c / 262144, 0x80 + c / 4096 % 64, 0x80 + c / 64 % 64, 0x80 + c % 64, rest);
    }
  }

  lemma Divided(c: nat)
    ensures c / 4096 == c / 64 / 64 && c / 262144 == c / 4096 / 64
    ensures c == c / 64 * 64 + c % 64 && c / 64 == c / 4096 * 64 + c / 64 % 64
    ensures c / 4096 == c / 262144 * 64 + c / 4096 % 64
  {}

  lemma RuneOfOne(a: char, rest: string)
    requires a as int < 0x80
    ensures RuneLength([a] + rest) == 1
  {}

  lemma RuneOfTwo(a: int, b: int, rest: string)
    requires 0xC2 <= a <= 0xDF && 0x80 <= b <= 0xBF
    ensures RuneLength([a as char, b as char] + rest) == 2
  {
    var s := [a as char, b as char] + rest;
    assert s[0] == a as char && s[1] == b as char;
  }

  lemma RuneOfThree(a: int, b: int, d: int, rest: string)
    requires 0xE0 <= a <= 0xEF && 0x80 <= b <= 0xBF && 0x80 <= d <= 0xBF
    requires (a == 0xE0 ==> b >= 0xA0) && (a == 0xED ==> b <= 0x9F)
    ensures RuneLength([a as char, b as char, d as char] + rest) == 3
  {
    var s := [a as char, b as char, d as char] + rest;
    assert s[0] == a as char && s[1] == b as char && s[2] == d as char;
  }

  lemma RuneOfFour(a: int, b: int, d: int, e: int, rest: string)
    requires 0xF0 <= a <= 0xF4 && 0x80 <= b <= 0xBF && 0x80 <= d <= 0xBF && 0x80 <= e <= 0xBF
    requires (a == 0xF0 ==> b >= 0x90) && (a == 0xF4 ==> b <= 0x8F)
    ensures RuneLength([a as char, b as char, d as char, e as char] + rest) == 4
  {
    var s := [a as char, b as char, d as char, e as char] + rest;
    assert s[0] == a as char && s[1] == b as char && s[2] == d as char && s[3] == e as char;
  }

  lemma Digit64(high: nat, low: nat)
    requires low < 64
    ensures (high * 64 + low) / 64 == high && (high * 64 + low) % 64 == low
  {}

  lemma TwoBytes(a: int, b: int) returns (c: int)
    requires 0xC2 <= a <= 0xDF && 0x80 <= b <= 0xBF
    ensures Scalar(c) && Encode(c) == [a as char, b as char]
  {
    c := (a - 0xC0) * 64 + (b - 0x80);
  }

  lemma ThreeBytes(a: int, b: int, d: int) returns (c: int)
    requires 0xE0 <= a <= 0xEF && 0x80 <= b <= 0xBF && 0x80 <= d <= 0xBF
    requires (a == 0xE0 ==> b >= 0xA0) && (a == 0xED ==> b <= 0x9F)
    ensures Scalar(c) && Encode(c) == [a as char, b as char, d as char]
  {
    var high := (a - 0xE0) * 64 + (b - 0x80);
    c := high * 64 + (d - 0x80);
    Divided(c);
    Digit64(high, d - 0x80);
    Digit64(a - 0xE0, b - 0x80);
  }

  lemma FourBytes(a: int, b: int, d: int, e: int) returns (c: int)
    requires 0xF0 <= a <= 0xF4 && 0x80 <= b <= 0xBF && 0x80 <= d <= 0xBF && 0x80 <= e <= 0xBF
    requires (a == 0xF0 ==> b >= 0x90) && (a == 0xF4 ==> b <= 0x8F)
    ensures Scalar(c) && Encode(c) == [a as char, b as char, d as char, e as char]
  {
    var top := (a - 0xF0) * 64 + (b - 0x80);
    var high := top * 64 + (d - 0x80);
    c := high * 64 + (e - 0x80);
    Divided(c);
    Digit64(high, e - 0x80);
    Digit64(top, d - 0x80);
    Digit64(a - 0xF0, b - 0x80);
  }

  lemma RuneIsEncoded(s: string) returns (c: int)
    requires RuneLength(s) > 0
    ensures Scalar(c) && s[..RuneLength(s)] == Encode(c)
  {
    hide Encode;
    var n := RuneLength(s);
    if n == 1 {
      c := s[0] as int;
      OneByte(c);
      assert s[..1] == [s[0]];
    } else if n == 2 {
      c := TwoBytes(s[0] as int, s[1] as int);
      assert s[..2] == [s[0], s[1]];
    } else if n == 3 {
      c := ThreeBytes(s[0] as int, s[1] as int, s[2] as int);
      assert s[..3] == [s[0], s[1], s[2]];
    } else {
      c := FourBytes(s[0] as int, s[1] as int, s[2] as int, s[3] as int);
      assert s[..4] == [s[0], s[1], s[2], s[3]];
    }
  }

  lemma OneByte(c: int)
    requires 0 <= c < 0x80
    ensures Encode(c) == [c as char]
  {}

  ghost predicate IsEncoding(s: string) {
    exists cs :: Encodes(s, cs)
  }

  ghost predicate Encodes(s: string, cs: seq<int>) {
    (forall k :: 0 <= k < |cs| ==> Scalar(cs[k])) && s == EncodeAll(cs)
  }

  lemma {:induction false} ValidHasCharacters(s: string) returns (cs: seq<int>)
    requires Valid(s)
    ensures Encodes(s, cs)
    decreases |s|
  {
    hide RuneLength, Encode;
    cs := [];
    if s != "" {
      var c := RuneIsEncoded(s);
      var more := ValidHasCharacters(s[RuneLength(s)..]);
      cs := [c] + more;
      assert cs[1..] == more && s == s[..RuneLength(s)] + s[RuneLength(s)..];
    }
  }

  lemma {:induction false} CharactersAreValid(cs: seq<int>)
    requires forall k :: 0 <= k < |cs| ==> Scalar(cs[k])
    ensures Valid(EncodeAll(cs))
  {
    hide RuneLength, Encode, Valid;
    if cs == [] {
      NothingIsValid();
    } else {
      CharactersAreValid(cs[1..]);
      EncodedIsRune(cs[0], EncodeAll(cs[1..]));
      RuneValid(Encode(cs[0]), EncodeAll(cs[1..]));
    }
  }

  lemma NothingIsValid()
    ensures Valid("")
  {}

  /** Text is valid exactly when it is the bytes of some characters, one after the other. */
  lemma ValidIff(s: string)
    ensures Valid(s) <==> IsEncoding(s)
  {
    hide Valid, EncodeAll;
    if Valid(s) { var cs := ValidHasCharacters(s); }
    if cs :| Encodes(s, cs) { CharactersAreValid(cs); }
  }

  // ---------- What is replaced ----------

  /** No place in bad begins a character, with rest behind it. */
  predicate BeginsNone(bad: string, rest: string) {
    forall k :: 0 <= k < |bad| ==> RuneLength(bad[k..] + rest) == 0
  }

  lemma {:induction false} RunIsReplaced(bad: string, rest: string, inRun: bool)
    requires BeginsNone(bad, rest) && Valid(rest)
    ensures Repair(bad + rest, inRun) == (if inRun || bad == "" then "" else REPLACEMENT) + rest
    decreases |bad|
  {
    hide RuneLength, Valid;
    if bad == "" {
      assert bad + rest == rest;
      RepairKeeps(rest, inRun);
    } else {
      assert bad[0..] == bad && (bad + rest)[1..] == bad[1..] + rest;
      forall k | 0 <= k < |bad[1..]| ensures RuneLength(bad[1..][k..] + rest) == 0 {
        assert bad[1..][k..] == bad[k + 1..];
      }
      RunIsReplaced(bad[1..], rest, true);
    }
  }

  /** Between valid texts, a run of bytes of which none begins a character becomes one
      replacement, and the texts stay. */
  lemma {:induction false} BadRunReplaced(before: string, bad: string, rest: string)
    requires Valid(before) && Valid(rest) && bad != "" && BeginsNone(bad, rest)
    ensures Repair(before + bad + rest, false) == before + "\U{EF}\U{BF}\U{BD}" + rest
    decreases |before|
  {
    hide RuneLength, BeginsNone;
    if before == "" {
      assert before + bad + rest == bad + rest;
      RunIsReplaced(bad, rest, false);
    } else {
      var n := RuneLength(before);
      var rune, more := before[..n], before[n..];
      assert before == rune + more;
      RuneIsLocal(before, more + bad + rest);
      assert before + bad + rest == rune + (more + bad + rest);
      assert (before + bad + rest)[..n] == rune && (before + bad + rest)[n..] == more + bad + rest;
      BadRunReplaced(more, bad, rest);
    }
  }
}
