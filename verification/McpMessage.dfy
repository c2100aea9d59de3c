/** MCP messages: their arguments, and the versions the two sides agree on. */
module McpMessage {
  import opened Text
  import opened Decimal

  /** One argument; its value may run to several lines. */
  datatype Arg = Arg(name: string, lines: seq<string>)

  /** What a message says, once nobody is changing it any more. */
  datatype Msg = Msg(pkg: string, name: string, args: seq<Arg>)

  const DATA_TAG := "_data-tag"

  // ---------- Arguments ----------

  /** Position of the first argument of a name, or |args|. */
  function ArgIndex(args: seq<Arg>, name: string): (i: nat)
    ensures i <= |args|
    ensures i < |args| ==> EqualFold(args[i].name, name)
    ensures forall j :: 0 <= j < i ==> !EqualFold(args[j].name, name)
  {
    if args == [] || EqualFold(args[0].name, name) then 0 else 1 + ArgIndex(args[1..], name)
  }

  /** All lines of an argument. */
  function LinesOf(args: seq<Arg>, name: string): Option<seq<string>> {
    var i := ArgIndex(args, name);
    if i < |args| then Some(args[i].lines) else None
  }

  /** The first line of the first argument of a name that has any. */
  function FirstLine(args: seq<Arg>, name: string): Option<string> {
    if args == [] then None
    else if EqualFold(args[0].name, name) && args[0].lines != [] then Some(args[0].lines[0])
    else FirstLine(args[1..], name)
  }

  /** A line added to an argument, which is created if it is new. */
  function WithLine(args: seq<Arg>, name: string, line: string): seq<Arg> {
    var i := ArgIndex(args, name);
    if i < |args| then args[i := args[i].(lines := args[i].lines + [line])]
    else args + [Arg(name, [line])]
  }

  function Without(args: seq<Arg>, name: string): seq<Arg> {
    if args == [] then []
    else (if EqualFold(args[0].name, name) then [] else [args[0]]) + Without(args[1..], name)
  }

  lemma {:induction false} WithoutAppend(args: seq<Arg>, a: Arg, name: string)
    ensures Without(args + [a], name) == Without(args, name) + (if EqualFold(a.name, name) then [] else [a])
  {
    if args == [] {
      assert args + [a] == [a];
    } else {
      assert (args + [a])[1..] == args[1..] + [a];
      WithoutAppend(args[1..], a, name);
    }
  }

  lemma EqualFoldTransitive(a: string, b: string, c: string)
    requires EqualFold(a, b)
    ensures EqualFold(b, a) && (EqualFold(a, c) <==> EqualFold(b, c))
  {}

  /** The lines an argument already has, or none. */
  function LinesOrNone(args: seq<Arg>, name: string): seq<string> {
    match LinesOf(args, name)
    case None => []
    case Some(lines) => lines
  }

  /** A new line shows under its own name and under no other. */
  lemma WithLineShows(args: seq<Arg>, name: string, line: string, key: string)
    ensures LinesOf(WithLine(args, name, line), key) ==
      if EqualFold(name, key) then Some(LinesOrNone(args, key) + [line]) else LinesOf(args, key)
  {
    var after := WithLine(args, name, line);
    var i, j := ArgIndex(args, name), ArgIndex(args, key);
    assert forall k :: 0 <= k < |args| ==> after[k].name == args[k].name;
    if EqualFold(name, key) {
      forall k | 0 <= k < |args| ensures EqualFold(args[k].name, name) == EqualFold(args[k].name, key) {}
      SameIndex(args, name, key);
      IndexIn(after, key, i);
      assert [] + [line] == [line];
    } else if j < |args| {
      if i < |args| { EqualFoldTransitive(args[i].name, name, key); }
      IndexIn(after, key, j);
    } else {
      if i < |args| { EqualFoldTransitive(args[i].name, name, key); }
      IndexIn(after, key, |after|);
    }
  }

  lemma SameIndex(args: seq<Arg>, a: string, b: string)
    requires EqualFold(a, b)
    ensures ArgIndex(args, a) == ArgIndex(args, b)
  {
    IndexIn(args, b, ArgIndex(args, a));
  }

  /** The index is the only position with its property. */
  lemma IndexIn(args: seq<Arg>, name: string, i: nat)
    requires i <= |args|
    requires i < |args| ==> EqualFold(args[i].name, name)
    requires forall j :: 0 <= j < i ==> !EqualFold(args[j].name, name)
    ensures ArgIndex(args, name) == i
  {}

  /** A message being received or built. */
  class Message {
    var pkg: string
    var name: string
    var args: seq<Arg>
    var dataTag: string
    var incomplete: bool

    constructor (pkg: string, name: string)
      ensures Value() == Msg(pkg, name, []) && !incomplete && dataTag == ""
    {
      this.pkg, this.name, args, dataTag, incomplete := pkg, name, [], "", false;
    }

    function Value(): Msg
      reads this
    {
      Msg(pkg, name, args)
    }

    method AddArg(arg: Arg)
      modifies this`args
      ensures args == old(args) + [arg]
    {
      args := args + [arg];
    }

    method AppendLine(key: string, line: string)
      modifies this`args
      ensures args == WithLine(old(args), key, line)
    {
      for i := 0 to |args|
        invariant args == old(args)
        invariant forall j :: 0 <= j < i ==> !EqualFold(args[j].name, key)
      {
        if EqualFold(args[i].name, key) {
          IndexIn(args, key, i);
          args := args[i := args[i].(lines := args[i].lines + [line])];
          return;
        }
      }
      IndexIn(args, key, |args|);
      args := args + [Arg(key, [line])];
    }

    method RemoveArg(key: string)
      modifies this`args
      ensures args == Without(old(args), key)
    {
      var kept := [];
      for i := 0 to |args|
        invariant args == old(args)
        invariant kept == Without(args[..i], key)
      {
        WithoutAppend(args[..i], args[i], key);
        assert args[..i + 1] == args[..i] + [args[i]];
        if !EqualFold(args[i].name, key) { kept := kept + [args[i]]; }
      }
      assert args[..|args|] == args;
      args := kept;
    }

    method Arg0(key: string) returns (line: Option<string>)
      ensures line == FirstLine(args, key)
    {
      assert args[0..] == args;
      for i := 0 to |args|
        invariant FirstLine(args, key) == FirstLine(args[i..], key)
      {
        if EqualFold(args[i].name, key) && |args[i].lines| > 0 {
          return Some(args[i].lines[0]);
        }
        assert args[i..][1..] == args[i + 1..];
      }
      return None;
    }
  }

  // ---------- Versions ----------

  datatype Version = Version(major: nat, minor: nat)

  const NO_VERSION := Version(0, 0)

  predicate Less(a: Version, b: Version) {
    if a.major != b.major then a.major < b.major else a.minor < b.minor
  }

  /** Digits up to the first other character, when there are any and they fit 64 bits. */
  function LeadingDigits(s: string): Option<(nat, string)> {
    var n := SpanLength(s, IsDigit);
    assert AllDigits(s[..n]);
    if n == 0 || Value(s[..n]) >= INT64_LIMIT then None else Some((Value(s[..n]), s[n..]))
  }

  /** "2.1", and anything after it. */
  function ParseVersion(s: string): Option<Version> {
    match LeadingDigits(s)
    case None => None
    case Some((major, rest)) =>
      if rest == "" || rest[0] != '.' then None
      else match LeadingDigits(rest[1..])
        case None => None
        case Some((minor, _)) => Some(Version(major, minor))
  }

  /** The highest version both sides support, or none. */
  function SelectVersion(minA: Version, maxA: Version, minB: Version, maxB: Version): Version {
    if Less(maxA, minB) || Less(maxB, minA) then NO_VERSION
    else if Less(maxA, maxB) then maxA
    else maxB
  }

  predicate InRange(v: Version, lo: Version, hi: Version) {
    !Less(v, lo) && !Less(hi, v)
  }

  /** For two proper ranges: a version is chosen exactly when one is common, it is common
      itself, and no common version is above it. */
  lemma SelectVersionIsBest(minA: Version, maxA: Version, minB: Version, maxB: Version, v: Version)
    requires !Less(maxA, minA) && !Less(maxB, minB)
    requires InRange(v, minA, maxA) && InRange(v, minB, maxB)
    ensures
      var best := SelectVersion(minA, maxA, minB, maxB);
      InRange(best, minA, maxA) && InRange(best, minB, maxB) && !Less(best, v)
  {}

  lemma NoCommonVersion(minA: Version, maxA: Version, minB: Version, maxB: Version)
    requires !Less(maxA, minA) && !Less(maxB, minB)
    requires forall v :: !(InRange(v, minA, maxA) && InRange(v, minB, maxB))
    ensures SelectVersion(minA, maxA, minB, maxB) == NO_VERSION
  {
    var v := if Less(maxA, maxB) then maxA else maxB;
    assert !(InRange(v, minA, maxA) && InRange(v, minB, maxB));
  }

  function VersionText(v: Version): string {
    Itoa(v.major) + "." + Itoa(v.minor)
  }

  /** A version's text, with anything but a digit after it, reads back as the version. */
  lemma VersionReadsBack(v: Version, suffix: string)
    requires v.major < INT64_LIMIT && v.minor < INT64_LIMIT
    requires suffix == "" || !IsDigit(suffix[0])
    ensures ParseVersion(VersionText(v) + suffix) == Some(v)
  {
    var major, minor := Itoa(v.major), Itoa(v.minor);
    var rest := "." + (minor + suffix);
    DigitsReadBack(v.minor, suffix);
    DigitsReadBack(v.major, rest);
    Append2(major + ".", minor, suffix);
    Append2(major, ".", minor + suffix);
    DropHead('.', minor + suffix);
    ParseVersionSteps(VersionText(v) + suffix, v.major, rest, v.minor, suffix);
  }

  lemma DropHead(c: char, s: string)
    ensures ([c] + s)[0] == c && ([c] + s)[1..] == s
  {}

  lemma ParseVersionSteps(s: string, major: nat, rest: string, minor: nat, after: string)
    requires LeadingDigits(s) == Some((major, rest))
    requires rest != "" && rest[0] == '.' && LeadingDigits(rest[1..]) == Some((minor, after))
    ensures ParseVersion(s) == Some(Version(major, minor))
  {}

  lemma DigitsReadBack(n: nat, suffix: string)
    requires n < INT64_LIMIT
    requires suffix == "" || !IsDigit(suffix[0])
    ensures LeadingDigits(Digits(n) + suffix) == Some((n, suffix))
  {
    var d := Digits(n);
    SpanExact(d, suffix, IsDigit);
    ValueOfDigits(n);
    assert (d + suffix)[..|d|] == d && (d + suffix)[|d|..] == suffix;
  }
}
