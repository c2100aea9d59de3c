/** One connection's MCP state: how each line from the client is read, and what it changes. */
module McpFrame {
  import opened Text
  import opened Decimal
  import opened McpLex
  import opened McpMessage

  const PREFIX := "#$#"
  const QUOTE_PREFIX := "#$\""
  const INIT_PACKAGE := "mcp"
  const NEGOTIATE_PACKAGE := "mcp-negotiate"
  const SERVER_VERSION := Version(2, 1)

  datatype Handler = NoHandler | Negotiator | Other

  /** A package this server offers. */
  datatype Package = Package(name: string, minVer: Version, maxVer: Version, handler: Handler)

  type Registry = seq<Package>

  /** Everything a frame knows; messages still arriving are kept under their data tag. */
  datatype State = State(
    enabled: bool,
    authKey: string,
    version: Version,
    packages: map<string, Version>,
    partial: map<string, Msg>)

  const NEW_FRAME := State(false, "", NO_VERSION, map[], map[])

  /** What one line from the client turns out to be. */
  datatype Reading =
    | Plain(text: string)
    | Whole(msg: Msg)
    | Begin(tag: string, msg: Msg)
    | Continue(tag: string, key: string, value: string)
    | End(tag: string)

  predicate HasPrefixFold(s: string, p: string) {
    |s| >= |p| && EqualFold(s[..|p|], p)
  }

  // ---------- Package names ----------

  /** The message name is the package name, alone or followed by a hyphen and more. */
  predicate Fits(p: Package, name: string) {
    HasPrefixFold(name, p.name) && (|name| == |p.name| || name[|p.name|] == '-')
  }

  /** Length of the longest registered name that fits, or 0. */
  function LongestFit(reg: Registry, name: string): (n: nat)
    ensures forall k :: 0 <= k < |reg| && Fits(reg[k], name) ==> |reg[k].name| <= n
    ensures n > 0 ==> exists k :: 0 <= k < |reg| && Fits(reg[k], name) && |reg[k].name| == n
    ensures n <= |name|
  {
    if reg == [] then 0
    else
      var last := reg[|reg| - 1];
      var n := LongestFit(reg[..|reg| - 1], name);
      if Fits(last, name) && |last.name| > n then |last.name| else n
  }

  /** The package and the message within it that a full name stands for. */
  function SplitPackage(reg: Registry, name: string): Option<(string, string)> {
    var registered :=
      if HasPrefixFold(name, INIT_PACKAGE) && |name| <= |INIT_PACKAGE| then 0 else LongestFit(reg, name);
    var n :=
      if registered > 0 then registered
      else if HasPrefixFold(name, NEGOTIATE_PACKAGE) then |NEGOTIATE_PACKAGE|
      else if EqualFold(name, INIT_PACKAGE) then |name|
      else 0;
    if n == 0 then None
    else
      var sub := name[n..];
      Some((name[..n], if sub != "" && sub[0] == '-' then sub[1..] else sub))
  }

  // ---------- Reading a line ----------

  /** One " key: value" pair, or " key*: value", whose lines come later. */
  datatype Pair = Pair(key: string, deferred: bool, value: string)

  function ReadPair(s: string): (r: Option<(Pair, string)>)
    ensures r.Some? ==> |r.value.1| < |s|
  {
    match SkipSpace(s)
    case None => None
    case Some(s0) =>
      match ReadIdent(s0)
      case Missing => None
      case Got(key, s1) =>
        var deferred := s1 != "" && s1[0] == '*';
        var s2 := if deferred then s1[1..] else s1;
        if s2 == "" || s2[0] != ':' then None
        else match SkipSpace(s2[1..])
          case None => None
          case Some(s3) =>
            match ReadValue(s3)
            case Missing => None
            case Got(value, s4) => Some((Pair(key, deferred, value), s4))
  }

  /** A pair added to the arguments. The value of a deferred one is dropped. */
  function WithPair(args: seq<Arg>, p: Pair): seq<Arg> {
    if p.deferred then args + [Arg(p.key, [])] else WithLine(args, p.key, p.value)
  }

  function ReadValue(s: string): (r: Read)
    ensures r.Got? ==> |r.rest| < |s|
  {
    var bare := ReadUnquoted(s);
    if bare.Got? then bare else ReadQuoted(s)
  }

  /** All the pairs of a line, and whether some value is still to come. */
  function ReadArgs(args: seq<Arg>, deferred: bool, s: string): Option<(seq<Arg>, bool)>
    decreases |s|
  {
    if s == "" then Some((args, deferred))
    else match ReadPair(s)
      case None => None
      case Some((p, rest)) => ReadArgs(WithPair(args, p), deferred || p.deferred, rest)
  }

  /** Whether the text after a message name may be obeyed, and what follows the key. Every
      message but the opening one must carry the connection's key. */
  function PassKey(authKey: string, name: string, s: string): Option<string> {
    if EqualFold(name, INIT_PACKAGE) then Some(s)
    else match SkipSpace(s)
      case None => None
      case Some(s1) =>
        match ReadUnquoted(s1)
        case Missing => None
        case Got(key, rest) => if key == authKey then Some(rest) else None
  }

  /** What the first line of a message says: its names, arguments, and whether more is due. */
  datatype Header = Header(pkg: string, sub: string, args: seq<Arg>, deferred: bool)

  function ReadHeader(reg: Registry, authKey: string, s: string): Option<Header> {
    match ReadIdent(s)
    case Missing => None
    case Got(name, s1) =>
      match PassKey(authKey, name, s1)
      case None => None
      case Some(rest) =>
        match SplitPackage(reg, name)
        case None => None
        case Some((pkg, sub)) =>
          match ReadArgs([], false, rest)
          case None => None
          case Some((args, deferred)) => Some(Header(pkg, sub, args, deferred))
  }

  /** The first line of a message: it is complete, or begins one that is still arriving. */
  function ReadStart(reg: Registry, authKey: string, s: string): Option<Reading> {
    match ReadHeader(reg, authKey, s)
    case None => None
    case Some(h) => Some(Started(h.pkg, h.sub, h.args, h.deferred))
  }

  function Started(pkg: string, sub: string, args: seq<Arg>, deferred: bool): Reading {
    if deferred then Begin(TagOf(args), Msg(pkg, sub, Without(args, DATA_TAG)))
    else Whole(Msg(pkg, sub, args))
  }

  function TagOf(args: seq<Arg>): string {
    match FirstLine(args, DATA_TAG)
    case None => ""
    case Some(tag) => tag
  }

  /** "* <tag> <key>: <value>": exactly one space is taken, so the value is byte-exact. */
  function ReadContinuation(s: string): (r: Option<Reading>)
    ensures r.Some? ==> r.value.Continue?
  {
    if s == "" || s[0] != '*' then None
    else match SkipSpace(s[1..])
      case None => None
      case Some(s1) =>
        match ReadUnquoted(s1)
        case Missing => None
        case Got(tag, s2) =>
          match SkipSpace(s2)
          case None => None
          case Some(s3) =>
            match ReadIdent(s3)
            case Missing => None
            case Got(key, s4) =>
              if |s4| < 2 || s4[0] != ':' || s4[1] != ' ' then None
              else Some(Continue(tag, key, s4[2..]))
  }

  /** ": <tag>", and nothing after it. */
  function ReadEnd(s: string): (r: Option<Reading>)
    ensures r.Some? ==> r.value.End?
  {
    if s == "" || s[0] != ':' then None
    else match SkipSpace(s[1..])
      case None => None
      case Some(s1) =>
        match ReadUnquoted(s1)
        case Missing => None
        case Got(tag, s2) => if s2 == "" then Some(End(tag)) else None
  }

  /** A message line after its prefix, given the tags of the messages still arriving. */
  function ReadMessage(reg: Registry, authKey: string, live: set<string>, s: string): Option<Reading> {
    var c := ReadContinuation(s);
    if c.Some? && c.value.tag in live then c
    else
      var e := ReadEnd(s);
      if e.Some? && e.value.tag in live then e else ReadStart(reg, authKey, s)
  }

  /** Any line. Before negotiation only the opening message is read as one; a line that
      looks like a message but does not read as one is text. */
  function ReadLine(reg: Registry, st: State, line: string): Reading {
    if PREFIX <= line then
      var s := line[|PREFIX|..];
      if !st.enabled && !HasPrefixFold(s, "mcp ") then Plain(line)
      else match ReadMessage(reg, st.authKey, st.partial.Keys, s)
        case None => Plain(line)
        case Some(r) => r
    else if st.enabled && QUOTE_PREFIX <= line then Plain(line[|QUOTE_PREFIX|..])
    else Plain(line)
  }

  // ---------- What a line changes ----------

  /** The messages still arriving, after a line. */
  function Arriving(partial: map<string, Msg>, r: Reading): map<string, Msg> {
    match r
    case Begin(tag, msg) => partial[tag := msg]
    case Continue(tag, key, value) =>
      if tag in partial then partial[tag := WithMore(partial[tag], key, value)] else partial
    case End(tag) => partial - {tag}
    case _ => partial
  }

  function WithMore(m: Msg, key: string, value: string): Msg {
    m.(args := WithLine(m.args, key, value))
  }

  /** The message a line completes, if it completes one. */
  function Completed(partial: map<string, Msg>, r: Reading): Option<Msg> {
    match r
    case Whole(msg) => Some(msg)
    case End(tag) => if tag in partial then Some(partial[tag]) else None
    case _ => None
  }

  function ArgOr(m: Msg, key: string, default: string): string {
    match FirstLine(m.args, key)
    case None => default
    case Some(line) => line
  }

  /** The range of versions named by two arguments; the second defaults to the first. */
  function VersionRange(m: Msg, lo: string, hi: string): Option<(Version, Version)> {
    match ParseVersion(ArgOr(m, lo, ""))
    case None => None
    case Some(from) =>
      match FirstLine(m.args, hi)
      case None => Some((from, from))
      case Some(text) =>
        match ParseVersion(text)
        case None => None
        case Some(to) => Some((from, to))
  }

  /** The opening message: the key is the client's if it names one, else a new one; MCP is
      on once a version is agreed. */
  function AfterInit(st: State, m: Msg, newKey: string): State {
    if m.name != "" then st
    else
      var st1 := st.(authKey := ArgOr(m, "authentication-key", newKey));
      match VersionRange(m, "version", "to")
      case None => st1
      case Some((from, to)) =>
        var v := SelectVersion(SERVER_VERSION, SERVER_VERSION, from, to);
        st1.(version := v, enabled := st1.enabled || v != NO_VERSION)
  }

  /** Position of the first package of a name, or |reg|. */
  function PackageIndex(reg: Registry, name: string): (i: nat)
    ensures i <= |reg|
    ensures i < |reg| ==> EqualFold(reg[i].name, name)
    ensures forall j :: 0 <= j < i ==> !EqualFold(reg[j].name, name)
  {
    if reg == [] || EqualFold(reg[0].name, name) then 0 else 1 + PackageIndex(reg[1..], name)
  }

  /** mcp-negotiate-can: record the best version of a package both sides have. */
  function AfterCan(reg: Registry, st: State, m: Msg): State {
    var pkg := FirstLine(m.args, "package");
    if !EqualFold(m.name, "can") || pkg.None? then st
    else match VersionRange(m, "min-version", "max-version")
      case None => st
      case Some((from, to)) =>
        var i := PackageIndex(reg, pkg.value);
        if i == |reg| then st
        else
          var v := SelectVersion(reg[i].minVer, reg[i].maxVer, from, to);
          if v == NO_VERSION then st else st.(packages := st.packages[Fold(pkg.value) := v])
  }

  /** Who handles a package: the first registration of its name that has a handler. */
  function HandlerOf(reg: Registry, pkg: string): Handler {
    if reg == [] then NoHandler
    else if EqualFold(reg[0].name, pkg) && reg[0].handler != NoHandler then reg[0].handler
    else HandlerOf(reg[1..], pkg)
  }

  /** What delivering a message does to the frame. Handlers other than the negotiator may
      send, but do not change it. */
  function AfterDispatch(reg: Registry, st: State, m: Msg, newKey: string): State {
    if EqualFold(m.pkg, INIT_PACKAGE) then AfterInit(st, m, newKey)
    else if HandlerOf(reg, m.pkg).Negotiator? then AfterCan(reg, st, m)
    else st
  }

  /** One line from the client, with the key that would be issued if one is needed. */
  function Step(reg: Registry, st: State, line: string, newKey: string): State {
    var r := ReadLine(reg, st, line);
    var st1 := st.(partial := Arriving(st.partial, r));
    match Completed(st.partial, r)
    case None => st1
    case Some(m) => AfterDispatch(reg, st1, m, newKey)
  }

  /** A line that is not a message changes nothing. */
  lemma PlainChangesNothing(reg: Registry, st: State, line: string, newKey: string)
    requires ReadLine(reg, st, line).Plain?
    ensures Step(reg, st, line, newKey) == st
  {}
}
