/** The frame of one connection, updated in place line by line. */
module McpConnection {
  import opened Text
  import opened Decimal
  import opened McpLex
  import opened McpMessage
  import opened McpFrame

  ghost function ValuesOf(partial: map<string, Message>): map<string, Msg>
    reads partial.Values
  {
    map t | t in partial :: partial[t].Value()
  }

  lemma OneMoreValue(partial: map<string, Message>, tag: string, msg: Message)
    ensures ValuesOf(partial[tag := msg]) == ValuesOf(partial)[tag := msg.Value()]
  {}

  lemma SameKeys(partial: map<string, Message>)
    ensures ValuesOf(partial).Keys == partial.Keys
  {}

  lemma OneLessValue(partial: map<string, Message>, tag: string)
    requires tag in partial
    ensures ValuesOf(partial - {tag}) == ValuesOf(partial) - {tag} && ValuesOf(partial)[tag] == partial[tag].Value()
  {}

  class Frame {
    const registry: Registry
    var enabled: bool
    var authKey: string
    var version: Version
    var packages: map<string, Version>
    /** Messages still receiving their lines, by data tag. */
    var partial: map<string, Message>

    constructor (registry: Registry)
      ensures Valid() && this.registry == registry && View() == NEW_FRAME && partial == map[]
    {
      this.registry := registry;
      enabled, authKey, version, packages, partial := false, "", NO_VERSION, map[], map[];
    }

    /** No message is filed under two tags, so changing one changes no other. */
    ghost predicate Valid()
      reads this
    {
      forall s, t :: s in partial && t in partial && s != t ==> partial[s] != partial[t]
    }

    ghost function Messages(): map<string, Msg>
      reads this, partial.Values
    {
      ValuesOf(partial)
    }

    ghost function View(): State
      reads this, partial.Values
    {
      State(enabled, authKey, version, packages, Messages())
    }

    /** One line: the text to pass to the command parser, if any, and the message completed
        and delivered, if any. */
    method ProcessInput(line: string, newKey: string) returns (text: Option<string>, done: Option<Msg>)
      requires Valid()
      modifies this, partial.Values
      ensures Valid() && fresh(partial.Values - old(partial.Values))
      ensures View() == Step(registry, old(View()), line, newKey)
      ensures
        var r := ReadLine(registry, old(View()), line);
        && done == Completed(old(Messages()), r)
        && text == if r.Plain? then Some(r.text) else None
    {
      hide ReadLine, AfterDispatch;
      ghost var before := View();
      ghost var r := ReadLine(registry, before, line);
      var msg: Message?;
      text, msg := TakeLine(line);
      done := None;
      if msg != null {
        var m := msg.Value();
        done := Some(m);
        Dispatch(m, newKey);
      }
    }

    /** readLine: the frame's messages follow the line; nothing else changes yet. */
    method TakeLine(line: string) returns (text: Option<string>, msg: Message?)
      requires Valid()
      modifies this`partial, partial.Values
      ensures Valid() && fresh(partial.Values - old(partial.Values))
      ensures
        var r := ReadLine(registry, old(View()), line);
        && Messages() == Arriving(old(Messages()), r)
        && (if msg == null then None else Some(msg.Value())) == Completed(old(Messages()), r)
        && text == if r.Plain? then Some(r.text) else None
    {
      hide ReadMessage;
      msg := null;
      if PREFIX <= line {
        var s := line[|PREFIX|..];
        if !enabled && !HasPrefixFold(s, "mcp ") { return Some(line), null; }
        var ok;
        assert Messages().Keys == partial.Keys;
        ok, msg := ParseMessage(s);
        text := if ok then None else Some(line);
      } else if enabled && QUOTE_PREFIX <= line {
        text := Some(line[|QUOTE_PREFIX|..]);
      } else {
        text := Some(line);
      }
    }

    /** parse: a continuation, an end, or the start of a message, in that order. */
    method ParseMessage(s: string) returns (ok: bool, msg: Message?)
      requires Valid()
      modifies this`partial, partial.Values
      ensures Valid() && fresh(partial.Values - old(partial.Values))
      ensures
        var r := ReadMessage(registry, authKey, old(partial.Keys), s);
        && ok == r.Some?
        && (r.Some? ==> !r.value.Plain?)
        && Messages() == (if ok then Arriving(old(Messages()), r.value) else old(Messages()))
        && (if msg == null then None else Some(msg.Value()))
           == if ok then Completed(old(Messages()), r.value) else None
    {
      hide ReadContinuation, ReadEnd, ReadStart;
      ok := ParseContinuation(s);
      if ok { return true, null; }
      ok, msg := ParseEnd(s);
      if ok { return; }
      ok, msg := ParseStart(s);
    }

    method ParseContinuation(s: string) returns (ok: bool)
      requires Valid()
      modifies partial.Values
      ensures
        var c := ReadContinuation(s);
        && ok == (c.Some? && c.value.tag in partial)
        && Messages() == if ok then Arriving(old(Messages()), c.value) else old(Messages())
    {
      var c := ScanContinuation(s);
      hide ReadContinuation;
      if c.None? { return false; }
      var Continue(tag, key, value) := c.value;
      if tag !in partial { return false; }
      var msg := partial[tag];
      msg.AppendLine(key, value);
      assert Messages() == Arriving(old(Messages()), c.value);
      return true;
    }

    static method ScanContinuation(s: string) returns (c: Option<Reading>)
      ensures c == ReadContinuation(s)
    {
      hide ReadIdent, ReadUnquoted, SkipSpace;
      if s == "" || s[0] != '*' { return None; }
      var s1 := SkipSpace(s[1..]);
      if s1.None? { return None; }
      var tag := ScanUnquoted(s1.value);
      if tag.Missing? { return None; }
      var s3 := SkipSpace(tag.rest);
      if s3.None? { return None; }
      var key := ScanIdent(s3.value);
      if key.Missing? || |key.rest| < 2 || key.rest[0] != ':' || key.rest[1] != ' ' { return None; }
      return Some(Continue(tag.tok, key.tok, key.rest[2..]));
    }

    method ParseEnd(s: string) returns (ok: bool, msg: Message?)
      requires Valid()
      modifies this`partial, partial.Values
      ensures Valid() && partial.Values <= old(partial.Values)
      ensures
        var e := ReadEnd(s);
        && ok == (e.Some? && e.value.tag in old(partial))
        && Messages() == (if ok then Arriving(old(Messages()), e.value) else old(Messages()))
        && (if msg == null then None else Some(msg.Value()))
           == if ok then Completed(old(Messages()), e.value) else None
    {
      hide ReadUnquoted, SkipSpace, ValuesOf;
      SameKeys(partial);
      if s == "" || s[0] != ':' { return false, null; }
      var s1 := SkipSpace(s[1..]);
      if s1.None? { return false, null; }
      var tag := ScanUnquoted(s1.value);
      if tag.Missing? || tag.rest != "" { return false, null; }
      if tag.tok !in partial { return false, null; }
      msg := partial[tag.tok];
      OneLessValue(partial, tag.tok);
      partial := partial - {tag.tok};
      assert msg !in partial.Values;
      msg.incomplete := false;
      return true, msg;
    }

    method ParseStart(s: string) returns (ok: bool, msg: Message?)
      requires Valid()
      modifies this`partial
      ensures Valid() && fresh(partial.Values - old(partial.Values))
      ensures
        var r := ReadStart(registry, authKey, s);
        && ok == r.Some?
        && (ok ==> r.value.Begin? || r.value.Whole?)
        && Messages() == (if ok then Arriving(old(Messages()), r.value) else old(Messages()))
        && (if msg == null then None else Some(msg.Value()))
           == if ok then Completed(old(Messages()), r.value) else None
    {
      hide ReadHeader, Without, FirstLine;
      msg := ParseHeader(s);
      if msg == null { return false, null; }
      if msg.incomplete {
        FileMessage(msg);
        return true, null;
      }
      return true, msg;
    }

    /** A message still arriving is kept under its data tag; one already there is dropped. */
    method FileMessage(msg: Message)
      requires Valid() && msg !in partial.Values
      modifies this`partial, msg
      ensures Valid() && partial.Values <= old(partial.Values) + {msg}
      ensures Messages() == old(Messages())[TagOf(old(msg.args)) := old(Msg(msg.pkg, msg.name, Without(msg.args, DATA_TAG)))]
    {
      hide Without, FirstLine, ValuesOf;
      var tag := msg.Arg0(DATA_TAG);
      msg.RemoveArg(DATA_TAG);
      msg.dataTag := if tag.Some? then tag.value else "";
      OneMoreValue(partial, msg.dataTag, msg);
      partial := partial[msg.dataTag := msg];
    }

    /** The first line as a new message, which no tag refers to yet. */
    method ParseHeader(s: string) returns (msg: Message?)
      ensures
        match ReadHeader(registry, authKey, s)
        case None => msg == null
        case Some(h) => msg != null && fresh(msg) && msg.incomplete == h.deferred
                        && msg.Value() == Msg(h.pkg, h.sub, h.args)
    {
      hide ReadIdent, ReadUnquoted, SkipSpace, SplitPackage, ReadArgs;
      var name := ScanIdent(s);
      if name.Missing? { return null; }
      var rest := name.rest;
      if !EqualFold(name.tok, INIT_PACKAGE) {
        var s1 := SkipSpace(rest);
        if s1.None? { return null; }
        var key := ScanUnquoted(s1.value);
        if key.Missing? || key.tok != authKey { return null; }
        rest := key.rest;
      }
      assert PassKey(authKey, name.tok, name.rest) == Some(rest);
      var parts := FindPackage(registry, name.tok);
      if parts.None? { return null; }
      msg := new Message(parts.value.0, parts.value.1);
      var ok := ParseArgs(msg, rest);
      if !ok { return null; }
    }

    static method ParseArgs(msg: Message, s: string) returns (ok: bool)
      requires msg.args == [] && !msg.incomplete
      modifies msg
      ensures msg.pkg == old(msg.pkg) && msg.name == old(msg.name)
      ensures
        match ReadArgs([], false, s)
        case None => !ok
        case Some((args, deferred)) => ok && msg.args == args && msg.incomplete == deferred
    {
      var rest := s;
      while rest != ""
        invariant msg.pkg == old(msg.pkg) && msg.name == old(msg.name)
        invariant ReadArgs([], false, s) == ReadArgs(msg.args, msg.incomplete, rest)
        decreases |rest|
      {
        hide ReadPair;
        rest, ok := ParseKeyval(msg, rest);
        if !ok { return; }
      }
      return true;
    }

    static method ParseKeyval(msg: Message, s: string) returns (rest: string, ok: bool)
      modifies msg
      ensures msg.pkg == old(msg.pkg) && msg.name == old(msg.name)
      ensures
        match ReadPair(s)
        case None => !ok
        case Some((p, after)) =>
          && ok && rest == after
          && msg.args == WithPair(old(msg.args), p)
          && msg.incomplete == (old(msg.incomplete) || p.deferred)
    {
      var p := ScanPair(s);
      hide ReadPair;
      if p.None? { return s, false; }
      var Pair(key, deferred, value) := p.value.0;
      if deferred {
        msg.incomplete := true;
        msg.AddArg(Arg(key, []));
      } else {
        msg.AppendLine(key, value);
      }
      return p.value.1, true;
    }

    static method ScanPair(s: string) returns (p: Option<(Pair, string)>)
      ensures p == ReadPair(s)
    {
      hide ReadIdent, ReadUnquoted, ReadQuoted, SkipSpace;
      var s0 := SkipSpace(s);
      if s0.None? { return None; }
      var key := ScanIdent(s0.value);
      if key.Missing? { return None; }
      var rest := key.rest;
      var deferred := rest != "" && rest[0] == '*';
      if deferred { rest := rest[1..]; }
      if rest == "" || rest[0] != ':' { return None; }
      var s3 := SkipSpace(rest[1..]);
      if s3.None? { return None; }
      var value := ScanUnquoted(s3.value);
      if value.Missing? {
        value := ScanQuoted(s3.value);
        if value.Missing? { return None; }
      }
      return Some((Pair(key.tok, deferred, value.tok), value.rest));
    }

    /** splitPackage: the longest registered name that fits wins. */
    static method FindPackage(registry: Registry, name: string) returns (parts: Option<(string, string)>)
      ensures parts == SplitPackage(registry, name)
    {
      var longest := 0;
      if !HasPrefixFold(name, INIT_PACKAGE) || |name| > |INIT_PACKAGE| {
        for k := 0 to |registry|
          invariant longest == LongestFit(registry[..k], name)
        {
          assert registry[..k + 1][..k] == registry[..k];
          var p := registry[k];
          var n := |p.name|;
          if !HasPrefixFold(name, p.name) { continue; }
          if |name| == n || name[n] == '-' {
            if n > longest { longest := n; }
          }
        }
        assert registry[..|registry|] == registry;
      }
      if longest == 0 {
        if HasPrefixFold(name, NEGOTIATE_PACKAGE) {
          longest := |NEGOTIATE_PACKAGE|;
        } else if EqualFold(name, INIT_PACKAGE) {
          longest := |name|;
        } else {
          return None;
        }
      }
      var sub := name[longest..];
      if sub != "" && sub[0] == '-' { sub := sub[1..]; }
      return Some((name[..longest], sub));
    }

    /** What a delivered message does to the frame itself. */
    method Dispatch(m: Msg, newKey: string)
      modifies this`enabled, this`authKey, this`version, this`packages
      ensures View() == AfterDispatch(registry, old(View()), m, newKey)
    {
      if EqualFold(m.pkg, INIT_PACKAGE) {
        HandleInit(m, newKey);
        return;
      }
      assert registry[0..] == registry;
      for k := 0 to |registry|
        invariant HandlerOf(registry, m.pkg) == HandlerOf(registry[k..], m.pkg)
      {
        assert registry[k..][1..] == registry[k + 1..];
        var p := registry[k];
        if EqualFold(p.name, m.pkg) && p.handler != NoHandler {
          if p.handler == Negotiator { HandleCan(m); }
          return;
        }
      }
    }

    method HandleInit(m: Msg, newKey: string)
      modifies this`enabled, this`authKey, this`version
      ensures View() == AfterInit(old(View()), m, newKey)
    {
      hide ArgOr, VersionRange, SelectVersion;
      if m.name != "" { return; }
      authKey := ArgOr(m, "authentication-key", newKey);
      var range := VersionRange(m, "version", "to");
      if range.None? { return; }
      version := SelectVersion(SERVER_VERSION, SERVER_VERSION, range.value.0, range.value.1);
      if version == NO_VERSION { return; }
      enabled := true;
    }

    method HandleCan(m: Msg)
      modifies this`packages
      ensures View() == AfterCan(registry, old(View()), m)
    {
      hide FirstLine, VersionRange, SelectVersion;
      if !EqualFold(m.name, "can") { return; }
      var pkg := FirstLine(m.args, "package");
      if pkg.None? { return; }
      var range := VersionRange(m, "min-version", "max-version");
      if range.None? { return; }
      ghost var index := PackageIndex(registry, pkg.value);
      for k := 0 to |registry|
        invariant k <= index
        invariant packages == old(packages)
      {
        var p := registry[k];
        if !EqualFold(p.name, pkg.value) { continue; }
        assert k == index;
        var v := SelectVersion(p.minVer, p.maxVer, range.value.0, range.value.1);
        if v != NO_VERSION { packages := packages[Fold(pkg.value) := v]; }
        return;
      }
    }
  }
}
