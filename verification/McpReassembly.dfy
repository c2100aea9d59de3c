/** Whole connections: a message sent in pieces arrives as it was sent, whatever is
    interleaved with it, and nothing is obeyed that did not carry the key. */
module McpReassembly {
  import opened Text
  import opened Decimal
  import opened McpLex
  import opened McpMessage
  import opened McpFrame
  import opened McpTags

  datatype Input = Input(line: string, newKey: string)

  /** One connection, new at its start: the packages offered and what the client sent. */
  datatype Run = Run(reg: Registry, inputs: seq<Input>) {
    /** The frame after the first n lines. */
    function At(n: nat): State
      requires n <= |inputs|
    {
      if n == 0 then NEW_FRAME else Step(reg, At(n - 1), inputs[n - 1].line, inputs[n - 1].newKey)
    }

    function Reads(i: nat): Reading
      requires i < |inputs|
    {
      ReadLine(reg, At(i), inputs[i].line)
    }

    function Readings(): (rs: seq<Reading>)
      ensures |rs| == |inputs| && forall i :: 0 <= i < |rs| ==> rs[i] == Reads(i)
    {
      seq(|inputs|, i requires 0 <= i < |inputs| => Reads(i))
    }

    /** The message delivered by line i. */
    function Delivers(i: nat): Option<Msg>
      requires i < |inputs|
    {
      Completed(At(i).partial, Reads(i))
    }
  }

  /** Delivering a message leaves the ones still arriving alone. */
  lemma StepArrives(reg: Registry, st: State, line: string, newKey: string)
    ensures Step(reg, st, line, newKey).partial == Arriving(st.partial, ReadLine(reg, st, line))
  {
    hide ReadLine, AfterInit, AfterCan;
    DispatchKeepsPartial(reg, st.(partial := Arriving(st.partial, ReadLine(reg, st, line))), newKey);
  }

  lemma DispatchKeepsPartial(reg: Registry, st: State, newKey: string)
    ensures forall m :: AfterDispatch(reg, st, m, newKey).partial == st.partial
  {}

  lemma {:induction false} PartialIsPending(run: Run, n: nat)
    requires n <= |run.inputs|
    ensures run.At(n).partial == Pending(run.Readings(), n)
    decreases n
  {
    hide Step, ReadLine;
    if n > 0 {
      PartialIsPending(run, n - 1);
      StepArrives(run.reg, run.At(n - 1), run.inputs[n - 1].line, run.inputs[n - 1].newKey);
    }
  }

  /** Reassembly. Between a line that begins a message under a tag and the line that ends it,
      with the tag not begun or ended in between, anything may arrive. The end line delivers
      the message that was begun, with, under each key, the values it began with followed by
      the tag's continuation values in order, byte for byte. */
  lemma Reassembles(run: Run, tag: string, a: nat, b: nat, key: string)
    requires a < b < |run.inputs| && Open(run.Readings(), tag, a, b) && run.Reads(b) == End(tag)
    ensures run.Delivers(b).Some?
    ensures
      var m, d := run.Readings()[a].msg, run.Delivers(b).value;
      && d.pkg == m.pkg && d.name == m.name
      && LinesOf(d.args, key) ==
         ExtendedBy(LinesOf(m.args, key), ValuesFor(Lines(run.Readings(), tag, a + 1, b), key))
  {
    PartialIsPending(run, b);
    OpenMessage(run.Readings(), tag, a, b);
    WithAllPerKey(run.Readings()[a].msg.args, Lines(run.Readings(), tag, a + 1, b), key);
  }

  /** Once ended, a tag is free: its later lines are text until it is begun again. */
  lemma EndFreesTag(run: Run, tag: string, b: nat)
    requires b < |run.inputs| && run.Reads(b) == End(tag)
    ensures tag !in run.At(b + 1).partial
  {
    StepArrives(run.reg, run.At(b), run.inputs[b].line, run.inputs[b].newKey);
  }

  // ---------- Who may be obeyed ----------

  /** The token after the message name. */
  function KeyOn(line: string): Option<string> {
    if !(PREFIX <= line) then None
    else match ReadIdent(line[|PREFIX|..])
      case Missing => None
      case Got(_, rest) =>
        match SkipSpace(rest)
        case None => None
        case Some(s) =>
          match ReadUnquoted(s)
          case Missing => None
          case Got(key, _) => Some(key)
  }

  predicate IsInit(m: Msg) {
    EqualFold(m.pkg, INIT_PACKAGE)
  }

  /** The message a line starts, complete or not. */
  function StartedBy(r: Reading): Option<Msg> {
    match r
    case Begin(_, m) => Some(m)
    case Whole(m) => Some(m)
    case _ => None
  }

  lemma InitSplitsToInit(reg: Registry, name: string)
    requires EqualFold(name, INIT_PACKAGE)
    ensures SplitPackage(reg, name) == Some((name, ""))
  {
    assert name[..3] == name && name[3..] == "";
  }

  lemma StartIsKeyed(reg: Registry, authKey: string, s: string)
    requires ReadStart(reg, authKey, s).Some?
    requires StartedBy(ReadStart(reg, authKey, s).value).Some?
    requires !IsInit(StartedBy(ReadStart(reg, authKey, s).value).value)
    ensures ReadIdent(s).Got? && !EqualFold(ReadIdent(s).tok, INIT_PACKAGE)
    ensures KeyOn(PREFIX + s) == Some(authKey) && authKey != ""
  {
    var name := ReadIdent(s).tok;
    if EqualFold(name, INIT_PACKAGE) { InitSplitsToInit(reg, name); }
    assert (PREFIX + s)[|PREFIX|..] == s;
  }

  /** Before negotiation, a line that starts a message starts the opening one. */
  lemma InitNameOf(s: string)
    requires |s| >= 4 && EqualFold(s[..4], "mcp ")
    ensures ReadIdent(s).Got? && EqualFold(ReadIdent(s).tok, INIT_PACKAGE)
  {
    assert forall i :: 0 <= i < 4 ==> Lower(s[i]) == Lower("mcp "[i]);
    assert "mcp "[0] == 'm' && "mcp "[1] == 'c' && "mcp "[2] == 'p' && "mcp "[3] == ' ';
    assert s[..3] + s[3..] == s;
    SpanExact(s[..3], s[3..], IsIdentChar);
    assert ReadIdent(s).tok == s[..3];
  }

  /** A message outside the opening package starts only on a line that carries the current
      key, on a connection where MCP has been negotiated. */
  lemma StartLineIsKeyed(reg: Registry, st: State, line: string)
    requires StartedBy(ReadLine(reg, st, line)).Some?
    requires !IsInit(StartedBy(ReadLine(reg, st, line)).value)
    ensures KeyOn(line) == Some(st.authKey) && st.authKey != "" && st.enabled
  {
    var s := line[|PREFIX|..];
    StartsAreStarts(reg, st, line);
    assert PREFIX + s == line;
    StartIsKeyed(reg, st.authKey, s);
    if !st.enabled { InitNameOf(s); }
  }

  /** A started message was read by ReadStart, from text that may be a message here. */
  lemma StartsAreStarts(reg: Registry, st: State, line: string)
    requires StartedBy(ReadLine(reg, st, line)).Some?
    ensures PREFIX <= line
    ensures ReadStart(reg, st.authKey, line[|PREFIX|..]) == Some(ReadLine(reg, st, line))
    ensures st.enabled || HasPrefixFold(line[|PREFIX|..], "mcp ")
  {
    var s := line[|PREFIX|..];
    hide ReadContinuation, ReadEnd, ReadStart;
  }

  /** Nothing outside the opening package is ever delivered unless the line that started it
      carried the key that was current then. */
  lemma DeliveryIsAuthentic(run: Run, b: nat) returns (a: nat)
    requires b < |run.inputs|
    requires run.Delivers(b).Some? && !IsInit(run.Delivers(b).value)
    ensures a <= b && StartedBy(run.Reads(a)).Some?
    ensures
      var m := StartedBy(run.Reads(a)).value;
      m.pkg == run.Delivers(b).value.pkg && m.name == run.Delivers(b).value.name
    ensures KeyOn(run.inputs[a].line) == Some(run.At(a).authKey) && run.At(a).authKey != "" && run.At(a).enabled
  {
    a := DeliveryOrigin(run, b);
    StartLineIsKeyed(run.reg, run.At(a), run.inputs[a].line);
  }

  lemma DeliveryOrigin(run: Run, b: nat) returns (a: nat)
    requires b < |run.inputs| && run.Delivers(b).Some?
    ensures a <= b && StartedBy(run.Reads(a)).Some?
    ensures
      var m := StartedBy(run.Reads(a)).value;
      m.pkg == run.Delivers(b).value.pkg && m.name == run.Delivers(b).value.name
  {
    var r := run.Reads(b);
    if r.Whole? {
      a := b;
    } else {
      PartialIsPending(run, b);
      a := Origin(run.Readings(), r.tag, b);
      OpenMessage(run.Readings(), r.tag, a, b);
    }
  }

  /** A line that is not the opening message leaves a new frame new, and is text. */
  lemma NewFrameIgnores(reg: Registry, line: string, newKey: string)
    requires !(PREFIX <= line && HasPrefixFold(line[|PREFIX|..], "mcp "))
    ensures ReadLine(reg, NEW_FRAME, line) == Plain(line)
    ensures Step(reg, NEW_FRAME, line, newKey) == NEW_FRAME
  {}

  /** A connection on which no line is the opening message delivers nothing at all. */
  lemma {:induction false} NothingBeforeOpening(run: Run, n: nat)
    requires n <= |run.inputs|
    requires forall i :: 0 <= i < n ==>
      !(PREFIX <= run.inputs[i].line && HasPrefixFold(run.inputs[i].line[|PREFIX|..], "mcp "))
    ensures run.At(n) == NEW_FRAME
    ensures forall i :: 0 <= i < n ==> run.Reads(i) == Plain(run.inputs[i].line) && run.Delivers(i) == None
    decreases n
  {
    hide Step, ReadLine;
    if n > 0 {
      NothingBeforeOpening(run, n - 1);
      NewFrameIgnores(run.reg, run.inputs[n - 1].line, run.inputs[n - 1].newKey);
    }
  }
}
