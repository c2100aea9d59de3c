/** What the two filters agree on, and what the one that keeps colour guarantees. */
module AnsiLaws {
  import opened Ansi
  import opened Text

  // ---------- Well-formed colour ----------

  /** A complete sequence stands at the front of the text. */
  predicate Complete(t: string) {
    Opens(t) && Terminated(t) != "" && Terminated(t)[0] == 'm'
  }

  /** Every escape begins a complete sequence. */
  predicate WellFormed(t: string)
    decreases |t|
  {
    t == "" || (if t[0] == ESC then Complete(t) && WellFormed(Terminated(t)[1..]) else WellFormed(t[1..]))
  }

  /** The parameters of the last sequence, which the terminal is left with. */
  function LastSequence(t: string): (r: string)
    decreases |t|
  {
    if t == "" then ""
    else if !Complete(t) then LastSequence(t[1..])
    else if LastSequence(Terminated(t)[1..]) != "" then LastSequence(Terminated(t)[1..])
    else Opening(Params(t))
  }

  /** A sequence in full, from its parameters. */
  function Opening(params: string): (r: string)
    ensures r != ""
  {
    [ESC, '['] + params + "m"
  }

  predicate AllParams(p: string) {
    forall c :: c in p ==> IsParam(c)
  }

  lemma SequenceParts(params: string, rest: string)
    requires AllParams(params)
    ensures
      var t := Opening(params) + rest;
      t != "" && t[0] == ESC && Complete(t) && Params(t) == params && Terminated(t) == "m" + rest
  {
    var t := Opening(params) + rest;
    assert t[2..] == params + ("m" + rest);
    SpanExact(params, "m" + rest, IsParam);
    assert t[2..2 + |params|] == params;
    assert t[2 + |params|..] == "m" + rest;
  }

  lemma PlainPart(c: char, rest: string)
    ensures ([c] + rest)[1..] == rest && ([c] + rest)[0] == c
  {}

  /** No step meets a sequence that an escape ends. */
  predicate ClearlyEnded(s: string, budget: nat)
    decreases budget
  {
    s == "" || budget == 0
    || (!(Opens(s) && Terminated(s) != "" && Terminated(s)[0] == ESC) && ClearlyEnded(Next(s), budget - 1))
  }

  /** What the steps never reach. */
  function Unscanned(s: string, budget: nat): string
    decreases budget
  {
    if s == "" || budget == 0 then s else Unscanned(Next(s), budget - 1)
  }

  lemma StripPlain(c: char, rest: string)
    requires c != ESC
    ensures Strip([c] + rest) == [c] + Strip(rest)
  {
    PlainPart(c, rest);
  }

  lemma StripSequence(params: string, rest: string)
    requires AllParams(params)
    ensures Strip(Opening(params) + rest) == Strip(rest)
  {
    SequenceParts(params, rest);
    PlainPart('m', rest);
  }

  /** What is kept of a terminator. */
  function Kept(rest: string): string {
    if rest == "" || rest[0] == 'm' then "" else [rest[0]]
  }

  /** What a step's piece is, in front of more text: nothing, one character, or a whole
      sequence with perhaps a character after it. */
  lemma PieceForms(s: string, more: string)
    requires s != "" && !(Opens(s) && Terminated(s) != "" && Terminated(s)[0] == ESC)
    ensures
      if s[0] != ESC then Piece(s) + more == [s[0]] + more && Next(s) == s[1..]
      else if !Opens(s) then Piece(s) + more == more
      else
        && AllParams(Params(s))
        && Piece(s) + more == Opening(Params(s)) + Kept(Terminated(s)) + more
        && Next(s) == if Terminated(s) == "" then "" else Terminated(s)[1..]
  {
    if s[0] == ESC && Opens(s) && Terminated(s) != "" {
      assert Next(s) == Terminated(s)[1..];
    }
  }

  /** What stripping does with one step's input. */
  lemma StripStep(s: string)
    requires s != ""
    ensures
      if s[0] != ESC then Strip(s) == [s[0]] + Strip(Next(s))
      else if !Opens(s) then Strip(s) == Strip(Next(s))
      else
        var rest := Terminated(s);
        if rest == "" || rest[0] == 'm' then Strip(s) == Strip(Next(s))
        else rest[0] != ESC ==> Strip(s) == [rest[0]] + Strip(Next(s))
  {
    if Opens(s) && Terminated(s) != "" { assert Next(s) == Terminated(s)[1..]; }
  }

  /** The filters agree: what is written, stripped, is what was read, stripped, as far as the
      steps go. */
  lemma {:induction false} OutStrips(s: string, budget: nat)
    requires ClearlyEnded(s, budget)
    ensures Strip(Out(s, budget)) + Strip(Unscanned(s, budget)) == Strip(s)
    decreases budget
  {
    hide Strip, Piece, Next, Opens, Terminated;
    if s == "" || budget == 0 {
      StripEmpty();
    } else {
      var next := Next(s);
      OutStrips(next, budget - 1);
      var more := Out(next, budget - 1);
      StripPieceExact(s, more, Strip(Unscanned(next, budget - 1)));
    }
  }

  lemma StripEmpty()
    ensures Strip("") == ""
  {}

  lemma StripPieceExact(s: string, more: string, left: string)
    requires s != "" && !(Opens(s) && Terminated(s) != "" && Terminated(s)[0] == ESC)
    requires Strip(more) + left == Strip(Next(s))
    ensures Strip(Piece(s) + more) + left == Strip(s)
  {
    hide Strip, Piece, Next, Terminated, Params, AllParams, Opening;
    PieceForms(s, more);
    StripStep(s);
    if s[0] != ESC {
      StripPlain(s[0], more);
      Append2([s[0]], Strip(more), left);
    } else if Opens(s) {
      var rest := Terminated(s);
      Append2(Opening(Params(s)), Kept(rest), more);
      StripSequence(Params(s), Kept(rest) + more);
      if Kept(rest) == "" {
        assert Kept(rest) + more == more;
      } else {
        StripPlain(rest[0], more);
        Append2([rest[0]], Strip(more), left);
      }
    }
  }

  // ---------- Text made of whole pieces ----------

  lemma WellFormedSequence(params: string, rest: string)
    requires AllParams(params)
    ensures WellFormed(Opening(params) + rest) == WellFormed(rest)
    ensures LastSequence(Opening(params) + rest) == if LastSequence(rest) != "" then LastSequence(rest) else Opening(params)
  {
    SequenceParts(params, rest);
    PlainPart('m', rest);
  }

  lemma WellFormedPlain(c: char, rest: string)
    requires c != ESC
    ensures WellFormed([c] + rest) == WellFormed(rest)
    ensures LastSequence([c] + rest) == LastSequence(rest)
  {
    PlainPart(c, rest);
  }

  /** Well-formed text begins with a plain character or with a whole sequence. */
  lemma WellFormedSplit(t: string)
    requires WellFormed(t) && t != ""
    ensures
      if t[0] != ESC then t == [t[0]] + t[1..] && WellFormed(t[1..])
      else
        && Complete(t) && AllParams(Params(t)) && WellFormed(Terminated(t)[1..])
        && t == Opening(Params(t)) + Terminated(t)[1..]
  {
    hide Terminated, Params, Opening, AllParams;
    if t[0] == ESC { CompleteParts(t); }
  }

  lemma CompleteParts(t: string)
    requires Complete(t)
    ensures AllParams(Params(t)) && t == Opening(Params(t)) + Terminated(t)[1..]
  {
    var n := 2 + SpanLength(t[2..], IsParam);
    assert t[2..][..n - 2] == t[2..n];
    assert t == t[..2] + t[2..n] + [t[n]] + t[n + 1..];
    assert t[..2] == [ESC, '['] && Terminated(t)[1..] == t[n + 1..];
  }

  /** Whole pieces keep out of what follows them. */
  lemma {:induction false} WholePieces(t: string, more: string)
    requires WellFormed(t)
    ensures Strip(t + more) == Strip(t) + Strip(more)
    ensures WellFormed(t + more) == WellFormed(more)
    ensures LastSequence(t + more) == if LastSequence(more) != "" then LastSequence(more) else LastSequence(t)
    decreases |t|
  {
    hide Strip, WellFormed, LastSequence, Complete, Opening, Terminated, Params, AllParams;
    if t == "" {
      assert t + more == more;
      EmptyText();
      assert "" + Strip(more) == Strip(more);
    } else {
      WellFormedSplit(t);
      if t[0] != ESC {
        WholePieces(t[1..], more);
        Append2([t[0]], t[1..], more);
        StripPlain(t[0], t[1..]);
        StripPlain(t[0], t[1..] + more);
        Append2([t[0]], Strip(t[1..]), Strip(more));
        WellFormedPlain(t[0], t[1..]);
        WellFormedPlain(t[0], t[1..] + more);
      } else {
        SequenceThenMore(t, more);
      }
    }
  }

  lemma {:induction false} SequenceThenMore(t: string, more: string)
    requires WellFormed(t) && t != "" && t[0] == ESC
    ensures Strip(t + more) == Strip(t) + Strip(more)
    ensures WellFormed(t + more) == WellFormed(more)
    ensures LastSequence(t + more) == if LastSequence(more) != "" then LastSequence(more) else LastSequence(t)
    decreases |t|, 0
  {
    hide Strip, WellFormed, LastSequence, Opening, Terminated, Params, AllParams;
    WellFormedSplit(t);
    var rest := Terminated(t)[1..];
    WholePieces(rest, more);
    Append2(Opening(Params(t)), rest, more);
    StripSequence(Params(t), rest);
    StripSequence(Params(t), rest + more);
    WellFormedSequence(Params(t), rest);
    WellFormedSequence(Params(t), rest + more);
  }

  lemma EmptyText()
    ensures Strip("") == "" && WellFormed("") && LastSequence("") == ""
  {}

  lemma PieceKeeps(s: string, more: string)
    requires s != "" && !(Opens(s) && Terminated(s) != "" && Terminated(s)[0] == ESC)
    requires WellFormed(more)
    ensures WellFormed(Piece(s) + more)
    ensures !Opens(s) ==> LastSequence(Piece(s) + more) == LastSequence(more)
  {
    hide WellFormed, LastSequence, Piece, Next, Terminated, Params, AllParams, Opening, Complete;
    PieceForms(s, more);
    if s[0] != ESC {
      WellFormedPlain(s[0], more);
    } else if Opens(s) {
      var rest := Terminated(s);
      Append2(Opening(Params(s)), Kept(rest), more);
      WellFormedSequence(Params(s), Kept(rest) + more);
      if Kept(rest) == "" {
        assert Kept(rest) + more == more;
      } else {
        WellFormedPlain(rest[0], more);
      }
    }
  }

  lemma {:induction false} OutWellFormed(s: string, budget: nat)
    requires ClearlyEnded(s, budget)
    ensures WellFormed(Out(s, budget))
    ensures !Seen(s, budget) ==> LastSequence(Out(s, budget)) == ""
    decreases budget
  {
    hide WellFormed, LastSequence, Piece, Next, Terminated;
    if s == "" || budget == 0 {
      EmptyText();
    } else {
      OutWellFormed(Next(s), budget - 1);
      PieceKeeps(s, Out(Next(s), budget - 1));
    }
  }

  /** Taking a final line break off leaves the text well-formed: it is in no sequence. */
  lemma {:induction false} WithoutBreak(t: string)
    requires WellFormed(t + CRLF)
    ensures WellFormed(t)
    decreases |t|
  {
    hide Terminated, Params, Opening, AllParams;
    if t != "" {
      var all := t + CRLF;
      WellFormedSplit(all);
      if t[0] != ESC {
        assert all[1..] == t[1..] + CRLF;
        WithoutBreak(t[1..]);
      } else {
        BreakIsAfter(t);
        var head := Opening(Params(all));
        var rest := t[|head|..];
        assert t == head + rest;
        Append2(head, rest, CRLF);
        assert all[|head|..] == Terminated(all)[1..] && all[|head|..] == rest + CRLF;
        WithoutBreak(rest);
        WellFormedSequence(Params(all), rest);
      }
    }
  }

  /** No character of a line break can be part of a sequence. */
  lemma BreakIsAfter(t: string)
    requires t != "" && t[0] == ESC && WellFormed(t + CRLF)
    ensures |Opening(Params(t + CRLF))| <= |t|
    ensures t[..|Opening(Params(t + CRLF))|] == Opening(Params(t + CRLF))
  {
    var all := t + CRLF;
    WellFormedSplit(all);
    var head := Opening(Params(all));
    assert forall k :: 0 <= k < |head| ==> head[k] == all[k];
    OpeningHasNoBreak(Params(all));
    assert all[|t|] == '\r';
    assert t[..|head|] == all[..|head|] == head;
  }

  lemma OpeningHasNoBreak(params: string)
    requires AllParams(params)
    ensures forall k :: 0 <= k < |Opening(params)| ==> Opening(params)[k] != '\r'
  {
    forall k | 0 <= k < |Opening(params)| ensures Opening(params)[k] != '\r' {
      if 2 <= k < |params| + 2 { assert Opening(params)[k] == params[k - 2] && params[k - 2] in params; }
    }
  }

  // ---------- The two filters ----------

  /** What the filter that keeps colour never reaches. */
  function Left(s: string): string {
    if ESC in s then Unscanned(s, SCAN_LIMIT) else ""
  }

  lemma ResetIsOpening()
    ensures RESET == Opening("0") && AllParams("0") && WellFormed(CRLF) && Strip(CRLF) == CRLF && LastSequence(CRLF) == ""
  {
    StripNothing(CRLF);
    EmptyText();
    assert CRLF[1..] == "\n" && CRLF[1..][1..] == "";
  }

  /** A reset adds no text, and is what the terminal is left with. */
  lemma ResetAdds(out: string)
    requires WellFormed(out)
    ensures Strip(WithReset(out)) == Strip(out) && WellFormed(WithReset(out))
    ensures LastSequence(WithReset(out)) == RESET
  {
    hide Strip, WellFormed, LastSequence, Opening;
    ResetIsOpening();
    EmptyText();
    if |out| >= 2 && out[|out| - 2..] == CRLF {
      var rest := out[..|out| - 2];
      assert out == rest + CRLF;
      WithoutBreak(rest);
      WholePieces(rest, CRLF);
      ResetThen(CRLF);
      WholePieces(rest, RESET + CRLF);
      Append2(rest, RESET, CRLF);
    } else {
      ResetThen("");
      assert RESET + "" == RESET;
      WholePieces(out, RESET);
      assert Strip(out) + "" == Strip(out);
    }
  }

  lemma ResetThen(more: string)
    requires WellFormed(more) && LastSequence(more) == ""
    ensures Strip(RESET + more) == Strip(more) && WellFormed(RESET + more) && LastSequence(RESET + more) == RESET
  {
    hide Strip, WellFormed, LastSequence, Opening;
    ResetIsOpening();
    StripSequence("0", more);
    WellFormedSequence("0", more);
  }

  /** A player with colour and a player without read the same text: what is kept, stripped,
      is the input, stripped, as far as the filter goes. */
  lemma FiltersAgree(s: string)
    requires ClearlyEnded(s, SCAN_LIMIT)
    ensures Strip(Sanitized(s)) + Strip(Left(s)) == Strip(s)
  {
    hide Strip, WellFormed, LastSequence, Out, Seen, Truncated, Unscanned;
    EmptyText();
    if ESC in s {
      OutStrips(s, SCAN_LIMIT);
      OutWellFormed(s, SCAN_LIMIT);
      ResetAdds(Out(s, SCAN_LIMIT));
    } else {
      assert Strip(s) + "" == Strip(s);
    }
  }

  lemma {:induction false} ShortIsScanned(s: string, budget: nat)
    requires |s| <= budget
    ensures Unscanned(s, budget) == ""
    decreases budget
  {
    if s != "" { ShortIsScanned(Next(s), budget - 1); }
  }

  /** Input within the limit is read to its end. */
  lemma ShortAgrees(s: string)
    requires ClearlyEnded(s, SCAN_LIMIT) && |s| <= SCAN_LIMIT
    ensures Strip(Sanitized(s)) == Strip(s)
  {
    hide Strip, Unscanned, Sanitized;
    FiltersAgree(s);
    EmptyText();
    ShortIsScanned(s, SCAN_LIMIT);
    assert Strip(Sanitized(s)) + "" == Strip(Sanitized(s));
  }

  lemma {:induction false} PlainWellFormed(s: string)
    requires ESC !in s
    ensures WellFormed(s) && LastSequence(s) == ""
  {
    if s != "" {
      assert s[0] in s;
      PlainWellFormed(s[1..]);
    }
  }

  lemma {:induction false} EscapesComplete(t: string, k: nat)
    requires WellFormed(t) && k < |t| && t[k] == ESC
    ensures Complete(t[k..])
    decreases |t|
  {
    if k == 0 {
      assert t[0..] == t;
    } else if t[0] != ESC {
      assert t[1..][k - 1..] == t[k..];
      EscapesComplete(t[1..], k - 1);
    } else {
      WellFormedSplit(t);
      var head := Opening(Params(t));
      EscapeIsPast(t, k);
      assert t[|head|..] == Terminated(t)[1..];
      assert t[|head|..][k - |head|..] == t[k..];
      EscapesComplete(Terminated(t)[1..], k - |head|);
    }
  }

  /** No escape stands inside a sequence. */
  lemma EscapeIsPast(t: string, k: nat)
    requires WellFormed(t) && 0 < k < |t| && t[0] == ESC && t[k] == ESC
    ensures k >= |Opening(Params(t))|
  {
    WellFormedSplit(t);
    var params := Params(t);
    assert t[..|Opening(params)|] == Opening(params);
    assert forall j :: 0 <= j < |Opening(params)| ==> t[j] == Opening(params)[j];
    assert forall j :: 2 <= j < 2 + |params| ==> Opening(params)[j] == params[j - 2] && params[j - 2] in params;
  }

  /** Every escape in the output begins a complete colour sequence, and unless the input broke
      off inside one the terminal is left without colour: the last sequence is a reset, or
      there is none. */
  lemma ColourIsContained(s: string)
    requires ClearlyEnded(s, SCAN_LIMIT)
    ensures forall k: nat :: k < |Sanitized(s)| && Sanitized(s)[k] == ESC ==> Complete(Sanitized(s)[k..])
    ensures !Truncated(s, SCAN_LIMIT) ==> LastSequence(Sanitized(s)) in ["", RESET]
  {
    hide WellFormed, LastSequence, Out, Seen, Truncated, Complete;
    if ESC in s {
      OutWellFormed(s, SCAN_LIMIT);
      ResetAdds(Out(s, SCAN_LIMIT));
    } else {
      PlainWellFormed(s);
    }
    forall k: nat | k < |Sanitized(s)| && Sanitized(s)[k] == ESC ensures Complete(Sanitized(s)[k..]) {
      EscapesComplete(Sanitized(s), k);
    }
  }

  /** The case set aside: a sequence that an escape ends. The escape is kept as its terminator
      and swallows the start of the reset, whose rest the player then reads. */
  lemma EscapeEndedDisagrees()
    ensures
      var s := [ESC, '[', ESC, ESC, 'X'];
      Strip(s) == "X" && Strip(Sanitized(s)) == "[0m"
  {
    hide Strip, Out, Seen, Truncated, Terminated, Next;
    var s := [ESC, '[', ESC, ESC, 'X'];
    EndedParts();
    StripNothing("X");
    EndedSteps(s);
    EndedOutput();
    assert WithReset([ESC, '[', 'm', ESC]) == [ESC, '[', 'm', ESC] + RESET;
  }

  lemma EndedOutput()
    ensures Strip([ESC, '[', 'm', ESC] + RESET) == "[0m"
  {
    StripNothing("[0m");
    var tail := [ESC] + RESET;
    assert tail[2..] == "[0m";
    StripSequence("", tail);
    assert [ESC, '[', 'm', ESC] + RESET == Opening("") + tail;
  }

  lemma EndedParts()
    ensures
      var s := [ESC, '[', ESC, ESC, 'X'];
      Terminated(s) == [ESC, ESC, 'X'] && Next(s) == [ESC, 'X'] && Next(Next(s)) == "" && Strip(s) == Strip("X")
  {
    var s := [ESC, '[', ESC, ESC, 'X'];
    assert s[2..] == [ESC, ESC, 'X'] && s[2..][2..] == "X";
  }

  lemma EndedSteps(s: string)
    requires s == [ESC, '[', ESC, ESC, 'X'] && Next(s) == [ESC, 'X'] && Next(Next(s)) == ""
    requires Terminated(s) == [ESC, ESC, 'X']
    ensures Out(s, SCAN_LIMIT) == [ESC, '[', 'm', ESC] && Seen(s, SCAN_LIMIT) && !Truncated(s, SCAN_LIMIT)
  {
    ScanStep(s, SCAN_LIMIT);
    ScanStep(Next(s), SCAN_LIMIT - 1);
    ScanEnds("", SCAN_LIMIT - 2);
    assert Params(s) == "";
  }

  // ---------- Text that is well-formed already ----------

  lemma PieceOfWellFormed(t: string)
    requires WellFormed(t) && t != ""
    ensures t == Piece(t) + Next(t) && WellFormed(Next(t))
    ensures !(Opens(t) && Terminated(t) == "")
    ensures Opens(t) <==> t[0] == ESC
  {
    hide Params, IsParam;
    if t[0] == ESC {
      CompleteParts(t);
      assert Next(t) == Terminated(t)[1..];
      assert Opening(Params(t)) + "" == Opening(Params(t));
    }
  }

  /** The steps write it as it is. */
  lemma {:induction false} WellFormedKept(t: string, budget: nat)
    requires WellFormed(t) && |t| <= budget
    ensures Out(t, budget) == t && !Truncated(t, budget) && (Seen(t, budget) <==> ESC in t)
    decreases |t|
  {
    hide WellFormed, Piece, Next, Terminated, Opens;
    if t == "" {
      ScanEnds(t, budget);
    } else {
      PieceOfWellFormed(t);
      ScanStep(t, budget);
      WellFormedKept(Next(t), budget - 1);
      EscapeInPieces(t);
    }
  }

  lemma EscapeInPieces(t: string)
    requires WellFormed(t) && t != ""
    ensures ESC in t <==> t[0] == ESC || ESC in Next(t)
  {
    hide Params, IsParam, Terminated;
    PieceOfWellFormed(t);
    if t[0] != ESC {
      assert Piece(t) == [t[0]];
      assert forall c :: c in t <==> c in Piece(t) || c in Next(t);
    }
  }

  /** Colour that is well-formed reaches the player as it is, to the last parameter: the filter
      adds a reset, in front of a final line break, and nothing else. */
  lemma WellFormedUntouched(s: string)
    requires WellFormed(s) && |s| <= SCAN_LIMIT
    ensures Sanitized(s) ==
      if ESC !in s then s
      else if |s| >= 2 && s[|s| - 2..] == "\r\n" then s[..|s| - 2] + [ESC, '[', '0', 'm'] + "\r\n"
      else s + [ESC, '[', '0', 'm']
  {
    hide WellFormed, Out, Seen, Truncated;
    WellFormedKept(s, SCAN_LIMIT);
  }

  // ---------- Which sequences are colour ----------

  /** Numbers and the semicolons between them. */
  predicate Numbers(p: string) {
    forall c :: c in p ==> '0' <= c <= '9' || c == ';'
  }

  /** Between its opening and its letter a sequence holds numbers and semicolons, and all of it
      goes; what ends it otherwise stays. */
  lemma ColourIsRemoved(p: string, end: char, rest: string)
    requires Numbers(p) && !('0' <= end <= '9' || end == ';')
    ensures Strip([ESC, '['] + p + [end] + rest) == if end == 'm' then Strip(rest) else Strip([end] + rest)
  {
    hide IsParam, Strip;
    NumbersAreParams(p, end);
    var s := [ESC, '['] + p + [end] + rest;
    assert s[2..] == p + ([end] + rest);
    SpanExact(p, [end] + rest, IsParam);
    assert Terminated(s) == [end] + rest by { assert s[2 + |p|..] == [end] + rest; }
    StripOpened(s);
    assert ([end] + rest)[1..] == rest;
  }

  lemma NumbersAreParams(p: string, end: char)
    requires Numbers(p) && !('0' <= end <= '9' || end == ';')
    ensures (forall c :: c in p ==> IsParam(c)) && !IsParam(end)
  {}

  lemma StripOpened(s: string)
    requires Opens(s)
    ensures
      var rest := Terminated(s);
      Strip(s) == if rest != "" && rest[0] == 'm' then Strip(rest[1..]) else Strip(rest)
  {
    hide Terminated;
  }

  /** A sequence that the input breaks off in is closed, and then no reset follows: the terminal
      is left with its colour. */
  lemma BrokenOffIsLeft(t: string, p: string)
    requires WellFormed(t) && Numbers(p) && |t| < SCAN_LIMIT
    ensures Sanitized(t + [ESC, '['] + p) == t + [ESC, '['] + p + "m"
  {
    hide Out, Seen, Truncated, WellFormed;
    var s := t + ([ESC, '['] + p);
    assert s == t + [ESC, '['] + p && s[|t|] == ESC;
    BrokenOff(t, p, SCAN_LIMIT);
    assert t + ([ESC, '['] + p + "m") == t + [ESC, '['] + p + "m";
  }

  lemma {:induction false} BrokenOff(t: string, p: string, budget: nat)
    requires WellFormed(t) && Numbers(p) && |t| < budget
    ensures Out(t + ([ESC, '['] + p), budget) == t + ([ESC, '['] + p + "m") && Truncated(t + ([ESC, '['] + p), budget)
    decreases |t|
  {
    hide WellFormed, Piece, Next, Terminated, Opens, Params;
    var end := [ESC, '['] + p;
    var s := t + end;
    ScanStep(s, budget);
    if t == "" {
      assert s == end;
      LastPiece(p);
      ScanEnds("", budget - 1);
      assert end + "m" + "" == end + "m" && "" + (end + "m") == end + "m";
    } else {
      PieceOfWellFormed(t);
      PieceAhead(t, end);
      BrokenOff(Next(t), p, budget - 1);
      Append2(Piece(t), Next(t), end + "m");
    }
  }

  lemma LastPiece(p: string)
    requires Numbers(p)
    ensures
      var s := [ESC, '['] + p;
      Opens(s) && Terminated(s) == "" && Piece(s) == s + "m" && Next(s) == ""
  {
    hide IsParam;
    NumbersAreParams(p, 'm');
    var s := [ESC, '['] + p;
    assert s[2..] == p + "" == p;
    SpanExact(p, "", IsParam);
    assert Params(s) == p && Terminated(s) == "";
    assert [ESC, '['] + p + "m" + "" == s + "m";
  }

  /** A whole piece in front is not changed by what follows it. */
  lemma PieceAhead(t: string, more: string)
    requires WellFormed(t) && t != ""
    ensures Piece(t + more) == Piece(t) && Next(t + more) == Next(t) + more
  {
    hide IsParam, WellFormed, Piece, Next, Terminated, Params, Opening;
    WellFormedSplit(t);
    if t[0] != ESC {
      PlainPiece(t[0], t[1..]);
      PlainPiece(t[0], t[1..] + more);
      assert t + more == [t[0]] + (t[1..] + more);
    } else {
      var rest := Terminated(t)[1..];
      Append2(Opening(Params(t)), rest, more);
      SequencePiece(Params(t), rest);
      SequencePiece(Params(t), rest + more);
    }
  }

  lemma PlainPiece(c: char, rest: string)
    requires c != ESC
    ensures Piece([c] + rest) == [c] && Next([c] + rest) == rest
  {}

  lemma SequencePiece(params: string, rest: string)
    requires AllParams(params)
    ensures Piece(Opening(params) + rest) == Opening(params) && Next(Opening(params) + rest) == rest
  {
    hide IsParam;
    var t := Opening(params) + rest;
    SequenceParts(params, rest);
    assert [ESC, '['] + params + "m" + "" == Opening(params);
    assert StepLength(t) == |Opening(params)|;
  }
}
