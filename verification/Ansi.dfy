/** The two output filters for colour: one takes it all out, the other keeps it well-formed. */
module Ansi {
  import opened Text

  const ESC: char := '\U{1B}'
  const RESET: string := [ESC, '[', '0', 'm']
  const CRLF: string := "\r\n"
  /** How many steps the second filter takes before it stops. */
  const SCAN_LIMIT: nat := 8187

  /** What may stand between the opening of a sequence and its terminator. */
  predicate IsParam(c: char) {
    IsDigit(c) || c == ';'
  }

  /** A sequence: an escape and a bracket, whatever follows. */
  predicate Opens(s: string) {
    |s| >= 2 && s[0] == ESC && s[1] == '['
  }

  function Params(s: string): (p: string)
    requires Opens(s)
    ensures forall c :: c in p ==> IsParam(c)
  {
    s[2..2 + SpanLength(s[2..], IsParam)]
  }

  /** From the terminator of a sequence on. */
  function Terminated(s: string): (r: string)
    requires Opens(s)
    ensures |r| <= |s| - 2 && (r != "" ==> !IsParam(r[0]))
  {
    s[2 + SpanLength(s[2..], IsParam)..]
  }

  // ---------- Without colour ----------

  function Strip(s: string): string
    decreases |s|
  {
    if s == "" then ""
    else if s[0] != ESC then [s[0]] + Strip(s[1..])
    else if |s| == 1 then ""
    else if s[1] != '[' then Strip(s[2..])
    else
      var rest := Terminated(s);
      if rest != "" && rest[0] == 'm' then Strip(rest[1..]) else Strip(rest)
  }

  /** Past one escape sequence, of whichever of its three shapes. */
  method SkipEscape(s: string, at: nat) returns (i: nat)
    requires at < |s| && s[at] == ESC
    ensures at < i <= |s| && Strip(s[i..]) == Strip(s[at..])
  {
    hide Terminated;
    i := at + 1;
    if i >= |s| { return; }
    if s[i] != '[' {
      assert s[at..][2..] == s[i + 1..];
      i := i + 1;
      return;
    }
    SequenceAt(s, at);
    i := i + 1 + SpanLength(s[i + 1..], IsParam);
    if i < |s| && s[i] == 'm' {
      assert s[i..][1..] == s[i + 1..];
      i := i + 1;
    }
  }

  lemma StripPlainAt(s: string, i: nat, text: string)
    requires i < |s| && s[i] != ESC
    ensures text + Strip(s[i..]) == text + [s[i]] + Strip(s[i + 1..])
  {
    assert s[i..][1..] == s[i + 1..];
    Append2(text, [s[i]], Strip(s[i + 1..]));
  }

  method StripColour(s: string) returns (text: string)
    ensures text == Strip(s)
  {
    hide Strip;
    if ESC !in s {
      StripNothing(s);
      return s;
    }
    text := "";
    var i := 0;
    assert s[0..] == s && "" + Strip(s) == Strip(s);
    while i < |s|
      invariant 0 <= i <= |s| && text + Strip(s[i..]) == Strip(s)
    {
      if s[i] != ESC {
        StripPlainAt(s, i, text);
        text := text + [s[i]];
        i := i + 1;
      } else {
        i := SkipEscape(s, i);
      }
    }
    StripNothing(s[|s|..]);
    assert text + "" == text;
  }

  lemma {:induction false} StripNothing(s: string)
    requires ESC !in s
    ensures Strip(s) == s
  {
    if s != "" {
      assert s[0] in s && s == [s[0]] + s[1..];
      StripNothing(s[1..]);
    }
  }

  // ---------- With colour ----------

  /** How much of the input one step takes. */
  function StepLength(s: string): (n: nat)
    requires s != ""
    ensures 0 < n <= |s|
  {
    if s[0] != ESC || |s| == 1 then 1
    else if s[1] != '[' then 2
    else |s| - |Terminated(s)| + if Terminated(s) == "" then 0 else 1
  }

  /** What it writes: a sequence is closed, and what closed it otherwise is kept after it. */
  function Piece(s: string): string
    requires s != ""
  {
    if s[0] != ESC then [s[0]]
    else if !Opens(s) then ""
    else
      var rest := Terminated(s);
      [ESC, '['] + Params(s) + "m" + if rest == "" || rest[0] == 'm' then "" else [rest[0]]
  }

  function Next(s: string): (r: string)
    requires s != ""
    ensures |r| < |s|
  {
    s[StepLength(s)..]
  }

  function Out(s: string, budget: nat): string {
    if s == "" || budget == 0 then "" else Piece(s) + Out(Next(s), budget - 1)
  }

  /** Whether a sequence is met. */
  predicate Seen(s: string, budget: nat) {
    s != "" && budget > 0 && (Opens(s) || Seen(Next(s), budget - 1))
  }

  /** Whether the input ends inside a sequence that is met. */
  predicate Truncated(s: string, budget: nat) {
    s != "" && budget > 0 && ((Opens(s) && Terminated(s) == "") || Truncated(Next(s), budget - 1))
  }

  /** A reset goes on the end, or before a final line break. */
  function WithReset(out: string): string {
    if |out| >= 2 && out[|out| - 2..] == CRLF then out[..|out| - 2] + RESET + CRLF else out + RESET
  }

  function Sanitized(s: string): string {
    if ESC !in s then s
    else
      var out := Out(s, SCAN_LIMIT);
      if Seen(s, SCAN_LIMIT) && !Truncated(s, SCAN_LIMIT) then WithReset(out) else out
  }

  lemma ScanStep(s: string, budget: nat)
    requires s != "" && budget > 0
    ensures Out(s, budget) == Piece(s) + Out(Next(s), budget - 1)
    ensures Seen(s, budget) == (Opens(s) || Seen(Next(s), budget - 1))
    ensures Truncated(s, budget) == ((Opens(s) && Terminated(s) == "") || Truncated(Next(s), budget - 1))
  {}

  lemma ScanEnds(s: string, budget: nat)
    requires s == "" || budget == 0
    ensures Out(s, budget) == "" && !Seen(s, budget) && !Truncated(s, budget)
  {}

  /** One sequence, from its bracket to past its terminator. */
  method WriteSequence(s: string, at: nat) returns (piece: string, i: nat, truncated: bool)
    requires at < |s| && Opens(s[at..])
    ensures piece == Piece(s[at..]) && at < i <= |s| && s[i..] == Next(s[at..])
    ensures truncated == (Terminated(s[at..]) == "") && (truncated ==> i == |s|)
  {
    hide Terminated, Params, Piece, Next, Opens, SpanLength;
    SequenceAt(s, at);
    PieceCases(s[at..]);
    i := at + 2 + SpanLength(s[at + 2..], IsParam);
    piece := [ESC, '['] + s[at + 2..i];
    truncated := false;
    if i >= |s| {
      piece := piece + "m";
      return piece, i, true;
    }
    if s[i] != 'm' { piece := piece + "m"; }
    piece := piece + [s[i]];
    assert s[i..][1..] == s[i + 1..];
    i := i + 1;
  }

  lemma PieceCases(t: string)
    requires Opens(t)
    ensures
      var open, rest := [ESC, '['] + Params(t), Terminated(t);
      Piece(t) == if rest == "" || rest[0] == 'm' then open + "m" else open + "m" + [rest[0]]
  {
    hide Terminated, Params;
    assert [ESC, '['] + Params(t) + "m" + "" == [ESC, '['] + Params(t) + "m";
  }

  lemma SequenceAt(s: string, at: nat)
    requires at < |s| && Opens(s[at..])
    ensures
      var i := at + 2 + SpanLength(s[at + 2..], IsParam);
      && i <= |s| && Terminated(s[at..]) == s[i..] && Params(s[at..]) == s[at + 2..i]
      && Next(s[at..]) == if i == |s| then "" else s[i..][1..]
  {
    assert s[at..][2..] == s[at + 2..];
  }

  /** One step of the filter: a character, a broken escape or a sequence. */
  method WriteStep(s: string, at: nat) returns (piece: string, i: nat, begun: bool, truncated: bool)
    requires at < |s|
    ensures piece == Piece(s[at..]) && at < i <= |s| && s[i..] == Next(s[at..])
    ensures begun == Opens(s[at..]) && truncated == (Opens(s[at..]) && Terminated(s[at..]) == "")
    ensures truncated ==> i == |s|
  {
    hide Terminated, Params;
    begun, truncated := false, false;
    if s[at] != ESC {
      piece, i := [s[at]], at + 1;
      assert s[at..][1..] == s[i..];
    } else if at + 1 >= |s| {
      piece, i := "", at + 1;
      assert s[at..][1..] == s[i..];
    } else if s[at + 1] != '[' {
      piece, i := "", at + 2;
      assert s[at..][2..] == s[i..];
    } else {
      begun := true;
      piece, i, truncated := WriteSequence(s, at);
    }
  }

  method Sanitize(s: string) returns (text: string)
    ensures text == Sanitized(s)
  {
    hide Out, Seen, Truncated, Terminated, Params, Piece, Next, Opens, WithReset;
    if ESC !in s { return s; }
    text := "";
    var seen, truncated, i, budget := false, false, 0, SCAN_LIMIT;
    assert s[0..] == s;
    while i < |s| && budget > 0
      invariant 0 <= i <= |s|
      invariant text + Out(s[i..], budget) == Out(s, SCAN_LIMIT)
      invariant (seen || Seen(s[i..], budget)) == Seen(s, SCAN_LIMIT)
      invariant (truncated || Truncated(s[i..], budget)) == Truncated(s, SCAN_LIMIT)
      invariant truncated ==> i == |s|
    {
      ScanStep(s[i..], budget);
      Append2(text, Piece(s[i..]), Out(Next(s[i..]), budget - 1));
      var piece, next, begun, cut := WriteStep(s, i);
      budget := budget - 1;
      text := text + piece;
      seen, truncated, i := seen || begun, cut, next;
    }
    ScanEnds(s[i..], budget);
    assert text == text + "" == Out(s, SCAN_LIMIT);
    if !seen || truncated { return text; }
    text := WithReset(text);
  }
}
