/** The program editor: inserting and deleting lines, and the text they are kept as. */
module Editing {
  import opened Text

  // ---------- The buffer ----------

  /** curr is the one-based number of the line that new text goes after. */
  datatype Buffer = Buffer(lines: seq<string>, curr: int)

  /** An empty line is kept as a space, so that a listing shows it. */
  function Kept(line: string): (r: string)
    ensures r != ""
  {
    if line == "" then " " else line
  }

  function InsertAt(lines: seq<string>, i: int, line: string): seq<string>
    requires 0 <= i <= |lines|
  {
    lines[..i] + [line] + lines[i..]
  }

  function Insert(b: Buffer, line: string): Buffer {
    var text := Kept(line);
    if b.lines == [] then Buffer([text], 2)
    else if b.curr == 0 then Buffer(InsertAt(b.lines, 0, text), 1)
    else if b.curr < 0 || b.curr - 1 >= |b.lines| then Buffer(b.lines + [text], |b.lines| + 2)
    else Buffer(InsertAt(b.lines, b.curr, text), b.curr + 1)
  }

  function InsertAll(b: Buffer, typed: seq<string>): Buffer {
    if typed == [] then b else Insert(InsertAll(b, typed[..|typed| - 1]), typed[|typed| - 1])
  }

  /** The lines a range names, and what is left without them. */
  function Delete(b: Buffer, from: int, to: int): Buffer
    requires 1 <= from <= |b.lines| && from <= to
  {
    var last := if to > |b.lines| then |b.lines| else to;
    Buffer(b.lines[..from - 1] + b.lines[last..], from)
  }

  const EXIT_INSERT := "."

  class EditSession {
    var lines: seq<string>
    var curr: int
    /** Whether typed lines are text rather than commands. */
    var insert: bool

    constructor (source: string, at: int)
      ensures View() == Buffer(SplitSource(source), at) && !insert
    {
      lines, curr, insert := SplitSource(source), at, false;
    }

    function View(): Buffer
      reads this
    {
      Buffer(lines, curr)
    }

    /** The insert command, with or without a line number. */
    method BeginInsert(at: int, numbered: bool)
      modifies this
      ensures insert && View() == old(View()).(curr := if numbered then at - 1 else old(curr))
    {
      insert := true;
      if numbered { curr := at - 1; }
    }

    /** A line typed in insert mode. */
    method InsertLine(line: string)
      modifies this
      ensures insert == (old(insert) && !EqualFold(line, EXIT_INSERT))
      ensures View() == if EqualFold(line, EXIT_INSERT) then old(View()) else Insert(old(View()), line)
    {
      if EqualFold(line, EXIT_INSERT) {
        insert := false;
        return;
      }
      var text := Kept(line);
      if |lines| == 0 {
        lines, curr := [text], 2;
      } else if curr == 0 {
        lines, curr := [text] + lines, 1;
      } else if curr < 0 || curr - 1 >= |lines| {
        lines := lines + [text];
        curr := |lines| + 1;
      } else {
        lines := lines[..curr] + [text] + lines[curr..];
        curr := curr + 1;
      }
    }

    /** The delete command: no argument means the current line, one a line, two a range. */
    method DeleteLines(args: seq<nat>) returns (count: Result)
      modifies this`lines, this`curr
      ensures
        var (from, to) := RangeOf(args, old(curr));
        if |args| > 2 || from > to then count == Refused && View() == old(View())
        else if from < 1 || from > |old(lines)| then count == NoLine && View() == old(View())
        else View() == Delete(old(View()), from, to) && count == Deleted(|old(lines)| - |lines|)
    {
      var from, to := RangeOf(args, curr).0, RangeOf(args, curr).1;
      if |args| > 2 || from > to { return Refused; }
      if from < 1 || from > |lines| { return NoLine; }
      curr := from;
      if to > |lines| { to := |lines|; }
      var n := to - from + 1;
      lines := lines[..from - 1] + lines[to..];
      return Deleted(n);
    }
  }

  datatype Result = Refused | NoLine | Deleted(count: int)

  function RangeOf(args: seq<nat>, curr: int): (int, int) {
    if |args| == 0 || |args| > 2 then (curr, curr) else (args[0], args[|args| - 1])
  }

  // ---------- Insert sessions ----------

  /** Where a session's text goes: after the current line if there is one, else at the end. */
  function Place(b: Buffer): (p: nat)
    ensures p <= |b.lines|
  {
    if 0 <= b.curr <= |b.lines| then b.curr else |b.lines|
  }

  function KeptAll(typed: seq<string>): (r: seq<string>)
    ensures |r| == |typed|
  {
    seq(|typed|, k requires 0 <= k < |typed| => Kept(typed[k]))
  }

  lemma OneInserted(b: Buffer, line: string)
    ensures Insert(b, line).lines == InsertAt(b.lines, Place(b), Kept(line))
    ensures Place(Insert(b, line)) == Place(b) + 1
  {
    hide Kept;
    var text := Kept(line);
    if b.lines == [] {
      assert InsertAt([], 0, text) == [text];
    } else if !(0 <= b.curr <= |b.lines|) {
      assert InsertAt(b.lines, |b.lines|, text) == b.lines + [text];
    }
  }

  /** A session of any length, from any current line: the lines typed stand together, in order,
      at the place fixed by where it began, and every line there was is left in order. */
  lemma {:induction false} SessionInserts(b: Buffer, typed: seq<string>)
    ensures InsertAll(b, typed).lines == b.lines[..Place(b)] + KeptAll(typed) + b.lines[Place(b)..]
    ensures Place(InsertAll(b, typed)) == Place(b) + |typed|
  {
    hide Insert, Place, Kept;
    if typed != [] {
      var init, last := typed[..|typed| - 1], typed[|typed| - 1];
      SessionInserts(b, init);
      OneInserted(InsertAll(b, init), last);
      assert KeptAll(typed) == KeptAll(init) + [Kept(last)];
      InsertAfter(b.lines[..Place(b)], KeptAll(init), b.lines[Place(b)..], Kept(last));
    }
  }

  lemma InsertAfter(before: seq<string>, typed: seq<string>, after: seq<string>, line: string)
    ensures InsertAt(before + typed + after, |before| + |typed|, line) == before + (typed + [line]) + after
  {
    assert (before + typed + after)[..|before| + |typed|] == before + typed;
    assert (before + typed + after)[|before| + |typed|..] == after;
  }

  /** Deleting the lines a session put in gives the buffer it began with. */
  lemma DeleteUndoesSession(b: Buffer, typed: seq<string>)
    requires typed != []
    ensures
      var p, after := Place(b), InsertAll(b, typed);
      1 <= p + 1 <= |after.lines| && Delete(after, p + 1, p + |typed|).lines == b.lines
  {
    hide InsertAll, Place, Kept;
    SessionInserts(b, typed);
    var p, after := Place(b), InsertAll(b, typed);
    assert after.lines[..p] == b.lines[..p];
    assert after.lines[p + |typed|..] == b.lines[p..];
    assert b.lines == b.lines[..p] + b.lines[p..];
  }

  // ---------- The stored text ----------

  function DropNewline(s: string): string {
    if s != [] && s[|s| - 1] == '\n' then s[..|s| - 1] else s
  }

  function SplitSource(source: string): seq<string> {
    if source == "" then [] else SplitAt(DropNewline(Unreturn(source)), '\n')
  }

  function JoinSource(lines: seq<string>): string {
    if lines == [] then "" else Join(lines, '\n') + "\n"
  }

  /** A line that is not broken by a newline and does not end in a carriage return. */
  predicate Plain(line: string) {
    '\n' !in line && (line == [] || line[|line| - 1] != '\r')
  }

  ghost predicate AllPlain(lines: seq<string>) {
    forall k :: 0 <= k < |lines| ==> Plain(lines[k])
  }

  lemma {:induction false} LineReturns(line: string, rest: string)
    requires '\n' !in line
    ensures NoReturns(line + "\n" + rest) <==> Plain(line) && NoReturns(rest)
  {
    hide NoReturns;
    var s := line + "\n" + rest;
    NoReturnsStep(s);
    if line == "" {
      assert s[1..] == rest;
    } else {
      assert line[0] in line && (|line| > 1 ==> line[1] in line);
      assert s[1..] == line[1..] + "\n" + rest;
      LineReturns(line[1..], rest);
      assert s[1] == if |line| == 1 then '\n' else line[1];
    }
  }

  lemma {:induction false} TextReturns(lines: seq<string>)
    requires forall k :: 0 <= k < |lines| ==> '\n' !in lines[k]
    ensures NoReturns(TextOf(lines)) <==> AllPlain(lines)
  {
    hide NoReturns, Plain;
    if lines == [] {
      NoReturnsShort("");
    } else {
      LineReturns(lines[0], TextOf(lines[1..]));
      TextReturns(lines[1..]);
      assert forall k :: 1 <= k < |lines| ==> lines[k] == lines[1..][k - 1];
      assert forall k :: 0 <= k < |lines| - 1 ==> lines[1..][k] == lines[k + 1];
    }
  }

  /** Saving a program and opening it again gives the same lines exactly when no line holds a
      newline or ends in a carriage return. */
  lemma SaveAndReopen(lines: seq<string>)
    ensures SplitSource(JoinSource(lines)) == lines <==> AllPlain(lines)
  {
    hide NoReturns, Plain, Unreturn, SplitAt, Join;
    if lines != [] {
      if AllPlain(lines) {
        ReopensPlain(lines);
      }
      if SplitSource(JoinSource(lines)) == lines {
        OnlyPlainReopen(lines);
      }
    }
  }

  lemma PlainLines(lines: seq<string>)
    requires AllPlain(lines)
    ensures forall k :: 0 <= k < |lines| ==> '\n' !in lines[k]
  {}

  lemma ReopensPlain(lines: seq<string>)
    requires lines != [] && AllPlain(lines)
    ensures SplitSource(JoinSource(lines)) == lines
  {
    hide NoReturns, Unreturn, SplitAt, Join, Plain;
    PlainLines(lines);
    TextOfIsJoin(lines);
    TextReturns(lines);
    UnreturnKeeps(TextOf(lines));
    SplitOfJoin(lines, '\n');
    assert DropNewline(JoinSource(lines)) == Join(lines, '\n');
  }

  lemma OnlyPlainReopen(lines: seq<string>)
    requires lines != [] && SplitSource(JoinSource(lines)) == lines
    ensures AllPlain(lines)
  {
    hide NoReturns, Unreturn, Join, Plain;
    var text := JoinSource(lines);
    TextOfIsJoin(lines);
    UnreturnEnds(text);
    JoinOfSplit(DropNewline(Unreturn(text)), '\n');
    assert |Unreturn(text)| == |text|;
    UnreturnKeeps(text);
    TextReturns(lines);
  }

  /** The other way round: opening stored text and saving it again leaves the text as it was,
      but that each carriage return before a newline goes, and a last line gets its newline. */
  lemma OpenAndSave(source: string)
    ensures
      var text := Unreturn(source);
      JoinSource(SplitSource(source)) ==
        if source == "" then ""
        else if text[|text| - 1] == '\n' then text
        else text + "\n"
  {
    hide Unreturn, SplitAt, Join;
    if source != "" {
      var text := Unreturn(source);
      UnreturnSome(source);
      JoinOfSplit(DropNewline(text), '\n');
      if text[|text| - 1] == '\n' { assert text == text[..|text| - 1] + "\n"; }
    }
  }

  lemma UnreturnSome(s: string)
    requires s != ""
    ensures Unreturn(s) != ""
  {}
}
