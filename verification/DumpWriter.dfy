/** The dump printer that matches the reader. */
module DumpWriter {
  import opened Decimal
  import opened Dump
  import opened Text

  /** One record under construction; its properties and its type's fields are rendered already. */
  datatype Record = Record(
    ref: int, name: string,
    location: int, contents: int, next: int,
    flags: nat,
    props: seq<string>,
    tail: seq<string>)

  /** The times and the use count every record is given. */
  const STAMPS: seq<string> := ["1000000000", "1000000000", "0", "1000000000"]

  function RecordHead(o: Record): seq<string> {
    ["#" + Itoa(o.ref), o.name, Itoa(o.location), Itoa(o.contents), Itoa(o.next), Itoa(o.flags)] + STAMPS
  }

  function PropLines(props: seq<string>): seq<string> {
    if props == [] then [] else [PROPS_BEGIN] + props + [PROPS_END]
  }

  function RecordLines(o: Record): seq<string> {
    RecordHead(o) + PropLines(o.props) + o.tail
  }

  /** The highest record first. */
  function BodyLines(objs: seq<Record>): seq<string> {
    if objs == [] then []
    else RecordLines(objs[|objs| - 1]) + BodyLines(objs[..|objs| - 1])
  }

  function DumpLines(objs: seq<Record>): seq<string> {
    [VERSION, Itoa(|objs|), "0", "0"] + BodyLines(objs) + [END_OF_DUMP]
  }

  /** A strings.Builder holding whole lines. */
  class Builder {
    var text: string
    ghost var lines: seq<string>

    constructor ()
      ensures Valid() && lines == []
    {
      text, lines := "", [];
    }

    ghost predicate Valid()
      reads this
    {
      text == TextOf(lines)
    }

    method WriteLine(s: string)
      requires Valid()
      modifies this
      ensures Valid() && lines == old(lines) + [s]
    {
      TextOfAppend(lines, [s]);
      TextOfOne(s);
      Append2(text, s, "\n");
      text := text + s + "\n";
      lines := lines + [s];
    }

    method WriteLines(all: seq<string>)
      requires Valid()
      modifies this
      ensures Valid() && lines == old(lines) + all
    {
      for k := 0 to |all|
        invariant Valid() && lines == old(lines) + all[..k]
      {
        WriteLine(all[k]);
        assert all[..k + 1] == all[..k] + [all[k]];
      }
      assert all[..|all|] == all;
    }
  }

  method WriteHead(b: Builder, o: Record)
    requires b.Valid()
    modifies b
    ensures b.Valid() && b.lines == old(b.lines) + RecordHead(o)
  {
    hide Itoa, TextOf;
    b.WriteLine("#" + Itoa(o.ref));
    b.WriteLine(o.name);
    b.WriteLine(Itoa(o.location));
    b.WriteLine(Itoa(o.contents));
    b.WriteLine(Itoa(o.next));
    b.WriteLine(Itoa(o.flags));
    b.WriteLines(STAMPS);
  }

  method WriteProps(b: Builder, props: seq<string>)
    requires b.Valid() && props != []
    modifies b
    ensures b.Valid() && b.lines == old(b.lines) + PropLines(props)
  {
    hide Builder.Valid;
    BlockAppends(b.lines, PROPS_BEGIN, props, PROPS_END);
    b.WriteLine(PROPS_BEGIN);
    b.WriteLines(props);
    b.WriteLine(PROPS_END);
  }

  lemma BlockAppends(before: seq<string>, first: string, props: seq<string>, last: string)
    ensures before + [first] + props + [last] == before + ([first] + props + [last])
  {}

  /** The type's fields where no block comes before them: the first takes its place. */
  method WriteTail(b: Builder, tail: seq<string>)
    requires b.Valid() && tail != []
    modifies b
    ensures b.Valid() && b.lines == old(b.lines) + tail
  {
    b.WriteLine(tail[0]);
    b.WriteLines(tail[1..]);
    assert tail == [tail[0]] + tail[1..];
  }

  method WriteRecord(b: Builder, o: Record)
    requires b.Valid() && (o.props == [] ==> o.tail != [])
    modifies b
    ensures b.Valid() && b.lines == old(b.lines) + RecordLines(o)
  {
    hide RecordHead, PropLines, TextOf;
    WriteHead(b, o);
    RecordParts(old(b.lines), o);
    if |o.props| > 0 {
      WriteProps(b, o.props);
    } else {
      WriteTail(b, o.tail);
      return;
    }
    b.WriteLines(o.tail);
  }

  lemma RecordParts(written: seq<string>, o: Record)
    ensures written + RecordLines(o) == written + RecordHead(o) + PropLines(o.props) + o.tail
    ensures o.props == [] ==> written + RecordLines(o) == written + RecordHead(o) + o.tail
  {
    hide RecordHead;
  }

  lemma NoBody()
    ensures BodyLines([]) == []
  {}

  lemma BodyStep(written: seq<string>, objs: seq<Record>, i: nat)
    requires i < |objs|
    ensures (written + RecordLines(objs[i])) + BodyLines(objs[..i]) == written + BodyLines(objs[..i + 1])
  {
    hide RecordLines;
    assert objs[..i + 1][..i] == objs[..i] && objs[..i + 1][i] == objs[i];
  }

  /** writeDump: the text of the dump, each line ended. */
  method WriteDump(objs: seq<Record>) returns (text: string)
    requires forall o :: o in objs && o.props == [] ==> o.tail != []
    ensures text == TextOf(DumpLines(objs))
  {
    hide RecordLines, Itoa, BodyLines;
    var b := new Builder();
    b.WriteLine(VERSION);
    b.WriteLine(Itoa(|objs|));
    b.WriteLine("0");
    b.WriteLine("0");
    ghost var head := [VERSION, Itoa(|objs|), "0", "0"];
    assert objs[..|objs|] == objs;
    for i := |objs| downto 0
      invariant b.Valid()
      invariant b.lines + BodyLines(objs[..i]) == head + BodyLines(objs)
    {
      BodyStep(b.lines, objs, i);
      WriteRecord(b, objs[i]);
    }
    assert b.lines == head + BodyLines(objs) by { NoBody(); }
    b.WriteLine(END_OF_DUMP);
    text := b.text;
  }
}
