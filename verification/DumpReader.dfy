/** The reader as the importer runs it: a scanner with one line of look-ahead, and the loops
    that fill in each object. */
module DumpReader {
  import opened Decimal
  import opened Dump
  import opened Refs
  import opened Text

  class Scanner {
    /** The text not read yet. */
    var rest: string
    /** How many lines have been taken; errors name it. */
    var line: nat
    var peeked: string
    var hasPeek: bool
    ghost const all: seq<string>

    constructor (text: string)
      ensures Valid() && all == Lines(text) && line == 0
    {
      hide Lines;
      rest, line, peeked, hasPeek, all := text, 0, "", false, Lines(text);
    }

    /** The scanner stands at the line it says it does. */
    ghost predicate Valid()
      reads this
    {
      && line <= |all|
      && Remaining() == (if hasPeek then [peeked] else []) + Lines(rest)
    }

    ghost function Remaining(): seq<string>
      reads this
      requires line <= |all|
    {
      all[line..]
    }

    /** bufio.Scanner.Scan: the next line of the text, its newline and return dropped. */
    method Scan() returns (s: string, ok: bool)
      modifies this`rest
      ensures ok == (Lines(old(rest)) != [])
      ensures if ok then Lines(old(rest)) == [s] + Lines(rest) else Lines(rest) == []
    {
      var n := IndexOf(rest, '\n');
      if |rest| == 0 || n >= LINE_LIMIT {
        return "", false;
      }
      s, ok := DropReturn(rest[..n]), true;
      rest := if n < |rest| then rest[n + 1..] else "";
    }

    method Next() returns (s: string, ok: bool)
      requires Valid()
      modifies this
      ensures Valid() && ok == (old(Remaining()) != [])
      ensures if ok then s == old(Remaining())[0] && line == old(line) + 1 else line == old(line)
    {
      hide Lines;
      if hasPeek {
        hasPeek := false;
        line := line + 1;
        assert Remaining() == old(Remaining())[1..];
        return peeked, true;
      }
      s, ok := Scan();
      if ok {
        line := line + 1;
        assert Remaining() == old(Remaining())[1..];
      }
    }

    /** Looking ahead changes neither what comes next nor where the scanner stands. */
    method Peek() returns (s: string, ok: bool)
      requires Valid()
      modifies this
      ensures Valid() && ok == (Remaining() != []) && (ok ==> s == Remaining()[0])
      ensures line == old(line)
    {
      hide Lines;
      if hasPeek { return peeked, true; }
      s, ok := Scan();
      if ok { peeked, hasPeek := s, true; }
    }

    /** ref and int64: a line as a number. */
    method ReadInt(limit: int) returns (r: Option<int>)
      requires Valid()
      modifies this
      ensures Valid() && Took(ReadNumber(old(Remaining()), limit), r)
    {
      var s, ok := Next();
      if !ok { return None; }
      return ParseInt(TrimSpace(s), limit);
    }

    /** What was read is what the lines yield, and the scanner is just past it; after a
        failure nothing more is read. */
    ghost predicate Took<T>(p: Parsed<T>, r: Option<T>)
      reads this
      requires line <= |all|
    {
      match p
      case Fail => r.None?
      case Got(v, rest) => r == Some(v) && Remaining() == rest
    }

    /** One parameter, if there is a line left and it can be applied. */
    method ReadParam(io: Formats) returns (r: Option<string>)
      requires Valid()
      modifies this
      ensures Valid() && Took(ReadSetting(io, old(Remaining())), r)
    {
      var line, more := Next();
      if !more || !io.accepts(line) { return None; }
      return Some(line);
    }

    method ReadInts(count: nat, limit: int) returns (r: Option<seq<int>>)
      requires Valid()
      modifies this
      ensures Valid() && Took(ReadNumbers(count, old(Remaining()), limit), r)
    {
      hide ReadNumber;
      var got := [];
      for k := 0 to count
        invariant Valid() && Took(ReadNumbers(k, old(Remaining()), limit), Some(got))
      {
        var n := ReadInt(limit);
        if n.None? {
          FailsOn(k + 1, count, old(Remaining()), limit);
          return None;
        }
        got := got + [n.value];
      }
      return Some(got);
    }
  }

  lemma {:induction false} FailsOn(k: nat, count: nat, lines: seq<string>, limit: int)
    requires k <= count && ReadNumbers(k, lines, limit).Fail?
    ensures ReadNumbers(count, lines, limit).Fail?
    decreases count
  {
    if k < count { FailsOn(k, count - 1, lines, limit); }
  }

  lemma PropStep(io: Formats, lines: seq<string>, b: Block)
    ensures ParsePropLines(io, lines, b) ==
      if lines == [] then Fail
      else if lines[0] == PROPS_END then Got(b, lines[1..])
      else ParsePropLines(io, lines[1..], AddLine(io, b, lines[0]))
  {
    hide AddLine;
  }

  /** The property lines, up to the mark that ends them. */
  method ReadPropLines(io: Formats, s: Scanner) returns (r: Option<Block>)
    requires s.Valid()
    modifies s
    ensures s.Valid() && s.Took(ParsePropLines(io, old(s.Remaining()), Block(map[], 0)), r)
  {
    hide AddLine, ParsePropLines;
    ghost var start := s.Remaining();
    var block := Block(map[], 0);
    while true
      invariant s.Valid()
      invariant ParsePropLines(io, s.Remaining(), block) == ParsePropLines(io, start, Block(map[], 0))
      decreases |s.all| - s.line
    {
      PropStep(io, s.Remaining(), block);
      var line, ok := s.Next();
      if !ok { return None; }
      if line == PROPS_END { return Some(block); }
      block := AddLine(io, block, line);
    }
  }

  /** parseProps, once the first line has been seen. */
  method ReadProps(io: Formats, s: Scanner) returns (r: Option<Block>)
    requires s.Valid() && s.Remaining() != []
    modifies s
    ensures s.Valid()
    ensures old(s.Remaining())[0] != PROPS_BEGIN ==> r.None?
    ensures old(s.Remaining())[0] == PROPS_BEGIN ==>
      s.Took(ParsePropLines(io, old(s.Remaining())[1..], Block(map[], 0)), r)
  {
    hide ParsePropLines;
    var first, _ := s.Next();
    if first != PROPS_BEGIN { return None; }
    r := ReadPropLines(io, s);
  }

  /** What comes between a record's head and its type's fields. */
  method ReadMiddle(io: Formats, s: Scanner) returns (r: Option<Middle>)
    requires s.Valid()
    modifies s
    ensures s.Valid() && s.Took(ParseMiddle(io, old(s.Remaining())), r)
  {
    hide ReadNumber, ParsePropLines;
    var line, ok := s.Peek();
    if ok && line != [] && line[0] == '*' {
      var block := ReadProps(io, s);
      if block.None? { return None; }
      return Some(Middle(None, block.value));
    }
    var n := s.ReadInt(INT32_LIMIT);
    if n.None? { return None; }
    return Some(Middle(Some(n.value), Block(map[], 0)));
  }

  /** readLink and the references after it. */
  method ReadLinksOf(s: Scanner, link: Option<Ref>, count: nat) returns (r: Option<seq<Ref>>)
    requires s.Valid() && count > 0
    modifies s
    ensures s.Valid() && s.Took(ReadLinks(link, count, old(s.Remaining())), r)
  {
    hide ReadNumbers;
    if link.None? {
      var all := s.ReadInts(count, INT32_LIMIT);
      if all.None? { return None; }
      return Some(RefSeq(all.value));
    }
    var others := s.ReadInts(count - 1, INT32_LIMIT);
    if others.None? { return None; }
    return Some([link.value] + RefSeq(others.value));
  }

  method ReadBase(s: Scanner) returns (r: Option<Object>)
    requires s.Valid()
    modifies s
    ensures s.Valid() && s.Took(ParseBase(old(s.Remaining())), r)
  {
    hide ReadNumbers, StoredFlags;
    var name, ok := s.Next();
    if !ok { return None; }
    var links := s.ReadInts(3, INT32_LIMIT);
    if links.None? { return None; }
    var fields := s.ReadInts(5, INT64_LIMIT);
    if fields.None? { return None; }
    return Some(BaseObject(name, links.value, fields.value));
  }

  method ReadExit(s: Scanner, o: Object, link: Option<Ref>) returns (r: Option<Object>)
    requires s.Valid()
    modifies s
    ensures s.Valid() && s.Took(ParseExit(o, link, old(s.Remaining())), r)
  {
    hide ReadNumbers, ReadLinks, RefSeq;
    var count := ReadLinksOf(s, link, 1);
    if count.None? || count.value[0] < 0 || count.value[0] > MAX_EXIT_DESTS { return None; }
    var refs := s.ReadInts(count.value[0] + 1, INT32_LIMIT);
    if refs.None? { return None; }
    return Some(o.(dests := RefSeq(refs.value[..count.value[0]]), owner := refs.value[count.value[0]]));
  }

  method ReadTail(io: Formats, s: Scanner, r: Ref, o: Object, link: Option<Ref>) returns (done: Option<Object>)
    requires s.Valid()
    modifies s
    ensures s.Valid() && s.Took(ParseTail(io, r, o, link, old(s.Remaining())), done)
  {
    hide ReadLinks, ParseExit, ClearAt;
    var kind := KindOf(o.flags);
    if kind.None? { return None; }
    match kind.value {
      case Garbage => return Some(o.(owner := NOTHING));
      case Exit => done := ReadExit(s, o, link);
      case Program =>
        var refs := ReadLinksOf(s, link, 1);
        if refs.None? { return None; }
        return Some(o.(owner := refs.value[0], flags := ClearAt(o.flags, INTERNAL_BIT)));
      case Room =>
        var refs := ReadLinksOf(s, link, 3);
        if refs.None? { return None; }
        return Some(o.(dropto := refs.value[0], exits := refs.value[1], owner := refs.value[2]));
      case Thing =>
        var refs := ReadLinksOf(s, link, 3);
        if refs.None? { return None; }
        return Some(o.(home := refs.value[0], exits := refs.value[1], owner := refs.value[2]));
      case Player =>
        var refs := ReadLinksOf(s, link, 2);
        if refs.None? { return None; }
        var password, ok := s.Next();
        if !ok { return None; }
        return Some(o.(home := refs.value[0], exits := refs.value[1], password := io.hash(password), owner := r));
    }
  }

  /** parseObject and World.Add. */
  method ReadObject(io: Formats, s: Scanner, r: Ref, w: World) returns (w': Option<World>)
    requires s.Valid()
    modifies s
    ensures s.Valid() && s.Took(ParseObject(io, old(s.Remaining()), r, w), w')
  {
    hide ParseBase, ParseMiddle, ParseTail;
    var base := ReadBase(s);
    if base.None? { return None; }
    var middle := ReadMiddle(io, s);
    if middle.None? { return None; }
    var block := middle.value.block;
    var o := ReadTail(io, s, r, base.value.(props := block.props), middle.value.link);
    if o.None? || r < 0 || r in w.objects { return None; }
    var rep := w.report;
    return Some(World(w.objects[r := o.value],
                      Report(rep.objects + 1, rep.properties + |block.props|, rep.warnings + block.warnings),
                      w.settings));
  }

  /** The parameter block: each line is applied in turn. */
  method ReadParams(io: Formats, s: Scanner, count: int) returns (settings: Option<seq<string>>)
    requires s.Valid()
    modifies s
    ensures s.Valid() && s.Took(ReadSettings(io, if count < 0 then 0 else count, old(s.Remaining())), settings)
  {
    hide ReadSetting;
    var applied := [];
    if count <= 0 { return Some(applied); }
    for i := 0 to count
      invariant s.Valid() && s.Took(ReadSettings(io, i, old(s.Remaining())), Some(applied))
    {
      var line := s.ReadParam(io);
      if line.None? {
        RefusalStays(io, i + 1, count, old(s.Remaining()));
        return None;
      }
      applied := applied + [line.value];
    }
    return Some(applied);
  }

  /** A line that is missing or cannot be applied ends the load, whatever follows. */
  lemma {:induction false} RefusalStays(io: Formats, i: nat, count: nat, lines: seq<string>)
    requires i <= count && ReadSettings(io, i, lines).Fail?
    ensures ReadSettings(io, count, lines).Fail?
    decreases count
  {
    if i < count { RefusalStays(io, i, count - 1, lines); }
  }

  /** parseHeader. */
  method ReadHeader(io: Formats, s: Scanner) returns (settings: Option<seq<string>>)
    requires s.Valid()
    modifies s
    ensures s.Valid() && s.Took(ParseHeader(io, old(s.Remaining())), settings)
  {
    hide ReadNumbers, ReadSettings;
    var version, any := s.Next();
    if !any || version != VERSION { return None; }
    var counts := s.ReadInts(3, INT64_LIMIT);
    if counts.None? { return None; }
    settings := ReadParams(io, s, counts.value[2]);
  }

  /** The object a header line begins, if it is one. */
  function HeaderRef(line: string): Option<Ref> {
    if line == [] || line[0] != '#' then None
    else
      match ParseInt(TrimSpace(line[1..]), INT32_LIMIT)
      case None => None
      case Some(r) => Some(r)
  }

  lemma ObjectsStep(io: Formats, lines: seq<string>, w: World)
    requires lines != [] && lines[0] != END_OF_DUMP
    ensures ParseObjects(io, lines, w) ==
      match HeaderRef(lines[0])
      case None => None
      case Some(r) =>
        match ParseObject(io, lines[1..], r, w)
        case Fail => None
        case Got(w', rest) => ParseObjects(io, rest, w')
  {
    hide ParseObject, TrimSpace, ParseInt;
  }

  /** The record loop of Parse. */
  method ReadObjects(io: Formats, s: Scanner, start: World) returns (w: Option<World>)
    requires s.Valid()
    modifies s
    ensures w == ParseObjects(io, old(s.Remaining()), start)
  {
    hide ParseObject, ParseObjects, HeaderRef;
    ghost var lines := s.Remaining();
    var world := start;
    while true
      invariant s.Valid() && ParseObjects(io, lines, start) == ParseObjects(io, s.Remaining(), world)
      decreases |s.all| - s.line
    {
      EndsAt(io, s.Remaining(), world);
      if s.Remaining() != [] && s.Remaining()[0] != END_OF_DUMP { ObjectsStep(io, s.Remaining(), world); }
      var line, any := s.Next();
      if !any { return None; }
      if line == END_OF_DUMP { return Some(world); }
      var r := HeaderRef(line);
      if r.None? { return None; }
      var next := ReadObject(io, s, r.value, world);
      if next.None? { return None; }
      world := next.value;
    }
  }

  lemma EndsAt(io: Formats, lines: seq<string>, w: World)
    ensures lines == [] ==> ParseObjects(io, lines, w) == None
    ensures lines != [] && lines[0] == END_OF_DUMP ==> ParseObjects(io, lines, w) == Some(w)
  {
    hide ParseObject;
  }

  /** Parse: the whole dump. */
  method ReadDump(io: Formats, text: string) returns (w: Option<World>)
    ensures w == ParseDump(io, Lines(text))
  {
    hide ParseObjects, ParseHeader, Lines;
    var s := new Scanner(text);
    assert s.Remaining() == Lines(text);
    var settings := ReadHeader(io, s);
    if settings.None? { return None; }
    w := ReadObjects(io, s, EMPTY_WORLD.(settings := settings.value));
  }
}
