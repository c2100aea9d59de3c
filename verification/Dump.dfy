/** The dump format: what reading a dump of lines yields. */
module Dump {
  import opened Decimal
  import opened Refs
  import opened Text
  import opened Utf8

  const VERSION := "***Foxen9 TinyMUCK DUMP Format***"
  const END_OF_DUMP := "***END OF DUMP***"
  const PROPS_BEGIN := "*Props*"
  const PROPS_END := "*End*"

  /** A line this long, without its newline, does not fit the reader's buffer. */
  const LINE_LIMIT: nat := 65536
  const MAX_EXIT_DESTS: nat := 4096
  const UINT32_LIMIT: nat := 0x1_0000_0000

  /** What is not modelled further: reading and writing floats and which are zero, what becomes
      of a password field, and which parameter lines can be applied. */
  datatype Formats = Formats(
    readFloat: string -> Option<int>,
    writeFloat: int -> string,
    isZero: int -> bool,
    hash: string -> string,
    accepts: string -> bool)

  // ---------- Lines ----------

  function DropReturn(s: string): string {
    if s != [] && s[|s| - 1] == '\r' then s[..|s| - 1] else s
  }

  /** The lines the buffered reader delivers: none from the first that is too long on. */
  function Lines(text: string): seq<string>
    decreases |text|
  {
    var n := IndexOf(text, '\n');
    if text == [] || n >= LINE_LIMIT then []
    else [DropReturn(text[..n])] + if n < |text| then Lines(text[n + 1..]) else []
  }

  // ---------- Numbers ----------

  datatype Parsed<+T> = Fail | Got(value: T, rest: seq<string>)

  function ReadNumber(lines: seq<string>, limit: int): (r: Parsed<int>)
    ensures r.Got? ==> |r.rest| < |lines| && -limit <= r.value < limit
  {
    if lines == [] then Fail
    else
      match ParseInt(TrimSpace(lines[0]), limit)
      case None => Fail
      case Some(n) => Got(n, lines[1..])
  }

  function ReadNumbers(count: nat, lines: seq<string>, limit: int): (r: Parsed<seq<int>>)
    ensures r.Got? ==> |r.value| == count && |r.rest| <= |lines|
    ensures r.Got? ==> forall k :: 0 <= k < count ==> -limit <= r.value[k] < limit
  {
    if count == 0 then Got([], lines)
    else
      match ReadNumbers(count - 1, lines, limit)
      case Fail => Fail
      case Got(init, rest) =>
        match ReadNumber(rest, limit)
        case Fail => Fail
        case Got(n, rest') => Got(init + [n], rest')
  }

  // ---------- Flags ----------

  predicate BitAt(n: nat, i: nat)
    decreases i
  {
    if i == 0 then n % 2 == 1 else BitAt(n / 2, i - 1)
  }

  function ClearAt(n: nat, i: nat): (r: nat)
    ensures r <= n
    decreases i
  {
    if i == 0 then n - n % 2 else 2 * ClearAt(n / 2, i - 1) + n % 2
  }

  /** The flag bits that describe a live server: a player in the editor, a changed object,
      a listener, a player in a READ, and the mark of the sanity check. */
  const DUMP_BITS: seq<nat> := [21, 22, 26, 28, 29]
  /** The flag bit of a program that is compiled. */
  const INTERNAL_BIT: nat := 7

  function ClearAll(n: nat, bits: seq<nat>): (r: nat)
    ensures r <= n
  {
    if bits == [] then n else ClearAt(ClearAll(n, bits[..|bits| - 1]), bits[|bits| - 1])
  }

  function StoredFlags(raw: int): (r: nat)
    ensures r < UINT32_LIMIT
  {
    ClearAll(raw % UINT32_LIMIT, DUMP_BITS)
  }

  // ---------- Properties ----------

  /** A float is known only by a number that stands for it. */
  datatype PropValue = StringV(str: string) | IntV(num: int) | LockV(lock: string) | RefV(link: Ref) | FloatV(code: int)
  datatype Prop = Prop(value: PropValue, blessed: bool)

  type PropTree = map<seq<string>, Prop>

  /** A path's segments, folded; empty ones do not count. */
  function Segments(path: string): seq<string>
    decreases |path|
  {
    if path == [] then []
    else
      var n := IndexOf(path, '/');
      (if n == 0 then [] else [Fold(path[..n])]) + if n < |path| then Segments(path[n + 1..]) else []
  }

  /** Storing one of these unsets the property instead. */
  predicate IsEmptyValue(io: Formats, v: PropValue) {
    match v
    case StringV(s) => s == ""
    case LockV(s) => s == ""
    case IntV(n) => n == 0
    case RefV(r) => r == NOTHING
    case FloatV(code) => io.isZero(code)
  }

  function Put(io: Formats, props: PropTree, path: string, p: Prop): PropTree {
    var key := Segments(path);
    if key == [] then props else if IsEmptyValue(io, p.value) then props - {key} else props[key := p]
  }

  /** strconv.ParseUint: digits only. */
  function ParseUint(s: string, limit: nat): Option<nat> {
    if s == [] || !AllDigits(s) || Value(s) >= limit then None else Some(Value(s))
  }

  function ParseValue(io: Formats, kind: nat, text: string): Option<PropValue> {
    if kind == 2 then Some(StringV(text))
    else if kind == 4 then Some(LockV(text))
    else if kind == 3 then
      match ParseInt(TrimSpace(text), INT64_LIMIT)
      case None => None
      case Some(n) => Some(IntV(n))
    else if kind == 5 then
      match ParseInt(TrimSpace(text), INT32_LIMIT)
      case None => None
      case Some(n) => Some(RefV(n))
    else if kind == 6 then
      match io.readFloat(text)
      case None => None
      case Some(code) => Some(FloatV(code))
    else None
  }

  const BLESSED_BIT: nat := 12

  /** One "name:flags:value" line. */
  function ParseProp(io: Formats, line: string): Option<(string, Prop)> {
    var n := IndexOf(line, ':');
    if n == |line| then None
    else
      var rest := line[n + 1..];
      var m := IndexOf(rest, ':');
      if m == |rest| then None
      else
        match ParseUint(TrimSpace(rest[..m]), UINT32_LIMIT)
        case None => None
        case Some(flags) =>
          match ParseValue(io, flags % 8, rest[m + 1..])
          case None => None
          case Some(v) => Some((line[..n], Prop(v, BitAt(flags, BLESSED_BIT))))
  }

  /** What a block of property lines leaves, and how many could not be read. */
  datatype Block = Block(props: PropTree, warnings: nat)

  /** Text that is no valid UTF-8 is repaired before it is stored, with a warning. */
  function Repaired(v: PropValue): PropValue {
    match v
    case StringV(s) => if Valid(s) then v else StringV(Repair(s, false))
    case LockV(s) => if Valid(s) then v else LockV(Repair(s, false))
    case _ => v
  }

  function AddLine(io: Formats, b: Block, line: string): Block {
    match ParseProp(io, line)
    case None => b.(warnings := b.warnings + 1)
    case Some((name, p)) =>
      if name == "" then b
      else
        var v := Repaired(p.value);
        Block(Put(io, b.props, name, p.(value := v)), if v == p.value then b.warnings else b.warnings + 1)
  }

  function ParsePropLines(io: Formats, lines: seq<string>, b: Block): (r: Parsed<Block>)
    ensures r.Got? ==> |r.rest| < |lines|
  {
    if lines == [] then Fail
    else if lines[0] == PROPS_END then Got(b, lines[1..])
    else ParsePropLines(io, lines[1..], AddLine(io, b, lines[0]))
  }

  // ---------- Objects ----------

  datatype Object = Object(
    name: string,
    location: Ref, contents: Ref, next: Ref,
    exits: Ref, owner: Ref, home: Ref, dropto: Ref,
    dests: seq<Ref>,
    flags: nat,
    created: int, lastUsed: int, useCount: Ref, modified: int,
    password: string,
    props: PropTree)

  /** An object's type is the low three bits of its flags. */
  function KindOf(flags: nat): Option<Kind> {
    match flags % 8
    case 0 => Some(Room)
    case 1 => Some(Thing)
    case 2 => Some(Exit)
    case 3 => Some(Player)
    case 4 => Some(Program)
    case 6 => Some(Garbage)
    case _ => None
  }

  /** What every record starts with. */
  function ParseBase(lines: seq<string>): (r: Parsed<Object>)
    ensures r.Got? ==> |r.rest| < |lines|
  {
    if lines == [] then Fail
    else
      match ReadNumbers(3, lines[1..], INT32_LIMIT)
      case Fail => Fail
      case Got(links, rest) =>
        match ReadNumbers(5, rest, INT64_LIMIT)
        case Fail => Fail
        case Got(fields, rest') => Got(BaseObject(lines[0], links, fields), rest')
  }

  /** Links that the record does not give start at NOTHING. */
  function BaseObject(name: string, links: seq<int>, fields: seq<int>): Object
    requires |links| == 3 && |fields| == 5
    requires forall k :: 0 <= k < 3 ==> -INT32_LIMIT <= links[k] < INT32_LIMIT
  {
    Object(name, links[0], links[1], links[2], NOTHING, NOTHING, NOTHING, NOTHING, [],
           StoredFlags(fields[0]), fields[1], fields[2], ToRef(fields[3]), fields[4], "", map[])
  }

  /** What follows: a property block, or at once the first link of the type. */
  datatype Middle = Middle(link: Option<Ref>, block: Block)

  function ParseMiddle(io: Formats, lines: seq<string>): (r: Parsed<Middle>)
    ensures r.Got? ==> |r.rest| < |lines|
  {
    if lines != [] && lines[0] != [] && lines[0][0] == '*' then
      if lines[0] != PROPS_BEGIN then Fail
      else
        match ParsePropLines(io, lines[1..], Block(map[], 0))
        case Fail => Fail
        case Got(block, rest) => Got(Middle(None, block), rest)
    else
      match ReadNumber(lines, INT32_LIMIT)
      case Fail => Fail
      case Got(n, rest) => Got(Middle(Some(n), Block(map[], 0)), rest)
  }

  /** Some references, the first of them perhaps read already. */
  function ReadLinks(link: Option<Ref>, count: nat, lines: seq<string>): (r: Parsed<seq<Ref>>)
    requires count > 0
    ensures r.Got? ==> |r.value| == count && |r.rest| <= |lines|
  {
    match link
    case None => AsRefs(ReadNumbers(count, lines, INT32_LIMIT))
    case Some(first) =>
      match ReadNumbers(count - 1, lines, INT32_LIMIT)
      case Fail => Fail
      case Got(others, rest) => Got([first] + RefSeq(others), rest)
  }

  function RefSeq(s: seq<int>): (r: seq<Ref>)
    requires forall k :: 0 <= k < |s| ==> -INT32_LIMIT <= s[k] < INT32_LIMIT
    ensures r == s
  {
    seq(|s|, k requires 0 <= k < |s| => s[k] as Ref)
  }

  function AsRefs(p: Parsed<seq<int>>): (r: Parsed<seq<Ref>>)
    requires p.Got? ==> forall k :: 0 <= k < |p.value| ==> -INT32_LIMIT <= p.value[k] < INT32_LIMIT
    ensures r == p
  {
    match p
    case Fail => Fail
    case Got(v, rest) => Got(RefSeq(v), rest)
  }

  /** The type's own fields. */
  function ParseTail(io: Formats, r: Ref, o: Object, link: Option<Ref>, lines: seq<string>): (p: Parsed<Object>)
    ensures p.Got? ==> |p.rest| <= |lines|
  {
    match KindOf(o.flags)
    case None => Fail
    case Some(Garbage) => Got(o.(owner := NOTHING), lines)
    case Some(Program) =>
      (match ReadLinks(link, 1, lines)
       case Fail => Fail
       case Got(refs, rest) => Got(o.(owner := refs[0], flags := ClearAt(o.flags, INTERNAL_BIT)), rest))
    case Some(Room) =>
      (match ReadLinks(link, 3, lines)
       case Fail => Fail
       case Got(refs, rest) => Got(o.(dropto := refs[0], exits := refs[1], owner := refs[2]), rest))
    case Some(Thing) =>
      (match ReadLinks(link, 3, lines)
       case Fail => Fail
       case Got(refs, rest) => Got(o.(home := refs[0], exits := refs[1], owner := refs[2]), rest))
    case Some(Player) =>
      (match ReadLinks(link, 2, lines)
       case Fail => Fail
       case Got(refs, rest) =>
         if rest == [] then Fail
         else Got(o.(home := refs[0], exits := refs[1], password := io.hash(rest[0]), owner := r), rest[1..]))
    case Some(Exit) => ParseExit(o, link, lines)
  }

  function ParseExit(o: Object, link: Option<Ref>, lines: seq<string>): (p: Parsed<Object>)
    ensures p.Got? ==> |p.rest| <= |lines|
  {
    match ReadLinks(link, 1, lines)
    case Fail => Fail
    case Got(count, rest) =>
      if !(0 <= count[0] <= MAX_EXIT_DESTS) then Fail
      else
        match ReadNumbers(count[0] + 1, rest, INT32_LIMIT)
        case Fail => Fail
        case Got(refs, rest') =>
          Got(o.(dests := RefSeq(refs[..count[0]]), owner := refs[count[0]]), rest')
  }

  // ---------- Dumps ----------

  datatype Report = Report(objects: nat, properties: nat, warnings: nat)
  /** The objects, what was counted, and the parameter lines that were applied, in order. */
  datatype World = World(objects: map<Ref, Object>, report: Report, settings: seq<string>)

  const EMPTY_WORLD := World(map[], Report(0, 0, 0), [])

  function ParseObject(io: Formats, lines: seq<string>, r: Ref, w: World): (p: Parsed<World>)
    ensures p.Got? ==> |p.rest| < |lines|
  {
    match ParseBase(lines)
    case Fail => Fail
    case Got(base, l1) =>
      match ParseMiddle(io, l1)
      case Fail => Fail
      case Got(middle, l2) =>
        match ParseTail(io, r, base.(props := middle.block.props), middle.link, l2)
        case Fail => Fail
        case Got(o, l3) => AddObject(w, r, o, middle.block, l3)
  }

  /** A reference below zero, or one taken already, cannot be added. */
  function AddObject(w: World, r: Ref, o: Object, block: Block, rest: seq<string>): Parsed<World> {
    if r < 0 || r in w.objects then Fail
    else
      Got(World(w.objects[r := o],
                Report(w.report.objects + 1, w.report.properties + |block.props|, w.report.warnings + block.warnings),
                w.settings),
          rest)
  }

  function ParseObjects(io: Formats, lines: seq<string>, w: World): Option<World>
    decreases |lines|
  {
    if lines == [] then None
    else if lines[0] == END_OF_DUMP then Some(w)
    else if lines[0] == [] || lines[0][0] != '#' then None
    else
      match ParseInt(TrimSpace(lines[0][1..]), INT32_LIMIT)
      case None => None
      case Some(r) =>
        match ParseObject(io, lines[1..], r, w)
        case Fail => None
        case Got(w', rest) => ParseObjects(io, rest, w')
  }

  function ReadSetting(io: Formats, lines: seq<string>): (r: Parsed<string>)
    ensures r.Got? ==> |r.rest| < |lines|
  {
    if lines == [] || !io.accepts(lines[0]) then Fail else Got(lines[0], lines[1..])
  }

  /** Each parameter line in turn, until one cannot be applied. */
  function ReadSettings(io: Formats, count: nat, lines: seq<string>): (r: Parsed<seq<string>>)
    ensures r.Got? ==> |r.rest| <= |lines|
  {
    if count == 0 then Got([], lines)
    else
      match ReadSettings(io, count - 1, lines)
      case Fail => Fail
      case Got(init, rest) =>
        match ReadSetting(io, rest)
        case Fail => Fail
        case Got(line, rest') => Got(init + [line], rest')
  }

  /** The parameters are read exactly when there are enough lines and each can be applied,
      and then they are those lines. */
  lemma {:induction false} SettingsAre(io: Formats, count: nat, lines: seq<string>)
    ensures
      var r := ReadSettings(io, count, lines);
      && (r.Got? <==> count <= |lines| && forall k :: 0 <= k < count ==> io.accepts(lines[k]))
      && (r.Got? ==> r.value == lines[..count] && r.rest == lines[count..])
    decreases count
  {
    if count > 0 {
      SettingsAre(io, count - 1, lines);
      if ReadSettings(io, count - 1, lines).Got? && count <= |lines| {
        assert lines[count - 1..][1..] == lines[count..];
        assert lines[..count] == lines[..count - 1] + [lines[count - 1]];
      }
    }
  }

  /** The version, two numbers that are ignored, and the parameters. */
  function ParseHeader(io: Formats, lines: seq<string>): (r: Parsed<seq<string>>)
    ensures r.Got? ==> |r.rest| < |lines|
  {
    if lines == [] || lines[0] != VERSION then Fail
    else
      match ReadNumbers(3, lines[1..], INT64_LIMIT)
      case Fail => Fail
      case Got(counts, rest) =>
        ReadSettings(io, if counts[2] < 0 then 0 else counts[2], rest)
  }

  function ParseDump(io: Formats, lines: seq<string>): Option<World> {
    match ParseHeader(io, lines)
    case Fail => None
    case Got(settings, rest) => ParseObjects(io, rest, EMPTY_WORLD.(settings := settings))
  }
}
