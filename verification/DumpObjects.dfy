/** Whole records: what the reader makes of each object the writer writes. */
module DumpObjects {
  import opened Decimal
  import opened Dump
  import opened DumpWriter
  import opened DumpRoundTrip
  import opened Refs
  import opened Text

  /** The fields a type adds to every record's own. */
  datatype Fields =
    | RoomFields(dropto: Ref, exits: Ref, owner: Ref)
    | ThingFields(home: Ref, exits: Ref, owner: Ref)
    | ExitFields(dests: seq<Ref>, owner: Ref)
    | PlayerFields(home: Ref, exits: Ref, password: string)
    | ProgramFields(owner: Ref)

  datatype Entry = Entry(
    ref: Ref, name: string,
    location: Ref, contents: Ref, next: Ref,
    flags: nat,
    props: seq<PropEntry>,
    fields: Fields)

  function KindOfFields(f: Fields): Kind {
    match f
    case RoomFields(_, _, _) => Room
    case ThingFields(_, _, _) => Thing
    case ExitFields(_, _) => Exit
    case PlayerFields(_, _, _) => Player
    case ProgramFields(_) => Program
  }

  /** The type-specific lines; an exit's count is that of its list. */
  function FieldLines(f: Fields): (r: seq<string>)
    ensures r != []
  {
    match f
    case RoomFields(dropto, exits, owner) => NumLines([dropto, exits, owner])
    case ThingFields(home, exits, owner) => NumLines([home, exits, owner])
    case ExitFields(dests, owner) => NumLines([|dests|]) + NumLines(dests + [owner])
    case PlayerFields(home, exits, password) => NumLines([home, exits]) + [password]
    case ProgramFields(owner) => NumLines([owner])
  }

  function RecordOf(io: Formats, e: Entry): Record {
    Record(e.ref, e.name, e.location, e.contents, e.next, e.flags, Rendered(io, e.props), FieldLines(e.fields))
  }

  function RecordsOf(io: Formats, es: seq<Entry>): (r: seq<Record>)
    ensures |r| == |es|
  {
    seq(|es|, k requires 0 <= k < |es| => RecordOf(io, es[k]))
  }

  predicate WellFormed(io: Formats, e: Entry) {
    && e.ref >= 0
    && Clean(e.name)
    && e.flags < UINT32_LIMIT && KindOf(e.flags) == Some(KindOfFields(e.fields))
    && (forall p :: p in e.props ==> WellFormedProp(io, p))
    && (e.fields.PlayerFields? ==> Clean(e.fields.password))
    && (e.fields.ExitFields? ==> |e.fields.dests| <= MAX_EXIT_DESTS)
  }

  /** The object an entry describes: what the dump says, and NOTHING for every link it does
      not have. A player owns itself. */
  function ObjectOf(io: Formats, e: Entry): Object {
    var o := Object(e.name, e.location, e.contents, e.next, NOTHING, NOTHING, NOTHING, NOTHING, [],
                    StoredFlags(e.flags), 1000000000, 1000000000, 0, 1000000000, "", StoredProps(io, e.props));
    match e.fields
    case RoomFields(dropto, exits, owner) => o.(dropto := dropto, exits := exits, owner := owner)
    case ThingFields(home, exits, owner) => o.(home := home, exits := exits, owner := owner)
    case ExitFields(dests, owner) => o.(dests := dests, owner := owner)
    case PlayerFields(home, exits, password) => o.(home := home, exits := exits, password := io.hash(password), owner := e.ref)
    case ProgramFields(owner) => o.(owner := owner, flags := ClearAt(o.flags, INTERNAL_BIT))
  }

  /** The object before its type's fields are read. */
  function BaseOf(e: Entry): Object {
    BaseObject(e.name, [e.location, e.contents, e.next], [e.flags, 1000000000, 1000000000, 0, 1000000000])
  }

  lemma Stamps()
    ensures NumLines([1000000000, 1000000000, 0, 1000000000]) == STAMPS
  {
    hide Digits;
    BillionDigits();
    assert Digits(0) == "0" by { ZeroDigits(); }
  }

  lemma BillionDigits()
    ensures Digits(1000000000) == "1000000000"
  {
    assert Digits(100000) == "100000";
  }

  lemma ZeroDigits()
    ensures Digits(0) == "0"
  {}

  lemma HeadLines(io: Formats, e: Entry)
    ensures RecordHead(RecordOf(io, e)) ==
      ["#" + Itoa(e.ref), e.name]
        + NumLines([e.location, e.contents, e.next])
        + NumLines([e.flags, 1000000000, 1000000000, 0, 1000000000])
  {
    hide Itoa;
    Stamps();
    assert NumLines([e.flags, 1000000000, 1000000000, 0, 1000000000]) ==
      [Itoa(e.flags)] + NumLines([1000000000, 1000000000, 0, 1000000000]);
    assert NumLines([e.location, e.contents, e.next]) == [Itoa(e.location), Itoa(e.contents), Itoa(e.next)];
  }

  lemma BaseBack(io: Formats, e: Entry, rest: seq<string>)
    requires WellFormed(io, e)
    ensures ParseBase(RecordHead(RecordOf(io, e))[1..] + rest) == Got(BaseOf(e), rest)
  {
    hide Itoa, BaseObject, RecordHead, ReadNumbers, NumLines, WellFormed;
    HeadLines(io, e);
    FlagsFit(io, e);
    var links, fields := [e.location, e.contents, e.next], [e.flags, 1000000000, 1000000000, 0, 1000000000];
    var lines := RecordHead(RecordOf(io, e))[1..] + rest;
    assert lines == [e.name] + (NumLines(links) + (NumLines(fields) + rest));
    NumbersBack(links, NumLines(fields) + rest, INT32_LIMIT);
    NumbersBack(fields, rest, INT64_LIMIT);
    assert lines[1..] == NumLines(links) + (NumLines(fields) + rest);
  }

  lemma FlagsFit(io: Formats, e: Entry)
    requires WellFormed(io, e)
    ensures e.flags < UINT32_LIMIT
  {}

  /** With a property block the type's fields all follow it. */
  lemma BlockBack(io: Formats, ps: seq<PropEntry>, rest: seq<string>)
    requires ps != [] && forall p :: p in ps ==> WellFormedProp(io, p)
    ensures ParseMiddle(io, PropLines(Rendered(io, ps)) + rest) == Got(Middle(None, Block(StoredProps(io, ps), 0)), rest)
  {
    hide ParsePropLines, PropLine, WellFormedProp;
    var lines := PropLines(Rendered(io, ps)) + rest;
    assert lines == [PROPS_BEGIN] + (Rendered(io, ps) + [PROPS_END] + rest);
    assert lines[1..] == Rendered(io, ps)[0..] + [PROPS_END] + rest;
    assert ps[..0] == [];
    PropLinesBack(io, ps, 0, rest);
  }

  /** Without one, the first of them is read in its place. */
  lemma LinkBack(io: Formats, n: Ref, rest: seq<string>)
    ensures ParseMiddle(io, [Itoa(n)] + rest) == Got(Middle(Some(n), Block(map[], 0)), rest)
  {
    hide ReadNumber, ParsePropLines;
    NumberBack(n, rest, INT32_LIMIT);
    ItoaCharacters(n);
    assert Itoa(n)[0] in Itoa(n);
  }

  lemma LinksBack(refs: seq<Ref>, skipped: bool, rest: seq<string>)
    requires refs != []
    ensures ReadLinks(if skipped then Some(refs[0]) else None, |refs|,
                      (if skipped then NumLines(refs)[1..] else NumLines(refs)) + rest) == Got(refs, rest)
  {
    hide ReadNumbers, Itoa;
    if skipped {
      assert NumLines(refs)[1..] == NumLines(refs[1..]);
      NumbersBack(refs[1..], rest, INT32_LIMIT);
      assert refs == [refs[0]] + refs[1..];
    } else {
      NumbersBack(refs, rest, INT32_LIMIT);
    }
  }

  /** The number on the first of a type's lines. */
  function FirstLink(f: Fields): (r: int)
    ensures FieldLines(f)[0] == Itoa(r)
  {
    match f
    case RoomFields(dropto, _, _) => dropto
    case ThingFields(home, _, _) => home
    case ExitFields(dests, _) => |dests|
    case PlayerFields(home, _, _) => home
    case ProgramFields(owner) => owner
  }

  /** The lines that are left once the first has perhaps been read. */
  function LeftLines(f: Fields, skipped: bool): seq<string> {
    if skipped then FieldLines(f)[1..] else FieldLines(f)
  }

  function LeftLink(f: Fields, skipped: bool): Option<Ref>
    requires f.ExitFields? ==> |f.dests| <= MAX_EXIT_DESTS
  {
    if skipped then Some(FirstLink(f)) else None
  }

  lemma ExitBack(e: Entry, o: Object, skipped: bool, rest: seq<string>)
    requires e.fields.ExitFields? && |e.fields.dests| <= MAX_EXIT_DESTS
    ensures ParseExit(o, LeftLink(e.fields, skipped), LeftLines(e.fields, skipped) + rest)
         == Got(o.(dests := e.fields.dests, owner := e.fields.owner), rest)
  {
    hide ReadNumbers, ReadLinks, Itoa;
    var dests, owner := e.fields.dests, e.fields.owner;
    var count: seq<Ref> := [|dests|];
    var all := dests + [owner];
    var l := NumLines(count);
    assert LeftLines(e.fields, skipped) + rest == (if skipped then l[1..] else l) + (NumLines(all) + rest);
    LinksBack(count, skipped, NumLines(all) + rest);
    NumbersBack(all, rest, INT32_LIMIT);
    assert all[..|dests|] == dests;
  }

  lemma PlayerBack(e: Entry, skipped: bool, rest: seq<string>)
    requires e.fields.PlayerFields?
    ensures ReadLinks(LeftLink(e.fields, skipped), 2, LeftLines(e.fields, skipped) + rest)
         == Got([e.fields.home, e.fields.exits], [e.fields.password] + rest)
  {
    hide ReadLinks, NumLines, Itoa;
    var links := [e.fields.home, e.fields.exits];
    var l := NumLines(links);
    assert LeftLines(e.fields, skipped) + rest == (if skipped then l[1..] else l) + ([e.fields.password] + rest);
    LinksBack(links, skipped, [e.fields.password] + rest);
  }

  /** The type's fields read back, whether or not the first of them was read before. */
  lemma TailBack(io: Formats, e: Entry, o: Object, skipped: bool, rest: seq<string>)
    requires WellFormed(io, e) && o == BaseOf(e).(props := StoredProps(io, e.props))
    ensures ParseTail(io, e.ref, o, LeftLink(e.fields, skipped), LeftLines(e.fields, skipped) + rest)
         == Got(ObjectOf(io, e), rest)
  {
    hide ReadNumbers, ReadLinks, ParseExit, Itoa, StoredProps, ClearAll, ClearAt, NumLines;
    StoredKind(e.flags);
    match e.fields
    case RoomFields(dropto, exits, owner) => LinksBack([dropto, exits, owner], skipped, rest);
    case ThingFields(home, exits, owner) => LinksBack([home, exits, owner], skipped, rest);
    case ExitFields(dests, owner) => ExitBack(e, o, skipped, rest);
    case PlayerFields(home, exits, password) => PlayerBack(e, skipped, rest);
    case ProgramFields(owner) => LinksBack([owner], skipped, rest);
  }

  // ---------- Records and dumps ----------

  function Loaded(io: Formats, w: World, e: Entry): World {
    World(w.objects[e.ref := ObjectOf(io, e)],
          Report(w.report.objects + 1, w.report.properties + |StoredProps(io, e.props)|, w.report.warnings),
          w.settings)
  }

  /** What follows the head of a record, read as far as its type's fields. */
  lemma MiddleBack(io: Formats, e: Entry, rest: seq<string>)
    requires WellFormed(io, e)
    ensures
      var skipped := e.props == [];
      ParseMiddle(io, PropLines(Rendered(io, e.props)) + FieldLines(e.fields) + rest)
      == Got(Middle(LeftLink(e.fields, skipped), Block(StoredProps(io, e.props), 0)), LeftLines(e.fields, skipped) + rest)
  {
    hide ParseMiddle, PropLine, WellFormedProp, FieldLines, Itoa;
    var lines := PropLines(Rendered(io, e.props)) + FieldLines(e.fields) + rest;
    if e.props == [] {
      assert lines == [Itoa(FirstLink(e.fields))] + (FieldLines(e.fields)[1..] + rest);
      LinkBack(io, FirstLink(e.fields), FieldLines(e.fields)[1..] + rest);
    } else {
      assert lines == PropLines(Rendered(io, e.props)) + (FieldLines(e.fields) + rest);
      BlockBack(io, e.props, FieldLines(e.fields) + rest);
    }
  }

  lemma ObjectBack(io: Formats, e: Entry, w: World, rest: seq<string>)
    requires WellFormed(io, e) && e.ref !in w.objects
    ensures ParseObject(io, RecordLines(RecordOf(io, e))[1..] + rest, e.ref, w) == Got(Loaded(io, w, e), rest)
  {
    hide ParseBase, ParseMiddle, ParseTail, BaseOf, ObjectOf, StoredProps, WellFormed, RecordOf, RecordLines, RecordHead,
      FieldLines, PropLines, LeftLines, LeftLink, Rendered;
    var middle := PropLines(Rendered(io, e.props)) + FieldLines(e.fields) + rest;
    var skipped := e.props == [];
    BodyIs(io, e, rest);
    RefIsFree(io, e);
    BaseBack(io, e, middle);
    MiddleBack(io, e, rest);
    TailBack(io, e, BaseOf(e).(props := StoredProps(io, e.props)), skipped, rest);
  }

  /** The lines of a record after the first: the rest of its head, and then all that follows. */
  lemma BodyIs(io: Formats, e: Entry, rest: seq<string>)
    ensures RecordLines(RecordOf(io, e)) != [] && RecordHead(RecordOf(io, e)) != []
    ensures RecordLines(RecordOf(io, e))[1..] + rest ==
      RecordHead(RecordOf(io, e))[1..] + (PropLines(Rendered(io, e.props)) + FieldLines(e.fields) + rest)
  {
    hide RecordHead, PropLines, FieldLines, Rendered;
    HeadIsLong(RecordOf(io, e));
    BehindHead(RecordHead(RecordOf(io, e)), PropLines(Rendered(io, e.props)), FieldLines(e.fields), rest);
  }

  lemma BehindHead(head: seq<string>, props: seq<string>, tail: seq<string>, rest: seq<string>)
    requires head != []
    ensures (head + props + tail)[1..] + rest == head[1..] + (props + tail + rest)
  {}

  lemma HeadIsLong(o: Record)
    ensures RecordHead(o) != [] && RecordHead(o)[0] == "#" + Itoa(o.ref)
  {
    hide Itoa;
  }

  lemma RefIsFree(io: Formats, e: Entry)
    requires WellFormed(io, e)
    ensures e.ref >= 0
  {}

  function LoadedAll(io: Formats, es: seq<Entry>, w: World): World {
    if es == [] then w else LoadedAll(io, es[..|es| - 1], Loaded(io, w, es[|es| - 1]))
  }

  predicate DistinctRefs(es: seq<Entry>) {
    forall i, j :: 0 <= i < j < |es| ==> es[i].ref != es[j].ref
  }

  lemma HeaderLine(r: Ref)
    ensures
      var line := "#" + Itoa(r);
      && line != END_OF_DUMP && line[0] == '#'
      && ParseInt(TrimSpace(line[1..]), INT32_LIMIT) == Some(r)
  {
    TrimItoa(r);
    ParseIntOfItoa(r, INT32_LIMIT);
    assert ("#" + Itoa(r))[1..] == Itoa(r);
    assert END_OF_DUMP[0] == '*';
  }

  lemma {:induction false} ObjectsBack(io: Formats, es: seq<Entry>, w: World)
    requires DistinctRefs(es) && forall e :: e in es ==> WellFormed(io, e) && e.ref !in w.objects
    ensures ParseObjects(io, BodyLines(RecordsOf(io, es)) + [END_OF_DUMP], w) == Some(LoadedAll(io, es, w))
    decreases |es|
  {
    hide RecordLines, RecordOf, WellFormed, ParseObject, Itoa, ObjectOf;
    if es == [] {
      assert BodyLines(RecordsOf(io, es)) + [END_OF_DUMP] == [END_OF_DUMP];
    } else {
      var init, e := es[..|es| - 1], es[|es| - 1];
      var rest := BodyLines(RecordsOf(io, init)) + [END_OF_DUMP];
      var lines := BodyLines(RecordsOf(io, es)) + [END_OF_DUMP];
      assert e in es;
      assert RecordsOf(io, es)[..|es| - 1] == RecordsOf(io, init);
      assert lines == RecordLines(RecordOf(io, e)) + rest;
      RecordStart(io, e);
      assert lines[1..] == RecordLines(RecordOf(io, e))[1..] + rest;
      HeaderLine(e.ref);
      ObjectBack(io, e, w, rest);
      ObjectsBack(io, init, Loaded(io, w, e));
    }
  }

  lemma RecordStart(io: Formats, e: Entry)
    ensures RecordLines(RecordOf(io, e)) != [] && RecordLines(RecordOf(io, e))[0] == "#" + Itoa(e.ref)
  {
    HeadIsLong(RecordOf(io, e));
  }
}
