/** What a load refuses, what it repairs and warns of, and exactly which properties are left. */
module DumpRefusals {
  import opened Decimal
  import opened Dump
  import opened DumpLoads
  import opened DumpObjects
  import opened DumpRoundTrip
  import opened DumpWriter
  import opened Refs
  import opened Text
  import opened Utf8

  // ---------- Numbers ----------

  /** Decimal text of a number out of range is not read as any number. */
  lemma OutOfRangeIsRefused(n: int, limit: nat)
    ensures n < 0 - limit || n >= limit ==> ParseInt(Itoa(n), limit) == None
    ensures n >= limit ==> ParseUint(Itoa(n), limit) == None
    ensures n < 0 ==> ParseUint(Itoa(n), limit) == None
  {
    hide Value, Digits;
    var text := Itoa(n);
    ValueOfDigits(if n < 0 then -n else n);
    if n < 0 {
      assert text[1..] == Digits(-n) && text[0] == '-' && text[0] in text;
    } else {
      assert text[0] in Digits(n);
    }
  }

  // ---------- Lines ----------

  /** A line of 65536 bytes or more ends the lines that are delivered: those before it come, and
      then none. */
  lemma {:induction false} LongLineEnds(lines: seq<string>, long: string, more: string)
    requires forall l :: l in lines ==> Clean(l)
    requires '\n' !in long && |long| >= 65536 && (more == "" || more[0] == '\n')
    ensures Lines(TextOf(lines) + long + more) == lines
    decreases |lines|
  {
    hide Lines, TextOf, Clean;
    if lines == [] {
      TextOfNone(long);
      LongGivesNone(long, more);
    } else {
      var first, rest := lines[0], lines[1..];
      assert first in lines;
      LongLineEnds(rest, long, more);
      TextOfFirst(lines, long, more);
      CleanGivesLine(first, TextOf(rest) + long + more);
    }
  }

  lemma TextOfNone(long: string)
    ensures TextOf([]) + long == long
  {}

  lemma TextOfFirst(lines: seq<string>, long: string, more: string)
    requires lines != []
    ensures TextOf(lines) + long + more == lines[0] + ['\n'] + (TextOf(lines[1..]) + long + more)
  {
    var first, rest := lines[0] + "\n", TextOf(lines[1..]);
    Append2(first, rest, long);
    Append2(first, rest + long, more);
  }

  lemma CleanGivesLine(first: string, rest: string)
    requires Clean(first)
    ensures Lines(first + ['\n'] + rest) == [first] + Lines(rest)
  {
    hide IndexOf, DropReturn;
    CutExact(first, '\n', rest);
    CleanKeeps(first);
  }

  lemma LongGivesNone(long: string, more: string)
    requires '\n' !in long && |long| >= LINE_LIMIT && (more == "" || more[0] == '\n')
    ensures Lines(long + more) == []
  {
    hide IndexOf, DropReturn;
    if more == "" {
      assert long + more == long;
      IndexOfAbsent(long, '\n');
    } else {
      assert long + more == long + ['\n'] + more[1..];
      IndexOfExact(long, '\n', more[1..]);
    }
  }

  lemma CleanKeeps(s: string)
    requires Clean(s)
    ensures DropReturn(s) == s
  {}

  // ---------- The frame of a dump ----------

  lemma {:induction false} ObjectsNeedMark(io: Formats, lines: seq<string>, w: World)
    requires ParseObjects(io, lines, w).Some?
    ensures "***END OF DUMP***" in lines
    decreases |lines|
  {
    hide ParseObject, TrimSpace, Value;
    if lines[0] != END_OF_DUMP {
      var r: Ref := ParseInt(TrimSpace(lines[0][1..]), INT32_LIMIT).value;
      var p := ParseObject(io, lines[1..], r, w);
      ObjectsNeedMark(io, p.rest, p.value);
      ObjectKeepsLines(io, lines[1..], r, w);
    }
  }

  /** What is left behind is an end of what there was. */
  predicate EndOf(rest: seq<string>, lines: seq<string>) {
    |rest| <= |lines| && rest == lines[|lines| - |rest|..]
  }

  lemma EndOfEnd(a: seq<string>, b: seq<string>, c: seq<string>)
    requires EndOf(a, b) && EndOf(b, c)
    ensures EndOf(a, c)
  {}

  lemma {:induction false} NumbersEnd(count: nat, lines: seq<string>, limit: int)
    ensures ReadNumbers(count, lines, limit).Got? ==> EndOf(ReadNumbers(count, lines, limit).rest, lines)
  {
    hide ParseInt, TrimSpace;
    if count > 0 { NumbersEnd(count - 1, lines, limit); }
  }

  lemma {:induction false} PropsEnd(io: Formats, lines: seq<string>, b: Block)
    ensures ParsePropLines(io, lines, b).Got? ==> EndOf(ParsePropLines(io, lines, b).rest, lines)
    decreases |lines|
  {
    hide AddLine;
    if lines != [] && lines[0] != PROPS_END { PropsEnd(io, lines[1..], AddLine(io, b, lines[0])); }
  }

  lemma BaseEnd(lines: seq<string>)
    ensures ParseBase(lines).Got? ==> EndOf(ParseBase(lines).rest, lines)
  {
    hide ReadNumbers, BaseObject;
    if lines != [] {
      NumbersEnd(3, lines[1..], INT32_LIMIT);
      var links := ReadNumbers(3, lines[1..], INT32_LIMIT);
      if links.Got? { NumbersEnd(5, links.rest, INT64_LIMIT); }
    }
  }

  lemma MiddleEnd(io: Formats, lines: seq<string>)
    ensures ParseMiddle(io, lines).Got? ==> EndOf(ParseMiddle(io, lines).rest, lines)
  {
    hide ParseInt, TrimSpace, ParsePropLines;
    if lines != [] { PropsEnd(io, lines[1..], Block(map[], 0)); }
  }

  lemma LinksEnd(link: Option<Ref>, count: nat, lines: seq<string>)
    requires count > 0
    ensures ReadLinks(link, count, lines).Got? ==> EndOf(ReadLinks(link, count, lines).rest, lines)
  {
    hide ReadNumbers;
    NumbersEnd(count, lines, INT32_LIMIT);
    NumbersEnd(count - 1, lines, INT32_LIMIT);
  }

  lemma ExitEnd(o: Object, link: Option<Ref>, lines: seq<string>)
    ensures ParseExit(o, link, lines).Got? ==> EndOf(ParseExit(o, link, lines).rest, lines)
  {
    hide ReadNumbers, ReadLinks;
    LinksEnd(link, 1, lines);
    var count := ReadLinks(link, 1, lines);
    if count.Got? && 0 <= count.value[0] <= MAX_EXIT_DESTS {
      NumbersEnd(count.value[0] + 1, count.rest, INT32_LIMIT);
    }
  }

  lemma TailEnd(io: Formats, r: Ref, o: Object, link: Option<Ref>, lines: seq<string>)
    ensures ParseTail(io, r, o, link, lines).Got? ==> EndOf(ParseTail(io, r, o, link, lines).rest, lines)
  {
    hide ReadLinks, ParseExit, ClearAt, EndOf, KindOf;
    LinksEnd(link, 1, lines);
    LinksEnd(link, 2, lines);
    LinksEnd(link, 3, lines);
    ExitEnd(o, link, lines);
    AllIsEnd(lines);
    if ReadLinks(link, 2, lines).Got? { LessIsEnd(ReadLinks(link, 2, lines).rest, lines); }
  }

  lemma AllIsEnd(lines: seq<string>)
    ensures EndOf(lines, lines)
  {}

  lemma LessIsEnd(rest: seq<string>, lines: seq<string>)
    requires EndOf(rest, lines)
    ensures rest != [] ==> EndOf(rest[1..], lines)
  {}

  lemma ObjectKeepsLines(io: Formats, lines: seq<string>, r: Ref, w: World)
    ensures
      var p := ParseObject(io, lines, r, w);
      p.Got? ==> EndOf(p.rest, lines) && forall l :: l in p.rest ==> l in lines
  {
    hide ParseBase, ParseMiddle, ParseTail;
    BaseEnd(lines);
    var base := ParseBase(lines);
    if base.Got? {
      MiddleEnd(io, base.rest);
      var middle := ParseMiddle(io, base.rest);
      if middle.Got? {
        TailEnd(io, r, base.value.(props := middle.value.block.props), middle.value.link, middle.rest);
      }
    }
  }

  /** A load that succeeds has read the version it knows on the first line, and further on the
      mark that ends a dump: one that was cut short before it does not load. */
  lemma FrameIsNeeded(io: Formats, lines: seq<string>)
    requires ParseDump(io, lines).Some?
    ensures lines != [] && lines[0] == "***Foxen9 TinyMUCK DUMP Format***" && "***END OF DUMP***" in lines[1..]
  {
    hide ReadNumbers, ReadSettings, ParseObjects;
    var counts := ReadNumbers(3, lines[1..], INT64_LIMIT);
    var n := if counts.value[2] < 0 then 0 else counts.value[2];
    NumbersEnd(3, lines[1..], INT64_LIMIT);
    SettingsAre(io, n, counts.rest);
    var settings := ReadSettings(io, n, counts.rest);
    ObjectsNeedMark(io, settings.rest, EMPTY_WORLD.(settings := settings.value));
    assert forall l :: l in settings.rest ==> l in counts.rest;
  }

  /** Between the header and the mark every record begins with a number sign and a reference. */
  lemma RecordsAreMarked(io: Formats, lines: seq<string>, w: World)
    requires ParseObjects(io, lines, w).Some? && lines[0] != "***END OF DUMP***"
    ensures lines[0] != "" && lines[0][0] == '#' && ParseInt(TrimSpace(lines[0][1..]), INT32_LIMIT).Some?
  {
    hide ParseObject, TrimSpace;
  }

  // ---------- References ----------

  lemma TakenIsRefused(io: Formats, e: Entry, w: World, rest: seq<string>)
    requires WellFormed(io, e) && e.ref in w.objects
    ensures ParseObject(io, RecordLines(RecordOf(io, e))[1..] + rest, e.ref, w) == Fail
  {
    hide ParseBase, ParseMiddle, ParseTail, BaseOf, ObjectOf, StoredProps, WellFormed, RecordOf, RecordLines, RecordHead,
      FieldLines, PropLines, LeftLines, LeftLink, Rendered;
    BodyIs(io, e, rest);
    BaseBack(io, e, PropLines(Rendered(io, e.props)) + FieldLines(e.fields) + rest);
    MiddleBack(io, e, rest);
    TailBack(io, e, BaseOf(e).(props := StoredProps(io, e.props)), e.props == [], rest);
  }

  predicate Fresh(es: seq<Entry>, w: World) {
    DistinctRefs(es) && forall e :: e in es ==> e.ref !in w.objects
  }

  lemma {:induction false} ObjectsLoadIff(io: Formats, es: seq<Entry>, w: World)
    requires forall e :: e in es ==> WellFormed(io, e)
    ensures ParseObjects(io, BodyLines(RecordsOf(io, es)) + [END_OF_DUMP], w).Some? <==> Fresh(es, w)
    decreases |es|
  {
    hide RecordLines, RecordOf, WellFormed, ParseObject, Itoa, ObjectOf, DistinctRefs, ParseInt, TrimSpace;
    if es == [] {
      assert BodyLines(RecordsOf(io, es)) + [END_OF_DUMP] == [END_OF_DUMP];
      NoneRepeats();
    } else {
      var init, e := es[..|es| - 1], es[|es| - 1];
      var rest := BodyLines(RecordsOf(io, init)) + [END_OF_DUMP];
      var lines := BodyLines(RecordsOf(io, es)) + [END_OF_DUMP];
      assert es == init + [e] && e in es;
      assert RecordsOf(io, es)[..|es| - 1] == RecordsOf(io, init);
      assert lines == RecordLines(RecordOf(io, e)) + rest;
      RecordStart(io, e);
      assert lines[1..] == RecordLines(RecordOf(io, e))[1..] + rest;
      HeaderLine(e.ref);
      DistinctSnoc(init, e);
      if e.ref in w.objects {
        TakenIsRefused(io, e, w, rest);
      } else {
        ObjectBack(io, e, w, rest);
        ObjectsLoadIff(io, init, Loaded(io, w, e));
      }
    }
  }

  lemma NoneRepeats()
    ensures DistinctRefs([])
  {}

  lemma DistinctSnoc(init: seq<Entry>, e: Entry)
    ensures DistinctRefs(init + [e]) <==> DistinctRefs(init) && forall d :: d in init ==> d.ref != e.ref
  {
    var es := init + [e];
    if DistinctRefs(es) {
      forall i, j | 0 <= i < j < |init| ensures init[i].ref != init[j].ref { assert es[i] == init[i] && es[j] == init[j]; }
      forall d | d in init ensures d.ref != e.ref {
        var i :| 0 <= i < |init| && init[i] == d;
        assert es[i] == d && es[|init|] == e;
      }
    }
  }

  /** A dump of well-formed records loads if and only if no two have one reference. */
  lemma LoadsIffDistinct(io: Formats, es: seq<Entry>)
    requires forall e :: e in es ==> WellFormed(io, e)
    ensures ParseDump(io, DumpLines(RecordsOf(io, es))).Some? <==> DistinctRefs(es)
  {
    hide BodyLines, ParseObjects, Itoa, WellFormed, ReadNumbers, ReadNumber, DistinctRefs;
    if DistinctRefs(es) {
      DumpBack(io, es);
    } else {
      var lines := DumpLines(RecordsOf(io, es));
      var rest := BodyLines(RecordsOf(io, es)) + [END_OF_DUMP];
      var counts := [|es|, 0, 0];
      assert NumLines(counts) == [Itoa(|es|), "0", "0"] by { ZeroText(); }
      assert lines == [VERSION] + (NumLines(counts) + rest);
      assert lines[1..] == NumLines(counts) + rest;
      if |es| < INT64_LIMIT {
        NumbersBack(counts, rest, INT64_LIMIT);
        ObjectsLoadIff(io, es, EMPTY_WORLD);
      } else {
        assert lines[1..] == [Itoa(|es|)] + (["0", "0"] + rest);
        CountIsRefused(|es|, ["0", "0"] + rest);
      }
    }
  }

  lemma CountIsRefused(n: nat, rest: seq<string>)
    requires n >= INT64_LIMIT
    ensures ReadNumbers(3, [Itoa(n)] + rest, INT64_LIMIT) == Fail
  {
    hide Itoa, ParseInt, TrimSpace;
    TrimItoa(n);
    OutOfRangeIsRefused(n, INT64_LIMIT);
    FirstNumberFails(3, [Itoa(n)] + rest, INT64_LIMIT);
  }

  lemma {:induction false} FirstNumberFails(count: nat, lines: seq<string>, limit: int)
    requires count > 0 && ReadNumber(lines, limit) == Fail
    ensures ReadNumbers(count, lines, limit) == Fail
  {
    hide ReadNumber;
    if count == 1 {
      assert ReadNumbers(0, lines, limit) == Got([], lines);
    } else {
      FirstNumberFails(count - 1, lines, limit);
    }
  }

  // ---------- Properties ----------

  /** A value that unsets: an empty text, a zero number, a link to nothing. */
  predicate Unsets(io: Formats, v: PropValue) {
    || v == StringV("") || v == LockV("") || v == IntV(0) || v == RefV(NOTHING)
    || (v.FloatV? && io.isZero(v.code))
  }

  /** The i-th of some properties is the last of its path. */
  predicate LastOfPath(ps: seq<PropEntry>, i: int, key: seq<string>) {
    0 <= i < |ps| && Segments(ps[i].name) == key && forall j :: i < j < |ps| ==> Segments(ps[j].name) != key
  }

  /** Set in turn, properties leave under each path what the last of that path says, unless
      that unsets it, and nothing where there was none. */
  lemma {:induction false} PropsLeft(io: Formats, ps: seq<PropEntry>, key: seq<string>)
    ensures
      var tree := StoredProps(io, ps);
      && (key in tree ==> key != [] && exists i :: LastOfPath(ps, i, key) && !Unsets(io, ps[i].value) && tree[key] == PropOf(ps[i]))
      && (key !in tree ==> key == [] || forall i :: LastOfPath(ps, i, key) ==> Unsets(io, ps[i].value))
    decreases |ps|
  {
    hide Segments, BitAt, IsEmptyValue, Unsets;
    if ps != [] {
      var init, last := ps[..|ps| - 1], ps[|ps| - 1];
      PropsLeft(io, init, key);
      UnsetsIs(io, last.value);
      assert forall j :: 0 <= j < |init| ==> init[j] == ps[j];
      if Segments(last.name) == key {
        assert LastOfPath(ps, |init|, key);
        assert forall i :: LastOfPath(ps, i, key) ==> i == |init|;
      } else {
        assert forall i :: LastOfPath(ps, i, key) <==> LastOfPath(init, i, key);
      }
    }
  }

  lemma UnsetsIs(io: Formats, v: PropValue)
    ensures IsEmptyValue(io, v) <==> Unsets(io, v)
  {}

  /** A path is its names between the slashes, their letter case aside. A colon ends a path, so
      no name holds one. */
  lemma {:induction false} PathOfNames(names: seq<string>)
    requires forall k :: 0 <= k < |names| ==> names[k] != "" && '/' !in names[k] && ':' !in names[k]
    ensures |Segments(Join(names, '/'))| == |names|
    ensures forall k :: 0 <= k < |names| ==> Segments(Join(names, '/'))[k] == Fold(names[k])
    decreases |names|
  {
    hide Fold, Segments, Join, IndexOf;
    if names == [] {
      NoSegments();
    } else {
      var first, rest := names[0], names[1..];
      assert names == [first] + rest;
      PathOfNames(rest);
      if rest == [] {
        assert names == [first];
        JoinOne(first, '/');
        OneSegment(first);
      } else {
        JoinStep(first, rest, '/');
        FirstSegment(first, Join(rest, '/'));
      }
    }
  }

  lemma NoSegments()
    ensures Join([], '/') == "" && Segments("") == []
  {}

  lemma OneSegment(name: string)
    requires name != "" && '/' !in name
    ensures Segments(name) == [Fold(name)]
  {
    IndexOfAbsent(name, '/');
    assert name[..|name|] == name;
  }

  lemma FirstSegment(name: string, rest: string)
    requires '/' !in name
    ensures Segments(name + ['/'] + rest) == (if name == "" then [] else [Fold(name)]) + Segments(rest)
  {
    hide Fold;
    CutExact(name, '/', rest);
  }

  /** A slash too many, in front or next to another, makes no difference. */
  lemma {:induction false} SlashesDoNotMatter(a: string, b: string)
    ensures Segments(a + "//" + b) == Segments(a + "/" + b)
    ensures Segments("/" + b) == Segments(b)
    decreases |a|
  {
    hide Segments, Fold, IndexOf;
    FirstSegment("", b);
    assert "" + ['/'] + b == "/" + b;
    var n := IndexOf(a, '/');
    if n < |a| {
      var before, after := a[..n], a[n + 1..];
      CutBack(a, n, '/');
      assert a + "//" + b == before + ['/'] + (after + "//" + b);
      assert a + "/" + b == before + ['/'] + (after + "/" + b);
      FirstSegment(before, after + "//" + b);
      FirstSegment(before, after + "/" + b);
      SlashesDoNotMatter(after, b);
    } else {
      assert a[..n] == a;
      assert a + "//" + b == a + ['/'] + ("/" + b) && a + "/" + b == a + ['/'] + b;
      FirstSegment(a, "/" + b);
      FirstSegment(a, b);
    }
  }

  // ---------- Warnings ----------

  /** A line that is warned of: one that is no property, or one whose text had to be repaired. */
  predicate Warned(io: Formats, line: string) {
    match ParseProp(io, line)
    case None => true
    case Some((name, p)) =>
      && name != ""
      && match p.value
         case StringV(s) => !Valid(s)
         case LockV(s) => !Valid(s)
         case _ => false
  }

  function CountWarned(io: Formats, lines: seq<string>): nat {
    if lines == [] then 0 else (if Warned(io, lines[0]) then 1 else 0) + CountWarned(io, lines[1..])
  }

  lemma LineWarns(io: Formats, b: Block, line: string)
    ensures AddLine(io, b, line).warnings == b.warnings + if Warned(io, line) then 1 else 0
  {
    hide ParseProp, Put;
    var r := ParseProp(io, line);
    if r.Some? {
      match r.value.1.value
      case StringV(s) => RepairKeepsOnlyValid(s);
      case LockV(s) => RepairKeepsOnlyValid(s);
      case _ =>
    }
  }

  /** Of a block, exactly the lines that could not be read or had to be repaired are warned of,
      once each. */
  lemma {:induction false} BlockWarns(io: Formats, lines: seq<string>, b: Block, rest: seq<string>)
    requires "*End*" !in lines
    ensures
      var r := ParsePropLines(io, lines + ["*End*"] + rest, b);
      r.Got? && r.rest == rest && r.value.warnings == b.warnings + CountWarned(io, lines)
    decreases |lines|
  {
    hide AddLine, Warned;
    var all := lines + [PROPS_END] + rest;
    if lines == [] {
      assert all[1..] == rest;
    } else {
      assert all[0] == lines[0] && lines[0] in lines && all[1..] == lines[1..] + [PROPS_END] + rest;
      LineWarns(io, b, lines[0]);
      BlockWarns(io, lines[1..], AddLine(io, b, lines[0]), rest);
    }
  }

  /** The text of every property is valid. */
  ghost predicate ValidTexts(props: PropTree) {
    forall k :: k in props ==>
      && (props[k].value.StringV? ==> Valid(props[k].value.str))
      && (props[k].value.LockV? ==> Valid(props[k].value.lock))
  }

  /** Whatever a block holds, the text that is stored of it is valid. */
  lemma {:induction false} StoredTextIsValid(io: Formats, lines: seq<string>, b: Block)
    requires ValidTexts(b.props)
    ensures
      var r := ParsePropLines(io, lines, b);
      r.Got? ==> ValidTexts(r.value.props)
    decreases |lines|
  {
    hide AddLine, ValidTexts;
    if lines != [] && lines[0] != PROPS_END {
      LineKeepsValid(io, b, lines[0]);
      StoredTextIsValid(io, lines[1..], AddLine(io, b, lines[0]));
    }
  }

  lemma LineKeepsValid(io: Formats, b: Block, line: string)
    requires ValidTexts(b.props)
    ensures ValidTexts(AddLine(io, b, line).props)
  {
    hide ParseProp, Valid, Repair, Segments, IsEmptyValue;
    var r := ParseProp(io, line);
    if r.Some? {
      match r.value.1.value
      case StringV(s) => RepairIsValid(s, false);
      case LockV(s) => RepairIsValid(s, false);
      case _ =>
    }
  }

  // ---------- Kinds ----------

  /** The low three bits of the flags give the kind. */
  lemma KindCodes(flags: nat)
    ensures KindOf(flags) == Some(Room) <==> flags % 8 == 0
    ensures KindOf(flags) == Some(Thing) <==> flags % 8 == 1
    ensures KindOf(flags) == Some(Exit) <==> flags % 8 == 2
    ensures KindOf(flags) == Some(Player) <==> flags % 8 == 3
    ensures KindOf(flags) == Some(Program) <==> flags % 8 == 4
    ensures KindOf(flags) == Some(Garbage) <==> flags % 8 == 6
  {}

  /** Garbage is code 6 and owns nothing; codes 5 and 7 are no kind, and their records do not
      load. */
  lemma OtherKinds(io: Formats, r: Ref, o: Object, link: Option<Ref>, lines: seq<string>)
    ensures o.flags % 8 == 6 ==> ParseTail(io, r, o, link, lines) == Got(o.(owner := NOTHING), lines)
    ensures o.flags % 8 == 5 || o.flags % 8 == 7 ==> ParseTail(io, r, o, link, lines) == Fail
  {}
}
