/** The dump round trip: every object comes back, and nothing else does. */
module DumpLoads {
  import opened Decimal
  import opened Dump
  import opened DumpWriter
  import opened DumpRoundTrip
  import opened DumpObjects
  import opened Refs
  import opened Text

  // ---------- Every line is clean ----------

  lemma {:induction false} DigitsShort(n: nat, k: nat)
    requires n < Power10(k)
    ensures |Digits(n)| <= k + 1
    decreases k
  {
    if n >= 10 { DigitsShort(n / 10, k - 1); }
  }

  lemma NumberClean(n: int)
    requires -INT64_LIMIT <= n < INT64_LIMIT
    ensures Clean(Itoa(n)) && Clean("#" + Itoa(n))
  {
    hide Digits;
    assert Power10(5) == 100000;
    assert Power10(20) > INT64_LIMIT;
    DigitsShort(if n < 0 then -n else n, 20);
    ItoaCharacters(n);
    assert Itoa(n)[|Itoa(n)| - 1] in Itoa(n);
  }

  ghost predicate AllClean(lines: seq<string>) {
    forall l :: l in lines ==> Clean(l)
  }

  lemma CleanAppend(a: seq<string>, b: seq<string>)
    requires AllClean(a) && AllClean(b)
    ensures AllClean(a + b)
  {}

  lemma NumbersClean(ns: seq<int>)
    requires forall k :: 0 <= k < |ns| ==> -INT64_LIMIT <= ns[k] < INT64_LIMIT
    ensures AllClean(NumLines(ns))
  {
    hide Clean, Itoa;
    forall l | l in NumLines(ns) ensures Clean(l) {
      var k :| 0 <= k < |ns| && NumLines(ns)[k] == l;
      NumberClean(ns[k]);
    }
  }

  lemma MarksClean()
    ensures Clean(PROPS_BEGIN) && Clean(PROPS_END) && Clean(VERSION) && Clean(END_OF_DUMP) && Clean("0")
  {}

  lemma FieldsClean(io: Formats, e: Entry)
    requires WellFormed(io, e)
    ensures AllClean(FieldLines(e.fields))
  {
    hide Clean, Itoa, NumLines, WellFormedProp;
    match e.fields
    case RoomFields(dropto, exits, owner) => NumbersClean([dropto, exits, owner]);
    case ThingFields(home, exits, owner) => NumbersClean([home, exits, owner]);
    case ExitFields(dests, owner) =>
      NumbersClean([|dests|]);
      NumbersClean(dests + [owner]);
    case PlayerFields(home, exits, password) => NumbersClean([home, exits]);
    case ProgramFields(owner) => NumbersClean([owner]);
  }

  lemma PropsClean(io: Formats, ps: seq<PropEntry>)
    requires forall p :: p in ps ==> WellFormedProp(io, p)
    ensures AllClean(PropLines(Rendered(io, ps)))
  {
    hide Clean, PropLine, Itoa;
    MarksClean();
    forall l | l in Rendered(io, ps) ensures Clean(l) {
      var k :| 0 <= k < |ps| && Rendered(io, ps)[k] == l;
      assert ps[k] in ps;
    }
  }

  lemma HeadClean(io: Formats, e: Entry)
    requires WellFormed(io, e)
    ensures AllClean(RecordHead(RecordOf(io, e)))
  {
    hide Itoa, RecordHead, NumLines, WellFormedProp;
    HeadLines(io, e);
    NumberClean(e.ref);
    NumbersClean([e.location, e.contents, e.next]);
    NumbersClean([e.flags, 1000000000, 1000000000, 0, 1000000000]);
    CleanAppend(["#" + Itoa(e.ref), e.name], NumLines([e.location, e.contents, e.next]));
  }

  lemma RecordClean(io: Formats, e: Entry)
    requires WellFormed(io, e)
    ensures AllClean(RecordLines(RecordOf(io, e)))
  {
    hide Clean, RecordHead, PropLines, FieldLines, WellFormedProp;
    HeadClean(io, e);
    PropsClean(io, e.props);
    FieldsClean(io, e);
    CleanAppend(RecordHead(RecordOf(io, e)), PropLines(Rendered(io, e.props)));
    CleanAppend(RecordHead(RecordOf(io, e)) + PropLines(Rendered(io, e.props)), FieldLines(e.fields));
  }

  lemma {:induction false} BodyClean(io: Formats, es: seq<Entry>)
    requires forall e :: e in es ==> WellFormed(io, e)
    ensures AllClean(BodyLines(RecordsOf(io, es)))
  {
    hide Clean, RecordLines, WellFormed, RecordOf;
    if es != [] {
      assert es[|es| - 1] in es;
      assert RecordsOf(io, es)[..|es| - 1] == RecordsOf(io, es[..|es| - 1]);
      BodyClean(io, es[..|es| - 1]);
      RecordClean(io, es[|es| - 1]);
      CleanAppend(RecordLines(RecordOf(io, es[|es| - 1])), BodyLines(RecordsOf(io, es[..|es| - 1])));
    }
  }

  // ---------- The count fits ----------

  function Below(bound: nat): (s: set<int>)
    ensures forall x :: x in s <==> 0 <= x < bound
  {
    if bound == 0 then {} else Below(bound - 1) + {bound - 1}
  }

  /** Distinct numbers below a bound are no more than the bound. */
  lemma {:induction false} DistinctAreFew(s: set<int>, bound: nat)
    requires s <= Below(bound)
    ensures |s| <= bound
  {
    if bound == 0 {
      assert s == {};
    } else {
      DistinctAreFew(s - {bound - 1}, bound - 1);
    }
  }

  lemma {:induction false} RefsDistinct(es: seq<Entry>)
    requires DistinctRefs(es)
    ensures |set e | e in es :: e.ref| == |es|
  {
    if es != [] {
      var init, last := es[..|es| - 1], es[|es| - 1];
      assert es == init + [last];
      RefsDistinct(init);
      assert (set e | e in es :: e.ref) == (set e | e in init :: e.ref) + {last.ref};
      assert last.ref !in (set e | e in init :: e.ref);
    }
  }

  lemma FewEntries(io: Formats, es: seq<Entry>)
    requires DistinctRefs(es) && forall e :: e in es ==> WellFormed(io, e)
    ensures |es| <= INT32_LIMIT
  {
    hide WellFormed;
    forall e | e in es ensures e.ref >= 0 { RefIsFree(io, e); }
    RefsDistinct(es);
    DistinctAreFew(set e | e in es :: e.ref, INT32_LIMIT);
  }

  // ---------- What was loaded ----------

  function PropCount(io: Formats, es: seq<Entry>): nat {
    if es == [] then 0 else PropCount(io, es[..|es| - 1]) + |StoredProps(io, es[|es| - 1].props)|
  }

  lemma {:induction false} LoadedCounts(io: Formats, es: seq<Entry>, w: World)
    ensures LoadedAll(io, es, w).report ==
      Report(w.report.objects + |es|, w.report.properties + PropCount(io, es), w.report.warnings)
    ensures LoadedAll(io, es, w).settings == w.settings
    decreases |es|
  {
    hide ObjectOf, StoredProps;
    if es != [] { LoadedCounts(io, es[..|es| - 1], Loaded(io, w, es[|es| - 1])); }
  }

  /** A world holds an entry's object. */
  predicate Holds(io: Formats, w: World, e: Entry) {
    e.ref in w.objects && w.objects[e.ref] == ObjectOf(io, e)
  }

  lemma {:induction false} LoadedKeeps(io: Formats, es: seq<Entry>, w: World, r: Ref)
    ensures r in LoadedAll(io, es, w).objects <==> r in w.objects || exists e :: e in es && e.ref == r
    ensures r in w.objects && (forall e :: e in es ==> e.ref != r) ==> LoadedAll(io, es, w).objects[r] == w.objects[r]
    decreases |es|
  {
    hide ObjectOf;
    if es != [] {
      var init, last := es[..|es| - 1], es[|es| - 1];
      assert es == init + [last];
      LoadedKeeps(io, init, Loaded(io, w, last), r);
    }
  }

  lemma {:induction false} LoadedHolds(io: Formats, es: seq<Entry>, w: World, i: nat)
    requires DistinctRefs(es) && i < |es|
    ensures Holds(io, LoadedAll(io, es, w), es[i])
    decreases |es|
  {
    hide ObjectOf;
    var init, last := es[..|es| - 1], es[|es| - 1];
    if i == |es| - 1 {
      LoadedKeeps(io, init, Loaded(io, w, last), last.ref);
    } else {
      LoadedHolds(io, init, Loaded(io, w, last), i);
    }
  }

  lemma DumpBack(io: Formats, es: seq<Entry>)
    requires DistinctRefs(es) && forall e :: e in es ==> WellFormed(io, e)
    ensures ParseDump(io, DumpLines(RecordsOf(io, es))) == Some(LoadedAll(io, es, EMPTY_WORLD))
  {
    hide BodyLines, ParseObjects, Itoa, WellFormed, ReadNumbers;
    var lines := DumpLines(RecordsOf(io, es));
    var rest := BodyLines(RecordsOf(io, es)) + [END_OF_DUMP];
    assert NumLines([|es|, 0, 0]) == [Itoa(|es|), "0", "0"] by { ZeroText(); }
    assert lines == [VERSION] + (NumLines([|es|, 0, 0]) + rest);
    FewEntries(io, es);
    NumbersBack([|es|, 0, 0], rest, INT64_LIMIT);
    assert lines[1..] == NumLines([|es|, 0, 0]) + rest;
    ObjectsBack(io, es, EMPTY_WORLD);
  }

  lemma ZeroText()
    ensures Itoa(0) == "0"
  {
    ZeroDigits();
  }

  lemma DumpClean(io: Formats, es: seq<Entry>)
    requires DistinctRefs(es) && forall e :: e in es ==> WellFormed(io, e)
    ensures AllClean(DumpLines(RecordsOf(io, es)))
  {
    hide Clean, BodyLines, Itoa, WellFormed;
    FewEntries(io, es);
    NumberClean(|es|);
    MarksClean();
    BodyClean(io, es);
    CleanAppend([VERSION, Itoa(|es|), "0", "0"], BodyLines(RecordsOf(io, es)));
  }

  /** For every list of well-formed entries, each with its own reference, reading the dump
      that was written succeeds, and the world holds exactly the objects described, with every
      link, flag and property; every object and property is counted and nothing is skipped. */
  lemma RoundTrip(io: Formats, es: seq<Entry>)
    requires DistinctRefs(es) && forall e :: e in es ==> WellFormed(io, e)
    ensures
      var r := ParseDump(io, Lines(TextOf(DumpLines(RecordsOf(io, es)))));
      && r.Some?
      && (forall i :: 0 <= i < |es| ==> Holds(io, r.value, es[i]))
      && (forall q: Ref :: q in r.value.objects <==> exists e :: e in es && e.ref == q)
      && r.value.report == Report(|es|, PropCount(io, es), 0) && r.value.settings == []
  {
    hide DumpLines, Lines, TextOf, ParseDump, Holds, WellFormed, LoadedAll, Clean;
    DumpClean(io, es);
    LinesOfText(DumpLines(RecordsOf(io, es)));
    DumpBack(io, es);
    forall i | 0 <= i < |es| ensures Holds(io, LoadedAll(io, es, EMPTY_WORLD), es[i]) {
      LoadedHolds(io, es, EMPTY_WORLD, i);
    }
    forall q: Ref
      ensures q in LoadedAll(io, es, EMPTY_WORLD).objects <==> exists e :: e in es && e.ref == q
    {
      LoadedKeeps(io, es, EMPTY_WORLD, q);
    }
    LoadedCounts(io, es, EMPTY_WORLD);
  }
}
