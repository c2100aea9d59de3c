/** A dump that was written reads back as the objects it was written from. */
module DumpRoundTrip {
  import opened Decimal
  import opened Dump
  import opened DumpWriter
  import opened Refs
  import opened Text
  import opened Utf8

  // ---------- Lines ----------

  /** Text that survives as one line of a dump. */
  predicate Clean(s: string) {
    '\n' !in s && (s == [] || s[|s| - 1] != '\r') && |s| < LINE_LIMIT
  }

  lemma {:induction false} LinesOfText(lines: seq<string>)
    requires forall l :: l in lines ==> Clean(l)
    ensures Lines(TextOf(lines)) == lines
  {
    if lines != [] {
      var first, more := lines[0], TextOf(lines[1..]);
      assert first in lines;
      CutExact(first, '\n', more);
      LinesOfText(lines[1..]);
    }
  }

  // ---------- Numbers ----------

  lemma TrimItoa(n: int)
    ensures TrimSpace(Itoa(n)) == Itoa(n)
  {
    ItoaCharacters(n);
    assert Itoa(n)[0] in Itoa(n) && Itoa(n)[|Itoa(n)| - 1] in Itoa(n);
    TrimNothing(Itoa(n));
  }

  function NumLines(ns: seq<int>): (r: seq<string>)
    ensures |r| == |ns|
  {
    seq(|ns|, k requires 0 <= k < |ns| => Itoa(ns[k]))
  }

  lemma NumberBack(n: int, rest: seq<string>, limit: int)
    requires -limit <= n < limit
    ensures ReadNumber([Itoa(n)] + rest, limit) == Got(n, rest)
  {
    TrimItoa(n);
    ParseIntOfItoa(n, limit);
  }

  lemma {:induction false} NumbersBack(ns: seq<int>, rest: seq<string>, limit: int)
    requires forall k :: 0 <= k < |ns| ==> -limit <= ns[k] < limit
    ensures ReadNumbers(|ns|, NumLines(ns) + rest, limit) == Got(ns, rest)
    decreases |ns|
  {
    hide Itoa, ReadNumber;
    if ns == [] {
      assert NumLines(ns) + rest == rest;
    } else {
      var init, last := ns[..|ns| - 1], ns[|ns| - 1];
      assert NumLines(ns) + rest == NumLines(init) + ([Itoa(last)] + rest);
      NumbersBack(init, [Itoa(last)] + rest, limit);
      NumberBack(last, rest, limit);
      assert ns == init + [last];
    }
  }

  // ---------- Flags ----------

  lemma {:induction false} ClearAtBits(n: nat, i: nat, j: nat)
    ensures BitAt(ClearAt(n, i), j) <==> BitAt(n, j) && i != j
    decreases i
  {
    if i != 0 && j != 0 {
      ClearAtBits(n / 2, i - 1, j - 1);
      assert ClearAt(n, i) / 2 == ClearAt(n / 2, i - 1);
    } else if i != 0 {
      assert ClearAt(n, i) % 2 == n % 2;
    } else if j != 0 {
      assert ClearAt(n, i) / 2 == n / 2;
    }
  }

  lemma {:induction false} ClearAllBits(n: nat, bits: seq<nat>, j: nat)
    ensures BitAt(ClearAll(n, bits), j) <==> BitAt(n, j) && j !in bits
  {
    hide ClearAt, BitAt;
    if bits != [] {
      var init, last := bits[..|bits| - 1], bits[|bits| - 1];
      assert bits == init + [last];
      ClearAllBits(n, init, j);
      ClearAtBits(ClearAll(n, init), last, j);
    }
  }

  /** A load keeps every flag of the 32-bit word but those of the live server. */
  lemma StoredFlagBits(raw: int, j: nat)
    ensures BitAt(StoredFlags(raw), j) <==> BitAt(raw % UINT32_LIMIT, j) && j !in DUMP_BITS
  {
    ClearAllBits(raw % UINT32_LIMIT, DUMP_BITS, j);
  }

  lemma Rest4(q: nat, r: nat)
    requires r < 4
    ensures (4 * q + r) % 4 == r
  {}

  lemma Rest8(q: nat, r: nat)
    requires r < 8
    ensures (8 * q + r) % 8 == r
  {}

  lemma Doubled(a: nat, bit: nat)
    requires bit < 2
    ensures (2 * a + bit) % 4 == 2 * (a % 2) + bit
    ensures (2 * a + bit) % 8 == 2 * (a % 4) + bit
  {
    Rest4(a / 2, 2 * (a % 2) + bit);
    Rest8(a / 4, 2 * (a % 4) + bit);
  }

  lemma Halved(n: nat)
    ensures n == 2 * (n / 2) + n % 2
  {}

  lemma ClearAtKeepsKind(n: nat, i: nat)
    requires i >= 3
    ensures ClearAt(n, i) % 8 == n % 8
  {
    ClearAtKeeps4(n / 2, i - 1);
    KeepsOneMore(n, i);
  }

  lemma ClearAtKeeps4(n: nat, i: nat)
    requires i >= 2
    ensures ClearAt(n, i) % 4 == n % 4
  {
    hide ClearAt;
    ClearAtStep(n / 2, i - 1);
    assert ClearAt(n / 2, i - 1) % 2 == n / 2 % 2;
    KeepsOneMore(n, i);
  }

  /** Two numbers agree in one bit more than their halves do. */
  lemma KeepsOneMore(n: nat, i: nat)
    requires i > 0
    ensures ClearAt(n / 2, i - 1) % 2 == n / 2 % 2 ==> ClearAt(n, i) % 4 == n % 4
    ensures ClearAt(n / 2, i - 1) % 4 == n / 2 % 4 ==> ClearAt(n, i) % 8 == n % 8
  {
    hide ClearAt;
    ClearAtStep(n, i);
    Halved(n);
    Doubled(ClearAt(n / 2, i - 1), n % 2);
    Doubled(n / 2, n % 2);
  }

  lemma ClearAtStep(n: nat, i: nat)
    requires i > 0
    ensures ClearAt(n, i) == 2 * ClearAt(n / 2, i - 1) + n % 2
  {}

  lemma {:induction false} ClearAllKeepsKind(n: nat, bits: seq<nat>)
    requires forall k :: 0 <= k < |bits| ==> bits[k] >= 3
    ensures ClearAll(n, bits) % 8 == n % 8
  {
    if bits != [] {
      ClearAllKeepsKind(n, bits[..|bits| - 1]);
      ClearAtKeepsKind(ClearAll(n, bits[..|bits| - 1]), bits[|bits| - 1]);
    }
  }

  lemma StoredKind(flags: nat)
    requires flags < UINT32_LIMIT
    ensures KindOf(StoredFlags(flags)) == KindOf(flags)
  {
    hide ClearAll, KindOf;
    ClearAllKeepsKind(flags, DUMP_BITS);
    KindIsLow(StoredFlags(flags), flags);
  }

  lemma KindIsLow(m: nat, n: nat)
    requires m % 8 == n % 8
    ensures KindOf(m) == KindOf(n)
  {}

  // ---------- Properties ----------

  datatype PropEntry = PropEntry(name: string, flags: nat, value: PropValue)

  function ValueText(io: Formats, v: PropValue): string {
    match v
    case StringV(s) => s
    case LockV(s) => s
    case IntV(n) => Itoa(n)
    case RefV(r) => Itoa(r)
    case FloatV(code) => io.writeFloat(code)
  }

  function ValueKind(v: PropValue): nat {
    match v
    case StringV(_) => 2
    case IntV(_) => 3
    case LockV(_) => 4
    case RefV(_) => 5
    case FloatV(_) => 6
  }

  function PropLine(io: Formats, p: PropEntry): string {
    p.name + ":" + Itoa(p.flags) + ":" + ValueText(io, p.value)
  }

  predicate WellFormedProp(io: Formats, p: PropEntry) {
    && p.name != "" && ':' !in p.name
    && p.flags < UINT32_LIMIT && p.flags % 8 == ValueKind(p.value)
    && (p.value.IntV? ==> -INT64_LIMIT <= p.value.num < INT64_LIMIT)
    && (p.value.FloatV? ==> io.readFloat(io.writeFloat(p.value.code)) == Some(p.value.code))
    && (p.value.StringV? ==> Valid(p.value.str)) && (p.value.LockV? ==> Valid(p.value.lock))
    && Clean(PropLine(io, p))
  }

  function PropOf(p: PropEntry): Prop {
    Prop(p.value, BitAt(p.flags, BLESSED_BIT))
  }

  /** The properties an object holds once these have been set in turn. */
  function StoredProps(io: Formats, ps: seq<PropEntry>): PropTree {
    if ps == [] then map[]
    else
      var last := ps[|ps| - 1];
      Put(io, StoredProps(io, ps[..|ps| - 1]), last.name, PropOf(last))
  }

  /** A property with a value and a path is found again unless a later one has its path. */
  lemma {:induction false} PropFound(io: Formats, ps: seq<PropEntry>, i: nat)
    requires i < |ps| && Segments(ps[i].name) != [] && !IsEmptyValue(io, ps[i].value)
    requires forall j :: i < j < |ps| ==> Segments(ps[j].name) != Segments(ps[i].name)
    ensures Segments(ps[i].name) in StoredProps(io, ps)
    ensures StoredProps(io, ps)[Segments(ps[i].name)] == PropOf(ps[i])
  {
    hide Segments, IsEmptyValue, BitAt;
    if i < |ps| - 1 {
      var init := ps[..|ps| - 1];
      assert init[i] == ps[i];
      PropFound(io, init, i);
    }
  }

  lemma UintBack(n: nat, limit: nat)
    requires n < limit
    ensures ParseUint(TrimSpace(Itoa(n)), limit) == Some(n)
  {
    TrimItoa(n);
    ValueOfDigits(n);
  }

  lemma ValueBack(io: Formats, v: PropValue)
    requires v.IntV? ==> -INT64_LIMIT <= v.num < INT64_LIMIT
    requires v.FloatV? ==> io.readFloat(io.writeFloat(v.code)) == Some(v.code)
    ensures ParseValue(io, ValueKind(v), ValueText(io, v)) == Some(v)
  {
    if v.IntV? {
      TrimItoa(v.num);
      ParseIntOfItoa(v.num, INT64_LIMIT);
    } else if v.RefV? {
      TrimItoa(v.link);
      ParseIntOfItoa(v.link, INT32_LIMIT);
    }
  }

  lemma NoColon(n: nat)
    ensures ':' !in Itoa(n)
  {
    ItoaCharacters(n);
  }

  /** Cutting at a colon that comes after text without one. */
  lemma CutAtColon(before: string, after: string)
    requires ':' !in before
    ensures
      var s := before + ":" + after;
      IndexOf(s, ':') == |before| && s[..|before|] == before && s[|before| + 1..] == after
  {
    CutExact(before, ':', after);
    assert before + ":" + after == before + [':'] + after;
  }

  lemma PropBack(io: Formats, p: PropEntry)
    requires WellFormedProp(io, p)
    ensures ParseProp(io, PropLine(io, p)) == Some((p.name, PropOf(p)))
  {
    hide Itoa, ParseUint, ParseValue, TrimSpace, BitAt, ValueText, IndexOf, WellFormedProp;
    var text, flags := ValueText(io, p.value), Itoa(p.flags);
    FieldsWellFormed(io, p);
    Append3(p.name, ":", flags, ":" + text);
    assert PropLine(io, p) == p.name + ":" + (flags + ":" + text);
    CutAtColon(p.name, flags + ":" + text);
    NoColon(p.flags);
    CutAtColon(flags, text);
    UintBack(p.flags, UINT32_LIMIT);
    ValueBack(io, p.value);
  }

  lemma FieldsWellFormed(io: Formats, p: PropEntry)
    requires WellFormedProp(io, p)
    ensures ':' !in p.name && p.flags < UINT32_LIMIT && p.flags % 8 == ValueKind(p.value)
    ensures p.value.IntV? ==> -INT64_LIMIT <= p.value.num < INT64_LIMIT
    ensures p.value.FloatV? ==> io.readFloat(io.writeFloat(p.value.code)) == Some(p.value.code)
    ensures Repaired(p.value) == p.value
  {}

  function Rendered(io: Formats, ps: seq<PropEntry>): (r: seq<string>)
    ensures |r| == |ps|
  {
    seq(|ps|, k requires 0 <= k < |ps| => PropLine(io, ps[k]))
  }

  lemma NotTheEnd(io: Formats, p: PropEntry)
    ensures PropLine(io, p) != PROPS_END
  {
    assert PropLine(io, p)[|p.name|] == ':';
    assert forall c :: c in PROPS_END ==> c != ':';
  }

  /** Reading what is left of a block after its first k lines. */
  lemma {:induction false} PropLinesBack(io: Formats, ps: seq<PropEntry>, k: nat, rest: seq<string>)
    requires k <= |ps| && forall p :: p in ps ==> WellFormedProp(io, p)
    ensures ParsePropLines(io, Rendered(io, ps)[k..] + [PROPS_END] + rest, Block(StoredProps(io, ps[..k]), 0))
         == Got(Block(StoredProps(io, ps), 0), rest)
    decreases |ps| - k
  {
    hide PropLine, WellFormedProp, AddLine, Put, PropOf;
    var lines := Rendered(io, ps)[k..] + [PROPS_END] + rest;
    if k == |ps| {
      assert ps[..k] == ps;
      assert lines == [PROPS_END] + rest;
    } else {
      assert ps[k] in ps;
      NotTheEnd(io, ps[k]);
      LineAdds(io, Block(StoredProps(io, ps[..k]), 0), ps[k]);
      assert ps[..k + 1][..k] == ps[..k];
      assert lines[1..] == Rendered(io, ps)[k + 1..] + [PROPS_END] + rest;
      PropLinesBack(io, ps, k + 1, rest);
    }
  }

  /** A written property is stored as it is, with no warning. */
  lemma LineAdds(io: Formats, b: Block, p: PropEntry)
    requires WellFormedProp(io, p)
    ensures AddLine(io, b, PropLine(io, p)) == b.(props := Put(io, b.props, p.name, PropOf(p)))
  {
    hide PropLine, WellFormedProp, ParseProp, Put, Repaired;
    PropBack(io, p);
    FieldsWellFormed(io, p);
    NameThere(io, p);
  }

  lemma NameThere(io: Formats, p: PropEntry)
    requires WellFormedProp(io, p)
    ensures p.name != ""
  {}
}
