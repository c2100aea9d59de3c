/** Messages that arrive in pieces, seen only through what each line was read as. */
module McpTags {
  import opened Text
  import opened Decimal
  import opened McpMessage
  import opened McpFrame

  /** The messages arriving after the first n readings. */
  function Pending(rs: seq<Reading>, n: nat): map<string, Msg>
    requires n <= |rs|
  {
    if n == 0 then map[] else Arriving(Pending(rs, n - 1), rs[n - 1])
  }

  /** A reading that opens or closes messages under a tag. */
  predicate Bounds(r: Reading, tag: string) {
    match r
    case Begin(t, _) => t == tag
    case End(t) => t == tag
    case _ => false
  }

  /** The message under tag that reading a began is still the one arriving before reading b. */
  predicate Open(rs: seq<Reading>, tag: string, a: nat, b: nat)
    requires a < b <= |rs|
  {
    && rs[a].Begin? && rs[a].tag == tag
    && forall k :: a < k < b ==> !Bounds(rs[k], tag)
  }

  /** What one reading adds under a tag. */
  function LineOf(r: Reading, tag: string): seq<(string, string)> {
    match r
    case Continue(t, key, value) => if t == tag then [(key, value)] else []
    case _ => []
  }

  /** The continuation lines of a tag among readings a to b, in order. */
  function Lines(rs: seq<Reading>, tag: string, a: nat, b: nat): seq<(string, string)>
    requires a <= b <= |rs|
    decreases b
  {
    if a == b then [] else Lines(rs, tag, a, b - 1) + LineOf(rs[b - 1], tag)
  }

  /** Arguments with lines added one after another. */
  function WithAll(args: seq<Arg>, lines: seq<(string, string)>): seq<Arg> {
    if lines == [] then args
    else
      var last := lines[|lines| - 1];
      WithLine(WithAll(args, lines[..|lines| - 1]), last.0, last.1)
  }

  /** The values among some lines that belong to a key. */
  function ValuesFor(lines: seq<(string, string)>, key: string): seq<string> {
    if lines == [] then []
    else
      var last := lines[|lines| - 1];
      ValuesFor(lines[..|lines| - 1], key) + if EqualFold(last.0, key) then [last.1] else []
  }

  /** What a key shows after some values were added to it. */
  function ExtendedBy(had: Option<seq<string>>, values: seq<string>): Option<seq<string>> {
    if values == [] then had else Some((if had.Some? then had.value else []) + values)
  }

  lemma ExtendOnce(had: Option<seq<string>>, values: seq<string>, v: string)
    ensures ExtendedBy(had, values + [v]) == ExtendedBy(ExtendedBy(had, values), [v])
  {
    var before := if had.Some? then had.value else [];
    assert before + values + [v] == before + (values + [v]);
    assert [] + [v] == [v];
    assert values + [v] != [];
  }

  /** Every key shows the lines it had, then its own new values in order, and no others. */
  lemma {:induction false} WithAllPerKey(args: seq<Arg>, lines: seq<(string, string)>, key: string)
    ensures LinesOf(WithAll(args, lines), key) == ExtendedBy(LinesOf(args, key), ValuesFor(lines, key))
    decreases |lines|
  {
    if lines != [] {
      var init, last := lines[..|lines| - 1], lines[|lines| - 1];
      WithAllPerKey(args, init, key);
      WithLineShows(WithAll(args, init), last.0, last.1, key);
      ExtendOnce(LinesOf(args, key), ValuesFor(init, key), last.1);
      assert ValuesFor(init, key) + [] == ValuesFor(init, key);
    }
  }

  lemma WithAllAppend(args: seq<Arg>, lines: seq<(string, string)>, key: string, value: string)
    ensures WithAll(args, lines + [(key, value)]) == WithLine(WithAll(args, lines), key, value)
  {
    assert (lines + [(key, value)])[..|lines|] == lines;
  }

  /** While a message is open, it is what began it with the tag's lines added, whatever
      other messages begin, continue or end meanwhile. */
  lemma {:induction false} OpenMessage(rs: seq<Reading>, tag: string, a: nat, b: nat)
    requires a < b <= |rs| && Open(rs, tag, a, b)
    ensures tag in Pending(rs, b)
    ensures Pending(rs, b)[tag] == rs[a].msg.(args := WithAll(rs[a].msg.args, Lines(rs, tag, a + 1, b)))
    decreases b
  {
    if a + 1 < b {
      OpenMessage(rs, tag, a, b - 1);
      var r, lines := rs[b - 1], Lines(rs, tag, a + 1, b - 1);
      assert !Bounds(r, tag);
      if r.Continue? && r.tag == tag {
        WithAllAppend(rs[a].msg.args, lines, r.key, r.value);
      } else {
        assert lines + [] == lines;
      }
    }
  }

  /** Every message still arriving was begun by some reading and has been open since. */
  lemma {:induction false} Origin(rs: seq<Reading>, tag: string, b: nat) returns (a: nat)
    requires b <= |rs| && tag in Pending(rs, b)
    ensures a < b && Open(rs, tag, a, b)
    decreases b
  {
    var r := rs[b - 1];
    if r.Begin? && r.tag == tag {
      a := b - 1;
    } else {
      a := Origin(rs, tag, b - 1);
      assert !Bounds(r, tag);
    }
  }
}
