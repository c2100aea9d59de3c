/** A help index that was written reads back as the same topics in the same order. */
module HelpRoundTrip {
  import opened Help
  import opened Text

  // ---------- Which topics survive ----------

  /** Text that no separator breaks and whose edges are not newlines. */
  ghost predicate GoodBody(body: string) {
    && '\r' !in body
    && (body == "" || (body[0] != '\n' && body[|body| - 1] != '\n'))
    && NoSeparators(SplitAt(body, '\n'))
  }

  ghost predicate NoSeparators(lines: seq<string>) {
    forall l :: l in lines ==> l == "" || l[0] != '~'
  }

  predicate GoodName(n: string) {
    n != "" && TrimSpace(n) == n && '|' !in n && '\n' !in n && '\r' !in n
  }

  /** A topic with a name; only the first name must not begin with the separator's mark. */
  ghost predicate GoodTopic(t: Topic) {
    && t.name != "" && t.name[0] != '~'
    && (forall n :: n in AllNames(t) ==> GoodName(n))
    && GoodBody(t.body)
  }

  ghost predicate Nameless(t: Topic) {
    t.name == "" && t.aliases == [] && GoodBody(t.body)
  }

  /** A header has no name, and more than blanks in it. */
  ghost predicate GoodHeader(t: Topic) {
    Nameless(t) && Inked(t.body)
  }

  ghost predicate GoodIndex(topics: seq<Topic>) {
    && topics != []
    && (Nameless(topics[0]) || GoodTopic(topics[0]))
    && forall k :: 1 <= k < |topics| ==> GoodTopic(topics[k])
  }

  // ---------- Text as lines ----------

  function TopicLines(t: Topic): (r: seq<string>)
    ensures r != []
  {
    (if t.name != "" then [Join(AllNames(t), '|')] else []) + SplitAt(t.body, '\n')
  }

  function AllLines(topics: seq<Topic>): seq<string> {
    if topics == [] then []
    else
      AllLines(topics[..|topics| - 1]) + (if |topics| > 1 then ["~"] else []) + TopicLines(topics[|topics| - 1])
  }

  lemma BodyText(body: string)
    ensures TextOf(SplitAt(body, '\n')) == body + "\n"
  {
    JoinOfSplit(body, '\n');
    TextOfIsJoin(SplitAt(body, '\n'));
  }

  lemma TopicIsText(t: Topic)
    requires GoodBody(t.body)
    ensures TopicText(t) == TextOf(TopicLines(t))
  {
    hide Join, SplitAt, AllNames, NoSeparators;
    BodyText(t.body);
    if t.name != "" {
      var names := Join(AllNames(t), '|');
      TextOfAppend([names], SplitAt(t.body, '\n'));
      TextOfOne(names);
      Append2(names + "\n", t.body, "\n");
    } else {
      assert TopicLines(t) == SplitAt(t.body, '\n');
      assert TopicText(t) == "" + t.body + "\n";
    }
  }

  lemma GoodBodies(topics: seq<Topic>, k: nat)
    requires GoodIndex(topics) && k < |topics|
    ensures GoodBody(topics[k].body)
  {}

  lemma GoodInit(topics: seq<Topic>)
    requires GoodIndex(topics) && |topics| > 1
    ensures GoodIndex(topics[..|topics| - 1]) && GoodTopic(topics[|topics| - 1])
  {
    hide Nameless, GoodTopic;
  }

  lemma {:induction false} RenderIsText(topics: seq<Topic>)
    requires GoodIndex(topics)
    ensures Render(topics) == TextOf(AllLines(topics))
    decreases |topics|
  {
    hide TopicText, TopicLines, GoodIndex, GoodBody;
    GoodNonEmpty(topics);
    var init, last := topics[..|topics| - 1], topics[|topics| - 1];
    GoodBodies(topics, |topics| - 1);
    TopicIsText(last);
    if |topics| == 1 {
      assert init == [];
      assert AllLines(topics) == TopicLines(last);
      assert Render(topics) == "" + "" + TopicText(last);
    } else {
      GoodInit(topics);
      RenderIsText(init);
      TextOfOne("~");
      TextOfAppend(AllLines(init), ["~"]);
      TextOfAppend(AllLines(init) + ["~"], TopicLines(last));
    }
  }

  lemma GoodNonEmpty(topics: seq<Topic>)
    requires GoodIndex(topics)
    ensures topics != []
  {}

  // ---------- Every line is whole ----------

  predicate Whole(line: string) {
    '\n' !in line && '\r' !in line
  }

  lemma {:induction false} JoinAvoids(parts: seq<string>, sep: char, c: char)
    requires c != sep && forall k :: 0 <= k < |parts| ==> c !in parts[k]
    ensures c !in Join(parts, sep)
    decreases |parts|
  {
    if |parts| > 1 { JoinAvoids(parts[1..], sep, c); }
  }

  lemma NamesWhole(t: Topic)
    requires GoodTopic(t)
    ensures Whole(Join(AllNames(t), '|'))
  {
    hide GoodBody, TrimSpace, Join;
    assert forall k :: 0 <= k < |AllNames(t)| ==> GoodName(AllNames(t)[k]);
    JoinAvoids(AllNames(t), '|', '\n');
    JoinAvoids(AllNames(t), '|', '\r');
  }

  lemma LinesWhole(t: Topic)
    requires GoodTopic(t) || Nameless(t)
    ensures forall k :: 0 <= k < |TopicLines(t)| ==> Whole(TopicLines(t)[k])
  {
    hide SplitAt, AllNames, Join, TrimSpace, GoodName;
    SplitAvoids(t.body, '\n', '\r');
    if GoodTopic(t) { NamesWhole(t); }
  }

  lemma {:induction false} AllWhole(topics: seq<Topic>)
    requires GoodIndex(topics)
    ensures forall k :: 0 <= k < |AllLines(topics)| ==> Whole(AllLines(topics)[k])
    decreases |topics|
  {
    hide GoodTopic, Nameless, TopicLines;
    LinesWhole(topics[|topics| - 1]);
    if |topics| > 1 {
      GoodInit(topics);
      AllWhole(topics[..|topics| - 1]);
    } else {
      assert AllLines(topics) == TopicLines(topics[0]);
    }
  }

  lemma {:induction false} TextAvoids(lines: seq<string>, c: char)
    requires c != '\n' && forall k :: 0 <= k < |lines| ==> c !in lines[k]
    ensures c !in TextOf(lines)
  {
    if lines != [] { TextAvoids(lines[1..], c); }
  }

  lemma NormaliseNothing(s: string)
    requires '\r' !in s
    ensures Normalise(s) == s
  {
    hide Unreturn;
    forall k ensures !ReturnAt(s, k) {
      if 0 <= k < |s| { assert s[k] in s; }
    }
    UnreturnKeeps(s);
    assert forall k :: 0 <= k < |s| ==> s[k] in s;
    assert NewlinesOnly(s) == s;
  }

  // ---------- Blocks ----------

  lemma {:induction false} TakeAllAppend(b: Blocks, x: seq<string>, y: seq<string>)
    ensures TakeAll(b, x + y) == TakeAll(TakeAll(b, x), y)
    decreases |y|
  {
    hide Take;
    if y == [] {
      assert x + y == x;
    } else {
      assert (x + y)[..|x + y| - 1] == x + y[..|y| - 1];
      TakeAllAppend(b, x, y[..|y| - 1]);
    }
  }

  lemma {:induction false} TakeLines(b: Blocks, lines: seq<string>)
    requires lines != [] && NoSeparators(lines)
    ensures TakeAll(b, lines) == Blocks(b.done, b.current + TextOf(lines), false)
    decreases |lines|
  {
    var init, last := lines[..|lines| - 1], lines[|lines| - 1];
    assert last in lines && lines == init + [last];
    TextOfAppend(init, [last]);
    TextOfOne(last);
    Append2(b.current, TextOf(init), last + "\n");
    Append2(b.current + TextOf(init), last, "\n");
    if init == [] {
      assert b.current + "" == b.current;
    } else {
      TakeLines(b, init);
    }
  }

  function Texts(topics: seq<Topic>): (r: seq<string>)
    ensures |r| == |topics|
  {
    seq(|topics|, k requires 0 <= k < |topics| => TopicText(topics[k]))
  }

  lemma {:induction false} JoinStarts(parts: seq<string>, c: char)
    requires parts != [] && parts[0] != ""
    ensures Join(parts, c) != "" && Join(parts, c)[0] == parts[0][0]
  {}

  lemma TopicNoSeparators(t: Topic)
    requires GoodTopic(t) || Nameless(t)
    ensures NoSeparators(TopicLines(t))
  {
    hide SplitAt, TrimSpace, GoodName;
    if t.name != "" { JoinStarts(AllNames(t), '|'); }
  }

  /** A topic's lines make one block. */
  lemma {:induction false} TakeTopics(topics: seq<Topic>)
    requires GoodIndex(topics)
    ensures
      var n := |topics| - 1;
      TakeAll(Blocks([], "", false), AllLines(topics)) == Blocks(Texts(topics[..n]), TopicText(topics[n]), false)
    decreases |topics|
  {
    hide GoodTopic, Nameless, TopicLines, TopicText, GoodBody, NoSeparators;
    var n := |topics| - 1;
    var start, init, last := Blocks([], "", false), topics[..n], topics[n];
    GoodBodies(topics, n);
    TopicNoSeparators(last);
    TopicIsText(last);
    if n == 0 {
      assert AllLines(topics) == TopicLines(last);
      TakeLines(start, TopicLines(last));
      assert "" + TopicText(last) == TopicText(last);
    } else {
      GoodInit(topics);
      TakeTopics(init);
      TakeAllAppend(start, AllLines(init), ["~"]);
      TakeAllAppend(start, AllLines(init) + ["~"], TopicLines(last));
      var before := TakeAll(start, AllLines(init));
      TakeMark(before);
      TakeLines(Blocks(before.done + [before.current], "", true), TopicLines(last));
      assert "" + TopicText(last) == TopicText(last);
      assert Texts(init) == Texts(init[..n - 1]) + [TopicText(init[n - 1])];
    }
  }

  lemma TakeMark(b: Blocks)
    ensures !b.sep ==> TakeAll(b, ["~"]) == Blocks(b.done + [b.current], "", true)
  {
    assert ["~"][..0] == [];
  }

  lemma BlocksOf(topics: seq<Topic>)
    requires GoodIndex(topics)
    ensures SplitBlocks(Normalise(Render(topics))) ==
      Texts(topics[..|topics| - 1]) + [TopicText(topics[|topics| - 1]) + "\n"]
  {
    hide Normalise, GoodIndex, AllLines, TopicText, Render;
    var lines := AllLines(topics);
    RenderIsText(topics);
    AllWhole(topics);
    WholeParts(lines);
    TextAvoids(lines, '\r');
    NormaliseNothing(Render(topics));
    SplitOfText(lines);
    GoodNonEmpty(topics);
    TakeTopics(topics);
    TakeAllAppend(Blocks([], "", false), lines, [""]);
    TakeBlank(TakeAll(Blocks([], "", false), lines));
  }

  lemma TakeBlank(b: Blocks)
    ensures TakeAll(b, [""]) == Blocks(b.done, b.current + "\n", false)
  {
    assert [""][..0] == [];
    assert b.current + "" + "\n" == b.current + "\n";
  }

  lemma WholeParts(lines: seq<string>)
    requires forall k :: 0 <= k < |lines| ==> Whole(lines[k])
    ensures forall k :: 0 <= k < |lines| ==> '\n' !in lines[k] && '\r' !in lines[k]
  {}

  // ---------- One block ----------

  lemma {:induction false} NamesBack(names: seq<string>)
    requires forall k :: 0 <= k < |names| ==> names[k] != "" && TrimSpace(names[k]) == names[k]
    ensures NamesOf(names) == names
  {
    hide TrimSpace;
    if names != [] {
      NamesBack(names[..|names| - 1]);
      assert names == names[..|names| - 1] + [names[|names| - 1]];
    }
  }

  predicate Newlines(s: string) {
    forall k :: 0 <= k < |s| ==> s[k] == '\n'
  }

  lemma {:induction false} TrimRightBack(body: string, tail: string)
    requires Newlines(tail) && (body == "" || body[|body| - 1] != '\n')
    ensures TrimRightNewlines(body + tail) == body
    decreases |tail|
  {
    if tail == "" {
      assert body + tail == body;
    } else {
      assert (body + tail)[..|body + tail| - 1] == body + tail[..|tail| - 1];
      TrimRightBack(body, tail[..|tail| - 1]);
    }
  }

  lemma {:induction false} TrimLeftAll(s: string)
    requires Newlines(s)
    ensures TrimLeftNewlines(s) == ""
  {
    if s != "" { TrimLeftAll(s[1..]); }
  }

  lemma TrimBack(body: string, tail: string)
    requires Newlines(tail) && (body == "" || (body[0] != '\n' && body[|body| - 1] != '\n'))
    ensures TrimBlock(body + tail) == body
  {
    if body == "" {
      assert body + tail == tail;
      TrimLeftAll(tail);
    } else {
      assert (body + tail)[0] == body[0];
      TrimRightBack(body, tail);
    }
  }

  lemma TopicBack(t: Topic, tail: string, header: bool)
    requires GoodTopic(t) && Newlines(tail)
    ensures TopicsOf(TopicText(t) + tail, false, header) == [t]
  {
    hide TrimSpace, TrimBlock, NoSeparators, Newlines;
    var names := Join(AllNames(t), '|');
    var rest := t.body + ("\n" + tail);
    NamesWhole(t);
    CutExact(names, '\n', rest);
    assert TopicText(t) + tail == names + ['\n'] + rest by {
      Append3(names, "\n", t.body, "\n" + tail);
      Append2(names + "\n" + t.body, "\n", tail);
    }
    assert forall k :: 0 <= k < |AllNames(t)| ==> GoodName(AllNames(t)[k]);
    SplitOfJoin(AllNames(t), '|');
    NamesBack(AllNames(t));
    MoreNewlines(tail);
    TrimBack(t.body, "\n" + tail);
    assert AllNames(t)[1..] == t.aliases;
  }

  lemma MoreNewlines(tail: string)
    requires Newlines(tail)
    ensures Newlines("\n" + tail)
  {}

  /** Text with something other than blanks in it does not trim away. */
  predicate Inked(s: string) {
    exists k :: 0 <= k < |s| && !IsSpace(s[k])
  }

  lemma {:induction false} TrimRightInk(s: string)
    ensures TrimRight(s) != "" <==> Inked(s)
  {
    hide IsSpace;
    if s != "" && IsSpace(s[|s| - 1]) {
      TrimRightInk(s[..|s| - 1]);
      assert forall k :: 0 <= k < |s| - 1 ==> s[..|s| - 1][k] == s[k];
    }
  }

  lemma TrimInk(s: string)
    ensures TrimSpace(s) != "" <==> Inked(s)
  {
    hide TrimRight, IsSpace;
    var n := SpanLength(s, IsSpace);
    TrimRightInk(s[n..]);
    if Inked(s) {
      var k :| 0 <= k < |s| && !IsSpace(s[k]);
      assert k >= n && s[n..][k - n] == s[k];
    }
    if Inked(s[n..]) {
      var k :| 0 <= k < |s[n..]| && !IsSpace(s[n..][k]);
      assert s[n + k] == s[n..][k];
    }
  }

  lemma HeaderBack(t: Topic, tail: string)
    requires GoodHeader(t) && Newlines(tail)
    ensures TopicsOf(TopicText(t) + tail, true, true) == [t]
  {
    hide TrimSpace, TrimBlock, NoSeparators, Newlines;
    var block := t.body + ("\n" + tail);
    assert TopicText(t) == t.body + "\n" by { assert "" + t.body + "\n" == t.body + "\n"; }
    Append2(t.body, "\n", tail);
    MoreNewlines(tail);
    TrimBack(t.body, "\n" + tail);
    TrimInk(t.body);
    var k :| 0 <= k < |t.body| && !IsSpace(t.body[k]);
    assert block[k] == t.body[k];
    TrimInk(block);
  }

  /** A first block of blanks is no topic. */
  lemma BlankGivesNothing(t: Topic, tail: string, header: bool)
    requires Nameless(t) && !Inked(t.body) && Newlines(tail)
    ensures TopicsOf(TopicText(t) + tail, true, header) == []
  {
    hide TrimSpace, TrimBlock, NoSeparators;
    var block := TopicText(t) + tail;
    assert TopicText(t) == t.body + "\n" by { assert "" + t.body + "\n" == t.body + "\n"; }
    assert forall k :: 0 <= k < |block| ==>
      (k < |t.body| && block[k] == t.body[k]) || block[k] == '\n';
    assert !Inked(block);
    TrimInk(block);
  }

  // ---------- The index ----------

  /** The blocks after the first give back the topics after the first. */
  lemma {:induction false} BlocksBack(topics: seq<Topic>, first: string, header: bool)
    requires forall k :: 0 <= k < |topics| ==> GoodTopic(topics[k])
    ensures ParseBlocks([first] + Texts(topics), header) == TopicsOf(first, true, header) + topics
    decreases |topics|
  {
    hide TopicsOf, TopicText, GoodTopic;
    var blocks := [first] + Texts(topics);
    if topics == [] {
      assert blocks == [first] && blocks[..0] == [];
    } else {
      var init, last := topics[..|topics| - 1], topics[|topics| - 1];
      assert blocks[..|blocks| - 1] == [first] + Texts(init);
      BlocksBack(init, first, header);
      TopicBack(last, "", header);
      assert TopicText(last) + "" == TopicText(last);
      assert topics == init + [last];
    }
  }

  /** The text of the first block, which the end of the source adds a newline to. */
  function FirstBlock(topics: seq<Topic>): string
    requires topics != []
  {
    TopicText(topics[0]) + if |topics| == 1 then "\n" else ""
  }

  /** Reading a written index yields every topic after the first as it was, after whatever the
      first one's text is taken for. */
  lemma IndexBack(topics: seq<Topic>, header: bool)
    requires GoodIndex(topics)
    ensures Parse(Render(topics), header) == TopicsOf(FirstBlock(topics), true, header) + topics[1..]
  {
    hide TopicsOf, TopicText, GoodTopic, Nameless, SplitBlocks, Normalise, Render;
    BlocksOf(topics);
    var n := |topics| - 1;
    if n == 0 {
      assert Texts(topics[..0]) == [] && topics[1..] == [];
      BlocksBack([], FirstBlock(topics), header);
      assert [FirstBlock(topics)] + Texts([]) == [FirstBlock(topics)];
    } else {
      var middle := topics[1..n];
      var blocks := Texts(topics[..n]) + [TopicText(topics[n]) + "\n"];
      assert FirstBlock(topics) == TopicText(topics[0]) + "" == TopicText(topics[0]);
      assert blocks[..n] == [FirstBlock(topics)] + Texts(middle);
      BlocksBack(middle, FirstBlock(topics), header);
      TopicBack(topics[n], "\n", header);
      assert topics[1..] == middle + [topics[n]];
    }
  }

  /** An index that begins with its header comes back whole. */
  lemma RoundTrip(topics: seq<Topic>)
    requires GoodIndex(topics) && GoodHeader(topics[0])
    ensures Parse(Render(topics), true) == topics
  {
    hide Parse, Render, TopicsOf, TopicText, GoodIndex;
    GoodNonEmpty(topics);
    IndexBack(topics, true);
    HeaderBack(topics[0], if |topics| == 1 then "\n" else "");
    assert topics == [topics[0]] + topics[1..];
  }

  /** In a corpus without a header the first topic is lost: its names and text stand where
      only a header is looked for. */
  lemma HeaderlessLosesFirst(topics: seq<Topic>)
    requires GoodIndex(topics)
    ensures Parse(Render(topics), false) == topics[1..]
  {
    hide Parse, Render, TopicText, GoodIndex;
    GoodNonEmpty(topics);
    IndexBack(topics, false);
    assert [] + topics[1..] == topics[1..];
  }

  /** A first block of blanks, such as is left before a separator that the text begins with, is
      no topic in any corpus, and all the others come back. */
  lemma BlankIsNoTopic(topics: seq<Topic>, header: bool)
    requires GoodIndex(topics) && topics[0].name == "" && forall c :: c in topics[0].body ==> IsSpace(c)
    ensures Parse(Render(topics), header) == topics[1..]
  {
    hide Parse, Render, TopicsOf, TopicText, TrimBlock, TrimSpace, GoodBody;
    IndexBack(topics, header);
    BlankGivesNothing(topics[0], if |topics| == 1 then "\n" else "", header);
    if |topics| > 1 { assert TopicText(topics[0]) + "" == TopicText(topics[0]); }
    assert [] + topics[1..] == topics[1..];
  }

  /** An index comes back whole exactly when it is read with a header and begins with one: a
      named first topic never does. */
  lemma RoundTripIffHeader(topics: seq<Topic>, header: bool)
    requires GoodIndex(topics)
    ensures Parse(Render(topics), header) == topics <==> header && GoodHeader(topics[0])
  {
    hide Parse, Render, TopicText, TrimBlock, TrimSpace, GoodBody, GoodName;
    IndexBack(topics, header);
    assert topics == [topics[0]] + topics[1..];
    if header && GoodHeader(topics[0]) {
      RoundTrip(topics);
    } else if Nameless(topics[0]) && !Inked(topics[0].body) {
      BlankIsNoTopic(topics, header);
    } else {
      var first := TopicsOf(FirstBlock(topics), true, header);
      if first == [] {
        assert |first + topics[1..]| < |topics|;
      } else {
        assert (first + topics[1..])[0] == first[0] && first[0].name == "";
      }
    }
  }
}
