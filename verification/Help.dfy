/** The help index: blocks of text between lines that begin with '~', each headed by the
    names its topic answers to. */
module Help {
  import opened Text

  /** A topic; its place in the list is its order. The header has no name. */
  datatype Topic = Topic(name: string, aliases: seq<string>, body: string)

  function AllNames(t: Topic): seq<string> {
    (if t.name != "" then [t.name] else []) + t.aliases
  }

  // ---------- Writing ----------

  function TopicText(t: Topic): string {
    (if t.name != "" then Join(AllNames(t), '|') + "\n" else "")
      + t.body + if t.body != "" && t.body[|t.body| - 1] == '\n' then "" else "\n"
  }

  function Render(topics: seq<Topic>): string {
    if topics == [] then ""
    else
      Render(topics[..|topics| - 1])
      + (if |topics| > 1 then "~\n" else "")
      + TopicText(topics[|topics| - 1])
  }

  method WriteTopic(before: string, t: Topic) returns (text: string)
    ensures text == before + TopicText(t)
  {
    hide Join, AllNames;
    var names := if t.name != "" then Join(AllNames(t), '|') + "\n" else "";
    var end := if t.body == "" || t.body[|t.body| - 1] != '\n' then "\n" else "";
    text := before + names + t.body + end;
    Append3(before, names, t.body, end);
  }

  method RenderIndex(topics: seq<Topic>) returns (text: string)
    ensures text == Render(topics)
  {
    hide TopicText;
    text := "";
    for i := 0 to |topics|
      invariant text == Render(topics[..i])
    {
      assert topics[..i + 1][..i] == topics[..i];
      if i > 0 { text := text + "~\n"; }
      text := WriteTopic(text, topics[i]);
    }
    assert topics[..|topics|] == topics;
  }

  // ---------- Reading ----------

  predicate IsSeparator(line: string) {
    line != [] && line[0] == '~'
  }

  /** What splitting into blocks has seen so far; sep is set just after a separator. */
  datatype Blocks = Blocks(done: seq<string>, current: string, sep: bool)

  function Take(b: Blocks, line: string): Blocks {
    if IsSeparator(line) then
      if b.sep then b else Blocks(b.done + [b.current], "", true)
    else Blocks(b.done, b.current + line + "\n", false)
  }

  function TakeAll(b: Blocks, lines: seq<string>): Blocks {
    if lines == [] then b else Take(TakeAll(b, lines[..|lines| - 1]), lines[|lines| - 1])
  }

  function SplitBlocks(source: string): seq<string> {
    var b := TakeAll(Blocks([], "", false), SplitAt(source, '\n'));
    b.done + [b.current]
  }

  method FindBlocks(source: string) returns (blocks: seq<string>)
    ensures blocks == SplitBlocks(source)
  {
    blocks := [];
    var current, sep := "", false;
    var lines := SplitAt(source, '\n');
    for k := 0 to |lines|
      invariant Blocks(blocks, current, sep) == TakeAll(Blocks([], "", false), lines[..k])
    {
      assert lines[..k + 1][..k] == lines[..k];
      if IsSeparator(lines[k]) {
        if !sep { blocks, current, sep := blocks + [current], "", true; }
      } else {
        sep := false;
        current := current + lines[k] + "\n";
      }
    }
    assert lines[..|lines|] == lines;
    blocks := blocks + [current];
  }

  /** The names on an alias line: trimmed, the empty ones dropped. */
  function NamesOf(parts: seq<string>): seq<string> {
    if parts == [] then []
    else
      NamesOf(parts[..|parts| - 1])
      + if TrimSpace(parts[|parts| - 1]) != "" then [TrimSpace(parts[|parts| - 1])] else []
  }

  /** The names at the head of a block, and the rest of it. */
  function SplitAliasLine(block: string): (seq<string>, string) {
    var n := IndexOf(block, '\n');
    (NamesOf(SplitAt(block[..n], '|')), if n == |block| then "" else block[n + 1..])
  }

  method FindNames(block: string) returns (names: seq<string>, rest: string)
    ensures (names, rest) == SplitAliasLine(block)
  {
    var n := IndexOf(block, '\n');
    rest := if n == |block| then "" else block[n + 1..];
    var parts := SplitAt(block[..n], '|');
    names := [];
    for k := 0 to |parts|
      invariant names == NamesOf(parts[..k])
    {
      assert parts[..k + 1][..k] == parts[..k];
      var name := TrimSpace(parts[k]);
      if name != "" { names := names + [name]; }
    }
    assert parts[..|parts|] == parts;
  }

  function TrimLeftNewlines(s: string): (r: string)
    ensures |r| <= |s|
  {
    if s != [] && s[0] == '\n' then TrimLeftNewlines(s[1..]) else s
  }

  function TrimRightNewlines(s: string): string {
    if s != [] && s[|s| - 1] == '\n' then TrimRightNewlines(s[..|s| - 1]) else s
  }

  function TrimBlock(s: string): string {
    TrimRightNewlines(TrimLeftNewlines(s))
  }

  /** What one block adds to the topics. */
  function TopicsOf(block: string, first: bool, header: bool): seq<Topic> {
    if first then
      if !header || TrimSpace(block) == "" then [] else [Topic("", [], TrimBlock(block))]
    else
      var (names, rest) := SplitAliasLine(block);
      if names == [] then [] else [Topic(names[0], names[1..], TrimBlock(rest))]
  }

  function ParseBlocks(blocks: seq<string>, header: bool): seq<Topic> {
    if blocks == [] then []
    else ParseBlocks(blocks[..|blocks| - 1], header) + TopicsOf(blocks[|blocks| - 1], |blocks| == 1, header)
  }

  function Parse(source: string, header: bool): seq<Topic> {
    ParseBlocks(SplitBlocks(Normalise(source)), header)
  }

  method ParseIndex(source: string, header: bool) returns (topics: seq<Topic>)
    ensures topics == Parse(source, header)
  {
    hide SplitAliasLine, SplitBlocks, TrimBlock, TrimSpace;
    topics := [];
    var blocks := FindBlocks(Normalise(source));
    for i := 0 to |blocks|
      invariant topics == ParseBlocks(blocks[..i], header)
    {
      assert blocks[..i + 1][..i] == blocks[..i];
      var b := blocks[i];
      if i == 0 {
        if header && TrimSpace(b) != "" { topics := topics + [Topic("", [], TrimBlock(b))]; }
      } else {
        var names, rest := FindNames(b);
        if |names| > 0 { topics := topics + [Topic(names[0], names[1..], TrimBlock(rest))]; }
      }
    }
    assert blocks[..|blocks|] == blocks;
  }
}
