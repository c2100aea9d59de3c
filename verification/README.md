# Fuzzball Emerald: the core, specified and proved

Emerald is a MUCK server. This project models the parts of it whose behaviour spans many
steps or several functions, in Dafny, and proves what the server relies on.
`dafny verify dfyconfig.toml` checks the whole project.

What the source does step by step is modelled step by step: methods over a cursor, a
buffer, a table or a connection, each proved equal to a specification function. The laws
are then proved of those functions, for all inputs, all runs and all reachable states.

- **Locks** (`LockSyntax`, `LockRoundTrip`, `LockTyped`, `LockEval`, `LockMeaning`). A lock
  is stored as printed text and parsed again at every check. The round trip is not the
  identity on trees; it is re-association to the right, and no host can tell the difference,
  not even one whose answers have side effects. What each connective does, whom the text of
  a lock lets through, and what a player can type are proved beside it.
- **Wildcards** (`Smatch`, `SmatchMeaning`, `WordSets`). The search-driven matcher decides a
  declarative glob wherever no word set is involved; a word set anchors to a whole word and
  accepts exactly what its alternatives do as globs.
- **Exits** (`ExitGraph`, `ExitLinks`, `LinkLists`, `Trigger`, `TriggerEvents`). The link
  check walks nine links, so no sequence of commands closes a ring of ten or fewer exits, and
  an exit is given everything named but what that check and one other rule leave out; every
  trigger returns, does exactly what its destinations call for, and says that it gave up
  exactly when a chain was too long.
- **MCP** (`McpLex`, `McpMessage`, `McpFrame`, `McpConnection`, `McpTags`,
  `McpReassembly`, `McpSend`, `McpLines`, `McpForms`, `McpOpening`, `McpPackages`). Interleaved
  messages are reassembled by data tag, nothing is obeyed without the key, what is sent is what is
  received, and exactly an opening that offers version 2.1 turns it on. The grammar is that
  of the MUD Client Protocol, version 2.1.
- **The gate** (`Admit`, `AdmitRuns`). A sliding window that holds over every run, and who
  exactly is let in.
- **Moves** (`Walks`, `Moves`, `MovesLand`). Bounded walks guard every move, no object is
  ever put inside itself, and each lands where its kind says.
- **Processes** (`Processes`, `ProcessQueue`, `ProcessLaws`, `ProcessWakes`). Suspended
  programs, who watches whom, the descriptors being read, timers, and what wakes whom.
- **Ticks** (`Deferred`, `DeferredLaws`, `Quotas`). Deferred events run once, at the first
  tick that may run them; the quota clock telescopes.
- **Text** (`Alphanum`, `AlphanumOrder`, `Ansi`, `AnsiLaws`, `Help`, `HelpRoundTrip`,
  `Editing`). Name order and the names on which it is one, the two colour filters, the help index, and
  the program editor.
- **Dumps** (`Dump`, `Utf8`, `DumpReader`, `DumpWriter`, `DumpRoundTrip`, `DumpObjects`,
  `DumpLoads`, `DumpLocks`, `DumpRefusals`). Every object written to a dump is read back from
  it, and what a load refuses, repairs and warns of is stated exactly.
- `Text`, `Decimal` and `Refs` hold what these share.

Strings are sequences of bytes, seen as characters; letter case is that of ASCII. Integers
are unbounded except where the source narrows them: references are 32 bits wide and wrap,
dump numbers are range-checked, and the byte counter of a character class wraps.

## What the proofs found

These are properties one would expect that the code does not have, each with the input that
shows it or the exact condition under which it holds.

- `SmatchMeaning.TopRangeAcceptsAll`: a class range that ends at byte 255 accepts every
  byte, because its counter never passes the end.
- `SmatchMeaning.SetThenLiteralMatchesNothing`: a word set followed at once by a literal
  other than a space matches nothing.
- `LinkLists.PassesLimitIffFiftiethIsNil`: the limit of fifty destinations is not looked at
  after a NIL, so a list passes it exactly when there is more to take and the fiftieth taken
  is NIL; `ExitLinks.NilIsUnlimited` is such a list.
- `Trigger.AbortNeedsTenExits`: the depth bound is there against rings
  (`internal/game/move.go:61-72`), but where every link was checked it can only ever stop a
  chain of ten different exits.
- `AdmitRuns.StrayReleaseCounts`: releasing an address that holds nothing takes a
  connection off the total that some other address still holds.
- `Moves.TopIsNeverSeen`, `Moves.TopSlipsThrough`: the location check stops at #0 before
  it looks for the object, so #0 itself passes; the store's own check is what refuses.
- `ProcessLaws.LinkedIffNoZero`: a frame may run without a pid of its own: a lock program
  (`internal/game/boolexp.go:137`), a property hook or listener
  (`internal/game/propqueue.go:306`, `:522`), an INTERP
  (`internal/game/interp_host.go:28`), and a program bound to an MCP message, which has a
  process but not its number (`internal/game/mcp.go:301`). A WATCHPID in one of these puts 0
  on the list of the process watched, with nothing at the other end, and that exit is told to
  nobody (`ProcessLaws.UnownedWatcherIsNotTold`). The two ends of every watch agree exactly
  when no live process lists 0; for live watchers they always do.
- `McpSend.WireRoundTrip`: an argument with no lines arrives with one empty line.
- `McpSend.InbandReadsBack`: text that begins with the quotation mark is not quoted itself,
  so a frame that reads it drops the mark; all other text reads back as it was.
- `Alphanum.NotTransitive`, `AlphanumOrder.LetterAfterNumber`: the comparison of names is
  antisymmetric but no order, because of needless zeros, and because a letter after a number
  comes after every longer number. Where neither occurs and numbers are short it is the
  lexicographic order of characters and numbers (`AlphanumOrder.CompareIsLex`).
- `AnsiLaws.EscapeEndedDisagrees`: a colour sequence that an escape ends makes the two
  filters disagree.
- `HelpRoundTrip.RoundTripIffHeader`: rendering and parsing an index gives it back exactly
  when it is read with a header and begins with one; otherwise the first topic does not
  survive as it was.
- `Editing.SaveAndReopen`: a line that ends in a carriage return loses it when the program
  is saved and opened again.
- `Dump`: the comment at `internal/importer/dump.go:32` gives the longest line as 49152
  bytes, but the reader is handed a larger buffer and accepts up to 65535. The comment at
  `internal/ansi/ansi.go:26` counts the filter's limit in input bytes; the code counts
  steps, each of which may take many bytes. The code is followed in both.

## Model

| member | source | states |
|---|---|---|
| LockSyntax.Parse | internal/boolexp/parse.go:95-102 | The compiled lock, or the error, is the one the grammar of the text gives; whatever follows the first complete expression is ignored. |
| LockSyntax.Parser.ParseExpr | internal/boolexp/parse.go:105-120 | From any cursor, the tree and the new cursor are the grammar's for "or", right-associated, with the first error winning. |
| LockSyntax.Parser.ParseTerm | internal/boolexp/parse.go:123-138 | The same for `&`. |
| LockSyntax.Parser.ParseFactor | internal/boolexp/parse.go:142-210 | The same for parentheses, `!` and bare tokens; an unclosed parenthesis is an error. |
| LockSyntax.Parser.ParseParens | internal/boolexp/parse.go:146-156 | A parenthesised expression is read up to its own closing parenthesis. |
| LockSyntax.Parser.ParseToken | internal/boolexp/parse.go:166-209 | A token runs to the next operator or closing parenthesis, trimmed on the right, in both the typed and the stored mode. |
| LockSyntax.Parser.SkipWhitespace | internal/boolexp/parse.go:67-71 | The cursor moves past blanks and nothing else. |
| LockSyntax.UnparseInto | internal/boolexp/unparse.go:30-72 | What is appended to the buffer is the text of the tree under its outer operator, parenthesised only where needed. |
| LockSyntax.UnparseLock | internal/boolexp/unparse.go:24-28 | An unset lock prints as its marker, any other as its text. |
| LockRoundTrip.ParseEStorable | internal/boolexp/parse.go:105-233 | Whatever a player types, a parse that succeeds builds only trees whose property tests the lock text can hold. |
| LockRoundTrip.CanonIsRightAssociated | internal/boolexp/parse.go:105-138 | Re-association reaches the form in which no chain leans left, and leaves such a form alone. |
| LockRoundTrip.ExprReparses | internal/boolexp/parse.go:105-233 | The printed text of any such tree parses in stored mode, stops exactly where the text stops, and yields the tree re-associated to the right. |
| LockRoundTrip.TermReparses | internal/boolexp/parse.go:123-138 | The same for the text printed inside an `&`. |
| LockRoundTrip.FactorReparses | internal/boolexp/parse.go:142-210 | The same for the text printed under a `!`. |
| LockRoundTrip.PrintCanon | internal/boolexp/unparse.go:30-72 | The re-associated tree prints as the identical text. |
| LockEval.EvalCanon | internal/boolexp/eval.go:15-34 | Under any host, even one whose answers depend on what was asked before, re-association changes neither the verdict nor which atoms are asked nor their order. |
| LockEval.StoredLockKeepsMeaning | internal/boolexp/parse.go:95-233 | The law the store rests on: for every typed text that parses, the stored text parses back completely, right-associated, to the same verdict by the same questions, and is stored again as the same text. |
| LockEval.TextIdentifiesLock | internal/boolexp/unparse.go:24-72 | Two storable locks have the same stored text exactly when they differ by association only. |
| LockEval.UnlockedTextIsNotALock | internal/boolexp/unparse.go:12-15 | The marker of an unset lock is not itself lock text. |
| LockEval.UnsetLockPasses | internal/boolexp/eval.go:15-18 | The lock of an object that has none passes and asks nothing. |
| LockEval.EvalConst | internal/boolexp/eval.go:40-59 | A program atom passes by running; any other passes exactly when it is the player, or the owner, location or a possession of the player; NOTHING never passes. |
| LockEval.EnvironmentHas | internal/boolexp/eval.go:88-94 | True exactly when something strictly above in the environment chain has the value. |
| LockEval.HasProperty | internal/boolexp/eval.go:77-97 | True exactly when the value is on something inside at any depth, or with the environment check on something above one of those. |
| LockEval.EvalProp | internal/boolexp/eval.go:65-71 | A property atom passes exactly by the lock's own object or by what the player has. |
| LockMeaning.AndPassesIffAll | internal/boolexp/eval.go:20-22 | Operands joined by the and sign, however they are grouped: the lock passes if and only if each passes in the state the earlier ones left, and nothing is asked after the first that fails. The world may answer as it likes and change while it is asked. |
| LockMeaning.OrFailsIffAll | internal/boolexp/eval.go:23-24 | Operands joined by the or sign: the lock fails if and only if each fails in the state the earlier ones left, and nothing is asked after the first that passes. |
| LockMeaning.NotFlips | internal/boolexp/eval.go:25-26 | The exclamation mark turns the verdict round and asks the same questions. |
| LockMeaning.SteadyIsFormula | internal/boolexp/eval.go:15-34 | In a world that gives a question the same answer whenever it is asked, a lock is its propositional formula. |
| LockMeaning.EvalTree | internal/boolexp/eval.go:20-33 | The walk over the tree asks each atom of the player and the object and gives the verdict of that world. |
| LockMeaning.EvalFor | internal/boolexp/eval.go:15-34 | The same from the entry, where an object without a lock lets everyone through. |
| LockMeaning.StrictMeans | internal/boolexp/eval.go:107-128 | One property passes by matching text, or by being a number that is zero once a fraction is dropped, whatever value the lock names. |
| LockMeaning.FoundIff | internal/boolexp/eval.go:77-97 | A property is found exactly when something the player is, carries, or has inside what it carries at any depth shows it, itself or with the environment check through an ancestor. |
| LockMeaning.AndTextMeans | internal/boolexp/parse.go:123-138 | Text of locks joined by the and sign parses to a lock that lets through exactly whom every one of them does. |
| LockMeaning.OrTextMeans | internal/boolexp/parse.go:105-120 | Text of locks joined by the or sign parses to a lock that lets through exactly whom some one of them does. |
| LockMeaning.LockOfTwo | internal/boolexp/eval.go:40-59 | The text of two references joined by the and sign lets through whoever is related to both and nobody else; joined by the or sign, whoever is related to either. |
| LockTyped.TypedIsNameable | internal/boolexp/parse.go:166-209 | Whatever a player types, the lock tests only objects that were found for some text and properties the player may know of. |
| LockTyped.StoredCanBeTyped | internal/boolexp/parse.go:95-102 | Stored text typed by a player who may name everything in it is the same lock. |
| LockTyped.NameTyped | internal/boolexp/parse.go:188-199 | A typed name is the object found for it, or is refused as absent or as ambiguous. |
| LockTyped.PropTyped | internal/boolexp/parse.go:174-186 | A typed property is tested unless it is a system property, or hidden and the player no wizard. |
| LockTyped.OnlyNumbersStored | internal/boolexp/parse.go:201-208 | A stored name is read if and only if it is a number sign and a 64-bit number. |
| LockTyped.UnclosedIsRefused | internal/boolexp/parse.go:146-156 | Any lock text behind a parenthesis that is not closed is refused as unbalanced. |
| LockTyped.EmptyIsRefused | internal/boolexp/parse.go:214-233 | A property test without a name or without a value is refused as such. |
| DumpLocks.LockSurvivesDump | internal/importer/dump.go:426-471 | A lock property written to a dump and read back still parses completely and decides alike under every host. |
| Smatch.SMatch | internal/ascii/smatch.go:40-42 | The entry point answers as the search relation from the start of the subject. |
| Smatch.MatchPattern | internal/ascii/smatch.go:47-110 | The loop over the pattern terminates, stays in bounds and decides the search relation. |
| Smatch.MatchStar | internal/ascii/smatch.go:115-176 | What follows a star is found by the fast search exactly when the relation allows it. |
| Smatch.SearchWords | internal/ascii/smatch.go:136-151 | A set after a star is tried at the very start of the subject and after each later space, and nowhere else. |
| Smatch.SearchAnywhere | internal/ascii/smatch.go:152-158 | A class after a star is tried at every position. |
| Smatch.SearchByte | internal/ascii/smatch.go:161-176 | Skipping ahead to the next occurrence of the following byte misses no match. |
| Smatch.MatchSymbol | internal/ascii/smatch.go:63-107 | An escaped byte, `?`, class or plain byte takes one subject byte, and how much of the pattern. |
| Smatch.MatchSet | internal/ascii/smatch.go:179-202 | A set passes or fails as its relation says, and gives the cursors after it. |
| Smatch.MatchWord | internal/ascii/smatch.go:210-237 | The cursor goes past the whole word whether or not an alternative matched it. |
| Smatch.TryAlternatives | internal/ascii/smatch.go:215-236 | True exactly when some alternative of the list accepts the word. |
| Smatch.MatchClass | internal/ascii/smatch.go:242-297 | A class body accepts a byte as its items say, inverted by a leading caret. |
| Smatch.RangeHits | internal/ascii/smatch.go:289-293 | The byte counter of a range terminates; ending at 255 it accepts every byte. |
| Smatch.FindUnescaped | internal/ascii/smatch.go:301-314 | The first occurrence that is not escaped, or none. |
| SmatchMeaning.MatchesIsGlob | internal/ascii/smatch.go:47-176 | Without word sets, from any cursor, the search accepts exactly the subjects that can be cut into one piece per pattern symbol: star any run, `?` one byte, class and literal one byte ignoring case. |
| SmatchMeaning.SMatchIsGlob | internal/ascii/smatch.go:40-42 | The whole function answers as that declarative glob. |
| SmatchMeaning.NoBraceNoSet | internal/ascii/smatch.go:47-110 | A pattern without an opening brace is such a pattern. |
| SmatchMeaning.SetConsumesWord | internal/ascii/smatch.go:179-237 | A set that passes began at the start of the subject or after a space and leaves the cursor at a space or the end, matched or inverted. |
| SmatchMeaning.SetThenLiteralMatchesNothing | internal/ascii/smatch.go:179-202 | A pattern with a set followed at once by a literal that is no space matches no subject at all. |
| WordSets.SetAccepts | internal/ascii/smatch.go:179-237 | A set anywhere in a pattern, at any place in the subject: it passes exactly when a word starts there that some alternative accepts as a glob, or with a caret none, and the rest of the pattern goes on behind the word. |
| WordSets.SetOnWord | internal/ascii/smatch.go:179-237 | A pattern that is one set accepts a word if and only if some alternative does as a glob, and with a caret if and only if none does. |
| WordSets.SetOnNothing | internal/ascii/smatch.go:210-214 | The empty subject is accepted by a set exactly when it has a caret. |
| WordSets.AnyWordAccepted | internal/ascii/smatch.go:136-151 | A set between two stars accepts a subject if and only if some word in it, at the start or behind a space, is one the set accepts. |
| SmatchMeaning.SubjectCaseIgnored | internal/ascii/smatch.go:47-297 | The subject's letter case never matters, in sets, classes and searches alike. |
| SmatchMeaning.ClassMeaning | internal/ascii/smatch.go:242-297 | A class body in which no range ends at byte 255 accepts exactly the bytes its items stand for, ignoring case, or exactly the others when inverted. |
| SmatchMeaning.WrittenClass | internal/ascii/smatch.go:242-297 | A class written as plain bytes and ranges accepts exactly the bytes those cover, ignoring case; with a caret before it, exactly the others. |
| SmatchMeaning.TopRangeAcceptsAll | internal/ascii/smatch.go:289-293 | A range ending at 255 makes its class accept every byte, or none when inverted. |
| SmatchMeaning.TopRangeTakesSpace | internal/ascii/smatch.go:289-293 | A concrete class, from the letter a to byte 255, accepts a space. |
| ExitGraph.ReachesIsPath | internal/game/build.go:288-330 | Bounded reachability is the existence of an explicit path of at most that many links. |
| ExitGraph.ExitLoopCheck | internal/game/build.go:298-300 | True exactly when source is dest or some path of at most nine links through live objects leads from dest to source. |
| ExitGraph.ExitLoopFrom | internal/game/build.go:306-330 | The same at each depth of the walk. |
| ExitGraph.CheckedLinkKeepsRingFree | internal/game/build.go:298-330 | Giving an exit destinations that all passed the check closes no ring of ten or fewer exits. |
| ExitLinks.LinkExitDests | internal/game/build.go:1735-1804 | The destinations taken from a name list, in order, and what a dry run reports. |
| ExitLinks.LinkTarget | internal/game/build.go:1751-1798 | What one resolved name adds, is skipped for or refused for. |
| ExitLinks.LinkAllChecked | internal/game/build.go:1778-1784 | Every exit in an accepted list passed the loop check. |
| ExitLinks.LinkAllBounded | internal/game/build.go:1765-1798 | An accepted list holds at most one player, room or program and at most fifty destinations other than NIL. |
| ExitLinks.NilIsUnlimited | internal/game/build.go:1755-1761 | A concrete list of fifty-one NILs that is linked whole. |
| LinkLists.TakenList | internal/game/build.go:1735-1804 | The list an exit is given is the named destinations in order, less exactly the exits that would close a ring and every player, room or program after the first, cut where the limit on length stops it. |
| LinkLists.PassesLimitIffFiftiethIsNil | internal/game/build.go:1755-1798 | That list is longer than fifty if and only if more than fifty are left after those and the fiftieth of them is NIL. |
| LinkLists.WordsOfNames | internal/game/build.go:1740-1751 | Names joined by semicolons are cut into those names, in order. |
| ExitLinks.DryRunPredicts | internal/game/action.go:249-337 | The dry run takes the very list the real run takes, and one that does not fail leaves nothing out. |
| LinkLists.DryRunFailsIff | internal/game/build.go:1765-1802 | The dry run fails if and only if something named is left out of that list or the list is stopped for its length. |
| ExitLinks.ExitWorld.LinkExit | internal/game/build.go:482-551 | Linking changes this exit alone, and only if it led nowhere. |
| ExitLinks.ExitWorld.OpenExit | internal/game/build.go:193-250 | A new exit exists before its names are resolved and is linked afterwards. |
| ExitLinks.ExitWorld.UnlinkExit | internal/game/build.go:648-704 | Unlinking leaves the exit with no destination. |
| LinkLists.LinkLeads | internal/game/build.go:482-551 | Linking an exit that leads nowhere, or only to NIL under an owner who controls it, gives it exactly that list if it holds anything and is paid for, and otherwise changes nothing. |
| LinkLists.UnlinkThenLink | internal/game/build.go:648-704 | Unlinking and then linking gives the exit the list, wherever it led before. |
| LinkLists.OpenLeads | internal/game/build.go:193-250 | A new exit leads to exactly the list its argument comes to. |
| ExitLinks.RunsKeepRingFree | internal/game/build.go:288-330 | No sequence of link, open, unlink, recycle and create commands ever builds a ring of ten or fewer exits. |
| Trigger.Session.TriggerExit | internal/game/move.go:74-181 | Running an exit always returns, leaves the depth counter as it found it, and does what the destinations say in order. |
| Trigger.Session.RunMetalink | internal/game/move.go:149-163 | A metalink runs the other exit one deeper, or is refused past the bound. |
| TriggerEvents.HappensIffCalledFor | internal/game/move.go:74-172 | Using an exit, a room is entered, a thing boarded or brought, a player jumped to or a program run if and only if a destination calls for it, of that exit or of one it comes to by eight metalinks or fewer, with no program before it in any list; nothing is entered and nobody jumped to but by the exit that was used. |
| TriggerEvents.InOrder | internal/game/move.go:92-172 | What an earlier destination does comes before what a later one does, and a program is the last thing an exit does. |
| Trigger.AbortsIffLongChain | internal/game/move.go:60-72 | The loop message is printed exactly when some chain of firing exits is longer than the bound leaves room for. |
| Trigger.AbortNeedsTenExits | internal/game/move.go:60-72 | Where every link was checked, the bound stops only a chain of ten different exits, never a loop. |
| Trigger.SmallWorldNeverAborts | internal/game/move.go:60-72 | With no short ring and fewer than ten exits every exit fires in full. |
| McpLex.ScanIdent | internal/mcp/lex.go:13-22 | The cursor loop takes the longest identifier. |
| McpLex.ScanUnquoted | internal/mcp/lex.go:34-43 | The cursor loop takes the longest run of simple characters, at least one. |
| McpLex.ScanQuoted | internal/mcp/lex.go:62-85 | A quoted string ends at its first unescaped quote; a backslash takes the next character as it is. |
| McpLex.ReadIdent | internal/mcp/lex.go:13-22 | What is taken and what is left make up the input. |
| McpLex.ReadUnquoted | internal/mcp/lex.go:34-43 | What is taken and what is left make up the input. |
| McpLex.WriteEscaped | internal/mcp/mcp.go:206-217 | Quotes and backslashes are escaped and nothing else changes. |
| McpLex.EscapeReadsBack | internal/mcp/mcp.go:206-217 | Reading a quoted value gives back the value, before any suffix. |
| McpMessage.ArgIndex | internal/mcp/mcp.go:145-184 | An argument is the first whose name agrees but for case. |
| McpMessage.Message.AppendLine | internal/mcp/mcp.go:165-173 | A line goes to the end of its argument, which is created if it is new. |
| McpMessage.Message.RemoveArg | internal/mcp/mcp.go:176-184 | Every argument of the name is gone and the others keep their order. |
| McpMessage.Message.Arg0 | internal/mcp/mcp.go:145-152 | The first line of the first argument of the name that has any. |
| McpMessage.WithLineShows | internal/mcp/mcp.go:165-173 | An added line shows under its own name and under no other. |
| McpMessage.SelectVersionIsBest | internal/mcp/mcp.go:95-103 | Of two proper ranges with a common version the one chosen is common and none is above it. |
| McpMessage.NoCommonVersion | internal/mcp/mcp.go:95-103 | With none in common the zero version is chosen. |
| McpMessage.VersionReadsBack | internal/mcp/mcp.go:48-91 | A version's text reads back as the version, whatever follows that is no digit. |
| McpFrame.LongestFit | internal/mcp/frame.go:214-243 | The package of a message name is the longest registered one that fits it. |
| McpPackages.NameSplitsIff | internal/mcp/frame.go:214-243 | A package name, alone or followed by a hyphen and a message name, is read as just those two if and only if no other package claims the whole: the opening package its own name, the longest registered name whatever begins with it, and the negotiation what nobody else does. |
| McpFrame.ReadContinuation | internal/mcp/frame.go:289-322 | A continuation line names its tag and key and carries the rest of the line untouched. |
| McpFrame.ReadEnd | internal/mcp/frame.go:325-344 | An end line names its tag and nothing more. |
| McpForms.PairIff | internal/mcp/frame.go:246-286 | A pair is read if and only if it is a name, a star where the value comes later, a colon and the text of a value, with blanks before the name and before the value and nowhere else. |
| McpForms.QuotedIff | internal/mcp/lex.go:62-85 | A quoted value is read if and only if it is characters bare or behind a backslash between two quotes, and it means those characters. |
| McpForms.ContinuationIff | internal/mcp/frame.go:289-322 | A further line is read if and only if it is a star, the tag, the key, a colon and one space, with blanks before tag and key alone; all the rest is the value. |
| McpForms.EndIff | internal/mcp/frame.go:325-344 | An end is read if and only if it is a colon and the tag, with blanks between and nothing after. |
| McpForms.StrayIsText | internal/mcp/frame.go:289-344 | A further line or an end for a tag under which nothing is arriving is text. |
| McpForms.VersionIff | internal/mcp/mcp.go:48-91 | A version is read if and only if it is two numbers of 64 bits with a point between, whatever but a digit comes after. |
| McpForms.CharactersAre | internal/mcp/lex.go:13-43 | The characters of names and of bare words are exactly the ones listed. |
| McpFrame.PlainChangesNothing | internal/mcp/frame.go:103-147 | A line that is read as text leaves the frame as it was. |
| McpFrame.PackageIndex | internal/mcp/frame.go:428-460 | A package offered is the first registered under that name but for case. |
| McpConnection.Frame.ProcessInput | internal/mcp/frame.go:103-115 | The frame's new state, the text handed on and the message delivered are those of the line protocol's step. |
| McpConnection.Frame.TakeLine | internal/mcp/frame.go:120-147 | Before negotiation only an opening message is read as one; afterwards quoted lines lose their prefix. |
| McpConnection.Frame.ParseMessage | internal/mcp/frame.go:151-159 | A continuation, an end or a start is tried in that order, and what fails all three is text. |
| McpConnection.Frame.ParseStart | internal/mcp/frame.go:162-205 | A start line without the key is not obeyed; with values to come the message is filed under its tag. |
| McpConnection.Frame.ParseHeader | internal/mcp/frame.go:162-198 | Name, key and arguments are read in order and any of them missing makes the line text. |
| McpConnection.Frame.FileMessage | internal/mcp/frame.go:195-203 | Filing under a live tag replaces the older message. |
| McpConnection.Frame.ParseContinuation | internal/mcp/frame.go:289-322 | The line goes to the message under its tag and to no other object. |
| McpConnection.Frame.ParseEnd | internal/mcp/frame.go:325-344 | The message under the tag is delivered and the tag is free. |
| McpConnection.Frame.Dispatch | internal/mcp/frame.go:348-361 | Delivery changes only what the package of the message may change. |
| McpConnection.Frame.HandleInit | internal/mcp/frame.go:366-419 | The client's key is taken, or a new one; negotiation is on once a version is agreed and never goes off. |
| McpConnection.Frame.HandleCan | internal/mcp/frame.go:428-467 | The best version of a package that both sides have is recorded. |
| McpOpening.OpeningIsRead | internal/mcp/frame.go:103-205 | On any connection, whatever is arriving on it, the opening line is read whole as the opening message with its arguments. |
| McpOpening.OpeningTurnsOn | internal/mcp/frame.go:366-403 | The opening line of a client that speaks from one version to another leaves the client's key or else the new one, version 2.1 if and only if that is in the range, and MCP on if and only if it was or 2.1 is. |
| McpOpening.OnIffOpened | internal/mcp/frame.go:366-403 | Over every run, MCP is on if and only if an opening message that named a range with 2.1 in it has been delivered. |
| McpPackages.VersionIsLastSettled | internal/mcp/frame.go:428-470 | Over every run, a package has the version that the last message to settle one settled, and none if and only if no message did. |
| McpPackages.SendsIff | internal/mcp/send.go:25-47 | Over every run: the opening package may always be sent; anything else only once MCP is on, and besides the negotiation only a package whose version was settled; each refusal exactly where it applies. |
| McpTags.WithAllPerKey | internal/mcp/frame.go:289-322 | After any lines were added, every key shows what it had and then its own new values in order. |
| McpTags.OpenMessage | internal/mcp/frame.go:120-344 | While a tag stays open its message is what began it with its own lines added, whatever else arrives. |
| McpTags.Origin | internal/mcp/frame.go:195-203 | Every message still arriving was begun by some line and has been open since. |
| McpReassembly.Reassembles | internal/mcp/frame.go:117-344 | For any interleaving between the start and end lines of a tag not begun again, the delivered message has under each key its start-line values followed by the continuation values of the tag, in order and byte for byte. |
| McpReassembly.EndFreesTag | internal/mcp/frame.go:325-344 | After its end line a tag is free. |
| McpReassembly.DeliveryIsAuthentic | internal/mcp/frame.go:162-205 | No message outside the opening package is ever delivered unless the line that started it carried the key current at that line. |
| McpReassembly.NothingBeforeOpening | internal/mcp/frame.go:120-147 | A connection that never sends the opening message delivers nothing and passes every line through unchanged. |
| McpSend.WriteMessage | internal/mcp/send.go:33-89 | The lines written are those of the message: a first line, then the lines of the long or many-lined values, then the end. |
| McpSend.SendMessage | internal/mcp/send.go:25-102 | What goes out, or which of the two refusals. |
| McpSend.WireRoundTrip | internal/mcp/send.go:25-89 | A negotiated frame that reads what was written receives the message under its name with the lines of every argument as sent, except that an argument of no lines arrives with one empty line. |
| McpSend.MessageReceived | internal/mcp/send.go:33-89 | The last line written delivers the whole message, from any state in which the tag may be in use. |
| McpSend.NothingElseArrives | internal/mcp/send.go:33-89 | No argument arrives under a name that was not sent. |
| McpSend.SendInband | internal/mcp/send.go:109-117 | On an enabled frame, text that begins as a message is quoted; all other text goes out as it is. |
| McpSend.InbandReadsBack | internal/mcp/send.go:109-117 | A frame in the same state never takes such text for a message; it reads the same text back if and only if the text does not begin with the quotation mark, and otherwise loses those three characters. |
| McpLines.SplitIsOneLine | internal/mcp/send.go:94-102 | Breaking a value into lines leaves no line ending of any kind. |
| McpLines.TextsAreLines | internal/mcp/send.go:33-102 | Whatever line endings the values held, each text sent is exactly one line. |
| Admit.Gate.Admit | internal/admit/admit.go:85-121 | The verdict and the whole new state, the refused attempts included. |
| Admit.Gate.Release | internal/admit/admit.go:124-144 | The whole new state; an idle gate with a large table is swept. |
| Admit.Gate.Forget | internal/admit/admit.go:153-167 | Only hosts with no admission after the cutoff are dropped. |
| AdmitRuns.WindowHolds | internal/admit/admit.go:98-113 | Over every run with a clock that never goes back, no host has more than Rate admissions in any interval as long as the window, through compaction, refusals and sweeps. |
| AdmitRuns.RefusedIffWindowFull | internal/admit/admit.go:98-113 | Past the ceilings an attempt is refused exactly when the window that ends with it holds Rate admissions. |
| AdmitRuns.HeldIsOpen | internal/admit/admit.go:85-144 | With each admission released at most once, the total is the number of open connections, each count is its own host's, and neither ceiling is exceeded. |
| AdmitRuns.AdmittedIff | internal/admit/admit.go:85-121 | Over every run in which only open connections are released, a connection is let in if and only if the open ones together and those of its host are below their ceilings and fewer than Rate of the host's admissions lie in the window that ends with it. |
| AdmitRuns.StrayReleaseCounts | internal/admit/admit.go:124-144 | Releasing a host that holds nothing keeps the counters right exactly when nothing at all is open. |
| AdmitRuns.SweptIff | internal/admit/admit.go:136-167 | A release that leaves nothing held sweeps a table of more than 4096 hosts down to those admitted within the window; any other leaves the table alone. |
| Walks.WalkCheck | internal/game/enter.go:32-61 | The walk with its list of places seen is true exactly when the chain meets source or HOME, or is still going after the bound. |
| Moves.Store.LocationLoopCheck | internal/game/enter.go:32-61 | True exactly when source is dest or the walk by location says so. |
| Moves.Store.ParentLoopCheck | internal/game/enter.go:69-109 | HOME is resolved first, and both the location and the environment walk are asked. |
| Moves.Store.FallbackHome | internal/game/enter.go:114-141 | The first destination on the ladder that makes no loop, the last one unchecked. |
| Moves.Store.Holds | internal/world/world.go:562-575 | In any world, damaged or not: true exactly when the inner object is the outer or inside it, within the store's step bound. |
| Moves.Store.MoveTo | internal/world/world.go:524-558 | In any world: the move happens exactly when the destination exists and the walk does not find it inside the object; otherwise nothing changes. |
| Moves.Store.MoveObject | internal/game/enter.go:149-175 | In any world, even one whose chains already loop: where the object ends up, for every destination and every refusal. |
| Moves.RelocateKeepsForest | internal/game/enter.go:149-175 | A relocation keeps the forest if and only if the destination is neither the object nor inside it. |
| Moves.InsideIsSeen | internal/game/enter.go:32-61 | With #0 on top, the check notices every destination inside an object other than #0. |
| Moves.CheckIsExact | internal/game/enter.go:32-61 | On chains shorter than the bound, for an object other than #0, the check finds a loop exactly when the destination is inside it. |
| Moves.TopIsNeverSeen | internal/game/enter.go:48-51 | For #0 itself the check is clear for every destination on such a chain. |
| Moves.TopSlipsThrough | internal/game/enter.go:48-51 | A concrete world in which the check lets #0 be moved into itself. |
| Moves.ClearMoveLands | internal/game/enter.go:149-175 | The guarded direct branch is never refused: an object other than #0 lands exactly where it was sent. |
| MovesLand.SentHome | internal/game/enter.go:114-175 | Sent home, a player ends at its home, a room at #0 and a program at its owner; a thing at its own home if that is clear, else at its owner's if that is, else at the start room; and in nothing if the place does not exist or is inside it. Nothing else changes. |
| MovesLand.SentThere | internal/game/enter.go:149-175 | Sent anywhere else, it ends there if that is clear, and otherwise exactly where sending it home would put it. |
| MovesLand.HomeIsAsked | internal/game/enter.go:69-91 | Asked about HOME, the check looks at the home the kind of object has; what has none, and what does not exist, loops. |
| MovesLand.ClearCanHold | internal/game/enter.go:149-175 | With #0 on top, any object that is clear for another can hold it. |
| MovesLand.PlayerAtHome | internal/game/enter.go:114-175 | A player whose home exists and is not inside it is found there when sent home and when redirected. |
| MovesLand.ThingAtOwners | internal/game/enter.go:122-134 | A thing whose own home makes a loop is found at its owner's clear home, whether sent home or redirected. |
| MovesLand.LoopsIffMet | internal/game/enter.go:32-61 | A walk that comes to the top in time, by no HOME, loops if and only if it meets the object on the way. |
| Moves.MovedOutOfItself | internal/game/enter.go:149-175 | In any world, however damaged, an object that is moved does not end up inside itself. |
| Moves.RunsKeepForest | internal/game/enter.go:149-175 | No sequence of moves and creations ever puts an object inside itself. |
| Moves.RunsKeepTop | internal/game/enter.go:149-175 | While nothing moves #0 it stays on top, so the exact check stays available. |
| ProcessQueue.Process.DeliverEvent | internal/game/proc.go:347-363 | A process waiting for the event becomes runnable; for any other the event waits on its frame. |
| ProcessQueue.Process.TakeDue | internal/game/proc.go:220-229 | Timers are split into those kept and the events of those that are due, both in order. |
| ProcessQueue.Process.Fire | internal/game/proc.go:215-238 | The due timers of a process are dropped and each of their events delivered. |
| ProcessQueue.Process.StopTimer | internal/game/proc_host.go:381-394 | Every timer of the same first thirty-two characters goes, the others keep their order. |
| ProcessQueue.WithoutPid | internal/game/proc.go:374-381 | The first occurrence alone is removed. |
| ProcessQueue.Queue.AddProcess | internal/game/proc.go:102-110 | The process gets the next pid, and a reader its place in the index. |
| ProcessQueue.Queue.ResumeProcess | internal/game/proc.go:245-257 | The process may run, and a reader leaves the index; no other process changes. |
| ProcessQueue.Queue.ReadLine | internal/game/proc.go:385-402 | A line is taken exactly when some live process is indexed at the descriptor, and a blank line resumes only one that wants blanks. |
| ProcessQueue.Queue.SettleProcess | internal/game/proc.go:260-318 | What becomes of a process whose frame stopped, for each of the ways it can stop. |
| ProcessQueue.Queue.FinishProcess | internal/game/proc.go:326-339 | Its watches are dropped, its watchers told and it is gone; both loops are the specification's. |
| ProcessQueue.Queue.KillPid | internal/game/proc_host.go:72-79 | True exactly for a live pid, which ends. |
| ProcessQueue.Queue.WatchPid | internal/game/proc_host.go:317-332 | Both ends of the watch are recorded, once. |
| ProcessQueue.Queue.TimerStartFor | internal/game/proc_host.go:368-378 | A timer replaces the one of its name. |
| ProcessQueue.Queue.TimerStopFor | internal/game/proc_host.go:381-394 | The timer of that name goes. |
| ProcessQueue.Queue.SendEvent | internal/game/proc_host.go:403-410 | True exactly for a live pid, which receives the event. |
| ProcessQueue.Queue.FireAllTimers | internal/game/proc.go:215-238 | Every process's due timers fire, each process exactly once. |
| ProcessQueue.Queue.DueNow | internal/game/proc.go:138-152 | The processes ready to run, each once, in pid order. |
| ProcessLaws.FinishIsEnded | internal/game/proc.go:326-339 | Where both ends agree for live watchers, the two loops of an ending come to one step: the pid is gone from every list and each live watcher has its exit. |
| ProcessLaws.ExitDeliveredOnce | internal/game/proc.go:326-339 | Under the same condition, which every run keeps, ending a process delivers its exit exactly once to each live process that watched it, to no other, and nothing else to anyone. |
| ProcessWakes.ExitWakes | internal/game/proc.go:326-339 | The end of a process wakes exactly the processes that watched it and wait for that exit or for anything. |
| ProcessWakes.WatcherIsTold | internal/game/proc_host.go:317-332 | A live process that asks to watch another is told exactly once when that one ends. |
| ProcessLaws.WatchLinked | internal/game/proc_host.go:317-332 | A watch keeps both ends in step if and only if the caller is alive or the target is dead. |
| ProcessLaws.WatchTied | internal/game/proc_host.go:317-332 | Whoever asks for a watch, for live watchers both ends still agree. |
| ProcessLaws.WatcheesAreLive | internal/game/proc_host.go:317-332 | Whoever is watched by a process is alive and lists its watcher. |
| ProcessLaws.LinkedIffNoneDangles | internal/game/proc_host.go:317-332 | After any run, no watch names a dead process at either end if and only if no process lists a watcher that is not alive. |
| ProcessLaws.LinkedIffNoZero | internal/muf/prim_proc.go:471-497 | After any run whose watches are asked for by live processes or by frames without a pid, no watch names a dead process if and only if no live process lists 0. |
| ProcessLaws.UnownedWatcherIsNotTold | internal/muf/prim_proc.go:471-497 | A concrete run: a watch by a frame whose pid is 0 is listed at one end only, and the exit of the process it watches is delivered to nobody. |
| ProcessLaws.LineResumesReader | internal/game/proc.go:385-402 | A typed line changes nothing but a program blocked on READ at that very descriptor. |
| ProcessWakes.ReaderIsResumed | internal/game/proc.go:287-402 | A program that blocks on READ takes the next line typed at its descriptor: any that is not blank resumes it, a blank one if it asked for blanks. |
| ProcessWakes.DueAfterStopping | internal/game/proc.go:138-318 | A program that yields is due at once, one that sleeps exactly from when its seconds are over, one that reads or waits never until resumed, and one that ended is gone. |
| ProcessWakes.WaiterIsWoken | internal/game/proc.go:347-372 | A program that waits for some events, or any, is woken by one of those and by no other, and receives it either way. |
| ProcessLaws.OtherTimersDistinct | internal/game/proc_host.go:381-394 | Stopping a timer leaves none of its name and brings none in. |
| ProcessLaws.StartedDistinct | internal/game/proc_host.go:368-378 | Starting a timer keeps at most one per name. |
| ProcessLaws.FiringSplits | internal/game/proc.go:215-238 | Each due timer delivers its event once and is dropped; each other is kept and delivers nothing. |
| ProcessWakes.StartedTimerFires | internal/game/proc.go:215-238 | A timer that is started is told of at a tick exactly once if its time has come, and is kept if it has not; it replaces those of its name and touches no other. |
| ProcessWakes.StoppedTimerIsSilent | internal/game/proc_host.go:381-394 | A timer that is stopped is never told of, and the others are as they were. |
| ProcessWakes.TimerWakes | internal/game/proc.go:215-238 | At a tick a process is woken if and only if it waits for a timer whose time has come, or for anything while one has. |
| ProcessLaws.EveryRunKeeps | internal/game/proc.go:82-122 | In every state any sequence of operations reaches, watches asked for by frames without a live pid among them: for every live watcher both ends agree, no list has repeats, every index entry is a live process reading at that descriptor, pids are unused numbers up to the counter, and no process has two timers of one name. |
| ProcessLaws.PidsNeverReused | internal/game/proc.go:102-110 | A pid once given out and dead is never alive again. |
| Deferred.Queue.DeferTo | internal/game/propqueue.go:607-614 | A filing goes to the end of the queue. |
| Deferred.Queue.FireDeferred | internal/game/propqueue.go:620-636 | What is due leaves the queue before any of it runs; what a running event files waits. |
| Deferred.Split | internal/game/propqueue.go:625-632 | The queue is split in order into what is kept and what is due. |
| DeferredLaws.TickKeeps | internal/game/propqueue.go:620-636 | A tick keeps the invariant, whatever the events file while they run. |
| DeferredLaws.RunExactlyOnce | internal/game/propqueue.go:607-636 | Over every run each event that ran did so at the first tick begun after its filing at which it was due, in filing order within a tick; none ran twice; each filed has run or is queued but not both; none queued has been due. |
| Quotas.Quota.Grant | internal/session/quota.go:54-65 | An allowance never passes the ceiling. |
| Quotas.Quota.TryTake | internal/session/quota.go:34-51 | A command is spent only if one is in hand. |
| Quotas.Refiller.Refill | internal/game/proc.go:434-459 | Every connection is granted its rate for the whole slices passed, and the clock moves by exactly those. |
| Quotas.SlicesAreWholePeriods | internal/game/proc.go:434-459 | For every schedule of ticks, even with a clock set back, the slices granted are the whole periods between the first and the latest reading. |
| Quotas.ClockTelescopes | internal/game/proc.go:443-450 | After each tick the refill clock is at most the latest reading and within one period of it. |
| Quotas.RateIsLimited | internal/game/proc.go:434-459 | Over every run a connection spends at most what it began with and its whole periods earned, and never holds more than its burst or what it began with. |
| Quotas.IdleEarns | internal/game/proc.go:434-459 | A connection that takes nothing has, after any schedule of ticks, what it began with and its rate for every whole period passed, eight times as much while its player edits or answers a READ, up to its burst. |
| Quotas.AtLeastEarned | internal/game/proc.go:434-459 | Over every run, what a connection has spent and has in hand come to at least what it began with and its whole periods earned, as far as its burst. |
| Quotas.TakesInARow | internal/session/quota.go:34-51 | Commands in a row are taken for as long as there are any in hand and no further. |
| Alphanum.AlphanumCompare | internal/ascii/alphanum.go:16-74 | The cursor loops compute the comparison that the laws are about. |
| Alphanum.FindCommon | internal/ascii/alphanum.go:17-21 | The first loop stops where the names first differ but for case. |
| Alphanum.FindStart | internal/ascii/alphanum.go:32-46 | Backing over zeros stops where the specification says. |
| Alphanum.ReadNumber | internal/ascii/alphanum.go:49-61 | A run of digits is read as its value and its length. |
| Alphanum.StartSymmetric | internal/ascii/alphanum.go:32-46 | The asymmetric first step back makes no difference to where the numbers begin. |
| Alphanum.Antisymmetric | internal/ascii/alphanum.go:16-74 | For all strings, swapping the two negates the answer. |
| Alphanum.ZeroIffSame | internal/ascii/alphanum.go:16-74 | Without a NUL, two names compare as zero exactly when they differ in case alone. |
| Alphanum.NumbersDecide | internal/ascii/alphanum.go:48-74 | On a common prefix not ending in a digit, suffixes of at most eight digits without needless zeros are ordered as their numbers. |
| Alphanum.NotTransitive | internal/ascii/alphanum.go:32-46 | Three names, one with a needless zero, that go round in a circle. |
| AlphanumOrder.LetterAfterNumber | internal/ascii/alphanum.go:16-74 | Three names without needless zeros, in which a letter follows a number, that go round in a circle. |
| AlphanumOrder.BeginningDropped | internal/ascii/alphanum.go:16-74 | A shared beginning that splits no number makes no difference to the answer. |
| AlphanumOrder.LeadingNumbersDecide | internal/ascii/alphanum.go:48-74 | Names that begin with different numbers, each followed by the end or a character below the digits, are ordered as the numbers are, whatever comes after. |
| AlphanumOrder.CompareIsLex | internal/ascii/alphanum.go:16-74 | On names whose numbers have no needless zeros, at most eight digits, and are followed by the end or a character below the digits, the answer is the lexicographic order of characters and numbers. |
| AlphanumOrder.TidyTransitive | internal/ascii/alphanum.go:16-74 | On all such names the comparison is transitive. |
| Ansi.StripColour | internal/ansi/ansi.go:43-73 | The loop removes each of the three shapes of escape as the specification does. |
| Ansi.SkipEscape | internal/ansi/ansi.go:50-70 | One escape, of whichever shape, is passed over. |
| Ansi.Sanitize | internal/ansi/ansi.go:92-152 | The loop writes what the steps write, and the reset where it belongs. |
| Ansi.WriteStep | internal/ansi/ansi.go:102-137 | One step: a character, a dropped escape or a closed sequence. |
| Ansi.WriteSequence | internal/ansi/ansi.go:116-137 | A sequence is closed with its letter, and another terminator is kept after it. |
| AnsiLaws.FiltersAgree | internal/ansi/ansi.go:43-152 | Unless an escape ends a sequence, what is kept, stripped, followed by what was never reached, stripped, is the input stripped. |
| AnsiLaws.ShortAgrees | internal/ansi/ansi.go:43-152 | Within the limit a player with colour and one without read the same text. |
| AnsiLaws.ColourIsContained | internal/ansi/ansi.go:92-152 | Every escape in the output begins a complete sequence, and unless the input broke off inside one the terminal is left reset. |
| AnsiLaws.WellFormedUntouched | internal/ansi/ansi.go:92-152 | Colour that is well-formed reaches the player as it is, to the last parameter; a reset is added, in front of a final line break, and nothing else. |
| AnsiLaws.ColourIsRemoved | internal/ansi/ansi.go:43-73 | A sequence of numbers and semicolons goes with its letter; what ends it otherwise stays. |
| AnsiLaws.BrokenOffIsLeft | internal/ansi/ansi.go:92-152 | A sequence that the input breaks off in is closed and no reset follows. |
| AnsiLaws.EscapeEndedDisagrees | internal/ansi/ansi.go:133-137 | A concrete input whose sequence is ended by an escape, on which the two disagree. |
| Help.RenderIndex | internal/help/help.go:132-148 | The text of the topics in order, separated by marks. |
| Help.FindBlocks | internal/help/help.go:153-171 | The blocks between separators, runs of separators counting once. |
| Help.FindNames | internal/help/help.go:174-185 | The trimmed names at the head of a block, and the rest of it. |
| Help.ParseIndex | internal/help/help.go:99-128 | The topics of the blocks in order, the first block being the header or nothing. |
| HelpRoundTrip.IndexBack | internal/help/help.go:99-148 | Reading a written index yields every topic after the first unchanged. |
| HelpRoundTrip.RoundTrip | internal/help/help.go:99-170 | An index that begins with its header reads back as the same topics in the same order. |
| HelpRoundTrip.HeaderlessLosesFirst | internal/help/help.go:104-110 | In a corpus read without a header, the first topic written is lost and the others come back. |
| HelpRoundTrip.RoundTripIffHeader | internal/help/help.go:99-148 | A written index reads back whole if and only if it is read with a header and its first topic is one. |
| HelpRoundTrip.BlankIsNoTopic | internal/help/help.go:99-113 | A first block of blanks is no topic in any corpus, and all the others come back. |
| Editing.EditSession.InsertLine | internal/game/edit.go:372-400 | Where a typed line goes and where the current line is afterwards, for every current line. |
| Editing.EditSession.BeginInsert | internal/game/edit.go:191-196 | Insert mode starts after the line before the one named. |
| Editing.EditSession.DeleteLines | internal/game/edit.go:403-441 | Which lines go, how many are reported, and each of the refusals. |
| Editing.SessionInserts | internal/game/edit.go:372-400 | A session of any length from any current line puts the typed lines together, in order, at the place fixed by its start, and leaves every old line in order. |
| Editing.DeleteUndoesSession | internal/game/edit.go:403-419 | Deleting the lines a session put in gives back the lines it began with. |
| Editing.SaveAndReopen | internal/game/edit.go:105-120 | Saving and opening a program gives the same lines if and only if no line holds a newline or ends in a carriage return. |
| Editing.OpenAndSave | internal/game/edit.go:105-120 | For every stored text, opening and saving it leaves it as it was, but that carriage returns before newlines go and a last line gets its newline. |
| DumpReader.Scanner.Scan | internal/importer/dump.go:76-87 | The next line of the text, without its line ending. |
| DumpReader.Scanner.Next | internal/importer/dump.go:76-87 | The next line is taken, and the line number counts exactly the lines taken. |
| DumpReader.Scanner.Peek | internal/importer/dump.go:90-99 | Looking ahead changes neither what comes next nor the line number. |
| DumpReader.Scanner.ReadInt | internal/importer/dump.go:109-132 | A line is a number or an error, never a silent zero. |
| DumpReader.Scanner.ReadInts | internal/importer/dump.go:224-264 | Numbers line by line, up to the first failure. |
| DumpReader.ReadBase | internal/importer/dump.go:205-270 | The fields every record starts with, every other link at NOTHING, live-server flags cleared. |
| DumpReader.ReadMiddle | internal/importer/dump.go:272-286 | A property block, or at once the first link of the type. |
| DumpReader.ReadProps | internal/importer/dump.go:378-389 | A block must begin with its mark. |
| DumpReader.ReadPropLines | internal/importer/dump.go:389-423 | Property lines up to the end mark; an unreadable one, an unreadable number or float among them, is skipped with a warning, a zero unsets, and a value that is not UTF-8 is repaired with a warning. |
| Utf8.RepairIsValid | internal/importer/dump.go:404-420 | Whatever bytes a value holds, what is kept of it is valid UTF-8. |
| Utf8.RepairKeepsOnlyValid | internal/importer/dump.go:404-420 | A value is kept as it is if and only if it is valid UTF-8. |
| Utf8.ValidIff | internal/importer/dump.go:415-420 | A value counts as valid if and only if its bytes are those of some characters, each in as few bytes as will hold it and none a surrogate. |
| Utf8.BadRunReplaced | internal/importer/dump.go:415-420 | Between valid texts, a run of bytes of which none begins a character becomes one replacement character and the texts stay. |
| DumpReader.ReadLinksOf | internal/importer/dump.go:288-295 | The first link of the type is the one already read where there was no block. |
| DumpReader.ReadTail | internal/importer/dump.go:297-363 | The fields of each type, the password of a player hashed, and an error for a type that does not exist. |
| DumpReader.ReadExit | internal/importer/dump.go:331-348 | Exactly as many destinations as the count says, a count out of range being an error. |
| DumpReader.ReadObject | internal/importer/dump.go:205-366 | One record is added to the world and counted, or the load fails. |
| DumpReader.ReadHeader | internal/importer/dump.go:168-202 | The version must be the one known, and the parameters are applied in order. |
| DumpReader.ReadParams | internal/importer/dump.go:191-200 | As many lines as there are parameters are applied, or the load fails at the first that is missing or refused. |
| Dump.SettingsAre | internal/importer/dump.go:191-200 | The parameters are read if and only if there are enough lines and each can be applied, and then exactly those lines are applied, in order. |
| DumpReader.ReadObjects | internal/importer/dump.go:143-163 | Records up to the end mark; anything else is an error. |
| DumpReader.ReadDump | internal/importer/dump.go:135-164 | The whole load is the one the lines of the text determine, parameters included. |
| DumpRefusals.FrameIsNeeded | internal/importer/dump.go:135-202 | A load that succeeds has read the known version on the first line and, further on, the mark that ends a dump; one cut short before it does not load. |
| DumpRefusals.RecordsAreMarked | internal/importer/dump.go:143-163 | Every record of a load that succeeds begins with a number sign and a reference. |
| DumpRefusals.KindCodes | internal/ref/flags.go:10-20 | The low three bits of the flags give the kind. |
| DumpRefusals.LoadsIffDistinct | internal/importer/dump.go:143-163 | A dump of well-formed records loads if and only if no two have one reference. |
| DumpRefusals.OutOfRangeIsRefused | internal/importer/dump.go:109-132 | A number out of range is not read as any number. |
| DumpRefusals.LongLineEnds | internal/importer/dump.go:62-87 | A line too long for the buffer ends the lines that are delivered: those before it come, and then none. |
| DumpRefusals.OtherKinds | internal/importer/dump.go:297-330 | Garbage loads and owns nothing; a record of an unknown kind does not load. |
| DumpRefusals.BlockWarns | internal/importer/dump.go:378-423 | Of a block, exactly the lines that could not be read or had to be repaired are warned of, once each. |
| DumpRefusals.StoredTextIsValid | internal/importer/dump.go:407-421 | Whatever a block holds, the text that is stored of it is valid. |
| DumpWriter.WriteHead | internal/golden/fixture.go:211-216 | The lines every record starts with. |
| DumpWriter.WriteRecord | internal/golden/fixture.go:210-238 | The lines of one record, with or without a property block. |
| DumpWriter.WriteDump | internal/golden/fixture.go:202-243 | The text is the lines of the dump, the highest record first, each ended by a newline. |
| DumpRoundTrip.LinesOfText | internal/importer/dump.go:62-87 | Text made of lines that fit, unbroken and not ending in a carriage return, is read as those lines. |
| DumpRoundTrip.NumbersBack | internal/importer/dump.go:109-132 | Numbers in range read back as themselves. |
| DumpRoundTrip.StoredFlagBits | internal/importer/dump.go:241-247 | A load keeps every bit of the flag word but the five of a live server. |
| DumpRoundTrip.PropBack | internal/importer/dump.go:426-471 | A property line reads back as its name, type, value and blessing, for every type, a float by the text that was written for it. |
| DumpRoundTrip.PropFound | internal/props/props.go:221-240 | A property is found again with its value unless a later one has its path or its value is zero, which unsets. |
| DumpRefusals.PropsLeft | internal/props/props.go:221-245 | Set in turn, properties leave under each path what the last of that path says, unless that unsets it, and nothing where there was none. |
| DumpRefusals.PathOfNames | internal/props/props.go:141-155 | A path is its names between the slashes, letter case aside, for names without a colon. |
| DumpRefusals.SlashesDoNotMatter | internal/props/props.go:141-155 | A slash too many in front of a path or within it makes no difference. |
| DumpRoundTrip.PropLinesBack | internal/importer/dump.go:378-423 | A block of well-formed property lines reads back whole, with no warning. |
| DumpObjects.MiddleBack | internal/importer/dump.go:272-286 | With a block the links all follow it; without one the first stands in its place. |
| DumpObjects.TailBack | internal/importer/dump.go:288-363 | The fields of each of the five types read back, whichever way the first was read. |
| DumpObjects.ObjectBack | internal/importer/dump.go:205-366 | One written record loads as the object it describes. |
| DumpLoads.RoundTrip | internal/importer/dump.go:135-365 | For every list of well-formed records with their own references, of all five types, with and without properties of every type, reading the written dump succeeds, the world holds exactly the described objects, and every object and property is counted with no warning. |
| DumpLoads.LoadedHolds | internal/world/world.go:282-300 | Each record loaded is in the world at its own reference. |
| Decimal.ParseIntOfItoa | internal/importer/dump.go:109-132 | Decimal text of a number in range reads back as the number. |

## Left out

- Full names and name matching in locks (`fullname` true, `host.Match`): a typed name is resolved by an arbitrary function.
- LockEval.HasProperty: containment and environment are taken to be finite, because the original does not return on any other world; wildcard matching of the value and the expansion of the property are arbitrary functions.
- LockEval.EvalConst: running a program lock is an arbitrary answer.
- Text outside ASCII, but for the repair of property values on import, and the byte-wise trims of multi-byte characters.
- SmatchMeaning.MatchesIsGlob: patterns with word sets are outside the declarative glob; what a set accepts wherever the search comes to it is WordSets.SetAccepts, and where it comes to one behind a star is stated for a set between two stars alone, because a star before a set does not try the current position.
- Trigger.Session.TriggerExit: the world is fixed while an exit runs; whether entering, bringing and jumping succeed, their refusals, the wording, the final "Done." and the sticky-object sweep are not modelled, and a program it starts is one event.
- Trigger.Session.RunMetalink: the use count and the success flag of a metalink are left out.
- TriggerEvents.HappensIffCalledFor: the same fixed world; that a thing was boarded or a player may be jumped to is one answer each.
- Trigger.AbortsIffLongChain: the world stays fixed while the exits run, so a program that relinks an exit half way is not covered.
- Trigger.AbortNeedsTenExits: the same fixed world.
- Trigger.SmallWorldNeverAborts: the same fixed world.
- ExitLinks.ExitWorld.LinkExit: the costs, the seizure of an exit that another player owns and the transfer of ownership are one answer, whether the player pays and controls; only the destinations are state.
- ExitLinks.ExitWorld.OpenExit: the two payments and the attachment of the new exit to its room are left out, since no link check looks at either.
- ExitLinks.ExitWorld.UnlinkExit: only the branch for exits; the refund, the reset of the priority and the branches for rooms, things and players do not touch an exit's destinations.
- ExitLinks.LinkExitDests: how a name is resolved and permitted is an arbitrary function, and the messages are left out.
- ExitLinks.RunsKeepRingFree: links changed by anything but these commands, such as a program that sets them, are not part of the run.
- McpConnection.Frame.Dispatch: handlers of packages other than the negotiator may send but do not change the frame; where the random key and data tag come from are parameters.
- McpConnection.Frame.HandleInit: the opening reply and the package announcements it sends are left out; they do not change the frame.
- McpReassembly.Reassembles: what a tag begun again before its end delivers is stated only by McpConnection.Frame.FileMessage.
- Locks and goroutines around the gate, the frames and the quotas: each operation is one step.
- Admit.Gate.Admit: the compaction reuses the storage of the old list; the model compacts into a new one, which nobody else could see.
- Moves.Store.MoveObject: the contents and exits chains that a move threads are not modelled, and the environment is an arbitrary function of a reference.
- Processes: a frame's run is an outcome, pushing a value never fails, and an event delivered to a waiting program makes it runnable instead of running it inside the delivery; what a process ended inside a tick does to the list of that tick is left out.
- ProcessQueue.Process.DeliverEvent: the event is not pushed on the frame of a program it resumes, and the program is not stepped inside the delivery; it becomes runnable.
- ProcessQueue.Process.Fire: the same for the events of timers.
- ProcessQueue.Queue.ResumeProcess: the pushed value, its failure and the step that follows are left out; the outcome of that step is a later ProcessQueue.Queue.SettleProcess.
- ProcessQueue.Queue.ReadLine: the resumed program is not run with the line in the same step.
- ProcessQueue.Queue.DueNow: the processes are found by walking the pids in order instead of collecting and sorting them.
- ProcessQueue.Queue.FireAllTimers: the same walk.
- Quotas.Quota.Grant: waking the connections that wait for an allowance is left out.
- Quotas.Quota.TryTake: where the original waits for the next allowance, the model reports that there is none.
- Quotas.RateIsLimited: the period, the rate and the burst stay what they are during a run.
- AlphanumOrder.CompareIsLex: numbers of more than eight digits, which are ordered by length, and needless zeros are in the definition of the comparison but outside this law; the two circles show why names with needless zeros or with a letter after a number are.
- AnsiLaws.FiltersAgree: input with a sequence ended by an escape is set aside in one direction only; some such input agrees by accident.
- Help: the number a topic carries is its place in the list, and seeding, corpora and time stamps are left out.
- Editing: listing, compiling, macros, and the parsing of an editor command line; a save goes to a string.
- Dump: the text of a float, the hash of a password and which parameter lines can be applied are arbitrary functions, and what a parameter does to the configuration is its line, kept in order; warnings about parameters are not counted, and players found by name and macros are left out.
- DumpRefusals.LongLineEnds: asked again after a line that was too long, the original may hand on part of it, where the model reads nothing more.
- DumpReader.ReadObject: the object being filled in is a value until it is added; error texts are left out, but the line number they give is the scanner's.
- DumpWriter.WriteDump: the file is a string.
- Postgres, transports, mail, configuration, logging, the interpreters and the command tables.
