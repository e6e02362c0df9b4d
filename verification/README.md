# noyalib, verified

A Dafny model of the algorithmic cores of noyalib, a YAML library: the loader that turns
parser events into a tree, the queries over that tree, the serialiser's sharing of
reference-counted pointers, `!include` resolution, the splitting of a stream into
documents, the base64 codec of `!!binary`, and the edit distance behind key suggestions.

The project has three layers. Objects whose methods update their fields are classes whose
methods are proved against a transition function (`BorrowedBuilder` against `Machine`,
`SharedTracking` against `Tracking.Emit`, `IncludeWalk` against `Include`, `DocumentStream`
against `Splitting.Documents`, `Scanner` against the batch scan); loops carry the invariants
their specification needs. The transition functions are then related to definitions that
share no code with them: a recursive reading of documents, plain substitution, preorder
gathering, the cut points of a text, the bits of a byte string, the least edit script.

Each module is a file of its own name.

| modules | subject |
|---|---|
| `Common`, `Errors`, `Events`, `Tree`, `Limits`, `Metering` | shared values, errors, events, trees, the limits and the meter that charges them |
| `CostWalk` | the worklist that measures an anchored value |
| `Machine`, `Builder` | the event-to-tree machine and the class that implements it |
| `Syntax`, `Evaluation`, `Meaning`, `Scalars`, `CollectionKeys` | documents, their recursive reading, their meaning without limits, what scalars come to, what collection keys come to |
| `Invariants`, `Counting`, `Carryover`, `AliasBudgets`, `Lengths` | what every run keeps, when a counting budget refuses, what runs on between documents, when an alias is refused, when nesting and length are |
| `Measures`, `Expansion`, `Duplicates` | what the measures of a tree mean, what alias expansion can cost, duplicate keys |
| `Query` | path queries |
| `AnchorNames`, `Tracking`, `SharedSerializer`, `SharedOnce`, `RoundTrip` | anchors for shared pointers, sharing kept in what is written, and loading it |
| `OwnedTree`, `Include`, `IncludeOutcome`, `IncludeChain`, `IncludeTrace`, `IncludeFragments`, `IncludeCeiling`, `IncludeAccount`, `IncludeLimits`, `IncludeMeaning`, `IncludeFiles` | `!include` resolution: its outcome, its chain, its requests, its fragments, its nesting, its account, its limits, its meaning, the resolver of files |
| `Recheck`, `IncludeWalking` | the re-check and the class of the walk |
| `PathSearch` | from a node to the field path that names it |
| `Markers`, `FrameScanner`, `Frames`, `Utf8Markers` | `---` markers, the frames of a chunked input, bytes and characters |
| `Splitting`, `Stream`, `LineBreaks` | the documents of a text, their stream, line breaks as documented and as read |
| `Words`, `Base64`, `Base64Bits`, `Base64Texts` | operations on 32-bit words, the codec, the bits its text spells, the texts it takes |
| `Levenshtein` | edit distance |

## Findings

Places where the code does less, or other, than its own text says. The model follows the code;
each finding has an input at which it shows and the exact condition under which it does not.

- `parser/budget.rs:23-34` promises that no loader accepts nesting above 256 whatever
  `max_depth` says. An include walk parses each source with `max_depth` minus the position,
  and only that parse is capped, so a source 256 deep placed one level down gives a tree 257
  deep, which the whole pass accepts. The promise holds when `max_depth` is at most 256
  (`IncludeCeiling.CeilingHolds`) and fails for every larger one (`IncludeCeiling.CeilingEscapes`
  constructs the run); what then remains is `IncludeCeiling.NestingIsBounded`.
- Sharing through a pointer that points at a pointer is not loadable: `write_anchor_def`
  (`ser.rs:1819-1847`) writes one anchor in front of another, or in front of an alias, and the
  parser takes one anchor to a node and none to an alias (`parser/events.rs:391-409`,
  `parser/scanner.rs:2186-2197`). What is written under tracking means what is written inline
  if and only if no pointer seen for the first time wraps such a node
  (`RoundTrip.RoundTripIsExact`); the failing inputs are `RoundTrip.PointerToPointerFails` and
  `RoundTrip.PointerToSeenPointerFails`, and data with no pointer at a pointer is always safe
  (`RoundTrip.FlatIsClean`).
- `de/config.rs:117-118` documents `max_merge_keys` as a limit "across one document", and
  `parser/meter.rs:200-203` says that merge counters restart with each document;
  `parser/meter.rs:132-141` counts the limit among the stream-wide ones, and so does the code:
  `start_document` (254-270) restarts the alias count and the alias bytes only, and the merge
  keys and the jump charge are totals of the stream (`Carryover.RunCarries`). A second document
  is refused for the first one's merge key (`Carryover.SecondDocumentIsRefused`). The verdict is
  the one per document if and only if the whole stream is within the limit or the document
  alone is past it (`Carryover.MergeVerdictsAgree`).
- `de/config.rs:103-104` and 253-254 document `max_alias_expansions` as a limit on the
  expansions of one anchor; the meter counts all aliases of the document. A document that
  aliases two anchors once each is refused at a limit of one (`AliasBudgets.OnceEachIsRefused`).
  The verdict is the documented one if and only if all the aliases are within the limit
  together or those of the anchor alone are past it (`AliasBudgets.AnchorVerdictsAgree`).
- `de/config.rs:276-278` documents `max_total_scalar_bytes` as a cap on the payload after alias
  expansion; the loader charges what is written and nothing for an alias, so a document of one
  byte of text loads at a limit of one and has two when its alias is expanded
  (`AliasBudgets.ExpandedTextLoads`). The cap holds if and only if the written text and the
  repeated text are within it together; what aliases repeat is bounded by their byte allowance
  alone (`AliasBudgets.RepeatedTextIsBounded`).
- `doc_boundary.rs:15-24` asks for a line feed, alone or after a carriage return, before a
  marker; the code (60) takes a lone carriage return as well, and differs from the text exactly
  there (`LineBreaks.MarkersDiffer`). The test of the prologue (247-252) ends lines at line
  feeds only, and agrees with one that ends them at every break if and only if content opens
  some line begun by a line feed or none begun by a carriage return
  (`LineBreaks.PrologueAgrees`). Together they hide a line of content from the split
  (`LineBreaks.LoneReturnHidesContent`); on a text without lone carriage returns the cuts are
  the documented ones (`LineBreaks.CutsAreDocumented`).
- The resolver of files stops one byte past its allowance so that the caller's budget check
  sees the overrun (`include/fs.rs:185-187`, `include.rs:61-67`). When that byte falls inside a
  character, the text is not valid and the answer is an error about an unreadable file instead
  (`IncludeFiles.OverrunIsHidden`). The overrun is seen if and only if some prefix of the file
  has exactly that many bytes (`IncludeFiles.OverrunIsSeen`).
- A path that ends in `..` matches nothing (`Query.TrailingDescent`), though a descent is
  otherwise defined at every node below.
- A collection's anchor is bound when the collection closes (`borrowed.rs:858-869`): an alias
  to it anywhere inside is refused unless the name has another binding
  (`Meaning.OwnAliasNeedsOldBinding`), and then means that one
  (`Meaning.OwnAliasSeesOldBinding`, `Meaning.OwnAliasAsValue`).
- A mapping that holds `max_mapping_keys` keys refuses one more entry even when it repeats a key
  and would not make the mapping grow: the length is tested first. With the limit at one the
  entries `a`, `a` are refused (`Duplicates.RepeatIsRefused`), and the verdict is that of a limit
  on the keys of the mapping unless the last entry repeats a key of a mapping already at the
  limit (`Duplicates.KeyVerdictsAgree`).
- `borrowed.rs:735` says that no value arrives where a key is expected, and `de/config.rs:387-391`
  that a collection used as a key is converted to a string; in the borrowed tree it does arrive
  and is dropped (`CollectionKeys.CollectionKeyIsDropped`, for every collection), so the value
  becomes the key and the next key its value: `? [] : b` and then `c: d` load as `b: c`, without
  an error (`CollectionKeys.CollectionKeyShifts`). Keys that are scalars or aliases are read as
  meant (`Scalars.KeyMeans`, `Scalars.KeyAliasMeans`).
- Shared pointers get distinct names exactly up to 2^32 - 1 of them; from there on the
  saturated counter gives all later ones the same name (`Tracking.NamesDistinctUpToTheTop`).

## Assumptions

Machine words have 64 bits. Plain-scalar resolution and number rendering are parameters of
`Rules`. The include resolver
is any function of the request and of how many sources came before, so it may be a stateful
closure. The parser of an included source is a parameter. Each theorem names what it needs of
the two, and of an answer longer than its allowance none needs anything, as the walk refuses
it: that nesting stays within what the parser was told (`ParserKeepsDepth`); that a raised
allowance or depth changes no success (`AnswersWithinAllowance`, `ParserIsMonotone`); that
successes are those without limits (`Faithful`), and failures too (`RefusesAlike`). The
resolver of files qualifies for all that is asked of a resolver (`IncludeFiles.FilesQualify`).

## Model

| member | source | states |
|---|---|---|
| Common.WordsSaturate | crates/noyalib/src/parser/meter.rs:228-276 | the counters' saturating sums and products: exact below 2^64, and 2^64 - 1 from there on |
| CostWalk.BorrowedCost | crates/noyalib/src/borrowed.rs:909-945 | the worklist walk returns the recursive measure of the tree: node total, text total, greatest nesting, each saturated |
| CostWalk.VisitSequence | crates/noyalib/src/borrowed.rs:927-931 | replacing a sequence by a close mark under its items leads to the same final tally and leaves less work |
| CostWalk.VisitMapping | crates/noyalib/src/borrowed.rs:932-939 | the same for a mapping, whose keys are tallied at once |
| CostWalk.SequenceIsItsItems | crates/noyalib/src/parser/meter.rs:104-123 | open, items in any waiting order and close tally exactly a sequence's recursive measure |
| CostWalk.MappingIsItsEntries | crates/noyalib/src/parser/meter.rs:104-123 | open, keys, values and close tally exactly a mapping's recursive measure |
| Builder.BorrowedBuilder.PushValue | crates/noyalib/src/borrowed.rs:719-765 | popping and pushing the top frame gives the machine's placement of a value: length limits, key limit, duplicate policy, root |
| Builder.BorrowedBuilder.SetKey | crates/noyalib/src/borrowed.rs:767-771 | a key state becomes a value state with its key; any other top frame is lost |
| Builder.BorrowedBuilder.RecordAnchor | crates/noyalib/src/borrowed.rs:775-780 | the anchor table afterwards holds the value with its measured cost, and is otherwise unchanged |
| Builder.BorrowedBuilder.ChargeMergeKey | crates/noyalib/src/borrowed.rs:840-848 | charges, ignores or refuses a merge key by policy and touches the meter only |
| Builder.BorrowedBuilder.OnScalar | crates/noyalib/src/borrowed.rs:818-835 | a scalar in a key position is its text and defines no anchor; elsewhere it is resolved, anchored and placed |
| Builder.BorrowedBuilder.OpenCollection | crates/noyalib/src/borrowed.rs:850-856 | one level deeper, or the depth refusal with the depth observed |
| Builder.BorrowedBuilder.CloseCollection | crates/noyalib/src/borrowed.rs:858-869 | the closed collection is anchored, then placed in its parent; an end with nothing open is an error |
| Builder.BorrowedBuilder.OnAlias | crates/noyalib/src/borrowed.rs:871-890 | charges before and after the look-up, then places a copy or uses it as a key; unknown anchors and collection keys are refused |
| Builder.BorrowedBuilder.Process | crates/noyalib/src/borrowed.rs:782-816 | every event moves the object exactly as the machine's transition, refusals included |
| Builder.Load | crates/noyalib/src/borrowed.rs:606-616 | the loop over any event list ends with the machine's run up to the stream end: the last root, null, or the first refusal |
| Evaluation.MachineReadsNode | crates/noyalib/src/borrowed.rs:782-890 | from any state with no key pending, the events of a node do what the recursive reading with a threaded anchor environment does, with the same refusal |
| Evaluation.MachineReadsSequence | crates/noyalib/src/borrowed.rs:798-813 | the same for a whole sequence, pushed and popped as one frame |
| Evaluation.MachineReadsMapping | crates/noyalib/src/borrowed.rs:798-813 | the same for a whole mapping |
| Evaluation.MachineReadsItems | crates/noyalib/src/borrowed.rs:719-730 | the items of an open sequence accumulate in its frame as the reading lists them |
| Evaluation.MachineReadsPairs | crates/noyalib/src/borrowed.rs:719-771 | the pairs of an open mapping accumulate in its frame as the reading inserts them |
| Evaluation.MachineReadsKey | crates/noyalib/src/borrowed.rs:825-829 | a scalar or alias key turns the frame to its value state under the key the reading computes |
| Evaluation.MachineReadsDocument | crates/noyalib/src/borrowed.rs:782-816 | one document, from any earlier root: its value becomes the root and no anchor survives it |
| Evaluation.MachineReadsStream | crates/noyalib/src/borrowed.rs:606-616 | any stream of documents ends with the reading's last value, empty stack and empty anchor table, or with its refusal |
| Meaning.LimitsOnlyRefuse | crates/noyalib/src/parser/meter.rs:200-345 | the metered reading of a node gives the limit-free meaning, its own fault, or a limit's refusal; never another value |
| Meaning.KeyAgrees | crates/noyalib/src/borrowed.rs:825-848 | the same for keys, and a key binds no anchor |
| Meaning.LoadMeansStream | crates/noyalib/src/borrowed.rs:591-621 | the machine on the events of any stream ends with the stream's meaning, the meaning's fault, or a limit's refusal |
| Meaning.LimitsNeverChangeAValue | crates/noyalib/src/parser/meter.rs:200-345 | two loads of one stream that differ in limits only and both succeed give the same value |
| Meaning.OwnAliasNeedsOldBinding | crates/noyalib/src/borrowed.rs:858-890 | an alias anywhere inside the sequence or mapping that carries its anchor is refused when the name has no other binding |
| Meaning.OwnAliasSeesOldBinding | crates/noyalib/src/borrowed.rs:858-890 | for an alias that is the last item of the sequence that carries its anchor: the previous binding is what it means, or the name is unknown |
| Meaning.OwnAliasAsValue | crates/noyalib/src/borrowed.rs:858-890 | the same for an alias that is the last value of a mapping, whose key and policy have their say as with any other value |
| Scalars.ScalarMeans | crates/noyalib/src/borrowed.rs:670-714 | a scalar that is quoted, or tagged `str` with one of the three core handles, means its text; any other means the very null, boolean, number or text that plain resolution answers; its name alone is bound |
| Scalars.ScalarLoads | crates/noyalib/src/borrowed.rs:591-621 | the machine loads the document of one scalar as that value, unless a limit refuses |
| Scalars.LoadedIsLast | crates/noyalib/src/borrowed.rs:666-668 | a load gives the value its last document means, and null when there is none |
| Scalars.KeyMeans | crates/noyalib/src/borrowed.rs:825-848 | a scalar key is its text in any style, and a plain `<<` is refused exactly where merge keys are rejected |
| Scalars.KeyAliasMeans | crates/noyalib/src/borrowed.rs:892-904 | a key alias is the text of its string, `true` or `false`, `null`, or the rendered number; a collection and an unknown name are refused |
| CollectionKeys.CollectionKeyIsDropped | crates/noyalib/src/borrowed.rs:719-740 | after a collection in a key position, whatever it holds, the open frames are as before and the key is still to come |
| CollectionKeys.CollectionKeyShifts | crates/noyalib/src/borrowed.rs:735-736 | a mapping with a collection key for its first pair and `c: d` for its second loads with the first value as the key of `c` |
| Invariants.StepKeepsInv | crates/noyalib/src/borrowed.rs:719-890 | every transition keeps: depth is the stack height within the limit, lengths within limits, keys distinct, nesting to come within the limit, anchor costs exact |
| Invariants.RunKeepsInv | crates/noyalib/src/borrowed.rs:782-816 | so does every run on any events at all, well bracketed or not |
| Invariants.LoadedIsBounded | crates/noyalib/src/parser/budget.rs:23-58 | whatever is loaded, aliases expanded, nests within the effective depth limit and is within every length limit with distinct keys |
| Invariants.AliasKeepsInv | crates/noyalib/src/parser/meter.rs:290-329 | splicing a whole anchored subtree keeps the nesting limit, because its height is charged at the alias |
| Invariants.CloseKeepsInv | crates/noyalib/src/borrowed.rs:858-869 | a collection that closes fits its parent's level and may stand at any alias |
| Counting.RunCounts | crates/noyalib/src/parser/meter.rs:204-288 | after any run each counter shows the exact total of the events read, saturated: events, nodes, scalar bytes, anchors, documents, the document's aliases |
| Counting.BudgetsAreExact | crates/noyalib/src/parser/meter.rs:204-288 | an event, node, scalar-byte or document budget refuses the next event if and only if the total with it is past the limit, and reports that total; an alias past its limit is refused |
| Counting.LoadedIsWithinLimits | crates/noyalib/src/parser/meter.rs:204-288 | whatever loads is within every one of these limits |
| Expansion.AliasPays | crates/noyalib/src/parser/meter.rs:301-329 | an accepted alias was charged the bytes of every node it copies |
| Expansion.EvalPays | crates/noyalib/src/parser/meter.rs:204-329 | a node's value has no more nodes than were written in it or paid for by its aliases, nested aliases included |
| Expansion.PairPays | crates/noyalib/src/borrowed.rs:742-765 | a pair adds no more nodes than it paid for, also when a duplicate is dropped or replaced |
| Expansion.ExpansionIsBounded | crates/noyalib/src/parser/budget.rs:19-21 | under any limits a document's tree has at most the nodes it writes itself plus those its alias-byte allowance buys |
| Expansion.LoadedExpansionIsBounded | crates/noyalib/src/borrowed.rs:606-616 | so has the value of every stream the machine loads |
| Expansion.WrittenIsLimited | crates/noyalib/src/parser/meter.rs:228-240 | the nodes a loaded document writes are within the node limit, when that is below the largest word |
| Carryover.RunMovesSlots | crates/noyalib/src/borrowed.rs:719-771 | after any run the open frames are the item, key and value positions that the events alone determine |
| Carryover.RunCarries | crates/noyalib/src/parser/meter.rs:254-345 | after any run the merge keys and the jump charge are saturated totals of the stream, the alias bytes those of the present document |
| Carryover.MergeBudgetIsExact | crates/noyalib/src/parser/meter.rs:332-345 | a merge key is refused if and only if the stream's merge keys, itself included, are past the limit, with that total reported |
| Carryover.MergeVerdictsAgree | crates/noyalib/src/de/config.rs:117-118 | that is the documented per-document verdict if and only if the stream is within the limit or the document alone is past it |
| Carryover.SecondDocumentIsRefused | crates/noyalib/src/parser/meter.rs:254-270 | at a limit of one merge key a document with one loads alone and is refused as the second of a stream |
| AliasBudgets.AliasBudgetsAreExact | crates/noyalib/src/parser/meter.rs:271-329 | after any run an alias whose event is charged is refused if and only if the document's aliases, their ratio to the stream's anchors, the nesting, the document's alias bytes or the stream's jump charge, with it, are past their limits or its name is not bound, the first of these in the order tested; otherwise only for the place it stands in |
| AliasBudgets.AliasIsChargedItsTree | crates/noyalib/src/parser/meter.rs:301-329 | the charges of an alias are the height, the nodes and the bytes of the very value its name is bound to, saturated |
| Lengths.NestingIsExact | crates/noyalib/src/borrowed.rs:850-856 | a collection is refused for nesting if and only if more than 256 or more than `max_depth` are open with it, and that number is reported |
| Lengths.SequenceLimitIsExact | crates/noyalib/src/borrowed.rs:721-730 | an item that reads comes last in its sequence if fewer than the limit are there, and is refused as one past it otherwise |
| Measures.TreeIsItsEvents | crates/noyalib/src/parser/meter.rs:204-251 | without aliases and repeated keys a tree has exactly the nodes its events were charged for, and their text as far as it stays text |
| Measures.HeightIsDeepest | crates/noyalib/src/parser/meter.rs:104-123 | a tree's height is the number of collections around its deepest node, the node included |
| Measures.OwnedIsMeasuredAlike | crates/noyalib/src/de.rs:834-884 | the owned tree's nodes, text and height are those of the borrowed tree |
| Measures.TagsAreNotMeasured | crates/noyalib/src/de.rs:834-884 | a tag adds nothing to any of the three |
| AliasBudgets.DepthIsOpen | crates/noyalib/src/borrowed.rs:850-869 | the depth an alias is charged at is the number of collections the events have left open |
| AliasBudgets.AnchorVerdictsAgree | crates/noyalib/src/de/config.rs:103-104 | the alias limit is one on each anchor if and only if all the aliases are within it together or those of the anchor alone are past it |
| AliasBudgets.OnceEachIsRefused | crates/noyalib/src/parser/meter.rs:271-277 | at a limit of one alias a document that aliases each of two anchors once is refused |
| AliasBudgets.RepeatedTextIsBounded | crates/noyalib/src/parser/meter.rs:301-329 | whatever loads, the text its aliases repeat in the present document is within the allowance for alias bytes |
| AliasBudgets.ExpandedTextLoads | crates/noyalib/src/de/config.rs:276-279 | at a limit of one scalar byte a document loads whose text is two bytes after alias expansion |
| Duplicates.PairsArePlaced | crates/noyalib/src/borrowed.rs:731-764 | reading a mapping's pairs is listing their keys and values with the environment threaded, then placing the listed entries, with every fault in its order |
| Duplicates.PairsAreInserted | crates/noyalib/src/borrowed.rs:731-764 | the same for the metered reading and the key limit |
| Duplicates.ListedAt | crates/noyalib/src/borrowed.rs:818-835 | each listed entry is its own pair's key and value, read with what the pairs before it left |
| Duplicates.MeteredIsListed | crates/noyalib/src/parser/meter.rs:200-345 | limits aside the metered entries are the listed ones |
| Duplicates.MappingMeans | crates/noyalib/src/borrowed.rs:742-765 | a mapping node is refused exactly for a repeated key under the refusing policy, else for its first fault; otherwise its keys are the written ones in first-occurrence order, each with the written value its policy keeps |
| Duplicates.RefuseIsExact | crates/noyalib/src/borrowed.rs:748-760 | under the refusing policy the accepted entries are those with distinct keys, as many as the limit allows |
| Duplicates.MappingLoads | crates/noyalib/src/borrowed.rs:742-765 | once begun, a mapping node loads if and only if every pair reads, its entries are accepted and its end is charged; at the key limit an entry is refused even if it repeats a key |
| Duplicates.KeyVerdictsAgree | crates/noyalib/src/borrowed.rs:742-747 | the entries are refused exactly when their keys are more than the limit, unless the last one repeats a key of a mapping already at the limit |
| Duplicates.RepeatIsRefused | crates/noyalib/src/borrowed.rs:742-747 | at a limit of one the entries `a`, `a` are refused for a second key, though they come to a mapping of one key |
| Query.QueryRecursive | crates/noyalib/src/borrowed.rs:483-541 | appends to the results, and to nothing else, the matches of the remaining segments in report order, on every tree and path |
| Query.QueryPath | crates/noyalib/src/borrowed.rs:273-277 | a query's matches are those of the recursive definition from the root |
| Query.GetQueryPath | crates/noyalib/src/borrowed.rs:305-329 | always the first match of `query_path`, or none when there is none |
| Query.IndexSelects | crates/noyalib/src/borrowed.rs:501-507 | an index goes on from the item with that index, at its address, and matches nothing elsewhere |
| Query.KeySelects | crates/noyalib/src/borrowed.rs:494-500 | a key goes on from the value under it, and matches nothing in other nodes or without it |
| Query.WildcardSelects | crates/noyalib/src/borrowed.rs:508-520 | a wildcard goes on from every child of a sequence or mapping, in order |
| Query.DescentSelects | crates/noyalib/src/borrowed.rs:521-539 | `..` before a rest goes on from the node itself and then descends into every child, in order |
| Query.MatchesAreSpelled | crates/noyalib/src/borrowed.rs:483-541 | a node at an address is a match if and only if the path spells that address, step by step |
| Query.DescentIsPreorder | crates/noyalib/src/borrowed.rs:521-539 | `..` before a rest reports the rest's matches at the node and all its descendants, in preorder |
| Query.TrailingDescent | crates/noyalib/src/borrowed.rs:521-539 | a path that ends in `..` matches nothing, in any tree |
| Query.MatchesAreNodes | crates/noyalib/src/borrowed.rs:483-541 | every match is a node of the tree, at the address reported |
| AnchorNames.NamesAreDistinct | crates/noyalib/src/anchors.rs:124-126 | different ids never format to the same name, zero padding included |
| AnchorNames.NameIsPaddedNumber | crates/noyalib/src/anchors.rs:124-126 | a name is `id` and the number in decimal, padded to three digits and without a leading zero beyond |
| Tracking.TrackKeepsNumbered | crates/noyalib/src/anchors.rs:95-112 | tracking keeps the ids in 1 to the number seen, distinct below the top of the counter, colliding above it |
| Tracking.NamesDistinctUpToTheTop | crates/noyalib/src/anchors.rs:95-112 | after any sequence of pointers, two share an id if and only if more than 2^32 - 1 were tracked |
| SharedSerializer.SharedTracking.Enter | crates/noyalib/src/anchors.rs:70-81 | a scope owns, and starts afresh, exactly the state it installs |
| SharedSerializer.SharedTracking.Drop | crates/noyalib/src/anchors.rs:84-92 | only the owning scope clears the state |
| SharedSerializer.SharedTracking.Track | crates/noyalib/src/anchors.rs:95-112 | a first sight takes the next id and advances the counter; a later sight changes nothing |
| SharedSerializer.SharedTracking.Serialize | crates/noyalib/src/anchors.rs:186-212 | the object writes what the tracked emission prescribes, definition in front of definition included, and leaves its tracker, for any data and any prior state |
| SharedSerializer.SharedTracking.SerializeShared | crates/noyalib/src/ser.rs:430-440 | a call emits under a fresh scope, and no tracking state outlives the outermost call |
| SharedOnce.DefinedOnce | crates/noyalib/src/anchors.rs:186-212 | what is written under tracking holds one definition for each pointer that joins those seen, and ids never change |
| SharedOnce.SharedItemsAreAliased | crates/noyalib/src/anchors.rs:186-212 | of two items that point to one place the later is written as an alias to the name the earlier one carries |
| RoundTrip.CleanIsReadable | crates/noyalib/src/ser.rs:1817-1848 | what is written reads back as a node if and only if no definition stands before an anchor or an alias |
| RoundTrip.RoundTripIsExact | crates/noyalib/src/anchors.rs:186-212 | for any acyclic graph of at most 2^32 - 1 pointees, tracked and inline writing mean the same if and only if it is clean |
| RoundTrip.PointerToPointerFails | crates/noyalib/src/ser.rs:1827-1846 | a pointer to a pointer is written with two anchors and not read back, though its inline form is |
| RoundTrip.PointerToSeenPointerFails | crates/noyalib/src/parser/scanner.rs:2186-2197 | a pointer to a pointer seen before is written as an anchored alias, which is refused |
| RoundTrip.FlatIsClean | crates/noyalib/src/anchors.rs:186-212 | data in which no strong pointer points at a pointer is clean in every tracking state |
| RoundTrip.InlineIsPlain | crates/noyalib/src/anchors.rs:194-195 | without tracking, what is written reads back as the data with every pointer expanded, and binds nothing |
| RoundTrip.DanglingIsNull | crates/noyalib/src/anchors.rs:392-416 | a dangling weak pointer reads back as null |
| RoundTrip.TrackedIsPlain | crates/noyalib/src/anchors.rs:186-212 | whatever has been defined so far, reading what tracking writes for clean data gives the expanded value and keeps every defined name bound to its pointee's value |
| RoundTrip.TrackedDefinition | crates/noyalib/src/anchors.rs:196-200 | a first sight's anchor is bound, on completion, to the pointee's value, and no other name is disturbed |
| RoundTrip.FirstSight | crates/noyalib/src/anchors.rs:104-107 | a new pointer gets a name no earlier one has |
| RoundTrip.PointeesAreSmaller | crates/noyalib/src/anchors.rs:196-200 | in acyclic data no pointer occurs inside its own pointee, so no alias precedes its completed definition |
| RoundTrip.SharedMeansPlain | crates/noyalib/src/anchors.rs:186-212 | both ways of writing a clean graph mean its expanded value, or carry the same fault |
| RoundTrip.SharedLoadsPlain | crates/noyalib/src/anchors.rs:392-416 | serialising under tracking and loading through the builder gives the expanded value, unless a limit refuses, exactly on clean data; otherwise nothing is read back |
| IncludeWalking.IncludeWalk.Charge | crates/noyalib/src/de.rs:1001-1024 | the three source budgets are charged in order and refuse with the observed count |
| IncludeWalking.IncludeWalk.Fetch | crates/noyalib/src/de.rs:949-988 | depth, resolver, budgets, cycle, parse and scalar account in the code's order, the counters as the walk function says |
| IncludeWalking.IncludeWalk.Load | crates/noyalib/src/de.rs:949-997 | the fetched tree with its own includes resolved and its fragment selected, the identity off the chain again |
| IncludeWalking.IncludeWalk.Walk | crates/noyalib/src/de.rs:924-945 | terminates for any resolver and follows the walk function on tree, counters and error |
| IncludeWalking.ApplyIncludes | crates/noyalib/src/de.rs:803-824 | a run succeeds exactly when the walk does and its result is within both budgets; then no include is left |
| IncludeWalking.ScalarRecheckIsImplied | crates/noyalib/src/de.rs:818-821 | a walk that starts within the scalar budget ends within it, so the re-check can refuse for nodes only |
| IncludeOutcome.WalkResolves | crates/noyalib/src/de.rs:924-945 | after success no include node remains anywhere, the chain is as before, every counter is within its limit |
| IncludeOutcome.LoadResolves | crates/noyalib/src/de.rs:949-997 | the same for one include, fragment selected |
| IncludeOutcome.WalkKeepsDepth | crates/noyalib/src/de.rs:973-979 | a tree that starts within `max_depth` ends within it, each source having only the nesting left at its place |
| IncludeOutcome.ResolvedIsFixed | crates/noyalib/src/de.rs:939-944 | a tree without includes is walked to itself at no charge |
| IncludeFragments.TaggedWalks | crates/noyalib/src/de.rs:924-945 | a node tagged `!include` is loaded by its text, whose bytes leave the account, or refused when it is no text; under any other tag the node is walked and the tag kept |
| IncludeFragments.CutAtFirstHash | crates/noyalib/src/include.rs:168-174 | a spec is cut at its first `#` |
| IncludeFragments.WholeIsLoaded | crates/noyalib/src/de.rs:949-997 | without a `#` an include is the whole document, its own includes resolved |
| IncludeFragments.FragmentIsLoaded | crates/noyalib/src/de.rs:1030-1048 | with one it is the value under that key of the resolved document; it fails as not found exactly when no entry has the key, and as no mapping exactly for another kind of node |
| IncludeFragments.FragmentIsMeant | crates/noyalib/src/de.rs:1030-1048 | the same where limits play no part |
| IncludeTrace.WalkIsTraced | crates/noyalib/src/de.rs:924-1024 | for every resolver and parser: the counters move by exactly the number and the bytes of the sources given, each request is answered under what was left, and a refusal for sources, bytes or length is for a total or a source past its limit, in the order tested |
| IncludeTrace.WholeIsTraced | crates/noyalib/src/include.rs:50-67 | in a whole pass every source is asked for by the document, number 0, or by an earlier source under its own number, one level below it; a pass that succeeds was given no more than the limits allow |
| IncludeTrace.FetchParses | crates/noyalib/src/de.rs:973-988 | what a fetch brings is the parse of the one source answered, under the nesting left at its place, and its text is added to the account |
| IncludeCeiling.CeilingHolds | crates/noyalib/src/parser/budget.rs:23-46 | with `max_depth` at most 256 the walked tree keeps the effective depth limit |
| IncludeCeiling.CeilingEscapes | crates/noyalib/src/de.rs:977-979 | with any larger `max_depth` some run, re-check included, is accepted one level above it |
| IncludeCeiling.NestingIsBounded | crates/noyalib/src/de.rs:973-979 | a walked tree nests no deeper than `max_depth`, nor than 256 for the document and for each include level |
| IncludeAccount.AccountIsConserved | crates/noyalib/src/de.rs:931-988 | under any limits, as long as the account stays below the largest word: a walk moves the scalar account by exactly the change in the tree's text when no fragment is named, and by no less otherwise |
| IncludeAccount.IncludeIsAccounted | crates/noyalib/src/de.rs:980-996 | an include adds the text of what it puts in, exactly without a fragment |
| IncludeLimits.FetchIsMonotone | crates/noyalib/src/de.rs:950-988 | a fetch that succeeds is the same under any higher limits, for every resolver whose answers within their allowance do not depend on it |
| IncludeLimits.WalkIsMonotone | crates/noyalib/src/de.rs:924-1024 | so are the tree and the counters of a walk that succeeds, whichever of the six limits are raised; only a raised allowance or depth asks anything of the resolver or the parser |
| IncludeChain.FetchIsOnChain | crates/noyalib/src/de.rs:963-971 | for every resolver: the set of visited identities serves as the chain a fetch is handed, a cycle is reported exactly when the identity answered is on it, and the fetch adds that identity and no other |
| IncludeChain.WalkIsOnChain | crates/noyalib/src/de.rs:924-997 | for every resolver: tree, counters and errors of a walk are those of one that is handed its chain as an argument and keeps no set, so only a source inside itself is a cycle |
| IncludeChain.LoadIsOnChain | crates/noyalib/src/de.rs:949-997 | the same for one include: only what it includes sees its identity |
| IncludeMeaning.FetchedIsAnswer | crates/noyalib/src/de.rs:950-988 | a fetch that succeeds has parsed the source the spec names, whose identity was not on the chain |
| IncludeMeaning.FetchRefusesAlike | crates/noyalib/src/de.rs:950-988 | a fetch that fails does so by a limit, for a source past its allowance, or as substitution does, a cycle included |
| IncludeMeaning.SuccessIsSubstitution | crates/noyalib/src/de.rs:924-997 | a walk that succeeds gives the substituted tree, whatever the resolver's errors and whatever it answers past its allowance; diamonds are accepted |
| IncludeMeaning.WalkSubstitutes | crates/noyalib/src/de.rs:924-997 | the walk gives what pure substitution gives, its value or its fault, unless a limit refuses or the resolver does for a source past its allowance |
| IncludeMeaning.MoreFuel | crates/noyalib/src/de.rs:950-955 | a substitution that succeeds is the same with more include levels allowed |
| IncludeFiles.ReadWithinAllowance | crates/noyalib/src/include/fs.rs:185-203 | a file within the allowance is answered whole; of a longer one the answer is longer than the allowance, or an error |
| IncludeFiles.FilesQualify | crates/noyalib/src/include/fs.rs:151-173 | the resolver of files meets what substitution and the raising of limits ask of a resolver |
| IncludeFiles.CutIsExact | crates/noyalib/src/include/fs.rs:188-203 | reading stops inside a character exactly when the file is longer than the limit and no prefix has its length |
| IncludeFiles.OverrunIsSeen | crates/noyalib/src/include.rs:61-67 | a file past the allowance is answered, for the loader to refuse, if and only if some prefix is one byte longer than the allowance |
| IncludeFiles.OverrunIsHidden | crates/noyalib/src/include/fs.rs:185-187 | a file of one two-byte character, with no byte allowed, is reported as unreadable |
| Recheck.EnforceExpandedNodeBudget | crates/noyalib/src/de.rs:834-884 | succeeds if and only if the recursive node and scalar totals are within their limits, whatever the visiting order; an error names an excess that occurs |
| Recheck.SaturationIsExactBelowTheTop | crates/noyalib/src/de.rs:867-874 | saturating sums change the verdict only for a limit at the largest word |
| PathSearch.FindValuePath | crates/noyalib/src/de.rs:669-696 | reports the first hit in depth-first order with exactly its segments pushed, and on a miss the vector as it was |
| PathSearch.SearchIsSound | crates/noyalib/src/de.rs:670-672 | a reported position is a node of the tree that lives at the address sought |
| PathSearch.SearchIsComplete | crates/noyalib/src/de.rs:669-696 | if any node lives at the address, one is found |
| PathSearch.SearchIsFirst | crates/noyalib/src/de.rs:669-696 | no node at the address comes before the reported one depth first |
| PathSearch.SegmentsLeadBack | crates/noyalib/src/de.rs:663-667 | following a node's segments from the root, looking through tags, reaches it |
| PathSearch.PathNamesTarget | crates/noyalib/src/de.rs:663-696 | found if and only if some node lives there, and then the segments name such a node |
| Markers.NextMarkerIsNext | crates/noyalib/src/doc_boundary.rs:53-68 | the search's result is the least marker from the start, and the only answer with that property |
| Markers.MarkerAtOrAfter | crates/noyalib/src/doc_boundary.rs:109-118 | the loop finds that least marker, or none |
| Markers.NextMarkerAfter | crates/noyalib/src/doc_boundary.rs:79-81 | the least marker past the first unit, so a leading marker is never a boundary |
| Markers.NextMarkerAfterStreaming | crates/noyalib/src/doc_boundary.rs:90-106 | the least marker whose look-ahead unit has arrived; none means that no decided position is one |
| Markers.ChunkNeverContradicts | crates/noyalib/src/doc_boundary.rs:83-87 | on any prefix an answer is the batch scan's of the whole input, and no answer rules out every decided position |
| Markers.LookaheadDecides | crates/noyalib/src/doc_boundary.rs:90-106 | before the end of input an answer has its look-ahead unit, and no marker that has it is passed over |
| Markers.EofIsBatch | crates/noyalib/src/doc_boundary.rs:79-106 | at the end of input the streaming scan and the batch scan have the same result |
| Markers.MarkersAreApart | crates/noyalib/src/doc_boundary.rs:53-68 | two markers are at least four units apart |
| FrameScanner.Scanner.NextBoundary | crates/noyalib/src/tokio_async.rs:348-367 | resuming where the last call stopped answers as a scan from the start, and keeps that so for the next call |
| FrameScanner.AnyChunkingFindsTheBoundary | crates/noyalib/src/tokio_async.rs:348-367 | however the input arrives, the first answer is the boundary of the whole input, and none means it has none |
| Frames.FramesStartAtMarkers | crates/noyalib/src/tokio_async.rs:380-398 | splitting at one boundary after another finds exactly the markers of the whole input |
| Frames.FrameEndsAtNextStart | crates/noyalib/src/tokio_async.rs:348-398 | in whatever chunks the rest arrives, a frame ends at the next marker |
| Utf8Markers.ByteMarkersAreScalarMarkers | crates/noyalib/src/doc_boundary.rs:141-145 | the byte scan of a string finds exactly the offsets of its markers as characters |
| Utf8Markers.Utf8MarkersAreScalarMarkers | crates/noyalib/src/doc_boundary.rs:162-172 | for UTF-8, so that no slice splits a character |
| Utf8Markers.EncodeIsUtf8 | crates/noyalib/src/doc_boundary.rs:162-172 | section 3 of RFC 3629: one to four bytes by the size of the scalar value, from which it is read back |
| Utf8Markers.Utf8LenIsEncoded | crates/noyalib/src/parser/meter.rs:213-219 | the length a text is charged is the length of its encoding |
| Splitting.CutsAreMarkers | crates/noyalib/src/doc_boundary.rs:140-149 | the cuts are exactly the markers, except a first one at 0 or after comments, directives and blank lines only |
| Splitting.DocumentsAreCut | crates/noyalib/src/doc_boundary.rs:140-205 | the documents of a text that is not blank run from one cut to the next, all of them in order |
| LineBreaks.MarkerIsSpelled | crates/noyalib/src/doc_boundary.rs:53-68 | unit by unit: three 0x2D, at 0 or after 0x0A or 0x0D, and then the end or 0x0A, 0x0D, 0x20 or 0x09 |
| LineBreaks.CutsAreSpelled | crates/noyalib/src/doc_boundary.rs:140-149 | the cuts in the same terms: every marker but a first one before which no content opens a line begun by 0x0A |
| LineBreaks.BlankTextsHaveNone | crates/noyalib/src/doc_boundary.rs:179-205 | a text has no document if and only if it is made of the characters Unicode lists as white space |
| LineBreaks.MarkersDiffer | crates/noyalib/src/doc_boundary.rs:15-24 | the scan takes every documented marker, and otherwise exactly those right after a carriage return |
| LineBreaks.PrologueAgrees | crates/noyalib/src/doc_boundary.rs:247-252 | the prologue test agrees with lines cut at every break if and only if content opens some line begun by a line feed or none begun by a carriage return |
| LineBreaks.ContentIsOpening | crates/noyalib/src/doc_boundary.rs:244-252 | a prologue has content if and only if something that is no comment or directive opens one of its lines |
| LineBreaks.CutsAreDocumented | crates/noyalib/src/doc_boundary.rs:15-24 | on a text without lone carriage returns the cuts are the documented markers, but for a first one with nothing before it |
| LineBreaks.LoneReturnHidesContent | crates/noyalib/src/doc_boundary.rs:60-60 | a text whose content before a marker goes unseen and is left to the next document |
| Splitting.JumpSkipsNone | crates/noyalib/src/doc_boundary.rs:192-195 | resuming the search three past a marker misses no marker |
| Splitting.DocumentsPartition | crates/noyalib/src/doc_boundary.rs:140-205 | the documents of a text with anything in it concatenate to it; a blank text has none |
| Splitting.DocumentsBeginWithMarkers | crates/noyalib/src/doc_boundary.rs:224-228 | no document is empty and each but the first begins with its marker |
| Splitting.YieldsAreBudgeted | crates/noyalib/src/doc_boundary.rs:162-173 | with k documents and limit n: the first min(k, n), then one error observing n + 1 exactly when k > n, then nothing |
| Stream.DocumentStream.constructor | crates/noyalib/src/doc_boundary.rs:140-160 | a new stream has exactly the text's documents to come |
| Stream.DocumentStream.Emit | crates/noyalib/src/doc_boundary.rs:162-173 | a document within budget is counted and sliced; the one beyond ends the stream with the observed count |
| Stream.DocumentStream.Next | crates/noyalib/src/doc_boundary.rs:179-205 | each call yields the head of what is to come under the budget and leaves the tail; after the end or the error, nothing for good |
| Stream.ValidateDocumentBudget | crates/noyalib/src/doc_boundary.rs:214-219 | succeeds if and only if the text has at most n documents, else the budget error for n + 1 |
| Stream.SplitDocumentsChecked | crates/noyalib/src/doc_boundary.rs:240-242 | the same verdict, with all the documents on success |
| Stream.SplitDocuments | crates/noyalib/src/doc_boundary.rs:230-234 | all the documents, the budget never being reached |
| Base64.BuildLut | crates/noyalib/src/base64.rs:148-165 | the two filling loops build the table that inverts the alphabet, padding and all other bytes marked |
| Base64.Encode | crates/noyalib/src/base64.rs:112-146 | the chunk loop and its remainder produce the encoding of the whole input |
| Base64.Decode | crates/noyalib/src/base64.rs:33-106 | the loops over table and buffer give the decoding, with the code's error for each refusal and no index out of range |
| Base64.DecodeQuartet | crates/noyalib/src/base64.rs:75-100 | the 24-bit arithmetic of each branch yields the bytes whose bits the symbols carry |
| Words.BitOperationsAreArithmetic | crates/noyalib/src/base64.rs:73-91 | the decoder's shifts, masks and unions of 32-bit words are the quotients, remainders and sums used here |
| Words.BytesJoinAsSum | crates/noyalib/src/base64.rs:119-139 | so is the encoder's union of three shifted bytes |
| Base64Bits.EncodedSpellsTheBits | crates/noyalib/src/base64.rs:107-146 | section 4 of RFC 4648: the symbols spell, six bits each, the bits of the bytes, completed with zeros |
| Base64Bits.AlphabetIsStandard | crates/noyalib/src/base64.rs:107-146 | the encoder's symbols are `A-Z a-z 0-9 + /` in that order |
| Base64Bits.TableIsStandard | crates/noyalib/src/base64.rs:148-165 | the decoder's table reads those symbols and `=` and nothing else |
| Base64Bits.EncodedIsPadded | crates/noyalib/src/base64.rs:112-146 | four symbols for every three bytes begun, with `=` exactly where the bits have run out |
| Base64.GroupIsCanonical | crates/noyalib/src/base64.rs:82-96 | section 3.5 of RFC 4648: a decoded group has only one spelling, its unused bits zero |
| Base64.AcceptsExactlyEncodings | crates/noyalib/src/base64.rs:33-106 | a text decodes to given bytes if and only if, white space removed, it is their encoding |
| Base64.DecodeUndoesEncode | crates/noyalib/src/base64.rs:24-33 | every byte string survives encoding and decoding |
| Base64Texts.AcceptedIsSpacedEncoding | crates/noyalib/src/base64.rs:42-50 | a text decodes to given bytes if and only if it is their encoding with bytes 32, 9, 13 and 10 put anywhere into it |
| Base64Texts.SpaceIsIgnored | crates/noyalib/src/base64.rs:42-47 | one of those bytes put anywhere into any text changes neither the bytes nor the error |
| Base64Texts.LengthIsExact | crates/noyalib/src/base64.rs:49-51 | a text is refused for its length if and only if its other bytes are no whole groups of four |
| Base64Texts.GroupVerdict | crates/noyalib/src/base64.rs:59-100 | the verdict on a group in terms of the alphabet, `=` and the unused bits, each error in its place |
| Base64Texts.FaultIsTheFirst | crates/noyalib/src/base64.rs:56-103 | the error of a text is that of its first faulty group, and without one there is none |
| Base64Texts.OtherBytesAreRefused | crates/noyalib/src/base64.rs:65-67 | any byte outside `A-Z a-z 0-9 + /`, `=` and the four white-space bytes makes a text refused |
| Base64.AcceptedTextsAreCanonical | crates/noyalib/src/base64.rs:10-13 | two accepted texts that decode alike differ in white space only |
| Levenshtein.EditDistance | crates/noyalib/examples/suggest.rs:17-31 | the two swapped rows end with the recursive distance of the whole strings |
| Levenshtein.FillRow | crates/noyalib/examples/suggest.rs:23-27 | from the row of one prefix the inner loop makes the row of the next, the old row untouched |
| Levenshtein.DistanceIsLeast | crates/noyalib/examples/suggest.rs:16-31 | some script of that many single-character edits leads from one string to the other, and no shorter one does |
| Levenshtein.ZeroOnlyBetweenEquals | crates/noyalib/examples/suggest.rs:16-31 | distance 0 if and only if the strings are equal |
| Levenshtein.Symmetry | crates/noyalib/examples/suggest.rs:16-31 | the distance is the same in both directions |
| Levenshtein.Triangle | crates/noyalib/examples/suggest.rs:16-31 | a detour is never shorter |
| Levenshtein.SuggestionIsFirstNearest | crates/noyalib/examples/suggest.rs:33-40 | the suggestion is the first key of least distance within 3; there is none exactly when every key is farther |
| Levenshtein.PresentKeyIsItsOwnSuggestion | crates/noyalib/examples/suggest.rs:33-40 | a key that is present is suggested for itself, at distance 0 |

## Left out

- The scanner and the event parser, but for the rule that a node takes one anchor and an alias none; plain-scalar resolution, number rendering and `parse_exactly_one_value`: parameters of the model.
- The test of the whole input's length in front of a load; event and document policies, property interpolation, span tracking, tags and positions on collections: they do not bear on the trees built.
- The event tally shared between the documents of a split stream (`StreamTally`): each meter here is a single loader's own.
- The alias-to-anchor ratio is a real number: a NaN or infinite ratio is not modelled.
- A collection in a key position has no place in `Syntax`; `CollectionKeys` says what the builder makes of its events, and `Invariants` covers every event list.
- The state of an object after it returned an error, which the code drops: method contracts fix the error only.
- Counters the code increments without saturation (`depth`, `next_id`, `level`, `tree_depth`) are unbounded: they count things that exist in memory.
- Data that is cyclic through weak pointers: the data here are finite trees over a heap; what an alias inside its own definition, which such data would be written as, comes to is `Meaning.OwnAliasNeedsOldBinding`.
- The text the serialiser writes for an event, and the thread-local cell around the tracking state; `ArcAnchor` and `ArcWeakAnchor`, whose code is that of the `Rc` pair.
- `AliasCost::of_value`, the owned tree's measure, enters the include walk as its text total only; its own loop is not modelled.
- Tree nodes the walk rewrites in place are values here: `Walk` returns the new tree, and trees have no shared nodes.
- IncludeMeaning.WalkSubstitutes: for a resolver whose answers within their allowance are determined by the spec, and, for failures, a total-byte limit below the largest word, above which the byte counter could stick; chain, outcome, depth and account results hold for every resolver.
- IncludeLimits.WalkIsMonotone: when an allowance is raised, for a resolver whose answers within it do not depend on it: any other could answer a raised allowance otherwise.
- IncludeLimits.FetchIsMonotone: for the same resolvers.
- IncludeAccount.AccountIsConserved: not once the account has reached the largest word, where it loses what it cannot hold; that takes texts longer than the address space.
- IncludeFiles: how a path is normalised and opened under its root, and files that are not valid UTF-8; a file here is its name and its text.
- RoundTrip.SharedLoadsPlain: when the data is not clean it says that nothing is read back, not which of the faults in the text is met first.
- Expansion.WrittenIsLimited: for a node limit below the largest word, where a saturated counter would prove nothing.
- The rest of the framed decoder (`decode_step` and its length cap), and the removal of a byte-order mark.
- Parsing and rendering of query paths, `query` and `get_path` on text, comparison and hashing of trees, typed deserialisation.
