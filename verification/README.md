# Freeflow and Flowpath, verified

This project models the data structures that the Freeflow/Flowpath switch rests on and proves what they
promise:

- the JSON reader, printer and document access of `freeflow/json.cpp`, with its node buffer;
- the chained hash table of `flowpath/hash.c`, which rehashes itself;
- the circular FIFO of `flowpath/util.c` and the receive and send queues of the NADK port over it;
- the data plane: its port table, its wire pipeline, and the registry of data planes.

`dafny verify dfyconfig.toml` checks everything.

## How it is built

Each part has two layers. The imperative layer has the form of the source: classes with the source's
fields, arrays, linked cells on the heap, loops. Each of its methods is proved to compute what a function
on values says, starting from any valid state. The laws, whole-run theorems and exact conditions are then
proved of those functions.

| part | imperative layer | functions and laws |
|---|---|---|
| JSON | JsonMemory, JsonDocument, JsonAccess | JsonText, JsonParser, JsonLayout, JsonTokens, JsonErrors, JsonBroken, JsonLookup |
| hash table | HashTable | HashSpec, HashLaws, HashRuns, HashExact |
| queues | FifoRing, NadkDevice | NadkQueues, NadkRuns, NadkTrace |
| data plane | Dataplane, Registry | WireSpec, RegistrySpec |

The main results:

- **The parser accepts exactly a language that is defined without it.** A *layout* is a value with space
  written around every value, key and structural character. `ParsesExactlyLayouts` says the parser returns
  `v` and stops at `rest` if and only if the text is a layout of `v` followed by `rest`. From this follow
  layout independence, parse-undoes-print (if and only if the rest does not continue the last token), which
  values print readably (if and only if well formed), and the normal form. Failures have a language of their
  own, of values that break off: `FailsExactlyOnBroken` says which error is reported and where the cursor
  stands, if and only if, and every text is in exactly one of the two. The recursive-descent methods on the
  heap return nodes that denote the parsed value, lie in disjoint ranges of the buffer, and are no more than
  the characters read.
- **Tokens are spelled out.** `NumbersExactly` and `WordsExactly` say, over literal characters, which texts are
  read as a number or an identifier and where they end; every decimal numeral and literal is read in full.
- **With the load its comments describe, the hash table is a finite map over every run**, rehashes included.
  The load test as written nests rehashes and lets the rebuilt array grow longer than the bucket count then
  recorded. `WrittenTableIsAMapIff` gives the exact range of keys for which whole runs are safe, and
  `ResizeRecordsLengthIff`, `ResizeKeepsValuesIff`, `ResizeKeepsAnswersIff` and `InsertAddsIff` say exactly
  when one step is.
- **The queues conserve packets**, in order, whatever the card hands over, accepts or fails to allocate, each
  on its own and both over one port with receiving and sending interleaved. Frames come through field by
  field, and a frame that is forwarded goes out in the buffer it came in (`ForwardedInItsOwnBuffer`).
- **A wire between two ports delivers over every run** of additions and removals, ports taken off and put
  back, refused and tried again, or added twice included, if and only if no port holds both its ends; and
  that for exactly the port ids for which the table is a map. The registry is a map from names to slots.

## Where the code and its comments differ

Where the two differ the model follows the code and proves for which inputs the documented behaviour holds,
and that it fails for the others.

- `flowpath/hash.c:165` returns buckets/size, while the comment and the caller mean size/buckets. Both tests
  are modelled (`HashSpec.Load`). With the documented test a rehash never nests, the load stays bounded and
  the table is a map for all keys and hash functions. With the test as written small tables grow on every
  insertion, a rehash nests, and `t1->buckets = n` (line 247) records fewer buckets than the array has:
  `WrittenTableLosesAKey`, `WrittenTableIsAMapIff`. For the 17 buckets of a port table the bound is 97.
- `flowpath/hash.c:8-9` says each listed prime is at least twice the one before; many are a little less, 97 after
  53 for one: `AdjacentPrimes`.
- `flowpath/hash.c:236-242` reverses a chain when rehashing, so with several values for one key the search
  answer can change: `RehashBringsBackTheOlder`. While each key has at most one value, the answers are kept
  exactly where all values are (`ResizeKeepsSingleAnswersIff`); with several values allowed, every bucket count
  that has a next one has tables whose answers change (`ResizeKeepsAnswersIff`).
- `flowpath/hash.c:277-283` updates the head of the chain whatever its key: `UpdateIsExactIff`, `UpdateMisses`.
- `freeflow/json.hpp:81-121` compares terminals by prefix. Linear search and index then answer for the wrong
  key, not always the same one: `ScanCanMislead`, `IndexCanMislead`, `IndexAndScanDisagree`, and exactly
  when not: `ScanIsExactIff`, `IndexIsExactIff`, and for each other `IndexAgreesWithScanIff`, whatever the
  hash. Where the hash separates comparable keys that condition is one on prefixes alone
  (`IndexAgreesWithScan`).
- `freeflow/json.cpp:275-277` lets no sign into a number after its first character, so that `1e-5`, which
  section 6 of RFC 8259 allows, is read as `1e` before `-5`: `SignedExponentIsCut`.
- `freeflow/json.cpp:330` reads the character at the end of the text, and lines 385-386 step past it after a
  final backslash. The model reports these as a failure `PastEnd`; the source throws nothing there. A key
  that is missing at the end of the text (line 399) is reported as ill formed, which is what the terminating
  NUL of a C string leads to.
- `flowpath/dataplane.c:170` compares the pointer `err`, not the error, with `FP_OK`, so a removed port stays
  in the port table: `RemovedPort`, `RemovedIsStillThere`. Both behaviours are modelled (`WireSpec.Removal`).
- `flowpath/pipelines/wire/wire.c:32-33` says a packet on a wire that is not fully configured is not forwarded.
  `wire_insert` ignores the error of `wire_route`, and `wire_egress` (lines 70-71) then looks the drop port up,
  finds none, and calls the output function on a null port. In `InsertPacket` that is the output port `None`;
  `ConsistentDelivers` says it is reached exactly when an end is free.
- `flowpath/dataplane.c:152` enters a port in the table before `wire.c:119` may refuse it, and `wire.c:114-117`
  lets a port that is on the wire take the free end as well: `AddedTwice`, `AddTwiceIff`.
- `flowpath/port_nadk.c:555-563` treats a negative answer of the card as a count and moves the head of the
  ring back by it, over emptied slots or out of the array: `SendBatch`, `RemoveN`.
- `flowpath/dataplane.c:91` deletes a plane whose tables are not yet set. In the model a plane's tables exist
  from its allocation on, and a plane whose pipeline does not load leaves no trace.
- `freeflow/json.hpp:7-10` gives 20 bytes for a node on a 64-bit system; with the alignment of its pointers it
  takes 24 (`JsonMemory.REP`).
- `flowpath/util.c:145` and `:158` exchange the comments of count and free; the model follows the code.

## What is assumed of the surroundings

- What the network card, the allocator and the pipeline loader return is passed in as parameters: up to 16
  received frames with fresh record addresses, any accepted prefix of a batch, any failing buffer, any
  load outcome.
- Keys are equal when the comparison function says so. Hash functions are arbitrary functions of the key.
- A port's id is not one that the table knows as another port's, and is not a reserved number. Names are
  values.

## Model

| member | source | states |
|---|---|---|
| JsonText.SpanIsLongest | freeflow/json.cpp:359-376 | the scanning loops take the longest prefix inside their character class |
| JsonText.EatSpaceSplits | freeflow/json.cpp:281-286 | skipping space removes exactly the longest run of leading space |
| JsonParser.ParseValue | freeflow/json.cpp:326-356 | on every text the call fails or strictly advances, never passes the end, and makes no more nodes than it reads characters; the mutual recursion terminates |
| JsonParser.ParseArray | freeflow/json.cpp:416-441 | an array fails or strictly advances, and its nodes, list cells included, are paid for by characters read |
| JsonParser.ParseObject | freeflow/json.cpp:444-469 | an object fails or strictly advances, and its nodes, keys, pairs and cells included, are paid for by characters read |
| JsonLayout.ScanOfEscaped | freeflow/json.cpp:379-392 | a string closes at the first quote after escaped text, whatever follows |
| JsonLayout.ScanStopsAtQuote | freeflow/json.cpp:379-392 | where a string closes there is a quote, and the text before it has every backslash paired and no bare quote |
| JsonLayout.ValueParses | freeflow/json.cpp:326-469 | completeness: every layout parses to its value, with its nodes, leaving the rest without leading space |
| JsonLayout.ValueSound | freeflow/json.cpp:326-469 | soundness: every text that parses is a layout of the value returned, before the rest returned |
| JsonLayout.ParsesExactlyLayouts | freeflow/json.cpp:326-469 | the parser returns a value and a rest if and only if the text is a layout of that value before that rest; the nodes made are those of the value |
| JsonLayout.LayoutIndependence | freeflow/json.cpp:281-315 | two layouts of one value, differing only in insignificant space, parse alike |
| JsonLayout.CompactIsPrint | freeflow/json.cpp:165-241 | printing is the layout without space, and it is a proper layout if and only if the value is well formed |
| JsonLayout.ParseUndoesPrint | freeflow/json.cpp:165-241 | of a well-formed value the printed text parses back to it, leaving the rest, if and only if the rest does not continue its last token |
| JsonLayout.PrintReadableIff | freeflow/json.cpp:229-241 | a value survives printing and parsing if and only if it is well formed |
| JsonLayout.NormalForm | freeflow/json.cpp:326-469 | what is parsed is well formed; printing and parsing it again changes nothing, and printing is then a fixed point |
| JsonLayout.AllocationBound | freeflow/json.hpp:423-489 | nodes made never exceed characters consumed, whether or not parsing succeeds |
| JsonTokens.NumbersExactly | freeflow/json.cpp:272-277 | a number is read before a rest if and only if, between blanks, it starts with a digit or '-', goes on with characters of "0123456789.eE" and is followed by none |
| JsonTokens.WordsExactly | freeflow/json.cpp:263-269 | an identifier is read before a rest if and only if, between blanks, it starts as no other value does, goes on with letters, digits and '_' and is followed by none |
| JsonTokens.DecimalsRead | freeflow/json.cpp:369-376 | every decimal numeral, with optional '-', fraction and unsigned exponent, is read in full before the end, a blank, ',', ']' or '}' |
| JsonTokens.LiteralsRead | freeflow/json.cpp:359-366 | true, false and null are read in full as identifiers |
| JsonTokens.BlanksAreSkipped | freeflow/json.cpp:281-286 | space, tab, line feed, vertical tab, form feed and carriage return before a value are skipped |
| JsonTokens.EmptyIsShared | freeflow/json.cpp:318-320 | empty arrays and objects are shared and allocate nothing |
| JsonTokens.SignedExponentIsCut | freeflow/json.cpp:272-277 | an exponent with a sign is cut off before the sign |
| JsonErrors.ScanCases | freeflow/json.cpp:379-392 | a string scan closes at n, runs off an unterminated string, or steps past the end, each if and only if the text has the form that calls for it |
| JsonErrors.FailureIsWhereItStops | freeflow/json.cpp:300-469 | however deep a parse fails, the cursor stands past any space, at the end for a cut-off value or string, and otherwise at a character that the error says could not come next |
| JsonBroken.ValueFails | freeflow/json.cpp:326-469 | every value that breaks off fails for its reason, at its end |
| JsonBroken.ValueBroken | freeflow/json.cpp:326-469 | every text that fails is a value that breaks off there for that reason |
| JsonBroken.FailsExactlyOnBroken | freeflow/json.cpp:326-469 | an error is reported at a rest if and only if the text is a value broken off before that rest for that reason |
| JsonBroken.LaidOutOrBroken | freeflow/json.cpp:326-469 | every text starts with a layout or with a value that breaks off, and never with both |
| JsonMemory.BufferAllocator.Allocate | freeflow/memory.hpp:131-138 | consecutive ranges are handed out, inside the buffer |
| JsonMemory.ElemsBuiltDenote | freeflow/json.hpp:465-472 | cells linked behind one another in order are the array of their elements in order |
| JsonMemory.MembersBuiltDenote | freeflow/json.hpp:482-489 | cells linked behind one another in order are the object of their pairs in order |
| JsonDocument.SkipSpace | freeflow/json.cpp:281-286 | the cursor stops where the leading space ends |
| JsonDocument.Matches | freeflow/json.cpp:289-297 | one character is consumed if and only if it is the next |
| JsonDocument.ScanClass | freeflow/json.cpp:363-364 | the cursor stops behind the longest run of token characters |
| JsonDocument.ScanQuote | freeflow/json.cpp:382-389 | the loop finds the closing quote, the end of an unterminated string, or steps past the end |
| JsonDocument.Document.constructor | freeflow/json.hpp:390-392 | a document starts without nodes at the allocator's offset |
| JsonDocument.Document.PlacedApart | freeflow/memory.hpp:131-138 | the allocated nodes occupy disjoint ranges inside the buffer |
| JsonDocument.Document.BytesAreRoom | freeflow/json.hpp:381-387 | room for n nodes is 24 bytes for each |
| JsonDocument.Document.MakeTerminal | freeflow/json.hpp:430-448 | a terminal is a new node viewing a range of the text |
| JsonDocument.Document.MakePair | freeflow/json.hpp:451-455 | a pair is a new node pointing at its key and value |
| JsonDocument.Document.MakeCell | freeflow/json.hpp:465-489 | a list cell is a new node, to which the previous cell is linked |
| JsonDocument.Document.ParseIdent | freeflow/json.cpp:359-366 | the node denotes the identifier read; the cursor is behind it |
| JsonDocument.Document.ParseNumber | freeflow/json.cpp:369-376 | the node denotes the number read; the cursor is behind it |
| JsonDocument.Document.ParseString | freeflow/json.cpp:379-392 | the node views the text between the quotes; the cursor and the error are those of the string grammar |
| JsonDocument.Document.ParseKey | freeflow/json.cpp:395-402 | a key is a string with space around it, anything else an ill-formed key, with the cursor past the space in both cases |
| JsonDocument.Document.ParseValue | freeflow/json.cpp:326-356 | cursor, outcome, number of nodes and the tree returned are those of the parse function |
| JsonDocument.Document.ParseBody | freeflow/json.cpp:330-355 | the switch on the first character takes the case the grammar says |
| JsonDocument.Document.AppendElem | freeflow/json.hpp:465-472 | a cell linked behind the last extends the array under construction by one element |
| JsonDocument.Document.AppendMember | freeflow/json.hpp:482-489 | a cell linked behind the last extends the object under construction by one pair |
| JsonDocument.Document.ParseElem | freeflow/json.cpp:428-434 | one turn of the array loop extends the linked list by the element read |
| JsonDocument.Document.ParseElems | freeflow/json.cpp:426-435 | the array loop returns the first cell of a list that denotes the elements in source order |
| JsonDocument.Document.ParseArray | freeflow/json.cpp:416-441 | the array on the heap denotes the array parsed, the empty one being shared; errors leave the cursor where the source does |
| JsonDocument.Document.ParsePair | freeflow/json.cpp:405-413 | the pair on the heap denotes the key and value parsed |
| JsonDocument.Document.ParseMember | freeflow/json.cpp:456-462 | one turn of the object loop extends the linked list by the pair read |
| JsonDocument.Document.ParseMembers | freeflow/json.cpp:454-463 | the object loop returns the first cell of a list that denotes the pairs in source order |
| JsonDocument.Document.ParseObject | freeflow/json.cpp:444-469 | the object on the heap denotes the object parsed, the empty one being shared |
| JsonDocument.Document.Parse | freeflow/json.hpp:492-496 | with room for one node per character left no allocation overruns the buffer, on any text; the node denotes the parsed value, and the nodes of the tree are new, inside the buffer and pairwise disjoint, but for the shared empty values |
| JsonAccess.PrintTerminal | freeflow/json.cpp:168-177 | the characters of the view are appended |
| JsonAccess.PrintString | freeflow/json.cpp:180-186 | the characters of the view are appended between quotes |
| JsonAccess.PrintPair | freeflow/json.cpp:189-195 | key, colon and value are appended |
| JsonAccess.PrintArray | freeflow/json.cpp:198-210 | walking the linked cells prints the array they denote |
| JsonAccess.PrintObject | freeflow/json.cpp:213-225 | walking the linked cells prints the object they denote |
| JsonAccess.PrintValue | freeflow/json.cpp:228-241 | a tree of nodes prints as the value it denotes |
| JsonAccess.Count | freeflow/json.cpp:24-36 | size is the number of elements or pairs denoted |
| JsonAccess.At | freeflow/json.cpp:41-57 | indexing returns the element at that position, and null if and only if the index is outside |
| JsonAccess.Find | freeflow/json.cpp:62-78 | the linear search returns the value of the first pair whose key is a prefix of the query, or null |
| JsonAccess.FindEntry | freeflow/json.hpp:264-269 | a map lookup returns the entry that the index holds for the key, or null |
| JsonAccess.BuildIndex | freeflow/json.cpp:143-156 | walking the object inserts every pair, earlier pairs keeping their keys |
| JsonLookup.ScanIsFirstMatch | freeflow/json.cpp:62-78 | the linear search stops at the first key that matches as coded |
| JsonLookup.ScanIsExactIff | freeflow/json.hpp:95-101 | the linear search finds the documented pair if and only if no key that is a proper prefix of the query stands before the query's first binding |
| JsonLookup.ScanCanMislead | freeflow/json.hpp:95-101 | an object on which the search answers for a wrong key |
| JsonLookup.HeldIsComparable | freeflow/json.hpp:168-184 | the index finds the first entry whose key hashes alike and is a prefix of the query or has it as one; hashing alike is not enough |
| JsonLookup.IndexIsFirstBinding | freeflow/json.cpp:143-156 | the index returns the first binding of every key, duplicates included, where the hash separates comparable keys |
| JsonLookup.IndexIsExactIff | freeflow/json.hpp:168-184 | the index answers all queries as documented if and only if the hash separates each from the keys it is comparable with |
| JsonLookup.IndexKeysApart | freeflow/json.cpp:143-156 | inserting never puts one key into the index twice |
| JsonLookup.IndexAgreesWithScanIff | freeflow/json.cpp:125-156 | whatever the hash, index and linear search find the same pairs for all queries, the keys among them, if and only if for each query the search stops where the index's own comparison would stop first |
| JsonLookup.IndexAgreesWithScan | freeflow/json.cpp:125-156 | with a hash that separates comparable keys, index and linear search find the same pair if and only if no key that is a proper prefix of the query stands before its first binding |
| JsonLookup.IndexAndScanDisagree | freeflow/json.cpp:125-156 | an object on which they disagree, with a hash that tells all keys apart |
| JsonLookup.IndexCanMislead | freeflow/json.hpp:177-184 | a hash that merges a key and its prefix, and an object whose index then answers for the wrong key |
| JsonLookup.CommandReadableIff | freeflow/json.cpp:479-489 | a command parses to the object of its pairs if and only if all keys and values are escaped |
| JsonLookup.MakeCommand | freeflow/json.cpp:479-489 | the loop writes the printed form of the object of its pairs |
| JsonLookup.CommandRoundTrip | freeflow/json.cpp:479-489 | parsing a command of distinct keys and indexing it answers all queries with exactly the items sent, if and only if the hash separates each query from the keys it is comparable with |
| HashSpec.NextPrimeByScan | flowpath/hash.c:26-33 | the first listed prime above the argument, or 0 |
| HashRuns.NextPrimeOf | flowpath/hash.c:10-33 | after each listed prime comes the next of the list, and 0 after the last |
| HashRuns.PrimesAscend | flowpath/hash.c:10-17 | the list increases |
| HashRuns.AdjacentPrimes | flowpath/hash.c:8-17 | each listed prime is about twice the one before, but not always at least twice, as the comment says |
| HashRuns.PrimesFrom53 | flowpath/hash.c:10-17 | the primes up to 1543 follow one another |
| HashRuns.PrimesFrom1543 | flowpath/hash.c:10-17 | the primes from 1543 to 12289 follow one another |
| HashRuns.PrimesFrom12289 | flowpath/hash.c:10-17 | the primes from 12289 to 196613 follow one another |
| HashRuns.PrimesFrom196613 | flowpath/hash.c:10-17 | the primes from 196613 to 3145739 follow one another |
| HashRuns.PrimesFrom3145739 | flowpath/hash.c:10-17 | the primes from 3145739 to 50331653 follow one another |
| HashRuns.PrimesFrom50331653 | flowpath/hash.c:10-17 | the primes from 50331653 to 1610612741 follow one another |
| HashRuns.NoneAbove | flowpath/hash.c:16-32 | there is no next prime exactly from 1610612741 on |
| HashRuns.LoadInReals | flowpath/hash.c:161-263 | both load tests on the quotients of real numbers, with no entries infinite as written |
| HashSpec.PrimesRunOut | flowpath/hash.c:226-272 | the measure on which insert and resize, calling each other, terminate: a larger bucket count leaves fewer primes |
| HashTable.Table.constructor | flowpath/hash.c:135-146 | a new table has empty chains |
| HashTable.Table.Find | flowpath/hash.c:172-186 | the entry found carries the first binding of the key; null if and only if there is none |
| HashTable.Table.Prepend | flowpath/hash.c:266-271 | a new entry is linked at the head of its chain, and the other chains are untouched |
| HashTable.Table.Insert | flowpath/hash.c:257-272 | heap chains after an insertion, including any nesting of resizes, are those of the specification; chains stay acyclic and disjoint |
| HashTable.Table.CopyChain | flowpath/hash.c:237-241 | a chain is re-entered into the new table in order |
| HashTable.Table.CopyInto | flowpath/hash.c:236-242 | all chains are re-entered into the new table, in order |
| HashTable.Table.Resize | flowpath/hash.c:226-250 | rebuilding and adopting the array of the new table gives the specified resize, or nothing when no prime is left |
| HashTable.Table.Adopt | flowpath/hash.c:244-249 | the new array is taken over under the recorded bucket count |
| HashTable.Table.Update | flowpath/hash.c:276-283 | the entry at the head of the chain is overwritten in place |
| HashTable.Table.Remove | flowpath/hash.c:287-314 | the first entry of the key is unlinked and counted off, everything else stays |
| HashTable.Table.UnlinkAfter | flowpath/hash.c:306-310 | stitching around an inner entry leaves the rest of the chain |
| HashTable.Table.UnlinkHead | flowpath/hash.c:308-310 | removing the head leaves the rest of the chain |
| HashLaws.PushBinds | flowpath/hash.c:266-271 | an insertion puts its value in front of those of its key and changes no other key |
| HashLaws.ResizeReverses | flowpath/hash.c:226-250 | a resize that is not interrupted keeps every binding, reversed per key, places every entry in its chain, and adopts an array of the recorded length |
| HashLaws.ResizeKeepsFindIff | flowpath/hash.c:172-250 | under either load test and any hash, such a resize keeps the search answer of a key if and only if its newest and oldest values are the same |
| HashLaws.ResizeDirect | flowpath/hash.c:226-250 | with hashes below the next bucket count a resize keeps the multiset of values of every key through any nesting |
| HashLaws.InsertDirect | flowpath/hash.c:257-272 | likewise an insertion adds one value to its key and nothing else |
| HashLaws.RemoveUnbinds | flowpath/hash.c:287-314 | removal takes away the binding a search would find, and nothing else, keeping the table consistent |
| HashLaws.UpdateIsExactIff | flowpath/hash.c:275-283 | update does what it is documented to do if and only if the chain is empty, the key is at its head, or nothing was to change |
| HashRuns.LoadBound | flowpath/hash.c:161-272 | under both load tests, after every insertion the primes are exhausted or all entries but the last are below the mark; as documented the bucket count grows at the mark and the array has that length, as written it grows on every insertion |
| HashRuns.InsertDocumented | flowpath/hash.c:226-272 | with the documented load a resize is never interrupted by another |
| HashRuns.InsertKeepsReady | flowpath/hash.c:257-272 | under either load test an insertion keeps what the run theorem needs and adds exactly one binding |
| HashRuns.RunAgrees | flowpath/hash.c:172-314 | over every run with distinct live keys the table agrees with the map: answers and size |
| HashRuns.DocumentedTableIsAMap | flowpath/hash.c:161-272 | with the documented load every table is a map over every run, for every hash function and bucket count |
| HashRuns.WrittenTableIsAMap | flowpath/hash.c:165-272 | with the load as written so is every table whose keys hash below a safe bound |
| HashRuns.WrittenTableLosesAKey | flowpath/hash.c:165-250 | otherwise two insertions lose the first key |
| HashRuns.WrittenTableIsAMapIff | flowpath/hash.c:165-272 | a table of unsigned keys as written is a map for all keys below a bound if and only if the bound is safe |
| HashRuns.PortTableBound | flowpath/dataplane.c:96 | for the 17 buckets of a port table the safe bounds are those up to 97 |
| HashExact.ResizeRecordsLengthIff | flowpath/hash.c:244-249 | the bucket count recorded by a resize is the length of the adopted array if and only if the new table is not resized while it is filled |
| HashExact.ResizeDropsBeyond | flowpath/hash.c:236-249 | entries beyond the recorded bucket count are dropped by the next resize that is not interrupted, while the size still counts them |
| HashExact.ResizeKeepsValuesIff | flowpath/hash.c:165-250 | every table of that many buckets with unsigned keys below a bound keeps the values of every key through a resize as written if and only if the bound is at most the next prime, or the primes end by then |
| HashExact.ResizeLosesAnEntry | flowpath/hash.c:165-250 | otherwise a table of one entry loses it |
| HashExact.InsertAddsIff | flowpath/hash.c:257-272 | under the same condition, and no other, every insertion adds its binding and changes nothing else |
| HashExact.ResizeKeepsSingleAnswersIff | flowpath/hash.c:172-250 | every table of that many buckets with unsigned keys below a bound and at most one value per key keeps every search answer through a resize as written if and only if the bound is at most the next prime, or the primes end by then |
| HashExact.ResizeKeepsAnswersIff | flowpath/hash.c:172-250 | with any number of values per key, if and only if there is no next prime or no key |
| HashLaws.InsertFinds | flowpath/hash.c:257-272 | what was inserted last is found, whatever resizes its insertion set off |
| HashExact.UpdateMisses | flowpath/hash.c:275-283 | a run of the port table after which updating the older of two keys in a chain writes to the younger |
| HashExact.RehashBringsBackTheOlder | flowpath/hash.c:226-272 | a run of the port table on which putting another key changes the answer for a key put twice |
| FifoRing.Ring.constructor | flowpath/util.c:8-16 | a new ring is empty |
| FifoRing.Ring.Reset | flowpath/util.c:28-32 | resetting empties the ring |
| FifoRing.Ring.Count | flowpath/util.c:146-155 | the number of queued items, at every head and tail |
| FifoRing.Ring.Free | flowpath/util.c:159-166 | the number of unused slots, the reserved one included |
| FifoRing.Ring.Push | flowpath/util.c:36-49 | a push appends unless only the reserved slot is free, and reports which |
| FifoRing.Ring.PushN | flowpath/util.c:53-65 | a batch appends its first items, as many as fit, wrapping around |
| FifoRing.Ring.Pop | flowpath/util.c:71-82 | a pop takes the oldest item, or null when empty |
| FifoRing.Ring.PopN | flowpath/util.c:86-98 | a batch pop takes the oldest items in order, as many as there are |
| FifoRing.Ring.Top | flowpath/util.c:103-108 | the oldest item, or null when empty |
| FifoRing.Ring.TopN | flowpath/util.c:114-127 | the oldest items in order, without removing them |
| FifoRing.Ring.RemoveN | flowpath/util.c:132-142 | the oldest items are dropped, as many as there are; a negative count moves the head back, and the ring stays valid if and only if the head stays in the array |
| FifoRing.PushManyIsPushes | flowpath/util.c:52-65 | a batch push is as many single pushes, cut off at the capacity |
| FifoRing.PopManyIsPops | flowpath/util.c:85-98 | a batch pop is as many single pops, cut off at the count |
| FifoRing.TopThenRemove | flowpath/util.c:111-142 | looking at n items and removing as many as were seen is popping n |
| FifoRing.Ring.ItemAt | flowpath/util.h:25-39 | where the j-th queued item lies in the circular array |
| NadkQueues.BatchFitsIff | flowpath/port_nadk.c:411-471 | a batch is queued whole if and only if that many of the 31 usable slots are free |
| NadkQueues.CreatedFrames | flowpath/port_nadk.c:464-469 | each record made holds its frame: data, length as size, timestamp, handle, and the card as device |
| NadkQueues.AcceptedIs | flowpath/port_nadk.c:525-564 | of the oldest 16 packets the card takes what it accepts before the first that is not in a card buffer and gets none |
| NadkQueues.OwnBuffersSuffice | flowpath/port_nadk.c:526-529 | of packets that came from the card it takes what it accepts, whatever buffers can be made |
| NadkQueues.PreparedGoesOut | flowpath/port_nadk.c:526-555 | what goes out is the packet's own buffer if it has one of the card's, and the new one otherwise |
| NadkQueues.RefillConserves | flowpath/port_nadk.c:450-472 | a refill below the budget of 16 loses no frame: handed over = returned followed by queued |
| NadkQueues.RxStepConserves | flowpath/port_nadk.c:498-510 | every receive call keeps the receiving side conserved |
| NadkQueues.ReceiveConservation | flowpath/port_nadk.c:450-510 | over every run the packets handed over are those returned followed by those queued, in order, and every record is queued or held by a caller, never both |
| NadkQueues.TransmitConserves | flowpath/port_nadk.c:517-627 | every send call keeps the sending side conserved |
| NadkQueues.TransmitConservation | flowpath/port_nadk.c:517-627 | over every run, whatever the card accepts and whichever buffers fail, the packets accepted are those sent followed by those queued, in order, and the records deleted are exactly those sent |
| NadkRuns.ReceiveConserves | flowpath/port_nadk.c:450-510 | a receive call keeps both sides of a port conserved: what is queued for sending stays in memory as it was |
| NadkRuns.SendConserves | flowpath/port_nadk.c:517-627 | a send call keeps both sides conserved: no record queued for receiving is deleted or changed |
| NadkRuns.AcceptedBelow31 | flowpath/port_nadk.c:615-620 | a packet is accepted if and only if fewer than 31 are queued |
| NadkTrace.FramesComeThrough | flowpath/port_nadk.c:450-510 | over every run of an open port the packets returned, followed by those queued, are the frames handed over, in order and field by field |
| NadkTrace.ForwardedInItsOwnBuffer | flowpath/port_nadk.c:450-627 | over every run a packet that came in as a frame and was sent went out with the frame's data in the frame's own buffer |
| NadkRuns.PortConservation | flowpath/port_nadk.c:386-627 | over every run of an open port, calls interleaved in any way, both sides conserve their packets in order, and every record is held by a caller or queued on one ring, in one place only; at most 31 are queued on each |
| NadkDevice.NadkPort.constructor | flowpath/port_nadk.c:411-426 | an opened port has two empty rings of 32 slots |
| NadkDevice.NadkPort.CreatePackets | flowpath/port_nadk.c:464-469 | one record is made per frame, field by field |
| NadkDevice.NadkPort.RecvBatch | flowpath/port_nadk.c:450-472 | the frames handed over are put in records field by field and queued in order, as many as fit in 31, and counted |
| NadkDevice.NadkPort.Recv | flowpath/port_nadk.c:498-510 | with fewer than 16 queued the frames are put in records field by field; the oldest packet is returned, or the first frame of an empty queue, or null |
| NadkDevice.NadkPort.Prepare | flowpath/port_nadk.c:526-551 | packets of the card get their own buffers, others the new ones, up to the first that gets none |
| NadkDevice.NadkPort.DeletePackets | flowpath/port_nadk.c:560-562 | exactly the given records are deleted |
| NadkDevice.NadkPort.SendBatch | flowpath/port_nadk.c:517-565 | the packets the card takes are deleted and leave the queue; the buffers that go out are the packets' own or the new ones, in order, as many as the card accepts; a negative answer to an offer moves the head back |
| NadkDevice.NadkPort.Discard | flowpath/port_nadk.c:560-563 | the packets taken leave memory and queue, and no others |
| NadkDevice.NadkPort.Send | flowpath/port_nadk.c:614-627 | the packet is queued unless the ring is full, and a batch is offered once 16 are queued; a negative answer moves the head back |
| Dataplane.WireEnds.constructor | flowpath/pipelines/wire/wire.c:79-88 | a loaded wire has two free ends |
| Dataplane.WireEnds.AddPort | flowpath/pipelines/wire/wire.c:110-121 | the port takes the first free end and the other stays; with none free both stay and the call reports an error |
| Dataplane.WireEnds.DelPort | flowpath/pipelines/wire/wire.c:126-137 | the first end the port holds is freed and the other stays; if it holds none both stay and the call reports an error |
| Dataplane.WireEnds.Route | flowpath/pipelines/wire/wire.c:34-48 | the output port is the other end; drop and error if and only if an end is free |
| Dataplane.Dataplane.constructor | flowpath/dataplane.c:95-99 | a new plane has an empty port table and an empty wire |
| Dataplane.Dataplane.AddPort | flowpath/dataplane.c:145-156 | the table learns of the port, the wire attaches it if it can |
| Dataplane.Dataplane.RemovePort | flowpath/dataplane.c:164-174 | the wire lets the port go; the table forgets it only under the documented test |
| Dataplane.Dataplane.GetPort | flowpath/dataplane.c:190-199 | the port the table maps the id to, or null |
| Dataplane.Dataplane.InsertPacket | flowpath/pipelines/wire/wire.c:167-175 | a packet goes out once, on the port its route maps to, and the plane is unchanged |
| WireSpec.RemovedPort | flowpath/dataplane.c:164-174 | as written a removal changes no answer, so a port is absent afterwards if and only if it was unknown before; as documented also if it was on the wire and had been added once |
| WireSpec.AttachTakesFirstFree | flowpath/pipelines/wire/wire.c:107-121 | a port takes the first free end; the other end, and a full wire, stay as they are |
| WireSpec.DetachFreesFirstHeld | flowpath/pipelines/wire/wire.c:124-137 | the first end the port holds becomes free and everything else stays |
| WireSpec.EndsAreAttached | flowpath/pipelines/wire/wire.c:110-137 | over every run the ends are exactly the accepted additions not yet removed |
| WireSpec.RefusedChangesNothing | flowpath/dataplane.c:145-156 | a port refused by a full wire changes neither the wire nor where any packet goes |
| WireSpec.BackInPlace | flowpath/dataplane.c:145-174 | taking a port off a full wire and adding it back restores the wire, which delivers as before |
| WireSpec.UnknownMayBeAdded | flowpath/port.h:43 | a port with an unknown id is fit for the run theorems if and only if its id is below the bound and at most the largest allowed |
| WireSpec.RemovedMayReturn | flowpath/dataplane.c:145-174 | a port taken off the wire may always be added again |
| WireSpec.AddTwiceIff | flowpath/pipelines/wire/wire.c:110-121 | adding a port that is on the wire leaves a wire that delivers if and only if the wire was full |
| WireSpec.AddedTwice | flowpath/pipelines/wire/wire.c:110-121 | a port added twice to a new plane holds both ends, and nothing is delivered to another port |
| WireSpec.RemovedIsStillThere | flowpath/dataplane.c:164-174 | as written a port that was added and removed is still looked up, on every plane |
| WireSpec.CarefulNeverLoops | flowpath/pipelines/wire/wire.c:110-137 | runs that add no port while it holds one end and the other is free never leave a port at both ends |
| WireSpec.DeliversIff | flowpath/pipelines/wire/wire.c:27-73 | a consistent plane delivers if and only if no port holds both ends |
| WireSpec.StepConsistent | flowpath/dataplane.c:145-174 | adding and removing keep each end of the wire the port that the table knows under its id |
| WireSpec.ConsistentDelivers | flowpath/pipelines/wire/wire.c:27-73 | a packet is output if and only if both ends are attached; unless one port holds both, it leaves on the other end, and sent back it returns |
| WireSpec.WireDelivery | flowpath/pipelines/wire/wire.c:34-73 | over every run of additions and removals, re-additions included, the wire delivers if and only if no port holds both ends, with the documented load test or with port ids below 97 |
| WireSpec.WireLosesAPort | flowpath/dataplane.c:95-96 | with the load test as written a full wire between ports 97 and 0 loses packets |
| WireSpec.WireDeliveryIff | flowpath/dataplane.c:96-199 | with the load test as written, wires between ports with ids below a bound always deliver, but for a port at both ends, if and only if the bound is at most 97 |
| Registry.Registry.constructor | flowpath/dataplane.c:10-14 | no planes at the start |
| Registry.Registry.Allocate | flowpath/dataplane.c:19-31 | a new plane takes the first empty slot, which becomes its id; null if and only if all 64 are taken |
| Registry.Registry.Find | flowpath/dataplane.c:46-55 | the plane of that name, or null if and only if there is none |
| Registry.Registry.Create | flowpath/dataplane.c:66-105 | a known name, a full table and a pipeline that does not load are reported in this order; a creation that fails changes no slot, another takes the first empty one |
| Registry.Registry.Delete | flowpath/dataplane.c:117-132 | the plane's slot is emptied and no other changes |
| RegistrySpec.CreateRefines | flowpath/dataplane.c:66-105 | creating succeeds if and only if the name is new, fewer than 64 planes exist and the pipeline loads; it then binds the name to the least free slot, and otherwise changes nothing and reports a known name, else the limit, else the pipeline |
| RegistrySpec.DeleteRefines | flowpath/dataplane.c:117-132 | deleting removes the name of that slot from the map |
| RegistrySpec.RegistryIsANameMap | flowpath/dataplane.c:19-140 | over every run names are distinct, at most 64 planes exist, and lookup is the name map's |

## Left out

- Sockets, poll loops, signals and the command lines of flowctl and flowmgr: input and output.
- NADK initialisation, loopback and single-packet calls, and the netmap, pcap and UDP ports: foreign calls.
- Packet payload memory on the transmit path: only the ownership of packet records is modelled, not the data segment released at `flowpath/port_nadk.c:548` nor the mbuf freed at line 545.
- The sequential allocator of `freeflow/memory.cpp`, and the alignment of nodes: the buffer allocator is the one modelled.
- `Document::parse` over whole strings (`freeflow/json.hpp:499-513`) and `make_array`: thin wrappers and a printer like the one modelled.
- Machine integers: sizes, counts and the `int` chain index are unbounded, and hashes are natural numbers of any size. Failing allocations outside the send path are not modelled.
- Mixing quality of the string hash, and floating point: the load test is multiplied out to `4 * size` against `3 * buckets`.
- `fp_dataplane_start`, `stop` and `list_ports`, `wire_start` and `wire_stop`, flow tables and tries: unfinished or stubs.
- Port id allocation (`flowpath/port.c`) never records an id; distinct ids are a premise of the wire theorems.
- Text is a sequence of characters: embedded NULs, which end a `strncmp` early, and the signedness of `char` in `isspace` are not modelled; character classes are those of the "C" locale.
- JsonParser.ParseValue: `PastEnd` stands for the undefined behaviour of reading beyond the end of the text; what the source does there is not modelled.
- JsonAccess.FindEntry: the index is a sequence of entries searched in insertion order; the bucket structure of `std::unordered_map` is not part of this model.
- JsonLookup.IndexIsFirstBinding: holds where the hash separates comparable keys, which `JsonLookup.IndexIsExactIff` shows to be necessary.
- JsonLookup.CommandRoundTrip: the keys and values are escaped, which `JsonLookup.CommandReadableIff` shows to be necessary.
- HashLaws.ResizeDirect: a sufficient condition on the hashes of one table. Some tables with larger hashes keep their keys too; `HashExact.ResizeKeepsValuesIff` is exact over all tables of a bucket count.
- HashLaws.ResizeReverses: for a resize not interrupted by one of the new table, which `HashExact.ResizeRecordsLengthIff` makes exact for the array length.
- HashLaws.ResizeKeepsFindIff: for one table and one key, through a resize that is not interrupted. Interrupted ones are covered over all tables of a bucket count by `HashExact.ResizeKeepsSingleAnswersIff` and `HashExact.ResizeKeepsAnswersIff`.
- NadkDevice.NadkPort.RecvBatch: more frames than the budget, on which the source logs an error, would overrun its local arrays; that is not modelled.
- NadkQueues.TransmitConservation, NadkRuns.PortConservation: the card accepts between none and all of what it is offered; after a negative answer, which `NadkDevice.NadkPort.Send` models, the ring holds what it should not.
- WireSpec.WireDelivery: a port is not added under an id that the table knows as another port's or that is reserved.
- Registry.Registry.Create: the name is kept as a value, where the source keeps the caller's pointer; the deletion of unset tables after a failed load is taken as one of null tables.
- Dataplane.Dataplane.InsertPacket: what the output function does with a null port is not modelled.
