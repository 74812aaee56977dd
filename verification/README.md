# Verified model of the dynamic upstream module

nginx-dynamic-upstreams lets a client list, add, delete and edit the servers of
an nginx upstream by sending JSON requests. This project models its two cores
in Dafny, in the form the C code has, and proves what they promise.

**The JSON engine** (`cJSON.c`). The values are trees of null, booleans, 32-bit
numbers, byte strings, arrays and objects. `Values` says what text a value is
printed as, in both layouts, and `Grammar` what text is accepted, for every text
and start index. The imperative code is proved against these:

* `Utf`, `Literals`: string literals, in both directions, on byte buffers.
* `Trees`, `Linking`: the C nodes with `next`, `prev` and `child`, and a ghost
  tree that describes them. A `Library` keeps the set of blocks that have been
  allocated and not freed, so that freeing twice is impossible and leaks show.
* `Parser`, `Printer` (with `Printing`): the recursive parser that fills nodes,
  and the printer that counts in one pass and writes in a second.
* `Deletion`, `Duplication`, `ListOps`, `ListRuns`, `SharedChains`: recursive delete,
  deep copy, references, append, detach and replace, whole runs of them on nodes, and
  what such a run does to another holder of the same chain.
* `Minifier`: squeezing a text in place.
* `RoundTrip`, `MinifyLaws`, `MinifyMeaning`, `MinifyTwice`: the laws that span parser,
  printer and minifier, and `Compositions`: methods that carry them from texts and
  values to the code on nodes and buffers.
* `Pieces`: what minifying takes out, as a grammar of blanks, comments, literals and
  other bytes.
* `Syntax`: a grammar of JSON texts that mentions no parser, with the texts that the
  code takes and, among them, those that conform to RFC 8259. `Derivations`,
  `SyntaxLaws` and `Conformance` prove that it is exactly the language of the parser,
  `ErrorPositions` where the parser reports an error, `Rfc8259` and `RfcValues` compare
  the language with the RFC, and `PrintedConforms` says when a printed text conforms.
* `Shortest`, `Layout`: the two layouts of the printer, the compact one as the shortest
  text of its value and the formatted one as the compact one with blanks put in.

**The registry** (`add.c`, `del.c`, `mdf.c`, `lst.c`). `Upstreams` says on values
what every request makes of the groups of servers, including allocations that fail at
any point: the allocator answers as an arbitrary sequence of answers says.
`UpstreamLaws`, `RegistryLaws` and `RequestLaws` prove the laws over these values,
`Effects` says what a call does to the servers in terms of the fields of its entry
alone, `Tallies` what the calls of a request come to, and `Reports` when the counters
of a reply can be relied on. `Peers` and
`Registry` have the C structures, with a set of live blocks for the slab of the
shared memory zones, and `Adding`, `Removing`, `Editing`, `Listing` and `Requests`
the methods that work on them, each proved to do exactly what the functions of
`Upstreams` say. What all of them keep is `UpstreamTable.Valid`: every list is an
acyclic chain, the cached fields agree with it, no two upstreams and no two peers
share a block, and the live blocks of the slab are exactly those of the linked peers
and groups and those that have been leaked. What is leaked is exact as well: an add leaks
one to three new blocks if it reports that an allocation for a peer failed behind the
first one, and nothing otherwise; a delete only frees, and an edit leaves the blocks alone.
So a request leaks at most three blocks for each entry that it counts as failed. The
http and the stream half of the C code are copies of each other, so there is one table
class with two instances in `Requests.Service`. `Scenarios` has sequences of calls on
the code, in general and on a small table.

## What was found

* A delete by server can leave one matching server behind: when the head of the
  list goes, its successor becomes the head without being tested.
  `DeleteOutcome` gives the exact result, `OneDeleteLeavesAMatch` shows it on three
  servers, `OneDeleteSettles` says exactly when one delete is not enough, and
  `TwoDeletesSettle` that two always are.
* The reported `success` of a request that adds or deletes is never more than what it
  added or removed, and it is exactly that if and only if each of its calls reports what
  it does (`SuccessIsExact`). On any table, whether a call does so shows before the call:
  * an add does if and only if the memory suffices for everything that the selected
    upstreams need, records of missing backup groups included, or not even for the first
    peer of the first selected upstream (`AddReportsExactly`). Otherwise peers stay that no
    reply mentions (`RefusalHidesServers`, `MissingGroupHidesServers`, `SharedNameHidesAdds`);
  * a delete does if and only if no upstream loses servers before another one ends the
    call because its last server matches (`DeleteReportsExactly`). So a delete can only be
    misreported when two upstreams with a zone have the same name (`SharedNameHidesDeletes`).
    Nothing in the modelled sources shows that this can happen, and nothing rules it out:
    every loop goes over all upstreams and does not stop at the first of the name.
* Where a text is rejected, what precedes the reported position is the beginning of a text of the
  grammar, and nothing longer is; only a misspelled `null`, `false` or `true` is reported at its
  first letter (`ErrorPosition`, and `ParseOrLocate` for the code).
* No conforming text of a value is shorter than the one that is printed for it in the compact
  layout, and none that is as short is another one, but for the case of hexadecimal digits
  (`CompactIsShortest`). The formatted text is this one with a line for each entry of an object and
  a tab for each container it is in (`FormattedIsPretty`); the closing brace of an empty object
  is indented by one tab less than that of any other object.
* Minifying leaves just the literals and what is no blank and no comment, on every text that it can
  squeeze (`MinifyExactly`). `/*/` is a whole comment.
* Minifying keeps the meaning of every text that is accepted as a whole, and is idempotent
  on it (`AcceptedIsSettled`). On an arbitrary text that it can squeeze, a second pass
  changes nothing if and only if no slash that is kept comes to stand before another slash
  or a star (`MinifyTwiceIff`); `/ /` is a text where it does (`MinifyIsNotIdempotent`).
* Of the texts that are modelled (see "Left out" for numbers and literals), the parser accepts
  exactly those of the grammar in `Syntax` (`AcceptedExactly`), each of which can be made up in
  one way only (`Unambiguous`), and reads them for the value that the grammar gives
  (`TextSpelled`, `TextDerived`). Every text that conforms to RFC 8259, with integers of 32 bits,
  is among them (`ConformingIsAccepted`). Where its surrogates come in pairs,
  it is read for the value that it is meant to have, if and only if no string in it contains
  `\u0000`, which the parser drops (`ConformingText`, `ZeroIsDropped`).
* An accepted text conforms if and only if what is read off of it meets the rules of the RFC for
  blanks, numbers, characters and escapes (`ConformsExactly`). What is accepted besides: a sign
  without digits, for zero (`LoneSign`); one leading zero (`LeadingZero`); any control character
  for a blank (`ControlBlank`); control characters in strings (`ControlInString`), bytes that are
  no UTF-8 (`NoUtf8InString`), and a backslash in front of any character (`UnknownEscape`).
* What is printed conforms if and only if the strings and keys are in UTF-8 (`RenderConforms`).
* A delete is about servers that are not down, unless its entry says that they are
  (`DeleteEffect`). An edit is about both (`EditEffect`).
* A negative `max_conns` or `max_fails` is the default for an add, and a number near 2^64 for an
  edit, whose variables are unsigned (`NegativeLimits`). For all other entries, and for no such
  entry, an edit with the entry of an add changes nothing (`NewServer`).
* List operations through a reference made by `create_reference` can leave the original
  with the wrong children, because both hold the chain by a `child` pointer of their own.
  Detaching the first child leaves the original with just that one
  (`DetachThroughReference`), and replacing it leaves the original with a pointer to a node
  that has been freed (`ReplaceThroughReference`). One operation does no harm if and only
  if it takes no branch that assigns to `child` (`StepSparesHead`). A run does none if and
  only if the old head, whose position is followed through the run by positions and lengths
  alone, ends in front (`RunSparesHead`, `PerformShared`); it may be taken out and come back
  in between (`HeadComesBack`).

## Model

| member | source | states |
|---|---|---|
| Utf.DigitIsItsPlace | cJSON.c:118-129 | the digits in their order, in lower case when printed, in both cases when read |
| Utf.UnitFromDigits | cJSON.c:118-129 | a unit is read from its four digits, the most significant one first |
| Utf.ParseHex4 | cJSON.c:118-129 | four hexadecimal digits give their 16-bit unit; the loop gives up with 0 exactly when one is no digit |
| Utf.PairIsInverse | cJSON.c:160-167 | combining a surrogate pair inverts the encoding of section 2.1 of RFC 2781, on exactly the code points above the basic plane |
| Utf.EncodeIsWellFormed | cJSON.c:170-178 | what is written for a scalar value is one well-formed character of RFC 3629 and decodes to that value |
| Utf.WellFormedIsEncode | cJSON.c:170-178 | conversely, every well-formed character is what is written for the value it decodes to |
| Utf.EncodeIsShortest | cJSON.c:170-178 | no sequence of lead and continuation bytes that denotes the value is shorter |
| Utf.WriteUtf8 | cJSON.c:170-178 | the backward, falling-through writes put exactly that encoding into the buffer and touch nothing before it |
| Utf.ContinuationBits | cJSON.c:173-175 | the masks and shifts are the arithmetic used in the encoding |
| Utf.LeadBits | cJSON.c:132-176 | the same for the marks of the first byte |
| Utf.PairBits | cJSON.c:167-167 | the same for the pair |
| Literals.PassesAgree | cJSON.c:138-185 | for every closed literal with well-formed escapes, the counting pass ends at the same quote as the decoding pass and counts at least what is decoded |
| Literals.MeasureLiteral | cJSON.c:138-138 | the counting loop |
| Literals.DecodeLiteral | cJSON.c:138-189 | count, allocate, decode: the buffer holds the decoded text, and never overflows |
| Literals.DecodeUnit | cJSON.c:157-179 | a unit escape: zero units, lone low surrogates and broken pairs are dropped, all others become UTF-8 |
| Literals.TextNulFree | cJSON.c:144-185 | no decoded string contains a terminator |
| Literals.LexEscaped | cJSON.c:193-226 | the printed escapes of any NUL-free string, inside any text, are read back as that string |
| Literals.QuoteRoundTrip | cJSON.c:133-226 | print_string_ptr and then parse_string is the identity on NUL-free strings |
| Literals.MeasureString | cJSON.c:198-198 | the counting loop of the printer |
| Literals.PrintString | cJSON.c:193-226 | the literal of the string fills the allocated buffer to the last byte |
| Grammar.ReadValue | cJSON.c:265-277 | what a value is read as; success consumes at least one byte and stays inside the text, failure points into the text, and `ErrorPositions.ErrorPosition` says where |
| Grammar.ReadText | cJSON.c:242-256 | the same for a whole text, with or without the check for trailing bytes |
| Grammar.ReadValueIsValid | cJSON.c:265-277 | everything read has 32-bit numbers and NUL-free strings and keys |
| RoundTrip.ReadRendered | cJSON.c:265-487 | a value printed in either layout at any depth, anywhere in a text, is read back as that value, up to exactly its end |
| RoundTrip.ParsePrint | cJSON.c:242-487 | parsing what was printed gives the value that was printed |
| RoundTrip.PrintIsInjective | cJSON.c:280-487 | values that print alike, in whichever layouts and depths, are equal |
| RoundTrip.NormalForm | cJSON.c:242-487 | on values: for every accepted text, the printed form of what is read is accepted and reprints to itself; `Compositions.ReprintTwice` has it for the code |
| Derivations.NumberRead | cJSON.c:74-94 | a sign, a zero, and digits that do not start with a zero, each optional but not all missing: read as one number, up to its end, in whatever text, unless a fraction or an exponent follows or it takes more than 32 bits |
| SyntaxLaws.PhraseSpelled | cJSON.c:265-417 | every phrase of the grammar, anywhere in a text and before anything that can stand behind it, is read up to exactly its end for the value that the grammar gives, and can be read off the text again |
| SyntaxLaws.TextSpelled | cJSON.c:242-256 | the same for whole texts, with the blanks around the value |
| SyntaxLaws.ValueInFront | cJSON.c:242-256 | without the check for trailing bytes, a value is read up to its end, whatever follows |
| Conformance.TextDerived | cJSON.c:242-417 | conversely, every text that is accepted as a whole is made up according to the grammar, and was read for the value that the grammar gives |
| Conformance.AcceptedExactly | cJSON.c:242-417 | so a text is accepted as a whole if and only if it is a text of the grammar |
| Conformance.Unambiguous | cJSON.c:242-417 | no text can be made up in two ways |
| ErrorPositions.ErrorPosition | cJSON.c:242-417 | where a text is rejected: what precedes the position begins some text of the grammar, and nothing longer does, unless a misspelled word starts there |
| Rfc8259.WordsRead | cJSON.c:268-270 | the three words |
| Rfc8259.ConformingIsAccepted | cJSON.c:242-417 | every text that conforms to RFC 8259 is accepted as a whole |
| Rfc8259.ConformsExactly | cJSON.c:242-417 | a text conforms if and only if it is accepted and what is read off of it meets the rules of the RFC |
| Rfc8259.LoneSign | cJSON.c:74-94 | accepted besides: a sign without digits |
| Rfc8259.LeadingZero | cJSON.c:79-80 | accepted besides: a leading zero in front of any other digits |
| Rfc8259.ControlBlank | cJSON.c:239-239 | accepted besides: any control character for a blank |
| Rfc8259.ControlInString | cJSON.c:144-148 | accepted besides: any control character in a string |
| Rfc8259.NoUtf8InString | cJSON.c:144-148 | accepted besides: any byte in a string that is no UTF-8 |
| Rfc8259.UnknownEscape | cJSON.c:180-182 | accepted besides: a backslash in front of any character that has no escape |
| RfcValues.StringAsMeant | cJSON.c:144-185 | a literal whose surrogates come in pairs is read for the characters that section 7 of RFC 8259 gives it, if and only if it does not contain `\u0000` |
| RfcValues.StringCleaned | cJSON.c:144-185 | every literal, its surrogates paired or not, is read for the characters of what is left when the units that are no characters are dropped |
| RfcValues.ConformingText | cJSON.c:133-417 | the same for the values of whole conforming texts |
| RfcValues.ZeroIsDropped | cJSON.c:160-161 | a conforming text that is read for another value |
| PrintedConforms.RenderConforms | cJSON.c:193-487 | the text of a value, in either layout and at any depth, conforms to RFC 8259 if and only if the strings and keys are in UTF-8 |
| Shortest.CompactIsShortest | cJSON.c:96-487 | of all conforming texts that are read for a value none is shorter than its compact text, and one that is as short and has no digit in upper case is that text |
| Layout.FormattedIsPretty | cJSON.c:326-487 | the formatted text is the compact one with these blanks put in: a space behind the comma of an array, a tab behind a colon, and for each entry and the closing brace of an object a new line with its tabs |
| Parser.SkipBlanks | cJSON.c:239-239 | stops at the first byte that is no blank |
| Parser.ParseNumber | cJSON.c:74-94 | the accumulated digits and the sign give the number, the end is behind the last digit |
| Parser.ParseString | cJSON.c:133-190 | the node gets the decoded string; without a quote, the error pointer is set and nothing changes |
| Parser.ParseValue | cJSON.c:265-277 | the node becomes a tree of new blocks, all accounted for, that stands for the value read; end and error pointer are those of the grammar |
| Parser.ParseArray | cJSON.c:298-323 | the same for an array, whose children form a doubly linked chain |
| Parser.ParseItems | cJSON.c:306-322 | the loop over the entries of an array |
| Parser.ParseObject | cJSON.c:384-417 | the same for an object |
| Parser.ParseKey | cJSON.c:395-398 | a key is read as the value of a new child and moved to its name |
| Parser.ParseMembers | cJSON.c:393-416 | the loop over the entries of an object |
| Parser.ParseWithOpts | cJSON.c:242-256 | success gives a well-formed tree of new blocks for the value read, which can be printed: no string and no key is missing; failure leaves no block behind and points into the text |
| Printer.PrintValue | cJSON.c:280-295 | the buffer holds the text of the tree |
| Printer.PrintNumber | cJSON.c:96-104 | a 32-bit number fits the buffer of 21 bytes |
| Printer.PrintArray | cJSON.c:326-381 | never writes past the computed length, and a non-empty array leaves exactly 3 + n bytes of it unused, 4 + n when formatted |
| Printer.PrintObject | cJSON.c:420-487 | never writes past the computed length, and a non-empty object leaves exactly 5 bytes of it unused |
| Printer.EmptyObject | cJSON.c:429-439 | an empty object fits its own buffer |
| Printer.Print | cJSON.c:261-261 | the formatted text of the tree |
| Printer.PrintUnformatted | cJSON.c:262-262 | the compact text of the tree |
| Minifier.MinifyInPlace | cJSON.c:568-583 | what is left in the buffer is the squeezed text, comments gone too; the writing index never passes the reading index |
| Minifier.CopyLiteral | cJSON.c:580-580 | a literal is copied as a unit, escaped quotes included |
| Minifier.MinifyNulFree | cJSON.c:568-583 | the squeezed text has no terminator in it |
| Pieces.MinifyExactly | cJSON.c:568-583 | a text can be squeezed if and only if it is made of blanks, closed comments, closed literals and other bytes, and what is left are the literals and the other bytes, in their order |
| MinifyLaws.MinifyRendered | cJSON.c:326-583 | a value printed in either layout, at any depth and inside any text, is squeezed to its compact text |
| MinifyLaws.CompactAtAnyDepth | cJSON.c:326-487 | the compact layout does not depend on the depth |
| MinifyLaws.MinifyPrint | cJSON.c:261-583 | minifying the formatted text gives the compact text, and the compact text is a fixed point |
| MinifyMeaning.MinifyKeepsMeaning | cJSON.c:242-583 | every text that is accepted as a whole minifies, and the result is accepted as a whole for the same value |
| MinifyTwice.MinifyTwiceIff | cJSON.c:568-583 | for every text that can be squeezed, a second pass changes nothing if and only if no kept slash has a slash or a star as the next kept byte |
| MinifyTwice.AcceptedIsSettled | cJSON.c:242-583 | minifying is idempotent on every text that is accepted as a whole |
| MinifyTwice.MinifyIsNotIdempotent | cJSON.c:571-577 | a text with such a slash, for which the second pass gives another result |
| Compositions.Reprint | cJSON.c:59-487 | parsing a text, printing the tree and deleting it: the text of the value that was read, in either layout, and no block left |
| Compositions.ReprintTwice | cJSON.c:59-487 | the printed text is accepted as a whole and, parsed and printed again, comes out the same: the normal form, of the code |
| Compositions.PrintAndParse | cJSON.c:242-487 | printing any tree in either layout and parsing the text gives a new tree for the same value, and no other block is left |
| Compositions.ParseConforming | cJSON.c:242-417 | parsing any conforming text gives a new tree that stands for the value of its grammar, and no other block is left |
| Compositions.ParseOrLocate | cJSON.c:242-256 | parsing any text gives a tree, or an error pointer behind the longest part that begins a text of the grammar or at a misspelled word |
| Compositions.PrintCopy | cJSON.c:59-566 | a copy prints the text of the original, and deleting it leaves the blocks there were |
| Compositions.PrintAndMinify | cJSON.c:261-583 | minifying what cJSON_Print printed leaves what cJSON_PrintUnformatted prints |
| Deletion.Delete | cJSON.c:59-71 | frees every block the chain owns, each once, and no other: nothing behind a reference |
| Deletion.DeleteNode | cJSON.c:62-70 | one node after what it owns |
| Duplication.Duplicate | cJSON.c:541-566 | a tree of new blocks with the same content, no reference flags, correct links, that owns all its blocks |
| Duplication.CopyDenotes | cJSON.c:541-566 | a copy stands for the same value, so it prints alike |
| Duplication.CopyPrintable | cJSON.c:541-566 | a copy can be printed if the original can |
| Duplication.DuplicateAndDelete | cJSON.c:59-566 | deleting a copy leaves exactly the blocks there were before copying |
| Duplication.CreateReference | cJSON.c:497-497 | a node that shares the string and the children and owns only itself |
| Duplication.ReferenceAndDelete | cJSON.c:59-497 | deleting a reference frees its node only |
| ListOps.GetArraySize | cJSON.c:490-490 | the number of children |
| ListOps.GetArrayItem | cJSON.c:491-491 | the child at a position; a negative position means the first |
| ListOps.AddItemToArray | cJSON.c:495-500 | refines append |
| ListOps.DetachItemFromArray | cJSON.c:505-513 | refines removal at a position; the node keeps no links |
| ListOps.ReplaceItemInArray | cJSON.c:519-521 | refines update at a position; the node replaced is deleted with all it owns |
| ListOps.StepAt | cJSON.c:491-521 | what is at each position after an operation; a negative position is the first one |
| ListOps.StepConserves | cJSON.c:500-521 | what is in the chain and what was taken out is what was there and what was put in |
| ListOps.RunConserves | cJSON.c:500-521 | the same over every run of operations on sequences, and no item is ever in the chain twice; `ListRuns.PerformRun` has the runs on nodes |
| ListRuns.PerformRun | cJSON.c:495-521 | any run on nodes: the children become what the run makes of the sequence, exactly the items replaced are deleted, and the parent, a reference too, is a well-formed tree that has the new children and, as an array or an object, denotes them |
| ListRuns.RunAndDelete | cJSON.c:59-521 | a run and the deletion of the parent free the parent's own blocks, the items replaced and, unless the parent is a reference, the items in the chain, and nothing else |
| ListRuns.SmallRun | cJSON.c:495-521 | a run of four operations on new nodes |
| SharedChains.StepSparesHead | cJSON.c:500-521 | one operation leaves the head the head if and only if it takes no branch that assigns to `child` |
| SharedChains.RunSparesHead | cJSON.c:500-521 | a run does if and only if the old head, followed by positions and lengths, ends in front; an empty chain has to end empty |
| SharedChains.SparedHeadReturns | cJSON.c:500-521 | it is enough that no operation of the run changes the head |
| SharedChains.HeadComesBack | cJSON.c:500-521 | but not necessary: a run that takes the head out and ends with it in front |
| SharedChains.PerformShared | cJSON.c:495-521 | a run through one holder: the other one is a well-formed tree with the new children if and only if that condition on the run holds, and its `child` is live if and only if the old head has not been replaced |
| SharedChains.DetachThroughReference | cJSON.c:497-513 | detaching the first child through a reference leaves the original with that child alone |
| SharedChains.ReplaceThroughReference | cJSON.c:497-521 | replacing the first child through a reference leaves the original with a pointer to a freed node |
| ListOps.SiblingsDistinct | cJSON.c:495-500 | a doubly linked chain has no cycle |
| UpstreamLaws.DeleteOutcome | del.c:118-162 | the exact outcome of the delete loop: the servers that do not match stay in order, a match stays just when the first two match, a list with servers never becomes empty |
| UpstreamLaws.TwoDeletesSettle | del.c:118-162 | after two identical deletes a third changes nothing, and at most a single last server still matches |
| UpstreamLaws.OneDeleteSettles | del.c:118-162 | one is enough unless the first two match and a server that does not match follows them |
| UpstreamLaws.OneDeleteLeavesAMatch | del.c:118-162 | two matching servers and another one: one delete leaves a match, the second one takes it |
| UpstreamLaws.AddThenDeleteTwice | del.c:118-162 | new matching servers in front of a list without a match, deleted twice: the list is restored if and only if it was not empty |
| UpstreamLaws.AddServersFacts | add.c:158-199 | adding puts a server for each of the first addresses in front, the last address first, and stops only at a failed allocation; the cached fields stay right |
| UpstreamLaws.AddThenDeleteTwiceOnGroup | add.c:158-199 | for every number of addresses, every filter that all new servers and no old one match, and also when the memory does not last: list, number and total weight are restored, by one delete if there was one address |
| UpstreamLaws.AddThenDeleteByName | del.c:118-162 | a server is added for one address, which no other one has, and deleted by it: the list is restored |
| UpstreamLaws.DeleteKeepsGood | del.c:132-146 | the cached fields stay right, and the result is the number of servers removed, negative just when the last one was to go |
| UpstreamLaws.EditTwice | mdf.c:106-137 | editing a group again changes nothing and matches as many servers |
| RegistryLaws.AddFromGood | add.c:132-200 | an add keeps every group right and the names and zones of all upstreams, also when it is cut short |
| RegistryLaws.DeleteFromGood | del.c:103-163 | the same for a delete |
| RegistryLaws.EditFromGood | mdf.c:91-138 | the same for an edit |
| RegistryLaws.PerformReaches | add.c:138-157 | a call, also one that fails, reaches only upstreams of its name with a zone, and of these only the primary or only the backup group |
| RegistryLaws.RunGood | add.c:230-296 | over every run of requests, whatever the allocator answers: number is the length, total weight is the sum, weights are at least 1, single implies one server |
| Reports.DeleteReportsExactly | del.c:103-164 | on any table, a delete call reports what it removed if and only if no upstream loses servers before another one ends the call |
| Reports.AddReportsExactly | add.c:132-201 | on any table, an add call reports what it added if and only if the memory suffices for all that the selected upstreams need or not for the first peer |
| Reports.PerformReportsExactly | add.c:123-201 | the same for a call with its early returns |
| Reports.SuccessIsExact | add.c:230-296 | for every request that adds or deletes, on any tables: `success` is at most what changed, and it is that exactly if and only if every call reports what it does |
| Reports.DeleteSuccessIsExact | del.c:191-243 | a corollary: with unique names every delete request does |
| Reports.AddSuccessIsExact | add.c:230-296 | a corollary: every add request that was refused no memory does, also with shared names |
| Reports.RefusalHidesServers | add.c:132-201 | a call that adds a server and reports an error: memory for one of two addresses |
| Reports.MissingGroupHidesServers | add.c:140-201 | another: memory for two of two addresses, but not for the record of the backup group |
| Reports.SharedNameHidesAdds | add.c:132-201 | another: memory for the first of two upstreams of one name |
| Reports.SharedNameHidesDeletes | del.c:103-164 | a delete that removes a server and reports an error, with two upstreams of one name |
| RequestLaws.AddDeleteDelete | add.c:132-201 | the restoration for whole calls, on any table, shared names and failing allocations included, where the selected upstreams have other servers only; deleted by server text, by address or by both; the two deletes together report what has been added, and so does the add unless it reports an error |
| Effects.AddEffect | add.c:123-201 | an add puts a server in front for each address, as the entry says and with the defaults for the rest, in every upstream with the name and a zone, or for the first addresses when the memory does not last; `single` is right where a server has been added |
| Effects.DeleteEffect | del.c:91-164 | a delete takes the servers with the address, the server text and the `down` flag of the entry, but for the second one of two in front, and no others, up to an upstream whose only server it would take; it reports an error if and only if there is one |
| Effects.EditEffect | mdf.c:78-139 | an edit sets what the entry gives, at the servers with its address and server text, in place and nowhere else, and reports how many these are |
| Effects.AddThenEdit | mdf.c:106-137 | a server added with one entry and edited with another that leaves nothing open is as if added with that one, but for what it has run up |
| Effects.AddIsListed | lst.c:139-175 | what an add puts in is listed, in front of the primary servers, or right behind all of them and flagged as a backup server |
| RequestLaws.TwoDeletesSettleFrom | del.c:103-164 | on any list of upstreams, shared names included: what two identical delete loops leave, a third does not change |
| RequestLaws.TwoDeletesSettleAt | del.c:103-164 | the same for whole calls, on any table |
| Scenarios.AddAndDeleteTwice | add.c:123-201 | the same for the calls on the tables in memory |
| Scenarios.SmallScenario | add.c:123-201 | on a table with one server: another one is added with two addresses and deleted twice |
| RequestLaws.EditAgain | mdf.c:91-139 | an edit call repeated changes nothing and reports the same, also with shared names |
| Upstreams.NewServer | add.c:265-277 | an added server has what its entry gives, and is down if and only if that says so: an edit with the same entry would change nothing, if and only if neither limit is negative; defaults within the limits for the rest, and the running state of a server that has not been used |
| Upstreams.EditOverridesAdd | mdf.c:111-134 | an edit that leaves nothing open makes of an added server what an add with its entry would have made |
| Upstreams.NegativeLimits | mdf.c:153-214 | negative limits, which an add takes for not given: an edit sets the largest numbers instead, as its variables are unsigned |
| Peers.Slab.Store | add.c:164-176 | an allocation is granted or refused as the next answer says |
| Peers.Slab.Free | del.c:147-156 | only live blocks can be freed, so none is freed twice |
| Peers.NoCycle | del.c:118-160 | a list that ends has no cycle |
| Removing.CutOut | del.c:136-146 | unlinking a peer, the counters, and where the loop goes on |
| Removing.FreePeer | del.c:147-156 | frees the peer and those of its blocks that lie in the zone, each once |
| Removing.Unlink | del.c:136-156 | the group without the peer; no block of a peer that stays is freed |
| Removing.DeletePeers | del.c:118-162 | the loop makes of list, counters and result exactly what the closed form says, and frees exactly the pooled blocks of the peers that go |
| Removing.DeleteServers | del.c:97-164 | all upstreams: the new state, the result and the error are the specified ones, and the table stays valid; nothing is allocated or leaked, so that exactly the blocks that the groups lose are freed |
| Editing.EditPeers | mdf.c:106-137 | exactly the matching peers are changed, in place; the cached sum, from which the loop subtracts the old weight of each match and to which it adds the new one, stays the sum of the weights |
| Editing.EditServers | mdf.c:84-139 | all upstreams: state and result are the specified ones, and the table stays valid; the live blocks and the leaked ones stay as they are |
| Adding.AllocPeer | add.c:159-181 | four allocations; when one fails, exactly the blocks taken before it are leaked |
| Adding.AddPeer | add.c:191-197 | the group with one more peer in front |
| Adding.AddPeers | add.c:158-199 | the loop over the addresses: group, answers and result are the specified ones; new blocks are in the group, but for the one to three that are leaked just when the result is a failed allocation |
| Adding.CreateBackup | add.c:141-155 | a missing backup group is created empty and linked, or the allocation is refused and nothing changes; nothing is leaked in either case |
| Adding.InsertServers | add.c:123-201 | all upstreams: state, answers and result are the specified ones, also when an allocation fails, and the table stays valid; nothing is freed, and one to three new blocks are leaked just when the call reports that an allocation for a peer failed behind the first one |
| Registry.ValidIsGood | del.c:136-146 | the laws on values apply to every valid table in memory |
| Listing.DumpPeers | lst.c:155-172 | the peers of one group, with their running state, go into consecutive slots |
| Listing.DumpUpstream | lst.c:139-175 | every slot of the array is filled once: primary peers in order, then backup peers with their flag |
| Listing.DumpUpstreams | lst.c:119-177 | all upstreams with a zone, or those of one name, and nothing changes |
| Listing.ListedPeers | lst.c:149-175 | under the name of the upstream, each server is listed once, primary ones first, and an entry is flagged if and only if it is behind all primary ones |
| Listing.ReportedInOrder | lst.c:119-134 | just the upstreams with a zone and, if one is given, the name are reported, in their order |
| Listing.EntriesAreServers | lst.c:155-175 | what is returned is the number of their servers |
| Listing.InfoIsConsistent | lst.c:141-142 | the reported number is the number of entries and the reported weight is their sum |
| Tallies.TallyIsExact | del.c:189-243 | every entry, and every section that lacks something, is counted once: with its gain in `success`, or else in `failed` |
| Tallies.InTurn | add.c:230-296 | a request is its first sections, and then the rest on what they leave |
| Tallies.OneCall | add.c:277-284 | a request with one entry makes the call for it, in the table of its protocol |
| Tallies.RequestReaches | add.c:230-296 | a request leaves alone every upstream that has no zone or that no section of its protocol mentions |
| Tallies.CodeTells | add.c:123-201 | what the code of a call tells: an unresolved server text, nothing configured, no memory, or the refusal to delete a last server; a call that is not made changes nothing |
| Requests.PerformAt | del.c:214-234 | one entry: the filter, the defaults and the call, and what becomes of the blocks: an add frees none, a delete allocates none, an edit does neither, and only an add leaks, just when it reports that an allocation for a peer failed behind the first one |
| Requests.ServePeers | del.c:213-242 | the loop over the entries of a section, with the counters, and the same about the blocks, with at most three leaked for each entry counted as failed |
| Requests.ServeRequest | add.c:230-296 | the loop over the sections: state and counters are the specified ones, both tables stay valid; the same about the blocks of both zones, with at most three leaked in both together for each entry counted as failed |

## Left out

- Fractions, exponents and numbers outside 32 bits: `ReadNumber` answers
  `Outside`, `Syntax` has no such numbers, and printing is modelled for 32-bit numbers only;
  `valuedouble` is not modelled.
- String literals that are not closed or have a malformed escape: `Lex` answers
  `Open`, and no claim is made for them, neither in the parser nor in the minifier. Block comments
  that are not closed: the minifier answers `Unclosed`.
- Allocation failures inside the JSON engine, the width of its `int` lengths, and the
  freeing of the temporary buffers of the printer; its arrays of entry pointers are sequences.
- Item types other than the seven kinds, string items without a string, entries of objects
  without a name, and the lookup functions that ignore case; the type word is split into kind and reference flag.
- The list functions that work by name, and the constructors for arrays of numbers and strings.
- nginx itself: reading bodies, replies, configuration, logging and request pools.
- JSON-RPC dispatch and the mapping between JSON values and requests; `Requests` starts
  from the extracted fields, and a missing `http` and `stream` object is a missing protocol.
- The resolution of a server text: its addresses, or the failure to resolve it, are part of the request.
- Locks and concurrent workers: a request is atomic.
- Builds without a zone for one of the protocols, which answer every call with an error.
- What the socket address of a peer contains: it is a block that is allocated and freed.
- How nginx changes the running state of a peer (`Running`: current and effective weight, `conns`,
  `fails`, start times) between requests; in a peer these fields are one record.
- Integer overflow of `total_weight` and `number`; upstreams without `peer.data`; platforms on which
  `ngx_uint_t` does not have 64 bits.
- Names are compared as byte sequences; the C code compares lengths and then with `strncmp`, which
  is the same for names without a NUL byte.
- The flag of an edit is passed as a value; the C code casts a pointer to a `bool`.
- Failing pool allocations of a listing, and the cut of names at 1023 bytes in its reply.
- The http and the stream copy of every function are one method; so are the three loops over the
  sections of a request, which differ in the call they make.
