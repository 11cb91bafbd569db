# Verification of the CWEB tools and of the fat-tree builder

This project models the algorithms of CWEB as bundled in `ns-allinone-2.35/cweb` (the programs CTANGLE and
CWEAVE and the code they share) and the link construction of `dctcp-example/fattree.py`, and proves what they
keep, conserve and refine. Pointers into the C arrays are indices; `overflow` and `fatal` are explicit outcomes.
Every call of `overflow` that is modelled happens exactly under a stated condition on the sizes, except for the stack
of the index sort, for which a size is stated that always suffices.

Where the C code changes global arrays in place, a class holds those arrays or growing lists as fields and its
methods are proved against functions on values; the theorems are about those functions.

| Files | What they model |
|---|---|
| `Productions`, `ScrapKinds`, `ScrapTexts`, `ScrapMachine`, `ScrapLaws`, `ScrapRuns`, `ScrapMarks`, `ScrapConservation`, `ScrapParser` | CWEAVE's scrap parser: the table of productions, the rewriting machine, what every step and every run keeps, and the array with a gap on which `translate` works |
| `TangleTokens`, `TangleStore`, `TangleExpand`, `TangleLinks`, `TangleNesting`, `TanglePhaseOne`, `TangleMachine`, `Tangle` | CTANGLE: the packed token memory, the linked replacement texts, and the stack that expands them |
| `NameOrder`, `NameTree`, `NamePieces`, `NameBook`, `NameTable`, `NameChanges`, `NameSearch`, `NameReading`, `NameIds`, `NameStore` | section names in a search tree keyed by abbreviations, their text in linked pieces, and the hash table of identifiers in the same arrays |
| `ChangeFile`, `ChangeBlocks`, `ChangeMerger` | the merge of a web file with a change file |
| `XrefLists`, `XrefMemory`, `XrefRuns`, `LinkedLists` | CWEAVE's cross-reference lists in one shared memory, and what both phases make of them |
| `Collation`, `IndexPlaces`, `IndexNames`, `IndexSort`, `CrossReferences` | the radix sort of the index, and the way from the first section to the index lines |
| `LineBreaks`, `LineBuffer` | CWEAVE's output buffer |
| `FatTree` | the links of a fat tree |
| `Wrappers` | options and bytes |

Some properties that one would expect do not hold of the code as it stands. Each has a lemma with an input that
shows it and another with the condition under which it does hold:

- productions 84 and 85 replace the text of a bracket by a bare `<` or `>`, so a comment that the bracket has
  absorbed is lost (`ScrapConservation.CommentLost`); the condition is sufficient for all scraps
  (`ScrapConservation.TranslationConserves`) and exact where no bracket can begin a template
  (`ScrapConservation.TranslationConservesIff`);
- `underline_xref` may put a definition behind earlier sections (`XrefLists.UnderlineDisorders`); the exact condition
  for one call is `XrefLists.UnderlineKeepsIff`, and for a whole phase two `XrefRuns.UnderlinedKeepsIff`;
- `check_complete` says nothing when the web ends just where an empty line was to be matched
  (`ChangeBlocks.UnmatchedNotLeft`), and exactly then (`ChangeBlocks.LeftIff`).

## Model

| member | source | states |
|---|---|---|
| ScrapRuns.StepDescends | ns-allinone-2.35/cweb/cweave.c:2248-2960 | every iteration of `translate`'s loop, whichever production applies, lexicographically decreases the number of scraps, the sum of their category ranks and the scraps from `pp` on; so the loop ends on every scrap sequence although `pp` moves back |
| ScrapLaws.StepBalanced | ns-allinone-2.35/cweb/cweave.c:2003-2038 | whatever the production, if all texts lead from the left to the right mode of their scraps and enter every sub-scrap in its own left mode, then so does the text that is built |
| ScrapRuns.RunBalanced | ns-allinone-2.35/cweb/cweave.c:2143-2239 | after any run from leaf scraps a left mode is "maybe" exactly if the right mode is, and flattening a scrap from its left mode ends in its right mode and enters every text, leaf or composite, in the left mode its scrap had when the text was made |
| ScrapRuns.ModesRecorded | ns-allinone-2.35/cweb/cweave.c:2020-2038 | the modes against which balance is checked are those of the machine: each text of a run carries the left mode of the scrap it was built for, and given texts keep the mode they demand |
| ScrapRuns.TranslationBalanced | ns-allinone-2.35/cweb/cweave.c:2245-2980 | the text that `translate` returns for any leaf scraps starts and ends outside math, and every text inside it is entered in its own mode |
| ScrapLaws.StepConservesIff | ns-allinone-2.35/cweb/cweave.c:2143-2239 | a step keeps the left-to-right sequence of names exactly if it is not production 84 or 85 on a bracket that has content, and then it loses as many names as that bracket has |
| ScrapConservation.TranslationConserves | ns-allinone-2.35/cweb/cweave.c:2245-2980 | all names of the source come out in order whenever no angle bracket has content itself, is followed by an insertion with content (with only insertions in between), or follows one at the start of the scraps, and no preprocessor line at their start ends in front of a bracket |
| ScrapConservation.TranslationConservesIff | ns-allinone-2.35/cweb/cweave.c:2245-2980 | where no scrap declares a type, a template or a macro argument, and also where there are any declarations but no `<` and no end of a macro argument, that condition on the neighbours of the brackets is exact: nothing is lost if and only if no bracket is exposed to content |
| ScrapConservation.NoBracketConserves | ns-allinone-2.35/cweb/cweave.c:2245-2980 | without `<` and `>` among the scraps nothing is ever lost |
| ScrapConservation.CommentLost | ns-allinone-2.35/cweb/cweave.c:3240-3291 | the scraps delivered for a comparison with a comment behind its `<` that names an identifier, and with the closing insertion: the text returned does not carry the names of the source |
| ScrapMarks.ExposedBefore | ns-allinone-2.35/cweb/cweave.c:2297-2942 | no production exposes a bracket that was not exposed before, unless a preprocessor line stood at the very start |
| ScrapMarks.ExposedOn | ns-allinone-2.35/cweb/cweave.c:2297-2942 | a production that consumes brackets only by forgetting them, or by letting them absorb insertions, leaves an exposed bracket exposed until its content is forgotten |
| ScrapParser.Parser.Translate | ns-allinone-2.35/cweb/cweave.c:2245-2980 | on the array with its gap, fetching, reducing and moving in place, `translate` builds exactly the memory and returns exactly the text of the rewriting machine's run, and overflows exactly when the final memory passes the margins |
| ScrapParser.Parser.Reduce | ns-allinone-2.35/cweb/cweave.c:2144-2192 | closing up the array in place replaces `k` scraps of the list by one and moves `pp` by `d`, but not in front of the first scrap |
| ScrapParser.Parser.MakeReserved | ns-allinone-2.35/cweb/cweave.c:2069-2087 | rewriting the identifier in the token memory, and the category of its later occurrences, is what the rewriting machine does to texts and scraps |
| TangleTokens.DecodeEncodeAll | ns-allinone-2.35/cweb/ctangle.c:548-589 | the packed bytes of any list of identifiers, references, section numbers, line records, characters, strings and constants are read back as that list by the rules of `get_output` |
| TangleTokens.DecodeEncode | ns-allinone-2.35/cweb/ctangle.c:502-508 | whatever bytes follow, the first token comes back and exactly its bytes are used up |
| TangleLinks.NameChain | ns-allinone-2.35/cweb/ctangle.c:1449-1460 | following `text_link` from a name's `equiv` visits exactly the texts of that name in source order; a name without texts has no definition |
| TangleLinks.UnnamedChain | ns-allinone-2.35/cweb/ctangle.c:1449-1460 | following `text_link` from text 0 visits exactly the unnamed texts in source order, and the link is 0 exactly if there are none |
| TangleLinks.ChainExpands | ns-allinone-2.35/cweb/ctangle.c:532-542 | what comes out of a chain are its texts one after the other, each between the markers of its own section |
| TangleNesting.BalancedText | ns-allinone-2.35/cweb/ctangle.c:753-770 | in every expansion, complete or cut off by the stack, the section markers nest |
| TanglePhaseOne.Store.PhaseOne | ns-allinone-2.35/cweb/ctangle.c:1348-1465 | storing a web byte by byte succeeds exactly if its tokens and texts fit, and then the memory holds precisely the texts of its sections, linked as they should be |
| TangleStore.DefsSeenIff | ns-allinone-2.35/cweb/ctangle.c:1004 | the flag that suppresses the automatic macro definitions is set exactly for the webs of which some stored text contains their place |
| TangleMachine.Machine.GetOutput | ns-allinone-2.35/cweb/ctangle.c:547-589 | every call ends and emits a next part of the recursive expansion of what is on the stack, with strictly fewer steps left |
| TangleMachine.Machine.OutputDefs | ns-allinone-2.35/cweb/ctangle.c:683-717 | all macro definitions in order without their final newlines, with the stack restored; it overflows exactly when the stack is full |
| TangleMachine.Machine.WriteFrom | ns-allinone-2.35/cweb/ctangle.c:647-650 | running until the stack is empty emits exactly the recursive expansion, also for names that refer to themselves: the stack overflows exactly where the expansion is nested too deep, after the same output |
| Tangle.NameExpands | ns-allinone-2.35/cweb/ctangle.c:566-576 | a reference is replaced by all texts of its name wherever they stand in the web, in source order, and by nothing if there are none |
| Tangle.OutputNests | ns-allinone-2.35/cweb/ctangle.c:753-770 | reading the markers of the whole output never closes a section that is not the last opened, and a complete output leaves none open |
| Tangle.Tangle | ns-allinone-2.35/cweb/ctangle.c:610-676 | from the sections of a web to the main output file: CTANGLE fails exactly if the texts do not fit or names nest too deep, and else writes the macro definitions, unless placed by the web, and the expansion of the unnamed text |
| NameOrder.CompareMeans | ns-allinone-2.35/cweb/common.c:798-809 | what each result of `web_strcmp` says about two strings, with the place of the first difference |
| NameOrder.MeansUnique | ns-allinone-2.35/cweb/common.c:798-809 | for two strings only one of the results can be right |
| NameOrder.WebStrcmp | ns-allinone-2.35/cweb/common.c:798-809 | the two advancing pointers return the result of the comparison of the whole strings |
| NameTree.OrderedPrefixFree | ns-allinone-2.35/cweb/common.c:869-937 | in a search tree ordered by `web_strcmp` no abbreviation is a prefix of another |
| NameTree.InsertOrdered | ns-allinone-2.35/cweb/common.c:814-840 | a name hung where the search for it ended keeps the tree a search tree |
| NameTree.ShortenOrdered | ns-allinone-2.35/cweb/common.c:869-937 | shortening the one abbreviation that an argument fits keeps the tree a search tree |
| NamePieces.PiecesAsOne | ns-allinone-2.35/cweb/common.c:962-991 | comparing piece by piece classifies an argument as a comparison with the whole text would |
| NameBook.LookupValid | ns-allinone-2.35/cweb/common.c:869-937 | every lookup keeps the abbreviations pairwise free of prefixes, also when it shortens one |
| NameBook.FoundIff | ns-allinone-2.35/cweb/common.c:869-937 | when a lookup is answered by a name, an old name is the answer exactly if its abbreviation and the argument are compatible |
| NameBook.AmbiguousIff | ns-allinone-2.35/cweb/common.c:869-937 | ambiguity is reported exactly if two or more abbreviations extend the argument |
| NameBook.AnswersAgree | ns-allinone-2.35/cweb/common.c:869-937 | over any run of lookups a name once answered without a message is the answer to every later lookup of the same argument |
| NameStore.Names.SectionLookup | ns-allinone-2.35/cweb/common.c:869-937 | on bytes, links and tree pointers each call answers and changes the names as the abstract book prescribes, and overflows exactly when there is no room |
| NameStore.Names.AddSectionName | ns-allinone-2.35/cweb/common.c:814-840 | a new name has the argument as text and abbreviation, is complete unless the argument was a prefix, and touches no other name |
| NameStore.Names.ExtendSectionName | ns-allinone-2.35/cweb/common.c:845-864 | the text grows by the suffix, the abbreviation stays, and so do all other names |
| NameStore.Names.SprintSectionName | ns-allinone-2.35/cweb/common.c:762-780 | the pieces are written as the one text of the name |
| NameStore.Names.SectionNameCmp | ns-allinone-2.35/cweb/common.c:962-991 | the class is that of the whole text, a complete name may not be extended, and for an extension the pointer is left at what follows the text in the argument |
| NameStore.Names.IdLookup | ns-allinone-2.35/cweb/common.c:687-736 | with CTANGLE's rule the hash table is a map: equal strings always get the same entry, a new one gets a new entry, and it overflows exactly when there is no room |
| NameIds.IdsDifferent | ns-allinone-2.35/cweb/ctangle.c:478-485 | different identifiers have different entries |
| NameIds.MetOnce | ns-allinone-2.35/cweb/cweave.c:3982-3998 | passing through all hash lists one meets every identifier once and nothing else |
| ChangeBlocks.MergedBlocks | ns-allinone-2.35/cweb/common.c:542-605 | for a well-formed change file the delivered lines, with their origin and line numbers, are those of the pure merge that replaces each block at the first place after the previous change where its first line occurs |
| ChangeBlocks.MatchCounts | ns-allinone-2.35/cweb/common.c:443-507 | lines of a block that fail to match are counted and reported, and the block is replaced all the same |
| ChangeBlocks.LeftIff | ns-allinone-2.35/cweb/common.c:673-682 | nothing is left to be matched exactly if all blocks were matched, or the web ended in a block just where an empty line was to be matched |
| ChangeBlocks.UnmatchedNotLeft | ns-allinone-2.35/cweb/common.c:673-682 | a web of one line and a block of two, the second empty: the block is not matched and nothing is left for `check_complete` to see |
| ChangeMerger.Merger.GetLine | ns-allinone-2.35/cweb/common.c:542-605 | each call ends and delivers exactly one more line of the merge in the buffer, from the file and with the number that `changing` and the counters tell, or reports the end of the input |
| ChangeMerger.Merge | ns-allinone-2.35/cweb/common.c:513-682 | reading all lines of a well-formed change file delivers the pure merge, and `check_complete` complains exactly if a block was not matched, but for the case of the empty line |
| XrefLists.RecordedDecreasing | ns-allinone-2.35/cweb/cweave.c:1009-1026 | over any run with non-decreasing sections an identifier's list is strictly decreasing, with one entry for each section in which it was met and no other |
| XrefLists.UnderlineKeepsIff | ns-allinone-2.35/cweb/cweave.c:2107-2138 | underlining keeps the list strictly decreasing exactly if the list has an entry for the section, or has no entry for an earlier section, or the first such entry is a definition |
| XrefLists.UnderlineDisorders | ns-allinone-2.35/cweb/cweave.c:2107-2138 | a use in section 7 and a definition in section 5: underlining section 9 puts it between them |
| XrefLists.ReversedIncreasing | ns-allinone-2.35/cweb/cweave.c:4054-4069 | a list is strictly increasing after the reversal exactly if it was strictly decreasing |
| XrefLists.ReferredGrouped | ns-allinone-2.35/cweb/cweave.c:1029-1060 | over any run the list of a section name is an optional file flag, then definitions, cites and uses, each group strictly increasing, and holds exactly the references that were made |
| XrefLists.FootnotesPrintAll | ns-allinone-2.35/cweb/cweave.c:3904-3934 | the three footnotes pass over the list once and print every remaining entry in exactly its own group |
| XrefMemory.Xrefs.NewXref | ns-allinone-2.35/cweb/cweave.c:1009-1026 | in the shared memory only the list of the name changes, as the list function says; in phase one the lists of all identifiers stay decreasing and those of all section names grouped; it overflows exactly when an entry is needed and the memory is full |
| XrefMemory.Xrefs.UnderlineXref | ns-allinone-2.35/cweb/cweave.c:2107-2138 | shifting the numbers through the list has the effect of an insertion, other lists are untouched, and, also with entries for later sections in the lists as in phase two, all lists stay in order exactly if this one was safe |
| XrefMemory.Xrefs.NewSectionXref | ns-allinone-2.35/cweb/cweave.c:1029-1046 | an insertion by two pointers has the effect of an insertion into its group, no other list changes, and in phase one all lists stay in order |
| XrefMemory.Xrefs.Footnotes | ns-allinone-2.35/cweb/cweave.c:3843-3849 | the three traversals by pointer print what the list functions say |
| XrefMemory.Xrefs.IndexLines | ns-allinone-2.35/cweb/cweave.c:4054-4069 | reversing the lists of any number of names in place, one after the other, makes every index line the reverse of its list, and strictly increasing exactly if that list was in order, whatever the others are |
| XrefMemory.Xrefs.DropUses | ns-allinone-2.35/cweb/cweave.c:1550-1561 | unlinking entries in one pass leaves exactly the definitions of the list, in order, and changes no other list |
| XrefRuns.CollectedInOrder | ns-allinone-2.35/cweb/cweave.c:1478-1603 | after any phase one the list of every identifier is strictly decreasing and that of every section name grouped, with no section beyond the last |
| XrefRuns.CollectedNumbers | ns-allinone-2.35/cweb/cweave.c:1009-1026 | the list of an identifier that is not formatted is what its own occurrences record, whatever happens to other names |
| XrefRuns.CollectedReferences | ns-allinone-2.35/cweb/cweave.c:1029-1060 | the list of a section name is what the references to it make, whatever happens to other names |
| XrefRuns.UnderlinedKeepsIff | ns-allinone-2.35/cweb/cweave.c:2107-2138 | over a whole phase two a list stays decreasing exactly if each underlined section had an entry from phase one, or each entry of an earlier section has a definition, from phase one or underlined, in its section or between the two |
| XrefRuns.SafeRunWhen | ns-allinone-2.35/cweb/cweave.c:2107-2138 | so it does if every underlined section had an entry, or if phase one left only definitions |
| CrossReferences.PhaseOne | ns-allinone-2.35/cweb/cweave.c:1478-1603 | any sequence of sections, occurrences, formats and references leaves in memory exactly the collected lists, all in order, and fails exactly when there are too many sections or references |
| CrossReferences.PhaseTwo | ns-allinone-2.35/cweb/cweave.c:3644-3652 | with sections counted again, any sequence of declarations leaves exactly the collected lists as underlined, and fails exactly when there are too many references |
| CrossReferences.Index | ns-allinone-2.35/cweb/cweave.c:3982-4154 | from the first section to the index: the names with references come once each in collating order, and the line of each is its list from the end, strictly increasing exactly if that name was underlined only where it is safe |
| Collation.CollateInverse | ns-allinone-2.35/cweb/cweave.c:888-911 | each character stands at one place in the collating sequence |
| IndexSort.Sorter.SortIndex | ns-allinone-2.35/cweb/cweave.c:3982-4105 | from the hash lists to the index: the loop over stack and buckets ends and writes every name with cross references once, ordered by the collating places of the folded characters, shorter names first; a stack larger than the number of these names does not overflow |
| IndexSort.SortNames | ns-allinone-2.35/cweb/cweave.c:3982-4154 | a fresh sorter, called on a hash table, writes exactly the names with cross references, none twice, in order |
| LineBreaks.NothingLost | ns-allinone-2.35/cweb/cweave.c:1749-1775 | whatever is written, every line has at most 80 characters, and apart from added percent signs exactly the characters that are not spaces come out, in order |
| LineBuffer.OutBuffer.BreakOut | ns-allinone-2.35/cweb/cweave.c:1749-1775 | the backward search in the buffer breaks at the last good place, and what follows moves to the front |
| LineBuffer.OutBuffer.FlushBuffer | ns-allinone-2.35/cweb/cweave.c:1701-1721 | one line is written, and all characters behind the break remain in the buffer |
| LineBuffer.OutBuffer.Write | ns-allinone-2.35/cweb/cweave.c:1701-1775 | any sequence of characters and line ends leaves the array within its bounds and loses nothing but spaces |
| FatTree.Topology.CreateLink | dctcp-example/fattree.py:78-103 | the three loop nests make the links given by closed formulas of their number, in this order |
| FatTree.CoreAggIff | dctcp-example/fattree.py:81-87 | a core switch and an aggregation switch are linked exactly if the number of the first, divided by k/2, is the place of the second in its pod |
| FatTree.AggEdgeIff | dctcp-example/fattree.py:90-95 | an aggregation and an edge switch are linked exactly if they are in the same pod |
| FatTree.CoreDegree | dctcp-example/fattree.py:81-87 | a core switch has exactly one link into each of the k pods |
| FatTree.CoreCount | dctcp-example/fattree.py:81-87 | an aggregation switch is linked to k/2 core switches |
| FatTree.EdgeCount | dctcp-example/fattree.py:90-95 | an aggregation switch is linked to k/2 edge switches |
| FatTree.HostDegree | dctcp-example/fattree.py:98-103 | every host is linked to exactly one edge switch |
| FatTree.NoDuplicates | dctcp-example/fattree.py:78-103 | no link is made twice |
| FatTree.OnePathPerCore | dctcp-example/fattree.py:78-103 | between any two edge switches there is exactly one path through each core switch |
| FatTree.PathCount | dctcp-example/fattree.py:78-103 | so the paths between two edge switches number (k/2)^2 |

## Left out

Deliberately weaker than the code or its intent:

- ScrapConservation.TranslationConserves: sufficient only, when there is a `<` or the end of a macro argument and also a type, template or macro argument, or when a preprocessor line at the start of the web ends before a bracket; whether the production table then takes a bracket into a template, with its content, depends on the rest of the parse.
- ScrapParser.Parser.MakeReserved: the field `ilk` of the name, by which later scraps get their category from the scanner, is not a field of the parser; nor is the cross reference that `make_underlined` makes in front of productions part of it (`XrefMemory.Xrefs.UnderlineXref` models that routine by itself).
- Tangle.Tangle: the output ends with the main file; the further output files of `phase_two`, for which `WriteFrom` is called again, are not written. A web has fewer than 12288 sections and at most 4000 names. A macro that contains `@h` is not accepted, where CTANGLE ends in `confusion` when it writes the definitions.
- TanglePhaseOne.Store.PhaseOne: the items of a text come from the scanner; the conversion of an ASCII constant to its number is not modelled.
- ChangeMerger.Merge: lines without `@i`; the nesting of included files is not modelled, nor are `changed_section` and `change_pending`, which only mark sections as changed.
- NameStore.Names.IdLookup: CTANGLE's rule for matching names; CWEAVE's rule with its `ilk` wildcards is not an equivalence.
- CrossReferences.Index: what the scanner and the parser report is given as two lists, of acts in phase one and of declarations in phase two; the hash lists are those at the end; cross references are switched on.
- IndexSort.Sorter.SortIndex: index names are not empty, have fewer than 255 bytes and consist of bytes of the collating sequence.
- LineBuffer.OutBuffer.Write: no percent sign is written as a character, so that the carrying over of a comment to the next line does not occur; the first line of the file, which begins with the input of the macros, starts as the single letter that stands in the buffer.
- FatTree.Topology.CreateLink: for k even; calls of Mininet are recorded as links. The two loop nests over pods share one routine with a flag.

Not modelled:

- scanning of web files (`get_next`, `skip_ahead`, `copy_comment`, `outer_parse`) and the scraps for single tokens; the scraps of one comparison with a comment are written out as a constant;
- the formatting of tokens by `make_output`, the 16-bit packing of CWEAVE's tokens, and the tracing of productions;
- the sizes of CWEAVE's token and text memories other than by the tests that `translate` makes; the memories are growing lists;
- whether any production still applies where `translate` stops;
- file opening, reading and writing, arguments, statistics, and the wording of messages; a file is a list of lines without zero bytes, and `char` is signed, as on the usual machines;
- the Tcl and Tk headers, the network animator, and everything of `dctcp-example` that runs a network.
