# Verified models of eight file utilities

A Dafny model of the algorithms inside `sort`, `ed`, `join`, `sed`, `ramfs`, `tar`, `look` and `fcp`, with
machine-checked proofs of what they are for. `dafny verify dfyconfig.toml` checks everything. The main results:

* **sort** (`Order`, `SortCompare`, `Decimal`, `SortNumber`, `SortScan`, `SortKey`, `SortInsert`, `SortRadix`,
  `SortMerge`, `SortRun`). The encoding of decimal numerals is an order embedding exactly as far as the two bytes
  for the point reach; no key is a proper prefix of another; the in-place radix sort closes its permutation cycles
  and leaves the static counts zero at every recursive call; the merge rounds end in a sorted output that stands
  for the input; the program as a whole loses no line and sorts.
* **ed** (`EdTemp`, `EdLines`). The temporary file behind two one-block buffers refines a flat list of lines,
  exactly as long as the block of the next line can be opened without loss; moves by three reversals, the
  termination of the `g` loop and its fast path for `d`, on the array of tokens.
* **join** (`Join`). The merge join that rewinds file 2 is the nested-loop join, unless it compares a line it never
  read, which happens exactly for one empty file under `-a`.
* **sed** (`SedCompile`, `SedRun`, `SedSubst`). Backpatching loses no branch; the flat program and the script
  with its blocks run in lock-step; the lines in a range of two addresses; global substitution ends and is
  left-to-right replacement, for any matcher.
* **ramfs** (`RamfsTree`, `Ramfs`, `RamfsDir`, `RamfsRuns`). The entries form a tree and each counts its open fids
  in every state that disciplined clients reach; what each message does, and what a file keeps over whole runs;
  directories are read whole.
* **tar** (`TarHeader`, `TarFile`). The archive round trip for any blocking on either side, in the ustar
  interchange format of POSIX.1 (IEEE Std 1003.1), with the seek-ahead over members that are not wanted.
* **look** (`Look`). The binary search over byte offsets finds the first word with the key as a prefix.
* **fcp** (`Fcp`). An interleaving of the copy workers that ends normally copies every file of its length if and only
  if all its reads before the end are full; no two workers share a chunk in any case.

Conventions. Files and streams are sequences with a position. What the programs take from elsewhere is a
parameter: the regular-expression matcher, the canonical form of a dictionary line, the permission check, the
record of a directory entry, what an editing command list does at each line, what a sed command does. Error
exits are results. Each method that changes an array or an object is proved against a function or predicate on
sequences, about which the lemmas speak. All lemmas carry `{:induction false}`: their proofs are their bodies.

Where the code and its documentation part, the code is followed. In particular:

* `kcmp` and `bsort4` compare only the common part of two keys, so sortedness needs prefix-free keys. For `bsort4`,
  which sorts up to 14 items, the need is exact (`SortInsert.InsertionSortExactly`); above that `rsort4` puts keys
  that end first, so `sort4` can also sort keys that are not prefix-free. Keys are prefix-free for lines whose plain
  fields hold no NUL, and not otherwise in a run without fields (`SortKey.NulBreaksPrefixFree`).
* In `ed` a rune has four bytes, so the mask in `getblock` does not drop the mark bit of a token
  (`EdTemp.MarkedTokenSkipsARune`), and `OREAD` is 1, so reading marks the input buffer as changed.
* After a `putline` has failed because the file is full, a later shorter one can overwrite stored lines
  (`EdTemp.TempFile.OpenedExactly`, `EdTemp.FullFileLosesALine`).
* `v/re/d` on an empty buffer drops slot zero itself (`EdLines.FastPathExactly`).
* A name of 101 bytes whose only slash is its first loses it in an archive (`TarHeader.NameRoundTrip`).
* `fcp` writes from the start of its buffer, so it needs reads before the end of the file to be full
  (`Fcp.CopiesExactly`, `Fcp.ShortReadSpoils`).
* `look -x` prints further equal words only if the string given was its own canonical form (`Look.Print`).
* `ramfs` does not keep clients from reusing fids. `Ramfs.Server.Attach` and `Ramfs.Server.Walk` say exactly when that
  spoils its counts of opens. Over whole runs the discipline is required: an attach or walk is made to a fid not in
  use, and an open fid is not walked in place. Stale fids on removed or reused slots are allowed.
* A read of a directory past offset zero runs off the table of `ramfs` if the table never had an entry
  (`RamfsDir.Seek`).

## Model

| member | source | states |
|---|---|---|
| `SortCompare.KcmpIsCompare` | sys/src/cmd/sort.c:509-522 | kcmp looks at the common part of two keys only; on keys of which neither is a prefix of the other that is dictionary order, antisymmetric and zero only on equal keys |
| `Order.CompareMeans` | sys/src/cmd/sort.c:509-522 | dictionary order: what differs first decides, and a proper prefix comes first |
| `SortCompare.KcmpConcat` | sys/src/cmd/sort.c:509-522 | keys put together from field keys compare as the first field that differs, when corresponding field keys are prefix-free |
| `SortCompare.TerminatedPrefixFree` | sys/src/cmd/sort.c:1393-1406 | texts ended by a byte they do not hold are never proper prefixes of one another |
| `SortCompare.KcmpInvert` | sys/src/cmd/sort.c:1364-1390 | complementing all bytes of two keys reverses their order |
| `SortNumber.NormalizeKeepsValue` | sys/src/cmd/sort.c:1024-1221 | dropping leading and trailing zeros, as the key does, keeps the value of a numeral, exponent included |
| `SortNumber.NumberKeysPrefixFree` | sys/src/cmd/sort.c:1024-1221 | no numeric key is a proper prefix of another, reversed or not |
| `SortNumber.MagnitudeOrder` | sys/src/cmd/sort.c:1024-1221 | normal forms are ordered by the position of the point and then by their digits |
| `SortNumber.NumericOrder` | sys/src/cmd/sort.c:1024-1221 | for any two fields whose points fit in 16 bits, with or without -g exponents, kcmp on their keys is the order of the numbers they denote (reversed under r), and equal numbers have equal keys |
| `SortNumber.NumericOrderExactly` | sys/src/cmd/sort.c:1024-1221 | that bound is exact: a field is ordered rightly against every field in range if and only if its own point is in range |
| `SortNumber.DecimalRead` | sys/src/cmd/sort.c:1024-1221 | a field of blanks, a sign, digits and a point denotes the number written: each digit counts by its place |
| `SortNumber.ExponentRead` | sys/src/cmd/sort.c:1024-1221 | under -g the digits after e or E, with their sign, shift it by powers of ten |
| `SortScan.StepTracks` | sys/src/cmd/sort.c:1024-1221 | each character of a field keeps the ten-state scan in step with an independent reading of the field as sign, digits, point and exponent |
| `SortScan.ScanNumber` | sys/src/cmd/sort.c:1024-1221 | the scan ends in the state that reading calls for, whatever bytes the field holds |
| `SortScan.DokeyGn` | sys/src/cmd/sort.c:1024-1221 | the bytes appended for a numeric field are the key of the number the field denotes |
| `SortKey.DokeyR` | sys/src/cmd/sort.c:1364-1390 | a reversed field is appended complemented, with its terminator |
| `SortKey.BuildKey` | sys/src/cmd/sort.c:1409-1473 | the key of a line is that of its fields in order, then, unless -u has fields, that of the whole line |
| `SortKey.WholeLinesOrdered` | sys/src/cmd/sort.c:1364-1406 | kcmp on the keys of NUL-free lines, in a run without fields, has the sign of the dictionary order of the lines, exchanged under r |
| `SortKey.LinesOrderedByText` | sys/src/cmd/sort.c:1409-1473 | lines with the same texts in the first k fields and different ones in the next, a plain one, are ordered by those texts, exchanged under its r |
| `SortKey.TiesBroken` | sys/src/cmd/sort.c:1409-1473 | lines with the same texts in all fields have the same key under -u and are otherwise ordered as whole lines |
| `SortKey.KeysOrderLines` | sys/src/cmd/sort.c:1409-1473 | for plain and numeric fields alike, kcmp on line keys has the sign of the order of the lines field by field, numbers by value |
| `SortKey.LineKeysPrefixFree` | sys/src/cmd/sort.c:1409-1473 | no key of a run is a proper prefix of another, for any options over plain, reversed and numeric fields and lines whose plain fields hold no NUL |
| `SortKey.LineKeysOrdered` | sys/src/cmd/sort.c:509-522 | so kcmp is a total preorder on the keys of such lines: dictionary order, transitive, zero only on equal keys |
| `SortKey.TextKeysPrefixFreeExactly` | sys/src/cmd/sort.c:14-17 | the key of a text cannot be confused with that of any NUL-free text if and only if the text holds no NUL or is a number |
| `SortKey.NulBreaksPrefixFree` | sys/src/cmd/sort.c:14-17 | the author's note on 00 bytes, exact for runs without fields: the same for whole lines; a line with a NUL compares equal to the part of it before the NUL |
| `SortKey.FirstFieldDecides` | sys/src/cmd/sort.c:1409-1473 | lines whose first field keys differ are ordered by those |
| `SortKey.LinesOrderedByNumber` | sys/src/cmd/sort.c:1409-1473 | with a numeric first field, lines with different numbers there are ordered by the numbers |
| `SortInsert.SinkIn` | sys/src/cmd/sort.c:1684-1738 | the swaps of the inner loop move one item down past exactly the items that compare greater |
| `SortInsert.Bsort4` | sys/src/cmd/sort.c:1684-1738 | the in-place loop equals insertion sort on values, for items that agree on the first b bytes, and touches nothing else |
| `SortInsert.InsertionSortOrders` | sys/src/cmd/sort.c:1684-1738 | its result is a permutation in which no neighbours are out of order, whatever the keys |
| `SortInsert.OrderedIsSorted` | sys/src/cmd/sort.c:1701-1706 | on prefix-free keys that makes it sorted in dictionary order |
| `SortInsert.InsertionSortExactly` | sys/src/cmd/sort.c:1701-1706 | every arrangement of a set of items is sorted if and only if their keys are prefix-free |
| `SortRadix.RoomLeft` | sys/src/cmd/sort.c:1632-1660 | while an item of a byte is displaced, the partition of its byte has room: no partition overfills |
| `SortRadix.StoreKeepsState` | sys/src/cmd/sort.c:1632-1660 | dropping the displaced item at the end of its partition keeps the account of every partition |
| `SortRadix.FullIsInPlace` | sys/src/cmd/sort.c:1632-1660 | when all counts are empty every item stands in the partition of its byte |
| `SortRadix.Sorter.Tally` | sys/src/cmd/sort.c:1581-1604 | the static counts, zero before, become the number of items of each byte, with the lowest and highest byte in use |
| `SortRadix.Sorter.Layout` | sys/src/cmd/sort.c:1606-1630 | partitions follow one another in byte order; the list of non-empty ones fits its 514 entries |
| `SortRadix.Sorter.Store` | sys/src/cmd/sort.c:1632-1660 | one step of a permutation cycle |
| `SortRadix.Sorter.Chase` | sys/src/cmd/sort.c:1632-1660 | every permutation cycle closes, and only the counts of the bytes it meets go down |
| `SortRadix.Sorter.Permute` | sys/src/cmd/sort.c:1632-1660 | after all cycles the items are partitioned by byte, a permutation of what was there, and every count is zero again |
| `SortRadix.Sorter.SortPartitions` | sys/src/cmd/sort.c:1662-1676 | each partition is sorted on the next byte with the counts zero before each recursive call, and the whole is in order |
| `SortRadix.Sorter.SortSegment` | sys/src/cmd/sort.c:1662-1676 | a partition is sorted by radix or by insertion, depending on its size |
| `SortRadix.Sorter.Rsort4` | sys/src/cmd/sort.c:1573-1677 | the in-place radix sort leaves an ordered permutation of its range and nothing else changed |
| `SortRadix.Sorter.Sort4` | sys/src/cmd/sort.c:1564-1570 | the same for the whole array, whichever method its size selects |
| `SortRadix.SortedWhenPrefixFree` | sys/src/cmd/sort.c:1564-1570 | what sort4 leaves is sorted in dictionary order when the keys are prefix-free |
| `SortMerge.HeadIsLeast` | sys/src/cmd/sort.c:431-507 | the first of the sorted heads of several sorted runs is least among all lines left |
| `SortMerge.Drain` | sys/src/cmd/sort.c:431-507 | lines are taken from the first run as long as they stay first; under -u a line like the last is dropped; no other line is lost, whatever the keys |
| `SortMerge.MergeFiles` | sys/src/cmd/sort.c:431-507 | no line is lost without -u or made up; runs in order with prefix-free keys merge into one output in order with exactly their lines, or under -u at least one and at most one of each key |
| `SortMerge.RoundKeeps` | sys/src/cmd/sort.c:402-428 | ten runs replaced by their merge still stand for the input |
| `SortMerge.MergeOut` | sys/src/cmd/sort.c:402-428 | each round of ten makes one more temporary file and leaves nine fewer to merge, until ten or fewer are left; the output keeps the lines, and stands sorted for all of them if the runs are in order and the keys prefix-free |
| `SortRun.CheckOrder` | sys/src/cmd/sort.c:213-253 | -c accepts a file exactly if every line is in order with the one before, strictly under -u |
| `SortRun.OutputChecks` | sys/src/cmd/sort.c:213-253 | output in order passes the -c check, if the keys are prefix-free |
| `SortRun.PrintLines` | sys/src/cmd/sort.c:525-541 | lines held in memory are written in order, under -u one of each key |
| `SortRun.Run.TempOut` | sys/src/cmd/sort.c:326-354 | a full memory is sorted and becomes one more temporary file, in order if the keys are prefix-free; no line is lost |
| `SortRun.Run.AddLine` | sys/src/cmd/sort.c:213-253 | each line read joins those held, in memory or in temporary files |
| `SortRun.Run.Finish` | sys/src/cmd/sort.c:151-210 | the output of the run, from memory alone or merged, keeps the lines held, and is sorted and stands for them if the keys are prefix-free |
| `SortRun.Sort` | sys/src/cmd/sort.c:151-210 | end to end, for any options, lines and memory size: without -u the output holds exactly the input lines; if their plain fields hold no NUL it is in key order, passes -c, and under -u has one line of each key; its lines are in the order of their fields, and a run without fields leaves NUL-free lines in dictionary order, descending under r and strictly under -u |
| `EdTemp.TempFile.constructor` | sys/src/cmd/ed.c:1100-1118 | init: an empty store whose first token is 2 |
| `EdTemp.TempFile.ReadIn` | sys/src/cmd/ed.c:1049-1055 | bringing a block into the input buffer, after writing back the one there, changes nothing of what the file stands for |
| `EdTemp.TempFile.WriteOut` | sys/src/cmd/ed.c:1049-1055 | giving the output buffer to another block without reading it replaces that block, or adds it at the end |
| `EdTemp.TempFile.GetBlock` | sys/src/cmd/ed.c:1064-1097 | the block is in one of the buffers afterwards, which never hold the same one; the error comes exactly past NBLK blocks |
| `EdTemp.TempFile.GetLine` | sys/src/cmd/ed.c:998-1016 | the line stored at a token is read back, over any number of blocks, leaving the store as it was |
| `EdTemp.TempFile.PutLine` | sys/src/cmd/ed.c:1019-1046 | the line buffer up to its first newline is stored at tline, which advances past it to an even place; what precedes it is as in the file opened there; it fails exactly if the file is full |
| `EdTemp.TempFile.OpenedExactly` | sys/src/cmd/ed.c:1064-1097 | opening the block of the next line keeps all that is stored if and only if that block is buffered, is new, or agrees with the output buffer up to the line |
| `EdTemp.TempFile.Put` | sys/src/cmd/ed.c:1019-1046 | under that condition every earlier token still names its line after a put, and the new token is new |
| `EdTemp.MarkedTokenSkipsARune` | sys/src/cmd/ed.c:1072-1073 | a token read with its mark bit set gives the line without its first rune; it gives the right line if and only if that is empty and a 0 follows it |
| `EdTemp.Session` | sys/src/cmd/ed.c:998-1046 | any interleaving of puts and gets on a new file gives the answers of a flat list of lines; a put that fails leaves the list as it is, and the answers go on up to a put after one that failed across blocks |
| `EdTemp.NotSafeAfterFailure` | sys/src/cmd/ed.c:1064-1097 | after a put that failed for lack of room across blocks the condition is false |
| `EdTemp.FullFile` | sys/src/cmd/ed.c:1019-1046 | 5576 lines of 1500 runes fill a new file, and every token names its line |
| `EdTemp.FullFileLosesALine` | sys/src/cmd/ed.c:1019-1046 | in that file one more such line fails, a short line is then stored, and the last long line, which read back before, no longer does |
| `EdLines.DoSetsNoMark` | sys/src/cmd/ed.c:183-419 | no command sets a mark |
| `EdLines.MarksCleared` | sys/src/cmd/ed.c:1371-1372 | clearing the marks of a range adds none |
| `EdLines.TurnLosesAMark` | sys/src/cmd/ed.c:1164-1172 | each turn of the g loop leaves fewer marks, whatever its commands do |
| `EdLines.GLoopClears` | sys/src/cmd/ed.c:1164-1172 | a g that does not fail leaves no mark |
| `EdLines.GLoopDelete` | sys/src/cmd/ed.c:1164-1172 | running d at each marked line deletes exactly the marked lines |
| `EdLines.FastPathExactly` | sys/src/cmd/ed.c:1151-1172 | g/re/d in one pass does the same, if and only if v is not given an empty buffer |
| `EdLines.ThreeFlipsRotate` | sys/src/cmd/ed.c:1398-1409 | three reversals exchange two neighbouring blocks |
| `EdLines.RotationMoves` | sys/src/cmd/ed.c:1355-1395 | which puts the addressed block right after the target, in both directions |
| `EdLines.MoveLands` | sys/src/cmd/ed.c:1355-1395 | after m the block stands right after the target with its marks cleared, and all other slots keep their order and their tokens |
| `EdLines.MoveBack` | sys/src/cmd/ed.c:1355-1395 | a block that was moved can be moved back |
| `EdLines.Index.Append` | sys/src/cmd/ed.c:825-856 | tokens are put in after a slot, one at a time, the array growing as needed |
| `EdLines.Index.InsertOne` | sys/src/cmd/ed.c:847-853 | one token is put in by shifting the slots after it up |
| `EdLines.Index.Rdelete` | sys/src/cmd/ed.c:957-973 | the range is taken out by shifting the slots after it down; dot is the line after it or the last |
| `EdLines.Index.Reverse` | sys/src/cmd/ed.c:1398-1409 | the slots of a range are reversed in place |
| `EdLines.Index.Rotate` | sys/src/cmd/ed.c:1374-1390 | three reversals in place exchange two blocks of slots |
| `EdLines.Index.Transfer` | sys/src/cmd/ed.c:1374-1393 | the block goes right after the target, which must not be in it; dot is the last line moved |
| `EdLines.Index.Move` | sys/src/cmd/ed.c:1355-1395 | m: the marks of the block are cleared, then it is moved; the error of a target inside the block comes after the marks are gone |
| `EdLines.Index.Copy` | sys/src/cmd/ed.c:1355-1395 | t: copies appended at the end and moved are copies inserted after the target |
| `EdLines.Index.Gdelete` | sys/src/cmd/ed.c:976-995 | one pass leaves exactly the unmarked slots; dot as it comes out; slot zero goes too if it was marked |
| `EdLines.Index.Change` | sys/src/cmd/ed.c:232-237 | c: the range replaced by new lines |
| `EdLines.Index.Replace` | sys/src/cmd/ed.c:1234-1237 | a substituted line takes the place of the old, with the rest of a split line after it |
| `EdLines.Index.Join` | sys/src/cmd/ed.c:1176-1197 | j: one line in the place of a range |
| `EdLines.Index.Undo` | sys/src/cmd/ed.c:358-365 | u: the token before the last substitution is put back if the line is still the one it left |
| `EdLines.Index.Perform` | sys/src/cmd/ed.c:183-419 | every command on the array does what its specification on sequences says |
| `EdLines.Index.GlobalLoop` | sys/src/cmd/ed.c:1164-1172 | the g loop, scanning again from the first line after each turn, is the loop over the first marked slot |
| `EdLines.Global` | sys/src/cmd/ed.c:1121-1173 | g and v: exactly the lines in range that match, for v those that do not, are marked; one pass for d then leaves exactly the others, in order and without marks, and any other commands are run at each marked line; a bad range changes nothing |
| `EdLines.Mark` | sys/src/cmd/ed.c:1150-1154 | slot i is marked afterwards exactly if it is in range and its line matches, for v does not; slot zero never matches |
| `EdLines.CommandSlots` | sys/src/cmd/ed.c:183-419 | for each command, when it is refused, which slots it takes out and which tokens it puts in their place, and where dot is after it |
| `Join.StepLeft` | sys/src/cmd/join.c:226-231 | a line of file 1 that sorts first has no partner |
| `Join.StepRight` | sys/src/cmd/join.c:220-225 | a line of file 2 that sorts first has no partner |
| `Join.FillStep` | sys/src/cmd/join.c:234-239 | a line of file 1 is paired with each line of a run of equal keys |
| `Join.RunRow` | sys/src/cmd/join.c:246-248 | at the end of the run its row is complete and file 2 is rewound for the next line |
| `Join.RunEnd` | sys/src/cmd/join.c:249-258 | when a later line of file 1 sorts after the run, file 2 goes on past the run |
| `Join.Run` | sys/src/cmd/join.c:232-260 | the branch with the two loops and the rewinds ends for any files; on sorted ones it adds exactly the rows of the lines of file 1 with the run's key |
| `Join.Join` | sys/src/cmd/join.c:208-263 | join(F2) ends for any files; a line never read is compared if and only if one file is empty, the other not, and -a is given; otherwise, on files sorted by the join field, the output is that of the nested loop in file-1 order, with each line without a partner once under -a, in key order |
| `Join.OutputIs` | sys/src/cmd/join.c:208-263 | a line of output is there exactly if it is owed: every pair with equal join fields, under -a1 and -a2 the lines in no pair; each once and in order |
| `Join.EmptyFileFails` | sys/src/cmd/join.c:218-219 | such a call: an empty file 1 under -a2, where a line of file 2 is owed and the first comparison has nothing to compare |
| `SedCompile.Compiler.DoPlain` | sys/src/cmd/sed.c:274-608 | a command takes the next slot and does not branch |
| `SedCompile.Compiler.DoOpen` | sys/src/cmd/sed.c:325-332 | { takes a slot as an inverted branch and is put on the stack |
| `SedCompile.Compiler.DoClose` | sys/src/cmd/sed.c:334-343 | } makes the innermost open { lead to the next slot |
| `SedCompile.Compiler.DoLabel` | sys/src/cmd/sed.c:351-381 | a label gets the next slot as its address; a second definition is refused |
| `SedCompile.Compiler.DoJump` | sys/src/cmd/sed.c:431-478 | b and t: resolved at once or put at the end of their label's chain |
| `SedCompile.Compiler.Append` | sys/src/cmd/sed.c:440-476 | appending to a chain loses no link |
| `SedCompile.Compiler.Tail` | sys/src/cmd/sed.c:442-444 | the walk along a chain finds its last branch |
| `SedCompile.Compiler.Patch` | sys/src/cmd/sed.c:862-868 | every branch of a chain gets the label's address and nothing else changes |
| `SedCompile.Compiler.Dechain` | sys/src/cmd/sed.c:853-870 | after dechain all branches are resolved, or a label is undefined |
| `SedCompile.Compiler.Compile` | sys/src/cmd/sed.c:257-262 | a script is accepted exactly if its braces match, no label is missing or defined twice and it is not too long; then every branch leads to its label or the end and every { past its } |
| `SedCompile.JumpAppend` | sys/src/cmd/sed.c:440-476 | the account of all chains after one grows |
| `SedCompile.BlocksClose` | sys/src/cmd/sed.c:334-343 | the account of the open braces after one closes |
| `SedCompile.AllCompiled` | sys/src/cmd/sed.c:853-870 | with all chains used up every slot is as the script wants it |
| `SedRun.AfterLaid` | sys/src/cmd/sed.c:853-870 | what follows a label in the script is laid out at its address |
| `SedRun.LaidFrom` | sys/src/cmd/sed.c:274-608 | a compiled script is laid out statement by statement |
| `SedRun.StepAlike` | sys/src/cmd/sed.c:920-947 | one turn of execute is one step of the structured reading |
| `SedRun.RunsAlike` | sys/src/cmd/sed.c:920-947 | after any number of steps, whatever the commands do, the flat run and the reading with blocks have the same effect and have both ended or not |
| `SedRun.AcceptedRunsAlike` | sys/src/cmd/sed.c:920-947 | every list of tokens the compiler accepts is a script of statements and blocks, so the same holds for it |
| `SedRun.AcceptedExactly` | sys/src/cmd/sed.c:274-608 | what is accepted: statements with blocks, no label defined twice, and none branched to that is not defined |
| `SedRun.RunsInOrder` | sys/src/cmd/sed.c:920-947 | a compiled script without branches runs exactly the commands whose addresses apply, with ! the others, in order and in the blocks entered, until one ends the cycle |
| `SedRun.BranchOver` | sys/src/cmd/sed.c:931-936 | where it applies b always passes over statements to its label, t if the flag was set; without a label nothing is left to run |
| `SedRun.Execute` | sys/src/cmd/sed.c:920-947 | the loop of execute makes the turns of the flat run |
| `SedRun.NegationOnlyReverses` | sys/src/cmd/sed.c:951-1001 | ! reverses the answer of executable and leaves the state of the range alone |
| `SedRun.LineRange` | sys/src/cmd/sed.c:951-1001 | m,n selects line m and the lines after it up to n, with n before m just line m |
| `SedRun.ToTheEnd` | sys/src/cmd/sed.c:951-1001 | m,$ selects line m and all after it |
| `SedRun.OneAddress` | sys/src/cmd/sed.c:951-1001 | run on all lines without an address, on the last with $, on line m, or on the lines that match; with ! on the others |
| `SedRun.PlainAddress` | sys/src/cmd/sed.c:951-1001 | no first address applies to every line and $ to the last, whatever the second address is |
| `SedRun.RunsOnExactly` | sys/src/cmd/sed.c:951-1001 | with a line or an expression first, a command is run on exactly the lines in its ranges: a range begins at a starting line that no earlier range decides, and ends as its second address says |
| `SedRun.FromMatch` | sys/src/cmd/sed.c:951-1001 | /re/,$ selects the first line that matches and all after it |
| `SedRun.ToMatch` | sys/src/cmd/sed.c:951-1001 | m,/re/ selects line m and the lines after it up to the first that matches |
| `SedSubst.Place` | sys/src/cmd/sed.c:1093-1101 | place appends a stretch of the line |
| `SedSubst.DoSub` | sys/src/cmd/sed.c:1050-1090 | the match is replaced by the right-hand side with its references filled in, and loc2 is left after it; an unset group is the error |
| `SedSubst.PartsFilled` | sys/src/cmd/sed.c:1050-1090 | a right-hand side stands for its parts put together: & for the match, an escaped digit from 1 to 9 for its group or the error, any other rune for itself |
| `SedSubst.Substitute` | sys/src/cmd/sed.c:1020-1047 | for any matcher, s with and without g ends and gives the left-to-right replacement |
| `SedSubst.AmpersandKeeps` | sys/src/cmd/sed.c:1020-1047 | s/re/&/g changes nothing |
| `SedSubst.LiteralReplaced` | sys/src/cmd/sed.c:1020-1047 | s/c/rhs/g replaces every c |
| `SedSubst.EmptyReplaced` | sys/src/cmd/sed.c:1020-1047 | an empty expression puts rhs before every rune, not at the end of a line that is not empty |
| `SedSubst.SuffixAlone` | sys/src/cmd/sed.c:1020-1047 | for a matcher that looks only ahead, g rewrites each unconsumed suffix on its own |
| `RamfsTree.WayUpStep` | sys/src/cmd/ramfs.c:449-506 | from every entry in use parents lead up to the root through older directories in use |
| `RamfsTree.NoCycle` | sys/src/cmd/ramfs.c:449-506 | the way up never meets an entry twice |
| `RamfsTree.TreeCreate` | sys/src/cmd/ramfs.c:475-500 | a new file in a free slot with a name new to its directory keeps the tree |
| `RamfsTree.TreeRemove` | sys/src/cmd/ramfs.c:610-624 | removing an entry without children keeps it |
| `RamfsTree.TreeChange` | sys/src/cmd/ramfs.c:669-746 | renaming to a name no sibling has keeps it |
| `RamfsTree.FilesHaveNoChildren` | sys/src/cmd/ramfs.c:598-624 | only directories have children |
| `RamfsTree.RootNotEmpty` | sys/src/cmd/ramfs.c:598-607 | the root is its own child, so it is never removed |
| `RamfsTree.CountsOpen` | sys/src/cmd/ramfs.c:440-445 | opening a fid keeps each slot's count equal to the fids open on it |
| `RamfsTree.CountsClose` | sys/src/cmd/ramfs.c:627-639 | so does closing one, also on a slot whose file is gone |
| `RamfsTree.CountsExactly` | sys/src/cmd/ramfs.c:293-394 | whatever becomes of one fid, the counts stay right if and only if it is open on the same slot as before or on none |
| `Ramfs.Server.constructor` | sys/src/cmd/ramfs.c:221-240 | the server starts with the root alone, all other slots free, and no fid in use |
| `Ramfs.Server.Attach` | sys/src/cmd/ramfs.c:293-307 | a fid comes to stand for the root; attached while in use it keeps its open, which spoils the counts if and only if it was open on another slot |
| `Ramfs.Server.WalkOne` | sys/src/cmd/ramfs.c:347-378 | where one name leads, with its errors in order |
| `Ramfs.Server.Walk` | sys/src/cmd/ramfs.c:326-394 | every reply with its cause, the qids met, and the fid after it; walking to a fid in use, or an open one in place, spoils the counts if and only if that fid was open and changes |
| `Ramfs.Server.Open` | sys/src/cmd/ramfs.c:397-446 | each check in order; a directory is opened for reading only and not counted; truncation; the wish to remove that a failed open leaves |
| `Ramfs.Server.Create` | sys/src/cmd/ramfs.c:449-506 | a new file in the first free slot, in the fid's directory, with a path no entry has, open on the fid; each error exactly for its cause, in order |
| `Ramfs.Server.EmptyDir` | sys/src/cmd/ramfs.c:598-607 | whether a directory has no entries |
| `Ramfs.Server.RealRemove` | sys/src/cmd/ramfs.c:610-624 | an entry goes if and only if it is not a directory with entries |
| `Ramfs.Server.Clunk` | sys/src/cmd/ramfs.c:627-639 | the fid goes out of use and its open with it; its file too if that was asked for, unless it is a directory with entries |
| `Ramfs.Server.Remove` | sys/src/cmd/ramfs.c:642-656 | the fid goes out of use whether the file can be removed or not; the root and a file in a directory that may not be written are refused, then a directory with entries |
| `Ramfs.Server.ReadFile` | sys/src/cmd/ramfs.c:551-558 | the bytes from the offset that there are |
| `Ramfs.Server.WriteFile` | sys/src/cmd/ramfs.c:562-595 | the contents after a write, a gap filled with zeros, at the end of a file that may only grow |
| `Ramfs.ReadBack` | sys/src/cmd/ramfs.c:552-595 | what was written is read back and all else is as it was |
| `Ramfs.Server.WStat` | sys/src/cmd/ramfs.c:669-746 | all checks come before any change, each with its error, and a wstat succeeds exactly if they pass |
| `Ramfs.Server.Version` | sys/src/cmd/ramfs.c:261-277 | every fid in use is clunked: no open is left counted, only files whose removal was asked for are gone, and all of those but directories that had entries |
| `Ramfs.Server.ReadDirectory` | sys/src/cmd/ramfs.c:530-548 | the directory part of a read, for any offset |
| `Ramfs.ReuseSpoils` | sys/src/cmd/ramfs.c:293-394 | each kind of undisciplined use of an open fid, on a table of two entries |
| `Ramfs.Serve` | sys/src/cmd/ramfs.c:793-858 | every message has the answer and the effect of its kind, on the table, the fids and the counters; under the fid discipline the tree and the counts are kept; a message about a fid not in use is an error and changes nothing |
| `Ramfs.Session` | sys/src/cmd/ramfs.c:793-858 | a run of disciplined clients: the trace of messages, answers and states, each answered and carried out as Serve says from the state before, with the tree and the counts true in all |
| `RamfsRuns.WrittenAt` | sys/src/cmd/ramfs.c:562-595 | the length and every byte of a file after a write; the gap before it holds NULs |
| `RamfsRuns.SliceAt` | sys/src/cmd/ramfs.c:551-558 | the length and every byte of what a read gives |
| `RamfsRuns.EntriesGo` | sys/src/cmd/ramfs.c:610-656 | an entry goes exactly by a remove that its parent and its own entries permit, by a clunk that was asked to, or by a version that ends such a fid; no other message takes one away |
| `RamfsRuns.EntriesCome` | sys/src/cmd/ramfs.c:449-506 | an entry comes only by a create that succeeds: new, empty, under its directory, with a path above all others, open on the fid |
| `RamfsRuns.OpenAllowed` | sys/src/cmd/ramfs.c:397-446 | an open succeeds if and only if the permissions of its mode are there, and the file is neither gone nor exclusively in use |
| `RamfsRuns.CreateAllowed` | sys/src/cmd/ramfs.c:449-506 | a create succeeds if and only if the fid stands for a directory that may be written, the name is legal and new in it, and a slot is free |
| `RamfsRuns.WriteAllowed` | sys/src/cmd/ramfs.c:562-595 | a write succeeds if and only if the file is there, is no directory, and stays below the limit |
| `RamfsRuns.WStatAllowed` | sys/src/cmd/ramfs.c:669-746 | a wstat succeeds if and only if the user may make each of its changes |
| `RamfsRuns.DataAfter` | sys/src/cmd/ramfs.c:562-595 | contents change only by a write, a change of length or a truncating open of that file, byte by byte as they ask |
| `RamfsRuns.AttributesAfter` | sys/src/cmd/ramfs.c:669-746 | attributes change only by a wstat, and only those it gives; parent, path and kind never |
| `RamfsRuns.OtherFids` | sys/src/cmd/ramfs.c:793-858 | a message changes no fid but its own or the new one of a walk |
| `RamfsRuns.OwnFid` | sys/src/cmd/ramfs.c:261-656 | what becomes of its own: clunk and remove end it, open and create open it, attach moves it to the root |
| `RamfsRuns.ReadsWhatWasWritten` | sys/src/cmd/ramfs.c:509-595 | a read right after a write gives what was written |
| `RamfsRuns.WalkFinds` | sys/src/cmd/ramfs.c:347-378 | a walk by a name a directory has leads to that entry, the only one there is |
| `RamfsRuns.WalkDots` | sys/src/cmd/ramfs.c:347-378 | . leads nowhere else and .. to the parent |
| `RamfsRuns.CreatedIsFound` | sys/src/cmd/ramfs.c:347-506 | a file created is found under its name from its directory |
| `RamfsRuns.RemovedIsNotFound` | sys/src/cmd/ramfs.c:347-656 | a file removed is not found any more |
| `RamfsRuns.FileStays` | sys/src/cmd/ramfs.c:793-858 | over any run, whatever else clients do in whatever order, a file that no message takes away or changes keeps its place and contents |
| `RamfsRuns.ReadsMuchLater` | sys/src/cmd/ramfs.c:793-858 | so what a write left is read at the end of any run that spares the file |
| `RamfsDir.ChildrenAre` | sys/src/cmd/ramfs.c:530-548 | every entry but the root is listed once, in slot order |
| `RamfsDir.Seek` | sys/src/cmd/ramfs.c:531-536 | slots are passed until the offset is used up; it runs off the table if and only if it is past zero and the table never had an entry |
| `RamfsDir.SkippedToBoundary` | sys/src/cmd/ramfs.c:531-536 | an offset that is the sum of earlier counts is used up exactly at the end of a record |
| `RamfsDir.Fill` | sys/src/cmd/ramfs.c:537-545 | whole records are given as long as they fit |
| `RamfsDir.ReadDir` | sys/src/cmd/ramfs.c:530-548 | a read at any offset gives whole records, those after the offset that fit |
| `RamfsDir.ReadAll` | sys/src/cmd/ramfs.c:530-548 | reading on gives every record once, whole and in slot order, then nothing, if every count has room for any record |
| `TarHeader.OctalRoundTrip` | sys/src/cmd/tar.c:573-587 | a number printed in a field is read back |
| `TarHeader.BeRoundTrip` | sys/src/cmd/tar.c:561-565 | a number stored as bytes is read back |
| `TarHeader.OctDigits` | sys/src/cmd/tar.c:736-771 | each octal digit printed is that of its power of eight, and there is no leading zero |
| `TarHeader.BeBytes` | sys/src/cmd/tar.c:561-565 | each byte stored is that of its power of 256 |
| `TarHeader.ChkSumFits` | sys/src/cmd/tar.c:474-487 | a checksum fits its six octal digits |
| `TarHeader.SumMeans` | sys/src/cmd/tar.c:474-487 | the sum counts every byte as it is, and sums of parts add up |
| `TarHeader.ChkSumMeans` | sys/src/cmd/tar.c:474-487 | another byte outside the checksum field changes the checksum by the difference, one inside by nothing; 512 NULs have 256 |
| `TarHeader.SealedChecks` | sys/src/cmd/tar.c:736-771 | a header with its checksum put in passes the test of readhdr; putting it in does not change the sum |
| `TarHeader.SplitRightmost` | sys/src/cmd/tar.c:711-729 | the split chosen for a long name is the rightmost there is |
| `TarHeader.StorableExactly` | sys/src/cmd/tar.c:680-733 | which names fit: up to 100 bytes, or up to 256 with a slash that leaves 155 and 100 at most |
| `TarHeader.NameRoundTrip` | sys/src/cmd/tar.c:508-529 | a storable name is read back if and only if it is not 101 bytes whose only slash is the first; then just that slash is lost |
| `TarHeader.SlashLost` | sys/src/cmd/tar.c:711-729 | such a name |
| `TarHeader.SizeRoundTrip` | sys/src/cmd/tar.c:599-615 | both forms of a size are read back |
| `TarHeader.ChkSumOf` | sys/src/cmd/tar.c:474-487 | the sum is taken with the field blanked, and the field restored |
| `TarHeader.PutBe` | sys/src/cmd/tar.c:561-565 | the bytes of a number, most significant first |
| `TarHeader.PutFullName` | sys/src/cmd/tar.c:680-733 | the name or its two parts go into their fields; it fails exactly for names that do not fit |
| `TarHeader.SetSize` | sys/src/cmd/tar.c:750-761 | the size in either form |
| `TarHeader.Seal` | sys/src/cmd/tar.c:769-769 | the checksum is put in last |
| `TarHeader.MkHdr` | sys/src/cmd/tar.c:736-771 | the header of a file, made in place; it passes the checksum test |
| `TarHeader.UstarLayout` | sys/src/cmd/tar.c:680-771 | where everything stands in such a header, byte by byte, as the format has it: magic, name or its two parts, numbers in octal or binary, checksum |
| `TarFile.Writer.GetBlk` | sys/src/cmd/tar.c:377-407 | the next slot of the buffer |
| `TarFile.Writer.PutLastBlk` | sys/src/cmd/tar.c:426-434 | the rest of the buffer is cleared and the buffer written |
| `TarFile.Writer.PutBlk` | sys/src/cmd/tar.c:437-463 | a full buffer is written, and the stream is unchanged by when that is |
| `TarFile.Writer.AddHeader` | sys/src/cmd/tar.c:844-853 | a header is put, or its slot given back |
| `TarFile.Writer.AddPiece` | sys/src/cmd/tar.c:862-876 | as much of a file as the buffer has room for; what is left of the last block may be stale |
| `TarFile.Writer.AddData` | sys/src/cmd/tar.c:858-878 | the blocks of a file begin with its bytes |
| `TarFile.Writer.Finish` | sys/src/cmd/tar.c:938-942 | at least two blocks of NULs end the archive |
| `TarFile.Create` | sys/src/cmd/tar.c:888-949 | for any blocking, an archive of the files whose names fit, in order, of a whole number of buffers |
| `TarFile.BlocksMeans` | sys/src/cmd/tar.c:47-47 | just as many blocks as hold the bytes |
| `TarFile.HeaderRead` | sys/src/cmd/tar.c:638-669 | a stored header gives back name and size and is not taken for the end, a directory or a link |
| `TarFile.Reader.Refill` | sys/src/cmd/tar.c:329-374 | a buffer is read, or passed over only if it ends before the next header; on the first read the blocking may be taken from the archive |
| `TarFile.Reader.GetBlkRd` | sys/src/cmd/tar.c:377-391 | the next block, the same as the archive's from the next header on |
| `TarFile.Reader.ReadHdr` | sys/src/cmd/tar.c:638-669 | the header at the place the last one announced |
| `TarFile.Reader.Skip` | sys/src/cmd/tar.c:1211-1225 | passing over a member leads to the next header |
| `TarFile.Reader.CopyFromAr` | sys/src/cmd/tar.c:1098-1131 | the contents of a member, cut to its size |
| `TarFile.NextMember` | sys/src/cmd/tar.c:638-669 | the next member of an archive |
| `TarFile.Extract` | sys/src/cmd/tar.c:1268-1301 | every header is met, in order, and the wanted contents read, whichever members are passed over |
| `TarFile.RoundTrip` | sys/src/cmd/tar.c:888-949 | for any blocking of writer and reader the files that can be stored come back in order with their contents |
| `Look.AcompLoop` | sys/src/cmd/look.c:234-255 | the five-way comparison of two strings: equal, prefix, or order |
| `Look.PrefixBetween` | sys/src/cmd/look.c:170-222 | words with a common prefix stand together in a sorted dictionary |
| `Look.GetWord` | sys/src/cmd/look.c:340-356 | the text of a line, which a newline must end |
| `Look.SkipLine` | sys/src/cmd/look.c:179-182 | resynchronisation to the next line |
| `Look.BelowTo` | sys/src/cmd/look.c:195-198 | moving bot up to a line before the key leaves only lines before the key behind |
| `Look.BinarySearch` | sys/src/cmd/look.c:176-201 | the gap from bot to top shrinks at every turn, and every line before bot sorts before the key |
| `Look.Locate` | sys/src/cmd/look.c:170-222 | locate succeeds exactly if some line's word begins with the key, or is the key under -x, and stops at the first such line |
| `Look.Print` | sys/src/cmd/look.c:137-165 | every line whose word begins with the key is printed, in order; under -x the later ones only if the string was canonical |
| `Fcp.KeepsExclusive` | sys/src/cmd/fcp.c:233-243 | exactly the holder of the lock is inside nextoff |
| `Fcp.StepOrderly` | sys/src/cmd/fcp.c:201-243 | whatever a read gives, every step of any worker keeps the workers to the chunks given to them |
| `Fcp.StepInv` | sys/src/cmd/fcp.c:201-243 | the invariant of chunks, buffers and target is kept by every step whose read is full |
| `Fcp.RunInv` | sys/src/cmd/fcp.c:161-243 | so it holds in every state of every interleaving with full reads |
| `Fcp.MutualExclusion` | sys/src/cmd/fcp.c:233-243 | no two workers are ever inside nextoff at once, whatever reads give |
| `Fcp.ChunksApart` | sys/src/cmd/fcp.c:233-243 | no two workers are ever at work on the same chunk, and each is on one given to it, whatever reads give |
| `Fcp.AllCopied` | sys/src/cmd/fcp.c:161-198 | if reads before the end are full, then when all workers have ended normally the target is a copy of the source |
| `Fcp.CopiesExactly` | sys/src/cmd/fcp.c:201-230 | that is exact: a schedule in which all workers end normally copies every source of its length if and only if each of its reads is full |
| `Fcp.NeverStuck` | sys/src/cmd/fcp.c:201-243 | as long as a worker has not ended, some worker can take a step |
| `Fcp.ShortReadSpoils` | sys/src/cmd/fcp.c:213-228 | a run with short reads that spoils the copy |

## Left out

- SortKey.BuildKey: where a field begins and ends (`skip`, lines 957-1021 of sort.c) is any function of the line; the month and dictionary fields (`dokey_m`, `dokey_dfi`) depend on Unicode tables that are not part of this model.
- SortScan.DokeyGn: the exponent is not cut to the width of a C int; only numerals whose point is out of range anyway could tell.
- SortRun.Sort: reading files and the sizes of buffers; at least one line must fit in memory.
- EdTemp.Session: after a put has failed across blocks the answers are followed only as far as the next put; `EdTemp.TempFile.OpenedExactly` says when that one keeps the lines stored.
- EdLines.Index.Perform: the address parser and the text of lines; a command comes with its addresses and the tokens of its lines, and which lines match is given.
- EdLines.Global: dot after the fast path is stated as it comes out; it can differ from that of the general loop.
- Join.Join: `join(F1)` advances file 1 on file 2's count (lines 234-238 of join.c) and is not modelled; neither is the printing of fields. Every line is taken to have the join field: the pointer to a field that is missing is nil or left from an earlier line.
- SedCompile.Compiler.Compile: the parsing of a script into commands, and a `!` before `}` or a label, which would fall on the next command; limits on labels and nesting.
- SedRun.RunsAlike: the commands a, i, c, r, w, y and D; D's restart is not a branch of the script.
- SedSubst.Substitute: buffer limits, which the original reports without stopping.
- Ramfs.Server.Open: permission bits are one abstract check; times are not kept; the wrap-around of the 32-bit path counter is not modelled.
- Ramfs.Session: 9P marshalling and message sizes; a read that runs off the table ends the model's read, not the server.
- TarHeader.MkHdr: directories, links, GNU long names and numbers too wide for their fields.
- TarFile.Create: the header is made in a block of its own and then put into the buffer slot; a file that shrinks while it is stored.
- TarFile.Extract: resynchronisation after a bad checksum, compression, and `tar r`.
- Look.Locate: numeric comparison (`ncomp`), the limit on the length of a word, and the loop over standard input.
- Fcp.AllCopied: the workers are steps over a shared state, not processes; how the parent stops the others after a failure, and attributes of the copy.
- Regular expressions, UTF conversion, `convD2M` and locks are not part of this model; finite tables, option parsing and messages would add only easy members.
