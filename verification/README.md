# Verified models of the reverse index, the allocator and the shell

Three programs of the repository are modelled here and proved correct, each in its own group of modules.

**Reverse index (`p4`).** `FileReader` turns a binary file of documents into a text file of `word doc ` pairs and
counts the words; `FileSorter` sorts that file with a bounded buffer (sorted runs, then a k-way merge that seeks by byte
offset); `ReverseIndex` writes the index from the counts and the sorted stream; `Checker` computes the same index in
memory; `IndexReader` decodes it. The streams are modelled down to the `eof` and `fail` bits of formatted input and the
partial overwrite of a truncated binary read, so the statements about whole files hold for every sequence of bytes, not
only for well-formed ones; `CutFiles` says what any such sequence is read as. Numbers in binary files are little-endian,
as they lie in the memory of the machines the stress test generates files for. `std::sort` is an insertion sort on the same array; the ordered set keeps the program's own
equality, which looks at (word, document) only.

The merge is not lossless in general: two equal pairs in different runs collide in the set, and the word 2^64 - 1 ends
the loop. `RunSpec.SortIsExact` says exactly which inputs are sorted, `IndexLaws.SameBytes` says exactly on which of
those the program and the in-memory checker agree byte for byte, and `IndexLaws.SameBytesExactly` says it for all inputs.

**Allocator (`p1`).** `HeapModel` gives the operations on values; `HeapLaws`, `Compaction`, `HeapSpace` and `HeapTraces`
prove what they mean for the bytes a client sees; the class in `Allocator` works in place on the buffer, the free list
and the handle map and equals those operations call by call. Addresses are offsets into the buffer. In `mergeBlocks` the
last element of the list is compared with what lies behind the end iterator (`p1/allocator.cpp:123`); the model takes
that comparison to be false. The branch for `it == end()` is never reached, since the iterator is always that of the block
just inserted.

**Shell (`p5`).** `Lexer` is the two-cursor loop over a word, proved equal to a recursive leftmost-longest cut;
`LexerLaws` shows that this cut is the only canonical one and that printing and parsing are inverse. `CommandList` has
the syntax trees and two meanings for them: `Posix`, the left-associative AND-OR lists of section 2.9.3 of the
POSIX.1-2017 Shell Command Language, and `Actual`, what the program does. `CommandLaws` proves when the two agree and
which descriptors are left open. `Shell` is the evaluator, a class over a table of open descriptors and a set of
children (`KernelModel`), proved to run every well-formed list as `Actual` says. The wait status of the k-th process is
an arbitrary function of k.

A process killed by a signal is no success for `&&` and `||`, yet a list that ends with it answers 0
(`CommandLaws.StatusMeans`).

Where the programs do less than they seem to promise, the model keeps their behaviour and states the exact condition:

- a skipped pipeline loses only its first command, and an output redirection in front of a pipe is overridden
  (`CommandLaws.RunsAsTheLanguageSays` along a run, `CommandLaws.AlwaysAsTheLanguageSays` for a list as it is typed,
  `CommandLaws.SkippedPipelineRuns` and `CommandLaws.OutputIsOverridden` as the concrete cases);
- a skipped command with redirections still opens its files and never closes them (`CommandLaws.NothingKept`,
  `CommandLaws.NothingEverKept`, `CommandLaws.SkippedRedirectionIsKept`);
- a `realloc` that runs out of memory has already freed the block (`HeapLaws.ReallocIsLowestFit` says when,
  `HeapLaws.GrowingLosesTheBlock` is the concrete case);
- with a buffer of odd size a later `defrag` or `realloc` may have no room to copy to (`HeapTraces.RoomIffEven`,
  `HeapTraces.OddBufferRunsOutOfRoom`; the guards `HeapModel.ReallocFits` and `Compaction.DefragFits` say for each call
  whether it has);
- pairs the sort loses can change the index (`IndexLaws.LossReachesTheIndex`), and decreasing document ids make the
  program and the checker differ (`IndexLaws.DecreasingIdsDiffer`).

## Model

| member | source | states |
|---|---|---|
| `Decimal.ValueOfShow` | p4/filesorter.cpp:63 | A number written in decimal and read back is the same number. |
| `Decimal.DigitsOfShow` | p4/filesorter.cpp:63 | A written number has the digits of the number at base 10, the last one for the units, and no zero in front. |
| `Decimal.ValueByDigits` | p4/filesorter.cpp:53 | Read back, every digit counts with the power of 10 of its place. |
| `Decimal.BlanksAre` | p4/filesorter.cpp:53 | The blanks are space, tab, line feed, vertical tab, form feed and carriage return; also for the shell's words (p5/parser.cpp:29). |
| `PairText.SizeOfPermutation` | p4/filesorter.cpp:57-74 | Permuting pairs does not change the length of their text, which is why offsets taken in the unsorted file can be used in the partly sorted one. |
| `PairText.RenderAppend` | p4/filesorter.cpp:62-64 | The text of two lists in a row is the text of the joined list. |
| `TextStream.InStream.ReadU64` | p4/filesorter.cpp:53 | Formatted input of one number on any text: blanks skipped, an optional sign and all digits taken, `eof` and `fail` set, 0 or 2^64-1 stored on failure or overflow, a negative number wrapped, as the standard library does. |
| `TextStream.ScannedIsExtracted` | p4/filesorter.cpp:53 | A number that fits and stands without a sign is extracted as it is, and the stream stays good. |
| `TextStream.NumberExtracted` | p4/filesorter.cpp:53 | On any text: blanks, a sign or none, then digits: the number is stored, a negative one as its complement to 2^64; one that does not fit fails and stores 2^64-1; the stream stops behind the last digit. |
| `TextStream.NoNumberExtracted` | p4/filesorter.cpp:53 | Without a digit 0 is stored and the stream fails; with only blanks left the variable is kept. |
| `TextStream.InStream.ReadPair` | p4/filesorter.cpp:53 | If the next pairs lie ahead, exactly the first of them is read and the stream stops right behind it; at the end of the text the read fails and keeps the variables. |
| `TextStream.InStream.Tellg` | p4/filesorter.cpp:66-67 | The position, or -1 on a stream that has failed or reached its end, which also sets `fail`. |
| `TextStream.InStream.Seekg` | p4/filesorter.cpp:108 | Seeking clears `eof` but does not repair a failed stream. |
| `TextStream.InStream.Reopen` | p4/filesorter.cpp:112-113 | Closing and opening again gives a good stream at the start. |
| `TextStream.PairAhead` | p4/filesorter.cpp:53 | Two scans from the start of a rendered list give its first word and document and end in front of the next pair. |
| `PairOrder.SortSeqSorts` | p4/filesorter.cpp:58 | The sort ascends and permutes. |
| `PairOrder.SortedIsUnique` | p4/filesorter.cpp:34-36 | There is only one ascending arrangement of a multiset of pairs. |
| `PairOrder.StdSort` | p4/filesorter.cpp:77 | Sorting the first n cells in place leaves the ascending permutation there and the other cells untouched. |
| `MergeSpec.PushBlocked` | p4/filesorter.cpp:34-36 | Inserting a pair that is already in the set changes nothing: the whole run behind it is lost. |
| `MergeSpec.PushKeepsHeapOk` | p4/filesorter.cpp:105-116 | Inserting the head of an ascending run keeps the heads strictly ascending and unique, and the least head is the old least or the new one. |
| `MergeSpec.PopKeepsHeapOk` | p4/filesorter.cpp:124-135 | Taking the least pair and inserting its successor keeps the heap in order and strictly shrinks the number of unread pairs. |
| `MergeSpec.PopShrinks` | p4/filesorter.cpp:124-135 | Every step of the merge takes a pair away for good, whatever the set holds, so the loop ends on every input. |
| `MergeSpec.PopAdds` | p4/filesorter.cpp:124-137 | Without a collision one step removes exactly one copy of the least pair from the unread ones and nothing else. |
| `MergeSpec.DrainAscends` | p4/filesorter.cpp:184-209 | Whatever collides, the merged output ascends. |
| `MergeSpec.DrainInventsNothing` | p4/filesorter.cpp:184-209 | No pair is written more often than it was unread. |
| `MergeSpec.DrainIsExact` | p4/filesorter.cpp:98-138 | The merge writes every unread pair exactly as often as it occurs if and only if no pair is in two runs and no word is the end marker. |
| `MergeSpec.HeadsAreWritten` | p4/filesorter.cpp:98-138 | Whatever collides, a pair that is in the set is written, unless its word is the end marker. |
| `RunSpec.RunsAscend` | p4/filesorter.cpp:57-65 | Every run ascends. |
| `RunSpec.RunsPartition` | p4/filesorter.cpp:53-85 | The runs together hold every pair as often as the input. |
| `RunSpec.MergedAscends` | p4/filesorter.cpp:178-214 | For any input and buffer size the sorted file ascends and contains no pair more often than the input. |
| `RunSpec.SortIsExact` | p4/filesorter.cpp:98-138 | The sorted file is the ascending permutation of the input if and only if equal pairs share a buffer load and no word is 2^64-1. |
| `RunSpec.LeastOfLoadIsWritten` | p4/filesorter.cpp:105-138 | Whatever collides, the least pair of every buffer load is in the sorted file, unless its word is 2^64-1. |
| `RunLayout.BoundaryAppend` | p4/filesorter.cpp:66-73 | Adding a run leaves the earlier boundaries and puts the next one at the blank behind it. |
| `RunLayout.RunIsAhead` | p4/filesorter.cpp:108 | From boundary i of the unsorted file, exactly run i lies ahead in the partly sorted file, and it ends at boundary i + 1. |
| `RunLayout.NextPair` | p4/filesorter.cpp:127-135 | An offset at or past the recorded limit means the run is used up; one below it with nothing left can only be the trailing blank of the last run. |
| `RunLayout.RunReady` | p4/filesorter.cpp:106-116 | Every recorded start is below its limit, and the run is ahead there. |
| `RunLayout.ProgressStep` | p4/filesorter.cpp:57-65 | Flushing a sorted buffer adds one run to the file and keeps the rest of the input for the later ones. |
| `RunLayout.ProgressDone` | p4/filesorter.cpp:76-88 | At the end the file is the text of all runs and as long as the unsorted one. |
| `FileSorter.FileSorter.constructor` | p4/filesorter.cpp:216-225 | The memory is bounded: 16 bytes for every pair of the buffer make at most a 64th of the file and 192 bytes, and more than a 64th and 176; nothing has been read and the heap is unset. |
| `FileSorter.FileSorter.PartlySort` | p4/filesorter.cpp:46-95 | The partly sorted file is the text of the runs of the input, and the recorded starts and limits are their boundaries. |
| `FileSorter.FileSorter.ReadAll` | p4/filesorter.cpp:53-75 | After the reading loop all full runs are written and delimited, and the remaining pairs are in the buffer. |
| `FileSorter.FileSorter.BufferPair` | p4/filesorter.cpp:54-74 | One turn of the reading loop moves one pair from the input into the buffer or, if the buffer is full, into a new run. |
| `FileSorter.FileSorter.EndRun` | p4/filesorter.cpp:57-74 | A full buffer becomes a run, and the reading position is recorded as its limit and the next start. |
| `FileSorter.FileSorter.LastRun` | p4/filesorter.cpp:76-88 | A partly filled buffer becomes the last run; otherwise the start recorded too much is dropped. |
| `FileSorter.FileSorter.FlushTail` | p4/filesorter.cpp:77-85 | The last run ends at the end of the file, and starts and limits then delimit all runs. |
| `FileSorter.FileSorter.WriteRun` | p4/filesorter.cpp:62-64 | The buffered pairs are appended as text, in order. |
| `FileSorter.FileSorter.InsertNext` | p4/filesorter.cpp:128-134 | Seeking and reading inserts the first pair of what is left of a run, or, when nothing is left, reopens the stream and inserts nothing. |
| `FileSorter.FileSorter.InsertRead` | p4/filesorter.cpp:130 | The pair just read enters the set with the position behind it, or is dropped if the set has it already. |
| `FileSorter.FileSorter.InsertFirst` | p4/filesorter.cpp:107-115 | The first pair of one more run is loaded. |
| `FileSorter.FileSorter.FillHeap` | p4/filesorter.cpp:105-118 | The first call loads the first pair of every run. |
| `FileSorter.FileSorter.TakeLeast` | p4/filesorter.cpp:124-135 | The least entry is replaced by its successor in the same run, found by seeking to its stored offset. |
| `FileSorter.FileSorter.ReadOn` | p4/filesorter.cpp:127-135 | The pair that follows an entry in its run is inserted exactly when the run is not used up. |
| `FileSorter.FileSorter.GetMin` | p4/filesorter.cpp:98-138 | The least unread head is returned and removed; with none left the marker (2^64-1, 2^64-1) is returned. |
| `FileSorter.FileSorter.WriteMin` | p4/filesorter.cpp:185-204 | One turn writes the least unread pair and leaves the rest of the merge to be written, or stops at the marker with nothing left to write. |
| `FileSorter.FileSorter.WriteAll` | p4/filesorter.cpp:184-209 | The writing loop ends and has written everything the merge gives. |
| `FileSorter.FileSorter.MergeRuns` | p4/filesorter.cpp:183-209 | The loop ends and writes what the merge of the runs gives, up to the marker. |
| `FileSorter.FileSorter.Sort` | p4/filesorter.cpp:178-214 | The sorted file is the text of the merged runs of the input, for any number of runs. |
| `SorterBounds.AtMost256Runs` | p4/filesorter.cpp:216-225 | For every file size there are at most 256 runs, and the reserved capacity of both position vectors is never exceeded. |
| `SorterBounds.BufferIsBounded` | p4/filesorter.cpp:218-221 | For every file size the buffer holds the number of pairs that these two bounds leave. |
| `SorterBounds.ReservedIsBounded` | p4/filesorter.cpp:223-224 | The reserved capacity is two more than the number of times twice the buffer size goes into the file size. |
| `SorterBounds.HeapStaysSmall` | p4/filesorter.hpp:42 | The heap never holds more than 256 entries at any point of the merge. |
| `Bytes.DecodeOfEncode` | p4/reverse_index.cpp:38-46 | A number that fits is recovered from its little-endian bytes. |
| `Bytes.EncodeOfDecode` | p4/reverse_index.cpp:80-81 | Every byte string is the encoding of the number read from it. |
| `Bytes.EncodeByte` | p4/reverse_index.cpp:38-46 | The lowest byte comes first: byte i of a written number is its digit for 256 to the power i. |
| `Bytes.DecodeByte` | p4/filereader.cpp:26-31 | So it is in a number that was read. |
| `Bytes.ShortRead` | p4/filereader.cpp:26-31 | A read that gets k bytes replaces the variable modulo 256^k and keeps its quotient by 256^k. |
| `Bytes.BinStream.Read` | p4/filereader.cpp:26-31 | Binary input does that with as many bytes as are left and fails if there are too few. |
| `DocStream.FileStep` | p4/filereader.cpp:26-41 | Reading one record moves exactly its pairs from what is to come to what is done, also when the record is cut short. |
| `DocStream.PairsOfEncodedDocs` | p4/filereader.cpp:20-47 | A well-formed file gives exactly one pair per word of each document, in order. |
| `CutFiles.PairsOfCutFile` | p4/filereader.cpp:26-41 | Complete records and then a cut one: after the pairs of the documents, a cut count and a cut word have their missing high bytes from the number read before, and missing words repeat the last one; a cut id gives nothing. |
| `CutFiles.EveryFileIsCut` | p4/filereader.cpp:26-41 | Every sequence of bytes is of this kind. |
| `FileReader.FileReader.Read` | p4/filereader.cpp:20-47 | For every byte string the text is that of its pairs, and the counts are the multiplicities of the words among them. |
| `FileReader.FileReader.ReadRecord` | p4/filereader.cpp:28-40 | What follows a document id is read as the rest of its record, cut short or not. |
| `FileReader.FileReader.ReadDocument` | p4/filereader.cpp:28-40 | One record's words are appended as pairs and counted. |
| `FileReader.FileReader.AddPair` | p4/filereader.cpp:33-38 | One pair is appended and its word counted once. |
| `WordIndex.AscendingIncreases` | p4/reverse_index.cpp:37 | The map is walked in strictly increasing order of words. |
| `WordIndex.SortedDocs` | p4/reverse_index.cpp:58-65 | Sorting keeps the number of documents of a word and puts them in order; it keeps the list itself if and only if that was nondecreasing. |
| `WordIndex.TablesAgree` | p4/stress_test.py:30 | The table cut from the sorted pairs and the one collected in memory have the same shape, and are equal if and only if every word's documents come in nondecreasing order. |
| `WordIndex.GroupFirst` | p4/reverse_index.cpp:61-64 | In a sorted stream the pairs of the least word are a prefix, as long as its count. |
| `IndexFormat.OffsetsAreExact` | p4/reverse_index.cpp:35-48 | For every entry, the offset in the header is the position of its posting list in the file (modulo 2^64), and there stand its 32-bit count and its documents, 8 bytes each. |
| `IndexFormat.ListsFollow` | p4/reverse_index.cpp:35-65 | The first list is right behind the terminator, each other one right behind the one before it, and the last one ends the file. |
| `IndexFormat.TerminatorAt` | p4/reverse_index.cpp:51-53 | Behind the last header entry there are 16 zero bytes. |
| `IndexFormat.IndexInjective` | p4/reverse_index.cpp:35-65 | Two tables of the same shape with the same bytes are equal. |
| `IndexWriter.WriteHeader` | p4/reverse_index.cpp:35-53 | The loop over running offsets writes every word with its offset, then the terminator; checker.cpp:43-60 repeats it. |
| `IndexWriter.OffsetAdvances` | p4/reverse_index.cpp:44 | The 64-bit running offset is the true offset modulo 2^64 at every step. |
| `Checker.Check` | p4/checker.cpp:24-73 | For every input the checker writes the index of the table of documents per word in input order. |
| `Checker.ReadInput` | p4/checker.cpp:30-39 | The dictionary lists, for every word, its documents in input order with repetitions. |
| `Checker.WritePostings` | p4/checker.cpp:63-69 | Every list is written as its length and its documents. |
| `ReverseIndex.CutIsAligned` | p4/reverse_index.cpp:58-65 | A loop that ignores the word it reads still takes every word's own documents, provided the stream delivers them in the order of the words. |
| `ReverseIndex.CutIsInput` | p4/reverse_index.cpp:58-65 | Whatever the stream is, the lists cut from it are those of the input if and only if the documents read from it, in a row, are. |
| `ReverseIndex.CutRow` | p4/reverse_index.cpp:58-65 | Whatever is read, every word gets one list, as long as its count. |
| `ReverseIndex.SortedIsGrouped` | p4/reverse_index.cpp:58-65 | An ascending stream consists of one group per word, in the order of the words: each word finds pairs with that very word and its documents next, and the last word leaves nothing. |
| `ReverseIndex.GroupsFillTheStream` | p4/reverse_index.cpp:58-65 | Reading all groups ends exactly at the end of the stream. |
| `ReverseIndex.GroupIsOwn` | p4/reverse_index.cpp:61-64 | Read number m for word i, counted from the start over all groups before it, finds word i with its m-th document. |
| `ReverseIndex.GroupedDelivers` | p4/reverse_index.cpp:58-65 | A stream of groups delivers the documents of the words in order. |
| `ReverseIndex.CountsFillTheStream` | p4/reverse_index.cpp:58-65 | The counts gathered while reading the input add up to the length of the sorted stream. |
| `ReverseIndex.CountedRowIsOwn` | p4/reverse_index.cpp:61-64 | The same place, found by the counts of the input: read number m for row i carries the row's word and its m-th document. |
| `ReverseIndex.IndexOfSorted` | p4/reverse_index.cpp:58-65 | On the sorted pairs the posting loop yields the table of the sorted input. |
| `ReverseIndex.WriteList` | p4/reverse_index.cpp:59-64 | One list: the count modulo 2^32, then as many documents as counted, repeating the last one read if the stream has ended. |
| `ReverseIndex.CopyDocs` | p4/reverse_index.cpp:61-64 | The inner loop copies as many documents as counted. |
| `ReverseIndex.WritePostings` | p4/reverse_index.cpp:55-65 | All lists, cut from the sorted stream by the counts alone. |
| `ReverseIndex.MakeReverseIndex` | p4/reverse_index.cpp:18-72 | For every byte string the whole program writes the index of its pairs as sorted externally and cut by the counts. |
| `IndexLaws.SameBytes` | p4/stress_test.py:30 | On every input the external sort keeps, program and checker write the same bytes if and only if every word's documents come in nondecreasing order. |
| `IndexLaws.SameBytesExactly` | p4/stress_test.py:30 | Without any condition on the input: program and checker write the same bytes if and only if the documents read from the sorted file, the last one repeated once it has ended, are the documents of all words in input order. |
| `IndexLaws.StreamIsUsedUp` | p4/reverse_index.cpp:58-65 | On every input, the program takes exactly as many pairs as the sorted file has if and only if the sort was exact. |
| `IndexLaws.WordsStayInStep` | p4/reverse_index.cpp:61-64 | After an exact sort, the word of every pair read, which the program ignores, is the word whose list it writes, and its document the next one of that list. |
| `IndexLaws.WellFormedInput` | p4/reverse_index.cpp:18-72 | For strictly increasing ids, no repeated word in a document and words below 2^64-1, program and checker write the same bytes. |
| `IndexLaws.IndexOfExactSort` | p4/reverse_index.cpp:18-72 | On every input the external sort keeps, the output is the index of the sorted table. |
| `IndexLaws.OffsetPointsAtList` | p4/reverse_index.cpp:35-65 | On every input, the program's header holds the k-th word and the exact position of its list. |
| `IndexLaws.OffsetPointsAtSortedList` | p4/reverse_index.cpp:35-65 | When the sort is exact, the list there is the word's sorted one. |
| `IndexLaws.PostingListOf` | p4/reverse_index.cpp:58-65 | A word's list is as long as its count, nondecreasing, and holds exactly the documents that contain the word. |
| `IndexLaws.DuplicateAcrossRunsIsLost` | p4/filesorter.hpp:42 | A file with thirteen copies of a one-word document has thirteen pairs, of which the sort keeps twelve. |
| `IndexLaws.MarkerEndsTheSort` | p4/filesorter.cpp:195-202 | A file whose one word is 2^64-1 has one pair, the sort writes nothing, and the index lists the value the document variable happens to have. |
| `IndexLaws.LossReachesTheIndex` | p4/reverse_index.cpp:58-65 | A file whose second run collides with the first: in the same row the program lists document 0 under word 1 where the checker lists document 7, and the files differ. |
| `IndexLaws.DecreasingIdsDiffer` | p4/stress_test.py:30 | Two documents with a common word and decreasing ids make program and checker differ. |
| `IndexLaws.ReadBack` | p4/reverse_index.cpp:74-102 | If the program's output has counts below 2^32 and fewer than 2^64 bytes, the decoder may run on it and finds the rows and lists of the table the program wrote, and nothing else. |
| `IndexLaws.ReadBackSorted` | p4/reverse_index.cpp:18-102 | If the sort was exact too, those are the words with their documents in ascending order. |
| `IndexReader.PrintReadable` | p4/reverse_index.cpp:74-102 | From an index file with counts below 2^32 and fewer than 2^64 bytes the decoder gets rows and lists whose index is that very file, the terminator row last. |
| `IndexReader.DecodedIsTable` | p4/reverse_index.cpp:74-102 | Decoding the index of a table gives the rows and the lists of that table, and only those. |
| `IndexReader.IndexIsUnique` | p4/reverse_index.cpp:35-65 | Such a file is the index of one table only, so what the decoder finds is what was written. |
| `IndexReader.RowsNext` | p4/reverse_index.cpp:79-88 | No real row is taken for the terminator, even for word 0. |
| `IndexReader.RowOrEnd` | p4/reverse_index.cpp:84-86 | A row that is read is all zero exactly when no word is left. |
| `FreeList.FirstFitIsLowest` | p1/allocator.cpp:137-144 | On a coalesced list, first fit finds the block of the lowest run of n free bytes. |
| `FreeList.SplitSpaced` | p1/allocator.cpp:64-71 | Splitting keeps the list sorted with gaps between neighbours. |
| `FreeList.SplitCovers` | p1/allocator.cpp:64-71 | Splitting takes exactly the n bytes at the front of the block. |
| `FreeList.JoinSpaced` | p1/allocator.cpp:107-130 | Inserting a block and merging it with the neighbours it touches restores the gaps. |
| `FreeList.JoinCovers` | p1/allocator.cpp:107-130 | Merging neither loses nor adds a free byte. |
| `FreeList.ReleaseKeeps` | p1/allocator.cpp:77-130 | Releasing a block makes exactly its bytes free and keeps the list coalesced. |
| `FreeList.Canonical` | p1/allocator.cpp:77-130 | Two coalesced lists that cover the same bytes are the same list, up to a trailing empty block. |
| `FreeList.SplitThenRelease` | p1/allocator.cpp:64-130 | Splitting a block and releasing the part restores the list exactly. |
| `HeapModel.InitIsOk` | p1/allocator.cpp:37-45 | A new allocator satisfies the invariant for every buffer, also one of odd size; its first half is free and the bytes are those of the buffer. |
| `HeapModel.AllocKeepsOk` | p1/allocator.cpp:132-146 | Allocation keeps: every byte of the active half in exactly one free or live block, the list sorted with strict gaps. |
| `HeapModel.FreeKeepsOk` | p1/allocator.cpp:157-165 | So does freeing. |
| `HeapLaws.FirstFitMeansLowestFit` | p1/allocator.cpp:137-144 | First fit over the list is lowest fit over the bytes, and finds nothing only when no n bytes in a row are free. |
| `HeapLaws.AllocIsLowestFit` | p1/allocator.cpp:132-146 | For N > 0, NoMemory exactly when no N consecutive bytes are free; otherwise a fresh handle to the lowest such place, everything else unchanged. |
| `HeapLaws.FreeUndoesAlloc` | p1/allocator.cpp:132-165 | Freeing what was just allocated restores the whole state except the id counter. |
| `HeapLaws.FreeListIsCanonical` | p1/allocator.cpp:77-130 | The free list is determined by the live bytes alone, up to a trailing empty block. |
| `HeapLaws.AllFreed` | p1/allocator.cpp:157-165 | With no live handle left, in whatever order they went, one block covers the whole half. |
| `HeapLaws.AllocKeepsView` | p1/allocator.cpp:132-146 | Allocation changes no byte seen through a live handle; asking for 0 bytes gives a null handle, no error and no change. |
| `HeapLaws.FreeKeepsView` | p1/allocator.cpp:157-165 | Freeing removes one handle, makes it null and changes no byte; freeing a dead or null handle changes neither heap nor handle, and InvalidFree never occurs. |
| `HeapLaws.ReallocKeepsView` | p1/allocator.cpp:167-179 | A successful realloc keeps the first min(old, new) bytes and all other handles' bytes; a failed one, or one to size 0, loses the old block and nothing else. |
| `HeapLaws.ReallocIsLowestFit` | p1/allocator.cpp:167-179 | realloc to N > 0 throws NoMemory if and only if, before the call, no N bytes in a row are free or in the block itself; otherwise the block goes to the lowest such place. |
| `HeapLaws.ReallocOfNothing` | p1/allocator.cpp:168-171 | realloc of a null or dead handle allocates: NoMemory if and only if no N bytes in a row are free, and then handle and heap are unchanged; otherwise the handle gets the lowest such place and all other views stay; for N = 0 it becomes null. |
| `HeapLaws.ReallocToNothing` | p1/allocator.cpp:172-178 | realloc of a block to 0 bytes frees it and nothing else, without an error. |
| `HeapLaws.GrowingLosesTheBlock` | p1/allocator.cpp:174-175 | On a new allocator, a block that fills its half is lost when one byte more is asked for. |
| `HeapLaws.ShrinkInPlaceOrLower` | p1/allocator.cpp:167-179 | realloc to 0 < N <= old size never fails and never moves the block up. |
| `Compaction.DefragKeepsOk` | p1/allocator.cpp:183-198 | defrag keeps the invariant, in the other half. |
| `Compaction.DefragKeepsView` | p1/allocator.cpp:183-198 | Every handle sees the same bytes after defrag. |
| `Compaction.DefragPacks` | p1/allocator.cpp:187-192 | Each block lands at the new base plus the sizes of all blocks with smaller ids, and apart from every source block; the handles and the id counter stay. |
| `Compaction.DefragLeavesSources` | p1/allocator.cpp:187-192 | The bytes of the half that was active stay as they are. |
| `Compaction.DefragMakesRoom` | p1/allocator.cpp:193-196 | After defrag, alloc(N) succeeds if and only if N is at most the half minus the live bytes. |
| `HeapSpace.SpaceIsConserved` | p1/allocator.cpp:37-198 | Free bytes plus live bytes are the size of the active half. |
| `HeapSpace.EvenHalvesSuffice` | p1/allocator.cpp:42-43 | With equal halves realloc and defrag always have room to copy. |
| `HeapTraces.StepKeepsOk` | p1/allocator.cpp:132-198 | Every operation, also a failing one, keeps the invariant and the pair of halves. |
| `HeapTraces.StepSpares` | p1/allocator.cpp:132-198 | No operation on other handles changes what a live handle sees. |
| `HeapTraces.RunSpares` | p1/allocator.cpp:132-198 | The same over any sequence of operations that has room to copy, on halves of any size. |
| `HeapTraces.WriteShows` | p1/allocator.cpp:24-26 | A byte written through a handle is seen through it, at its place. |
| `HeapTraces.RunConservesSpace` | p1/allocator.cpp:37-198 | From a new allocator over any buffer, every sequence of operations that has room to copy keeps the invariant, the two halves, and the sum of free and live bytes. |
| `HeapTraces.EvenRunConservesSpace` | p1/allocator.cpp:37-198 | Over an even buffer, every sequence of operations has that room and keeps them. |
| `HeapTraces.OddBufferRunsOutOfRoom` | p1/allocator.cpp:42-43 | For every odd size: after a defrag, a block that fills the larger half fits the other half neither for defrag nor for realloc. |
| `HeapTraces.RoomIffEven` | p1/allocator.cpp:42-43 | Every run of operations on a new allocator always has room to copy if and only if the size of the buffer is even. |
| `Allocator.Allocator.constructor` | p1/allocator.cpp:37-45 | The first half is active and free, ids start at 1. |
| `Allocator.Allocator.SplitBlock` | p1/allocator.cpp:64-71 | The block loses its first N bytes, or disappears if they were all. |
| `Allocator.Allocator.ExtendBlock` | p1/allocator.cpp:73-75 | The block grows by N bytes at its end. |
| `Allocator.Allocator.FindNearestFreeBlock` | p1/allocator.cpp:77-88 | The first free block at or behind the end of the handle's block. |
| `Allocator.Allocator.AddFreeBlock` | p1/allocator.cpp:90-98 | The handle's block is inserted in front of that one. |
| `Allocator.Allocator.Merge2Blocks` | p1/allocator.cpp:100-105 | Two neighbours become one block. |
| `Allocator.Allocator.MergeBlocks` | p1/allocator.cpp:107-130 | The inserted block is merged with exactly the neighbours it touches. |
| `Allocator.Allocator.Alloc` | p1/allocator.cpp:132-146 | The in-place search and split have the effect, result and failure of allocation on values. |
| `Allocator.Allocator.ErasePointer` | p1/allocator.cpp:148-154 | The handle is removed; InvalidFree if there was none. |
| `Allocator.Allocator.Free` | p1/allocator.cpp:157-165 | Insert, merge and erase have the effect of freeing on values. |
| `Allocator.Allocator.Memcpy` | p1/allocator.cpp:173 | Bytes are copied between places that do not overlap. |
| `Allocator.Allocator.Realloc` | p1/allocator.cpp:167-179 | Save, free, allocate and copy back have the effect of reallocation on values. |
| `Allocator.Allocator.Save` | p1/allocator.cpp:172-174 | The block is copied to the other half and freed. |
| `Allocator.Allocator.CopyBack` | p1/allocator.cpp:176-178 | The saved bytes are copied into the new block. |
| `Allocator.Allocator.CopyBlock` | p1/allocator.cpp:188-191 | One turn of the loop packs the block of the next id behind the ones before it. |
| `Allocator.Allocator.Defrag` | p1/allocator.cpp:183-198 | Copying in order of ids and swapping the halves has the effect of compaction on values. |
| `Lexer.TypeOfSpelling` | p5/parser.cpp:15-23 | Exactly the six operator spellings have a type of their own. |
| `Lexer.LexemParser.constructor` | p5/parser.cpp:13 | A parser starts with its input and no lexems. |
| `Lexer.LexemParser.Parse` | p5/parser.cpp:25-60 | The stream loop appends the leftmost-longest cut of every blank-separated word. |
| `Lexer.LexemParser.ParseWord` | p5/parser.cpp:31-58 | The two cursors give the leftmost-longest cut of one word. |
| `Lexer.LexemParser.FindOperator` | p5/parser.cpp:35-53 | Two characters are tried before one; 0 if no operator starts here. |
| `Lexer.LexemParser.PushOperator` | p5/parser.cpp:39-47 | The pending argument, if it is not empty, and the operator are appended. |
| `Lexer.LexemParser.PushRest` | p5/parser.cpp:55-59 | What is left at the end of the word becomes an argument. |
| `LexerLaws.TheOnlyCut` | p5/parser.cpp:33-54 | A list of lexems is the cut of a word if and only if it spells the word and no lexem could be longer. |
| `LexerLaws.FirstWordIsCut` | p5/parser.cpp:29-59 | What a line yields for its first word is the one canonical cut of that word, followed by what the rest yields. |
| `LexerLaws.TheOnlyTokens` | p5/parser.cpp:25-60 | The lexems of a line are the only list made of one canonical cut for each blank-separated word. |
| `LexerLaws.TokensSpellTheLine` | p5/parser.cpp:25-60 | The texts of the lexems are the line without its blanks. |
| `LexerLaws.TokensAreParsed` | p5/parser.cpp:25-60 | No lexem is empty or holds a blank, no argument holds an operator character, and every type fits its text. |
| `LexerLaws.ParseOfSpaced` | p5/parser.cpp:25-60 | Printing lexems with blanks between them and parsing the line gives the same lexems. |
| `LexerLaws.ParsedIsExact` | p5/parser.cpp:25-60 | The lists the parser can return are exactly those that survive printing and parsing. |
| `KernelModel.FreeFd` | p5/runshell.cpp:51 | A new descriptor is the lowest one not in use. |
| `KernelModel.FilesGetLowest` | p5/runshell.cpp:49-68 | An opened file takes the lowest free descriptor, which becomes the call's input or output. |
| `KernelModel.PipeEnds` | p5/runshell.cpp:223-225 | The read end of a pipe takes the lowest free descriptor and the write end the next free one. |
| `KernelModel.ExecTable` | p5/runshell.cpp:88-96 | In the child, descriptors 0 and 1 are the call's, and the copies are closed. |
| `KernelModel.RedirectIsReady` | p5/runshell.cpp:49-68 | After its redirections a call reads and writes what they say, and the descriptors they replaced are counted as kept. |
| `KernelModel.LaunchLast` | p5/runshell.cpp:247-253 | Starting a command and closing its descriptors leaves none of them behind. |
| `KernelModel.LaunchFeeder` | p5/runshell.cpp:223-241 | After starting a stage in front of a pipe only the read end is left for the next stage. |
| `KernelModel.DropFeeder` | p5/runshell.cpp:227-234 | The same when the stage is skipped. |
| `KernelModel.SkippedKeeps` | p5/runshell.cpp:172-187 | A single command that is skipped keeps every descriptor its redirections opened. |
| `Shell.Shell.constructor` | p5/runshell.cpp:117-122 | A new shell reads from 0, writes to 1 and has no children. |
| `Shell.Shell.ReadWords` | p5/runshell.cpp:35-43 | The words up to the next operator become the argument vector. |
| `Shell.Shell.NewCall` | p5/runshell.cpp:32-69 | Exactly one command's lexems are consumed, with a `&` directly after its words, and its files are opened in order. |
| `Shell.Shell.CalcCommand` | p5/runshell.cpp:206-217 | The command is started and waited for, and its status taken. |
| `Shell.Shell.CalcAnd` | p5/runshell.cpp:172-187 | The same after a success, otherwise nothing but the open files. |
| `Shell.Shell.CalcOr` | p5/runshell.cpp:189-204 | The same after a failure. |
| `Shell.Shell.RunSingle` | p5/runshell.cpp:285-291 | A command that is no pipeline is run as the operator before it says. |
| `Shell.Shell.FeedPipe` | p5/runshell.cpp:223-241 | A pipe is made, the stage before it started unless it is to be skipped, and only the read end is held. |
| `Shell.Shell.NewPipe` | p5/runshell.cpp:223-225 | The call writes to the new pipe, whose read end is remembered. |
| `Shell.Shell.NextStage` | p5/runshell.cpp:223-245 | The next stage's call reads from the pipe just made. |
| `Shell.Shell.WaitStages` | p5/runshell.cpp:255-263 | The stages are waited for in order; the last one's status counts; none of them remains a child. |
| `Shell.Shell.CalcPipeline` | p5/runshell.cpp:219-267 | The whole pipeline is started, or all but its first stage if the operator before it forbids it, then waited for; the children are as before. |
| `Shell.Shell.RunItem` | p5/runshell.cpp:280-291 | One pass of the main loop consumes one pipeline and has the effect of one step of the program's semantics. |
| `Shell.Shell.CalcCalls` | p5/runshell.cpp:270-303 | Every lexem is consumed, the loop ends, the run is the one the program's semantics gives, its last status is returned: if the last process exited with code c the answer is c, and 0 if a signal killed it; no child is left and no descriptor of before is lost. |
| `Shell.Shell.RunLine` | p5/runshell.cpp:316-331 | The same for a foreground line of text, through the lexer. |
| `CommandLaws.ListIsLeftAssociative` | p5/runshell.cpp:279-300 | The reference semantics of a list is that of the tree in which every operator has the whole list before it as its left operand. |
| `CommandLaws.StatusMeans` | p5/runshell.cpp:113-115 | A wait status is a success exactly if the process exited with code 0; the answer is the exit code, and 0 after a signal. |
| `CommandLaws.SecondRunsAfter` | p5/runshell.cpp:172-204 | `a && b` starts b exactly if a exited with code 0, `a \|\| b` exactly if it did not, for every exit code and signal. |
| `CommandLaws.AnswerAfter` | p5/runshell.cpp:302 | A list answers with the exit code of its last process, and with 0 if a signal killed that. |
| `CommandLaws.RunsAsTheLanguageSays` | p5/runshell.cpp:219-303 | The program's run equals the language's if and only if every pipeline the language skips is one command without redirections and no command run in front of a pipe redirects its output. |
| `CommandLaws.AlwaysAsTheLanguageSays` | p5/runshell.cpp:219-303 | Before anything is run: the two agree for all exit statuses if and only if no feeding command of the first pipeline redirects its output and everything after it is single commands without redirections. |
| `CommandLaws.BareListsAgree` | p5/runshell.cpp:270-303 | Lists without pipes and redirections always run exactly the commands the left-associative reading selects. |
| `CommandLaws.PipeFreeListsAgree` | p5/runshell.cpp:270-303 | Lists without pipes, whatever they redirect, run exactly the processes the left-associative reading selects, on the same streams, and give the same answer. |
| `CommandLaws.SkippedPipelineRuns` | p5/runshell.cpp:227-234 | After a failure, the right side `a \| b` of an AND still runs b, on a pipe nobody writes to, and answers with its status. |
| `CommandLaws.OutputIsOverridden` | p5/runshell.cpp:223-225 | In `a > f \| b` the program starts a with its output on the pipe, the language with its output on the file; everything else is the same. |
| `CommandLaws.PipelineWiring` | p5/runshell.cpp:219-253 | A pipeline of n commands opens n - 1 pipes and starts n processes; process i reads its own redirection or else the pipe process i - 1 writes. |
| `CommandLaws.PipelineRun` | p5/runshell.cpp:219-263 | A pipeline starts its processes wired in a row and waits for all of them in order, and does nothing else but open files. |
| `CommandLaws.SkippedPipelineRest` | p5/runshell.cpp:227-263 | A skipped pipeline of any length does the same with all commands but its first, the next one reading a pipe nobody writes to. |
| `CommandLaws.ThreeRedirections` | p5/runshell.cpp:49-68 | `c < f > g < h` opens f, g and h in that order, reads h and writes g. |
| `CommandLaws.InputRedirection` | p5/runshell.cpp:49-54 | `c < f` reads f and writes to the shell's output. |
| `CommandLaws.OutputRedirection` | p5/runshell.cpp:56-61 | `c > g` reads the shell's input and writes g. |
| `CommandLaws.AnswerIsLastStatus` | p5/runshell.cpp:302 | A list answers with the status of the last process it started. |
| `CommandLaws.CountActual` | p5/runshell.cpp:49-68 | The program opens every file a pipeline names, run or skipped. |
| `CommandLaws.NothingKept` | p5/runshell.cpp:79-86 | A run leaves no descriptor open if and only if no skipped single command is redirected and no descriptor is replaced by another. |
| `CommandLaws.NothingEverKept` | p5/runshell.cpp:79-86 | Before anything is run: no descriptor is left open for any exit statuses if and only if all pipelines are tidy and all later single commands are without redirections. |
| `CommandLaws.SkippedRedirectionIsKept` | p5/runshell.cpp:172-187 | After a failure, `a > file` on the right of an AND opens and empties the file and leaves its descriptor open. |
| `CommandLaws.BareListsKeepNothing` | p5/runshell.cpp:219-267 | Without redirections nothing is left open, whatever is skipped. |
| `ShellLaws.TableIsRestored` | p5/runshell.cpp:270-303 | The shell's table of descriptors is the same after a list as before it if and only if the run was tidy in that sense. |
| `ShellLaws.ListCanBeTyped` | p5/runshell.cpp:318-320 | Every list whose words can be typed has a line that the lexer turns into exactly its lexems. |
| `ShellLaws.TypedLine` | p5/runshell.cpp:318-320 | Words, `<`, `>`, `\|`, `&&`, `\|\|` and `&`, typed in the order of the list, are turned into exactly the lexems of the list. |
| `ShellLaws.PrintingIsInjective` | p5/runshell.cpp:270-303 | No two command lists have the same lexems, so the lexems say which list is run. |

## Left out

- IndexReader.PrintReadable: requires an index file with counts below 2^32 and fewer than 2^64 bytes, because the writer truncates the counts and wraps the offsets; on other files its loop need not end.
- FileSorter.FileSorter.Sort: requires the unsorted file to be the text of a list of pairs, which is what the reader writes.
- Allocator.Allocator.Realloc: requires that the block fits the spare half, since the copy would otherwise leave the buffer; with an even buffer it always fits.
- Allocator.Allocator.Defrag: requires that the live bytes fit the other half, for the same reason.
- Allocator.Allocator.MergeBlocks: takes the comparison with what lies behind the end iterator to be false.
- Shell.Shell.CalcCalls: requires a list that is printed from a tree; words after a redirection, a missing file name, an empty command or a `&` in the middle are not modelled.
- Shell.Shell.NewCall: requires the lexems of one command, for the same reason.
- Shell.Shell.RunLine: covers foreground lines; that a background line runs in a forked copy of the shell, and the watching and reporting of such copies, are not modelled.
- Shell.Shell.RunItem: leaves out the report on finished background processes between two commands.
- Files on disk: opening, closing, removing, flushing and failures of real files; a file is its contents and a position.
- Failures of `open`, `pipe`, `fork`, `exec` and `dup2`, signals and the interrupt handler.
- Children inherit all open descriptors of the shell; who else could write to a pipe is not modelled.
- The inner working of `std::sort`, `std::map`, `std::set` and `std::list`; the set keeps the program's equality, and the allocator's list is a sequence, so iterators are indices.
- Memory limits: vectors, strings and counters other than the 64-bit offsets and 32-bit counts are unbounded; the id counter of the allocator does not wrap.
- Handles of another allocator and a null buffer.
- `Allocator::dump`, which is declared but not defined.
- The chat programs (`p2`) and the proxy (`p3`): socket plumbing around library calls.
- Build files, generators and the vendored test library.
