# Verified cores of sandal

A Dafny model of the algorithmic cores of the sandal container runtime, with proofs of what they are
for. `dafny verify dfyconfig.toml` checks the whole project.

- **The zstd block decoder** (`Options`, `Arith`, `BitStreams`, `Codewords`, `FseSpread`, `FseTable`, `FseHeader`,
  `FseEncode`, `Huffman`, `HuffmanStream`, `Windows`, `SeqCopy`, `SeqTables`, `SeqDefaults`, `Sequences`, `SeqOutput`,
  `SeqReaders`, `SeqEncode`, `SeqRoundTrip`, `XxHash`, `XxReference`, `XxPublished`). It reads FSE distributions, builds
  FSE and Huffman tables, reads three interleaved FSE streams backwards and executes sequences against a ring
  buffer. Byte streams are natural numbers; every reader is proved to return the bits of that number, every table to
  be the one section 4 of RFC 8878 describes, and the sequence loop to agree, on every input, with a reference
  that copies one byte at a time. What the bits mean is fixed by encoders written from the standard:
  distributions, Huffman messages and lists of sequences with their repeat offsets are read back as what was
  written. The checksum equals a second definition over natural numbers, lane by lane.
- **The squashfs writer** (`SquashBytes`, `SquashMeta`, `SquashInode`, `SquashDir`, `SquashData`,
  `SquashFrags`, `SquashTree`, `SquashRead`, `SquashWalk`, `SquashBuild`, `SquashFixups`, `SquashCount`,
  `SquashSizes`, `SquashSuper`, `SquashSteps`, `SquashWriter`). A tree goes out bottom-up; the two metadata tables refer
  to each other through placeholders that a fixup pass overwrites in place. The space a tree takes is a function
  of the tree, the block size and the place it is written to. For every tree whose sizes, computed that way
  before anything is written, leave all positions room in their fields, a reader that starts from the first byte of
  the file and follows references gets the tree back: names, kinds, nesting, attributes, link targets and file
  contents. The compressor is a pair of functions with `decompress(compress(s)) == s`.
- **The controller's generation protocol** (`GenProtocol`, `Controller`). A transition system with reads that
  are applied late, and the container list as a class whose lookups show the first record of each name.
- **The DHCPv6 lease loop** (`LeaseLoop`, `LeaseTimely`), **the ext4 formatter's block accounting** (`Ext4`) and **the nested
  DHCPv6 option codec** (`Dhcp6`, `Dhcp6Nest`).

Things the code does that a caller may not expect are stated with their exact condition:

- a reverse read is exact exactly when its width and the bits it leaves buffered fit 32 bits, so always up to 25
  bits (`BitStreams.ReadIsExactIff`); outside that the reader misreads a stream of every length
  (`BitStreams.WideReadLosesBits`). In the sequence loop that cannot be observed, because such an offset lies
  beyond the window (`Sequences.WideOffsetFails`);
- the check that the walk over an FSE table ends at cell 0 passes exactly when the counts go round the free cells a
  whole number of times, not only once (`FseSpread.LapPosition`, `FseTable.OverfullCloses`); `readFSE` excludes the rest
  by counting the cells (`FseHeader.CellsAreConserved`);
- a distribution is only read where 16 bits are left at its last count (`FseHeader.AcceptedIff`), so a complete one
  that lies inside the data can be rejected (`FseHeader.ShortHeaderIsRejected`);
- a complete Huffman code without a longest code is rejected (`Huffman.RejectedIff`, `Huffman.TwosAreRejected`), and
  a literal stream need not be used up (`HuffmanStream.CarriedIsRead`). One that carries too few symbols is read on
  into the two bytes before it, and accepted exactly when these hold the missing codes
  (`HuffmanStream.CarriedThenBefore`, `HuffmanStream.MarkerYieldsSymbols`);
- `execSeqs` accepts a stream of which whole bytes are left unread: any bytes may be put in front of an accepted
  stream (`SeqReaders.StrayBytesAreIgnored`, `SeqReaders.StrayByteIsAccepted`);
- a generation of 2^64 - 1 wraps to 0 (`GenProtocol.SetRises`, `GenProtocol.TopGenerationWraps`);
- a state file under another container's name is loaded over that container's entry by a reconcile when its record
  is newer, and the name of the file itself stays out of memory (`Controller.MisnamedFileOverwrites`). Entries keep
  their records exactly when no file without an entry overwrites them (`Controller.SurvivesIff`), and the names in
  memory become those on disk exactly when these files are configs under each other's names
  (`Controller.NamesMatchIff`);
- a daemon that starts on a directory with two configs of one Name lists the container twice
  (`Controller.DirListRefinesIff`, `Controller.DirListMayRepeat`). From such a list a delete leaves the name when it is
  listed more than once (`Controller.DroppedNames`), and can change the record that another name shows
  (`Controller.DroppedOther`, `Controller.DropShowsOther`);
- the default for T2 overflows for lifetimes above 2^61 ns, the infinite lifetime among them
  (`LeaseLoop.DefaultsAreIntended`, `LeaseLoop.InfiniteLifetimeLosesT2`), and with a T2 beyond the lifetime, and only
  then, there is a run that renews a lease that has ended (`LeaseLoop.RenewsInLifetimeIff`,
  `LeaseLoop.RenewsEndedLease`);
- the number of ext4 groups wraps to 1 above 2^32 - 32768 blocks (`Ext4.GroupsCover`), and the descriptor of a
  group 0 without room for its metadata claims 65535 free blocks (`Ext4.DescriptorsAreRight`,
  `Ext4.SmallImageClaimsBlocks`);
- a DHCPv6 option of 65536 bytes or more does not survive marshalling (`Dhcp6.RoundTripIff`,
  `Dhcp6.LongOptionIsLost`), and an IA or a prefix whose nested options are cut off is read without an error
  (`Dhcp6.IABytesRoundTrip`, `Dhcp6.PrefixBytesRoundTrip`, `Dhcp6.IALosesByte`, `Dhcp6.PrefixLosesByte`).

## Model

| member | source | states |
|---|---|---|
| `FseSpread.WalkIsPermutation` | pkg/lib/zstd/fse.go:168-179 | the step 5/8 of the table plus 3 is odd, so the first t steps of the walk visit t different cells: the walk is a permutation of a table of 2^k cells |
| `FseSpread.PlaceLows` | pkg/lib/zstd/fse.go:153-166 | every symbol of count -1 gets exactly one cell, from the top of the table down and in symbol order |
| `FseSpread.FreshCell` | pkg/lib/zstd/fse.go:168-179 | until all counts are dealt out the walk stands on a cell that has not been written |
| `FseSpread.LapPosition` | pkg/lib/zstd/fse.go:168-182 | after n placements, in however many rounds, the walk stands on cell 0 exactly when n is a multiple of the cells that low-probability symbols left |
| `FseSpread.Spread` | pkg/lib/zstd/fse.go:153-182 | for every distribution on which the loops end inside the table, the walk closes exactly when the counts go round the free cells a whole number of times; when the distribution fills the table every symbol has exactly its count of cells, and each stop of the walk holds the symbol whose turn it is by section 4.1.1 of RFC 8878 |
| `FseSpread.OrderIsUnique` | pkg/lib/zstd/fse.go:153-179 | the order leaves no choice: two tables spread in it hold the same symbol in every cell |
| `FseTable.FillingCloses` | pkg/lib/zstd/fse.go:180-182 | a distribution that fills the table passes the check of the walk |
| `FseTable.OverfullCloses` | pkg/lib/zstd/fse.go:180-182 | so does one that fills it twice: the check alone does not tell that a distribution fills the table |
| `FseTable.BuildFse` | pkg/lib/zstd/fse.go:152-201 | a distribution that does not fill the table gets the count error and no other; on one that fills it neither error return is taken, symbols are spread in order, each symbol's cells are numbered w .. 2w-1 in table order, and each entry's width and base follow from that number |
| `FseTable.TableIsUnique` | pkg/lib/zstd/fse.go:152-201 | a distribution has exactly one such table |
| `FseTable.CellNumberRange` | pkg/lib/zstd/fse.go:184-198 | the numbers of a symbol's cells run over exactly [w, 2w) |
| `FseTable.StatesStayInTable` | pkg/lib/zstd/fse.go:184-198 | an entry's base plus any value of its bits is a state of the table |
| `FseTable.Tiling` | pkg/lib/zstd/fse.go:184-198 | for each symbol that occurs, every state lies in exactly one of the intervals [base, base + 2^bits) of its cells: no gap and no overlap |
| `FseHeader.CountRoundTrip` | pkg/lib/zstd/fse.go:95-110 | every count value has a codeword of its own and is read back from it |
| `FseHeader.CellsAreConserved` | pkg/lib/zstd/fse.go:26-147 | cells taken plus cells free is the same at every point of a header, so on success the counts sum to 2^accuracy |
| `FseHeader.RunOfThrees` | pkg/lib/zstd/fse.go:56-81 | reading six repeat flags at a time gives the zeros that reading them one by one gives, and runs out of data in the same cases |
| `FseHeader.Rescale` | pkg/lib/zstd/fse.go:126-129 | threshold <= remaining < 2 * threshold holds again, whatever the count was |
| `FseHeader.ReadValue` | pkg/lib/zstd/fse.go:95-110 | a value is read as the reference reads it, from bits that are buffered |
| `FseHeader.ReadNorm` | pkg/lib/zstd/fse.go:26-147 | the loop returns the counts of the reference reader that stops where the data ends, or exactly its error |
| `FseHeader.HeaderIsReadIff` | pkg/lib/zstd/fse.go:47-54 | where the data does not end first the result is that of the standard, and counts are read exactly when 16 bits are left at the last flag or value |
| `FseHeader.AcceptedIff` | pkg/lib/zstd/fse.go:20-147 | a header is accepted exactly when its accuracy is allowed, its counts fill the table and 16 bits are left at its last count; the other errors are those of the standard |
| `FseHeader.ShortHeaderIsRejected` | pkg/lib/zstd/fse.go:47-54 | the two bytes 240 and 3 code a complete distribution that ends at bit 10 of 16, and reading them ends in the error for the end of the data |
| `FseHeader.PaddedFillsTable` | pkg/lib/zstd/fse.go:132-142 | counts that were read, padded with zeros, sum to exactly the table size |
| `FseHeader.ReadFse` | pkg/lib/zstd/fse.go:20-147 | the result is that of the reference on every input, each error included; on success the table is the one decoding table of the distribution at that place and the new offset is the byte after its last bit; the errors of the table builder cannot occur |
| `FseEncode.CountsAreRead` | pkg/lib/zstd/fse.go:47-130 | bits that hold the counts as section 4.1.1 of RFC 8878 codes them, with the repeat flags after every zero count, are read as these counts and end at their last bit |
| `FseEncode.HeaderIsDecoded` | pkg/lib/zstd/fse.go:20-147 | every accuracy from 5 on and every count list that fills its table are read back from the bytes that encode them |
| `FseEncode.HeaderRoundTrip` | pkg/lib/zstd/fse.go:20-147 | `readFSE` accepts those bytes exactly when the accuracy is allowed, returns that accuracy and the offset of the byte behind them, and builds the table of those counts |
| `FseEncode.ExampleOfTheStandard` | pkg/lib/zstd/fse.go:95-110 | the example of section 4.1.1: with 156 cells left the values up to 97 take 7 bits and the others 8 |
| `BitStreams.BitReader.MoreBits` | pkg/lib/zstd/bits.go:32-43 | at least 16 bits are buffered unless the data ends, and none is lost |
| `BitStreams.BitReader.Val` | pkg/lib/zstd/bits.go:46-51 | the next b bits of the stream, seen as a number |
| `BitStreams.BitReader.Backup` | pkg/lib/zstd/bits.go:54-59 | the offset is the byte after the last one a bit was taken from |
| `BitStreams.ReverseBitReader.constructor` | pkg/lib/zstd/bits.go:79-93 | all bits below the highest set bit of the stream are left |
| `BitStreams.ReverseBitReader.Fetch` | pkg/lib/zstd/bits.go:109-121 | fails exactly when fewer than b bits are left; buffered plus unread bits stay the same |
| `BitStreams.ReverseBitReader.Val` | pkg/lib/zstd/bits.go:96-106 | fails exactly when fewer than b bits are left; it returns the next b bits of the stream from the top when b and what stays buffered fit 32 bits, always so up to 25, and otherwise what a 32-bit accumulator keeps of them |
| `BitStreams.ReadIsExactIff` | pkg/lib/zstd/bits.go:96-121 | with fewer than 8 bits buffered, a read of b of the remaining bits is right for every stream exactly when b + (left - b) mod 8 is at most 32 |
| `BitStreams.WideReadLosesBits` | pkg/lib/zstd/bits.go:96-121 | for every length and width outside that condition the reader, run on given bytes, returns 0 where the next bits are 2^(b-1) |
| `Huffman.RunIsAligned` | pkg/lib/zstd/huff.go:179-197 | the run of a weight-w symbol starts at a multiple of 2^(w-1) |
| `Huffman.InRunIsPrefix` | pkg/lib/zstd/huff.go:179-197 | a cell lies in a symbol's run exactly when its top bits are the symbol's code |
| `Huffman.Complete` | pkg/lib/zstd/huff.go:179-197 | every cell lies in some symbol's run |
| `Huffman.PrefixFree` | pkg/lib/zstd/huff.go:179-197 | no cell lies in two runs |
| `Huffman.TableIsCanonicalCode` | pkg/lib/zstd/huff.go:129-199 | each cell holds the one symbol whose code starts the cell's index, with its length: a complete, prefix-free canonical code |
| `Huffman.SymbolsInOrder` | pkg/lib/zstd/huff.go:176-197 | from the first cell to the last weights do not fall and symbols of one weight ascend, as section 4.2.1.3 of RFC 8878 orders them |
| `Huffman.CodeOfTheStandard` | pkg/lib/zstd/huff.go:176-197 | the weights 4, 3, 2, 0, 1, 1 get the codes 1, 01, 001, 0000 and 0001 of the standard's example |
| `Huffman.CompletionIsUnique` | pkg/lib/zstd/huff.go:154-170 | at most one last weight makes the sum a power of two with the sum without it below it |
| `Huffman.OnesAreEven` | pkg/lib/zstd/huff.go:172-174 | in every list that completes, an even number of weights are 1 |
| `Huffman.RejectedIff` | pkg/lib/zstd/huff.go:172-174 | of the lists that some last weight makes a complete code, exactly those without a weight of 1 are rejected |
| `Huffman.TwosAreRejected` | pkg/lib/zstd/huff.go:172-174 | the list [2] completes to a code of two symbols and is rejected |
| `Huffman.CompleteWeights` | pkg/lib/zstd/huff.go:131-174 | a weight list is accepted exactly when some last weight makes it a complete code that fits the table and has at least two weights of 1 |
| `Huffman.BuildHuff` | pkg/lib/zstd/huff.go:129-199 | accepted exactly when the list can be completed to such a code; then the table is that of the completed code, every cell written |
| `HuffmanStream.HuffmanRoundTrip` | pkg/lib/zstd/literals.go:174-200 | any message encoded with the code of a table is decoded to itself by that table, whatever bits follow |
| `HuffmanStream.ListIsDecoded` | pkg/lib/zstd/literals.go:187-199 | a list of codewords, as one number, is decoded to its symbols by any table that finds them, whatever bits follow |
| `HuffmanStream.ReadLiteralsOneStream` | pkg/lib/zstd/literals.go:174-200 | from the bytes: a zero last byte is an error, otherwise the result is that of the reference decoder on the stream and the two bytes before it, running out of bits included |
| `HuffmanStream.CarriedIsRead` | pkg/lib/zstd/literals.go:174-200 | a stream that carries a message is read as that message, whatever the two bytes before it are; what it carries beyond that is not looked at |
| `HuffmanStream.CarriedThenBefore` | pkg/lib/zstd/literals.go:174-200 | asked for more symbols than a stream carries, the decoder goes on into the two bytes before the stream, and succeeds exactly when these hold codes for the rest |
| `HuffmanStream.SymbolsTakeBits` | pkg/lib/zstd/literals.go:187-199 | n symbols need n - 1 bits and a whole lookup, which bounds how many can come from 16 bits |
| `HuffmanStream.MarkerYieldsSymbols` | pkg/lib/zstd/literals.go:174-200 | with one-bit codes a stream of its marker alone yields every number of symbols up to 16, and none more |
| `Windows.Window.Reset` | pkg/lib/zstd/window.go:17-25 | an empty window of the given size |
| `Windows.Window.Save` | pkg/lib/zstd/window.go:33-66 | the window holds exactly the last `size` of all bytes saved since the reset |
| `Windows.Window.AppendTo` | pkg/lib/zstd/window.go:69-90 | appends the stored bytes between two positions, in every wrap case |
| `SeqCopy.DoublingStep` | pkg/lib/zstd/block.go:410-419 | copying everything from a fixed place on keeps a repetition going when that part is a whole number of periods |
| `SeqCopy.CopyOverlap` | pkg/lib/zstd/block.go:410-419 | the doubling copy equals copying one byte at a time |
| `SeqCopy.CopyFromWindow` | pkg/lib/zstd/block.go:382-421 | fails exactly when the offset is zero or reaches past the window; otherwise the bytes of a byte-at-a-time copy from window plus output |
| `SeqTables.LengthsTile` | pkg/lib/zstd/fse.go:216-336 | consecutive length codes cover consecutive ranges of lengths |
| `SeqTables.LengthHasOneCode` | pkg/lib/zstd/fse.go:216-336 | every length has exactly one code |
| `SeqTables.MakeBaseline` | pkg/lib/zstd/fse.go:245-360 | fails exactly on a symbol beyond the last code; otherwise every entry is converted, states untouched |
| `SeqTables.PredefinedIsOk` | pkg/lib/zstd/fse.go:362-430 | the three predefined tables never lead out of themselves |
| `SeqDefaults.PredefinedIsDefault` | pkg/lib/zstd/fse.go:362-430 | every decoding table of a default distribution of section 3.1.1.3.2.2 of RFC 8878, converted, is the predefined table, cell by cell |
| `SeqDefaults.RebuildPredefined` | pkg/lib/zstd/fse.go:362-430 | spreading the default distribution with `buildFSE` and converting the cells yields exactly that table |
| `SeqTables.RleIsOk` | pkg/lib/zstd/block.go:179-206 | a run-length table has one state, and stays in it |
| `SeqTables.ConvertedIsOk` | pkg/lib/zstd/block.go:208-232 | a table read from a header never leads out of itself |
| `Sequences.WideOffsetFails` | pkg/lib/zstd/block.go:276-296 | an offset code above 25 names an offset beyond any window, whatever its extra bits |
| `Sequences.RunAbove` | pkg/lib/zstd/block.go:270-369 | what is executed does not depend on the bits below the stream: they are left over |
| `SeqReaders.SeqReader.UpdateOffsets` | pkg/lib/zstd/block.go:298-326 | the offset and the history of the last three offsets are those of section 3.1.1.5 of RFC 8878 |
| `SeqReaders.SeqReader.SetSeqTable` | pkg/lib/zstd/block.go:170-242 | when each mode succeeds and where its description ends; the table is then usable and the one the mode names, repeat mode across blocks included; the other tables stay |
| `SeqReaders.SeqReader.InitSeqs` | pkg/lib/zstd/block.go:107-166 | succeeds exactly when the count, the modes and all three descriptions are well; then the number of sequences and the offset are those of the format, and all three tables are usable and the ones their modes name |
| `SeqReaders.SeqReader.ExecOne` | pkg/lib/zstd/block.go:270-369 | one pass of the loop is one step of the reference, states stay in their tables |
| `SeqReaders.SeqReader.ExecSeqs` | pkg/lib/zstd/block.go:245-379 | succeeds exactly when the reference succeeds and a whole number of bytes is left unread; then output and repeat offsets are the reference's, and the output has grown by one item for each sequence and by all literals |
| `SeqOutput.RunAllEmits` | pkg/lib/zstd/block.go:270-372 | whatever the bits say: an accepted block puts out, for each sequence, its literals and then a match of at least 3 bytes that each repeat the one an offset before, and after the last one the literals left over |
| `SeqOutput.LiteralsInOrder` | pkg/lib/zstd/block.go:352-372 | in such an output every literal appears once and in order, and literals and matches are all there is |
| `SeqOutput.OutputIsUnique` | pkg/lib/zstd/block.go:352-372 | items and literals leave one output |
| `SeqEncode.ResolveIsMeant` | pkg/lib/zstd/block.go:298-326 | offset and history for every value are those of the cases of section 3.1.1.5 of RFC 8878 |
| `SeqEncode.CommandsRun` | pkg/lib/zstd/block.go:270-369 | bits that encode commands, in the order of section 3.1.1.3.2.1 of RFC 8878 (extra bits of offset, match and literal length, then the states of literal length, match length and offset), execute them, and fail exactly when they cannot be carried out |
| `SeqEncode.StreamIsExecuted` | pkg/lib/zstd/block.go:245-369 | so does the whole stream with the three first states in front, and nothing is left over |
| `SeqRoundTrip.ConvertedIsLinked` | pkg/lib/zstd/block.go:208-232 | in a table read from a distribution every code has, for every next state, a state that leads there |
| `SeqRoundTrip.PathExists` | pkg/lib/zstd/block.go:328-348 | with such tables every list of commands whose values have codes can be written |
| `SeqRoundTrip.PredefinedTakesAll` | pkg/lib/zstd/fse.go:362-430 | the predefined tables are of that kind and take every length of a block and every offset up to 2^29 - 4 |
| `SeqRoundTrip.StartIsRead` | pkg/lib/zstd/block.go:107-150 | every number of sequences and every choice of the three modes, as written by the standard, is read back |
| `SeqRoundTrip.WrittenIsExecuted` | pkg/lib/zstd/block.go:245-369 | from the bytes: what was written is executed, whatever stands before it |
| `SeqRoundTrip.ExecWritten` | pkg/lib/zstd/block.go:245-379 | `execSeqs` on what was written succeeds exactly when the commands can be carried out; the output grows by their literals, matches and the literals left over, and the history is the one after the last command |
| `SeqReaders.StrayBytesAreIgnored` | pkg/lib/zstd/block.go:371-378 | bytes put in front of an accepted stream, whatever they are, leave output and offsets the same and are counted as left over |
| `SeqReaders.StrayByteIsAccepted` | pkg/lib/zstd/block.go:371-378 | a block of seven given bytes, one of them arbitrary and unread, is accepted, with its output |
| `XxHash.FoldConcat` | pkg/lib/zstd/xxhash.go:45-76 | hashing whole stripes commutes with cutting the input at a stripe boundary |
| `XxHash.CutIsUnique` | pkg/lib/zstd/xxhash.go:45-76 | there is one way to cut an input into whole stripes and less than a stripe |
| `XxHash.XxHash64.Update` | pkg/lib/zstd/xxhash.go:45-76 | the state is the fold over the whole stripes of all input plus the last bytes, and the input grows by the argument |
| `XxHash.XxHash64.Digest` | pkg/lib/zstd/xxhash.go:79-142 | the checksum of the whole input, however it was fed |
| `XxReference.HashIsChecksum` | pkg/lib/zstd/xxhash.go:16-142 | that checksum is xxHash-64 as published, stated over natural numbers modulo 2^64 with lanes by index and rotations as multiplication and division |
| `XxPublished.CheckValue` | pkg/lib/zstd/xxhash.go:79-142 | the published checksum of "123456789": a word and a byte |
| `XxPublished.NobodyValue` | pkg/lib/zstd/xxhash.go:79-142 | the published checksum of a text of 39 bytes: a stripe, a half word and single bytes |
| `XxHash.HashPieces` | pkg/lib/zstd/xxhash.go:45-126 | feeding any list of pieces gives the checksum of their concatenation |
| `XxHash.EmptyChecksum` | pkg/lib/zstd/xxhash.go:79-126 | the published checksum of no input |
| `SquashBytes.FixupPass` | pkg/lib/squashfs/writer.go:494-516 | applying all patches to the whole buffer equals patching every piece in its own place: lengths and other bytes stay |
| `SquashMeta.FollowReference` | pkg/lib/squashfs/writer.go:312-371 | block offset and in-block offset of a raw position lead a reader to what was written there, whatever follows the table |
| `SquashMeta.FixedOffsets` | pkg/lib/squashfs/writer.go:308-330 | stored blocks start at multiples of 8194 whatever they hold |
| `SquashMeta.CompressMetadataBlocks` | pkg/lib/squashfs/writer.go:312-350 | the cached blocks are the table on disk, and with fixed sizes block j starts at j * 8194 |
| `SquashInode.PatchedRec` | pkg/lib/squashfs/writer.go:757-825 | patching turns a directory inode's placeholders into its listing reference and touches nothing else |
| `SquashInode.ParseFixed` | pkg/lib/squashfs/writer.go:757-885 | every inode is read back as it was meant |
| `SquashDir.PatchedGroup` | pkg/lib/squashfs/writer.go:695-719 | patching a group fills in its start field and touches nothing else |
| `SquashDir.ParseListingBytes` | pkg/lib/squashfs/writer.go:673-738 | a listing is read back as its entries, in order, with the inode reference of each |
| `SquashBuild.DeltaFits` | pkg/lib/squashfs/writer.go:685-732 | inodes of one metadata block have numbers less than 342 apart, so every entry's difference fits int16 |
| `SquashData.HoldsMono` | pkg/lib/squashfs/writer.go:198-294 | a file that can be read stays readable while more data and fragments are written |
| `SquashData.ReadBack` | pkg/lib/squashfs/writer.go:198-294 | after the last flush start, block sizes, fragment and offset lead to exactly the file's bytes |
| `SquashBuild.FlushKeeps` | pkg/lib/squashfs/writer.go:230-256 | a flushed fragment block is readable, and no fragment block exceeds the block size |
| `SquashFrags.WriteTracked` | pkg/lib/squashfs/writer.go:374-404 | each recorded position holds a metadata block with the right 8 KiB |
| `SquashFrags.WriteFragmentTable` | pkg/lib/squashfs/writer.go:888-913 | the image gains the fragment table at the returned position |
| `SquashFrags.TableIsRead` | pkg/lib/squashfs/writer.go:888-913 | the fragment table is read back as it was written |
| `SquashFrags.WriteIdTable` | pkg/lib/squashfs/writer.go:915-939 | the image gains the table of ids at the returned position |
| `SquashFrags.IdIsRead` | pkg/lib/squashfs/writer.go:915-939 | the first id of that table is read back as root |
| `SquashTree.StoresMono` | pkg/lib/squashfs/writer.go:592-668 | a stored subtree stays stored while the walk goes on |
| `SquashRead.InodeIsRead` | pkg/lib/squashfs/writer.go:482-519 | following an inode's reference in the finished image finds its completed record |
| `SquashRead.ListingIsRead` | pkg/lib/squashfs/writer.go:482-519 | following a directory inode's reference finds its listing |
| `SquashWalk.ReadTree` | pkg/lib/squashfs/writer.go:464-532 | following references from a stored tree's inode reconstructs the tree |
| `SquashWalk.ImageReadsBack` | pkg/lib/squashfs/writer.go:464-532 | the same for the image of a finished layout |
| `SquashSuper.SuperIsRead` | pkg/lib/squashfs/writer.go:554-588 | a superblock whose numbers fit their fields is read back, whatever follows it |
| `SquashSuper.SuperLayout` | pkg/lib/squashfs/struct.go:15-35 | the file starts with "hsqs", and the counts and the positions of root and tables stand at the offsets of the format |
| `SquashSuper.BlockLog` | pkg/lib/squashfs/writer.go:555-558 | the loop finds the index of the highest bit of the block size |
| `SquashSteps.SuperUnder` | pkg/lib/squashfs/writer.go:547-588 | padding and a superblock written last disturb nothing behind it |
| `SquashSteps.BuiltFile` | pkg/lib/squashfs/writer.go:464-589 | a finished file whose positions fit is read back as the stored tree from its first byte on, and its regular files are counted |
| `SquashFixups.PatchEntries` | pkg/lib/squashfs/writer.go:500-505 | the in-place pass over the directory table is the patch list |
| `SquashFixups.PatchInodes` | pkg/lib/squashfs/writer.go:512-517 | the in-place pass over the inode table is the patch list |
| `SquashCount.SizeOfRec` | pkg/lib/squashfs/info.go:129-150 | of every inode the writer emits, type and size are found as written |
| `SquashCount.WalkFrom` | pkg/lib/squashfs/info.go:106-125 | the walk lands on exactly the boundaries of the inodes |
| `SquashCount.DeblockPack` | pkg/lib/squashfs/info.go:73-104 | a table put together from its blocks is the raw table, wherever it lies in the file |
| `SquashCount.CountRegularFiles` | pkg/lib/squashfs/info.go:53-125 | on every file the method equals the reference that starts at the superblock, the count that comes with an error and the default block size included |
| `SquashCount.CountsWrittenFiles` | pkg/lib/squashfs/info.go:53-125 | on a written table it counts the regular files written |
| `SquashSizes.ListingTakes` | pkg/lib/squashfs/writer.go:673-738 | a listing takes 12 bytes for each group and 8 and the name for each entry, its groups cut by the blocks of its inodes and after 256 entries |
| `SquashSizes.DirMeasured` | pkg/lib/squashfs/writer.go:592-668 | a directory adds to both tables exactly what its entries and its listing take |
| `SquashSizes.PackSize` | pkg/lib/squashfs/writer.go:312-350 | a table takes two bytes more on disk for each block |
| `SquashSizes.EmptyRootFits` | pkg/lib/squashfs/writer.go:464-589 | an empty root directory takes 32 bytes of inode table and nothing else, and fits |
| `SquashWriter.Writer.WriteDataBlock` | pkg/lib/squashfs/writer.go:198-216 | the image grows by the stored block; everything readable stays readable |
| `SquashWriter.Writer.AddFragment` | pkg/lib/squashfs/writer.go:218-228 | the tail lies at the returned index and offset, and no fragment block exceeds the block size |
| `SquashWriter.Writer.FlushFragBlock` | pkg/lib/squashfs/writer.go:230-256 | the pending tails become the next fragment block |
| `SquashWriter.Writer.WriteFileData` | pkg/lib/squashfs/writer.go:258-294 | what is returned leads to exactly the file's bytes, though its tail is flushed later; image and pending tails grow by no more than those bytes, and by one fragment block at most |
| `SquashWriter.Writer.AppendInode` | pkg/lib/squashfs/writer.go:296-299 | inode table, positions and fixups stay those of the records |
| `SquashWriter.Writer.BuildDirEntries` | pkg/lib/squashfs/writer.go:673-738 | the listing holds the children in order, in groups whose differences fit, one fixup for each group, and in as few groups as blocks and the limit of 256 allow |
| `SquashWriter.Writer.BuildDirInode` | pkg/lib/squashfs/writer.go:760-825 | the record names the listing; a basic inode while its size fits 16 bits |
| `SquashWriter.Writer.BuildFileInode` | pkg/lib/squashfs/writer.go:828-864 | the file is stored under the new inode |
| `SquashWriter.Writer.BuildSymlinkInode` | pkg/lib/squashfs/writer.go:867-885 | the link is stored under the new inode |
| `SquashWriter.Writer.ProcessDir` | pkg/lib/squashfs/writer.go:592-668 | the whole subtree is stored under the returned inode, the last one, in exactly the space it takes; what was stored before is untouched |
| `SquashWriter.Writer.FixReferences` | pkg/lib/squashfs/writer.go:494-525 | both tables after one pass of fixups, with offsets computed before patching |
| `SquashWriter.Writer.Seal` | pkg/lib/squashfs/writer.go:545-588 | the file is padded to a multiple of 4096 bytes and begins with the superblock; nothing behind the superblock changes |
| `SquashWriter.Writer.Build` | pkg/lib/squashfs/writer.go:464-589 | the metadata tables grow by exactly what the tree takes and the file stays under a bound; for every tree whose sizes, known before the call, leave positions room, the file starts with the returned superblock, gives the input tree back when read from there, and counting its regular files gives their number |
| `GenProtocol.Start` | pkg/controller/containers.go:27-38 | a daemon that has loaded nothing yet keeps the invariant, whatever file it finds |
| `GenProtocol.InvKept` | pkg/controller/set.go:60-170 | every step keeps: nothing is newer than the file, equal generations above 0 mean equal records, memory's generation does not fall |
| `GenProtocol.SetRises` | pkg/controller/set.go:83-84 | a set is newer than memory and file exactly when the generation it is based on is below 2^64 - 1 |
| `GenProtocol.TopGenerationWraps` | pkg/controller/set.go:83-84 | with memory at the top generation every set makes it fall to 0 |
| `GenProtocol.GenerationsRise` | pkg/controller/set.go:60-170 | over every run memory's and the file's generation never decrease |
| `GenProtocol.EqualGenerationsAgree` | pkg/controller/set.go:112-170 | in every reachable state equal generations above 0 in memory and file mean equal records |
| `GenProtocol.StaleReadNeverWins` | pkg/daemon/disk-events.go:48-58 | applying a read taken before a set of the daemon changes nothing, however much later |
| `GenProtocol.OneLoadConverges` | pkg/controller/set.go:119-152 | after the last write one load of a read taken since makes memory and file agree, whatever else is applied |
| `GenProtocol.NoResurrection` | pkg/controller/set.go:143-149 | after a delete no late read brings the container back |
| `Controller.NameRoundTrip` | pkg/container/config/tools.go:20-67 | exactly the valid names survive the way to a file name and back, and no state file is taken for a temporary one |
| `Controller.EventsReachTheirContainer` | pkg/daemon/disk-events.go:91-105 | for a valid name exactly the appearing events load it and exactly the disappearing ones drop it |
| `Controller.SwapRemoved` | pkg/controller/del.go:5-16 | putting the last record in the place of the removed one loses nothing else |
| `Controller.RefinesIff` | pkg/controller/get.go:10-27 | a list holds each record of a map once exactly when its names are distinct and the map is what a lookup of the first match shows |
| `Controller.PutShows` | pkg/controller/set.go:65-110 | in every list, a record that is put in the place of the first of its name, or at the end, shows from then on, and no other name changes |
| `Controller.DroppedNames` | pkg/controller/del.go:5-16 | a delete takes the name out exactly when it is not listed more than once, and keeps all other names |
| `Controller.DroppedOther` | pkg/controller/del.go:5-16 | which record another name shows after a delete: the last of the list if that is one of its records and moves in front of the others, else the one it showed before |
| `Controller.DropShowsOther` | pkg/controller/del.go:5-16 | a list in which deleting one container changes what is shown of another |
| `Controller.ContainerList.SetContainerByMemory` | pkg/controller/set.go:60-110 | for every list: memory and file get the same record under its name, with a generation above the caller's, memory's and the file's; it is a protocol step |
| `Controller.ContainerList.LoadFromDisk` | pkg/controller/set.go:119-152 | for every list: memory changes exactly for a valid name and a newer record, or one without entry whose file exists; files are not written |
| `Controller.ContainerList.SetContainerByDisk` | pkg/controller/set.go:157-170 | the file gets a generation above the caller's and its own; it is a protocol step |
| `Controller.ContainerList.DeleteContainer` | pkg/controller/del.go:5-16 | for every list: the first record of the name goes and the last one takes its place; it fails exactly when there is none; a list of distinct names loses that name and nothing else |
| `Controller.ContainerList.HandleEvent` | pkg/daemon/disk-events.go:46-66 | for every list an event loads or drops its own container; a file that does not parse changes nothing |
| `Controller.ContainerList.DropGone` | pkg/daemon/disk-events.go:159-167 | for every list exactly the records without a file go, however often their names are listed |
| `Controller.LoadIsProtocolStep` | pkg/controller/set.go:119-152 | a load is a step of its name's protocol and touches no other name |
| `Controller.ContainerList.ReconcileState` | pkg/daemon/disk-events.go:138-182 | for all files and every list: memory is what loading the files without an entry, in some order, makes of the records that have a file; its names are those on disk exactly when these files are configs under each other's names; an entry that none of them overwrites keeps its record; with well-formed files the rest is as on disk |
| `Controller.NamesMatchIff` | pkg/daemon/disk-events.go:138-182 | the names in memory become those on disk exactly when every file without an entry parses, under the name of such a file, no two under the same |
| `Controller.SurvivesIff` | pkg/daemon/disk-events.go:169-181 | an entry keeps its record in every order of loading exactly when no file without an entry carries its Name with a record that `LoadFromDisk` takes |
| `Controller.MisnamedFileOverwrites` | pkg/daemon/disk-events.go:169-181 | a file under another container's name is loaded over that container's entry, and its own name stays out |
| `Controller.DirListRefinesIff` | pkg/controller/containers.go:83-120 | the list a daemon starts with refines a map exactly when the Names of the configs in the directory are distinct |
| `Controller.DirListMayRepeat` | pkg/controller/containers.go:83-120 | two files of one container put it into the list twice, and no map is refined |
| `Controller.ContainerList.LoadDir` | pkg/controller/containers.go:83-120 | the loop yields that list, with distinct names exactly in that case |
| `LeaseLoop.DefaultsAreIntended` | pkg/lib/dhcp/lease_loop.go:149-163 | given times are kept and absent ones are a day, half and four fifths of the lifetime, exactly when T2 is given or four lifetimes fit an int64 |
| `LeaseLoop.InfiniteLifetimeLosesT2` | pkg/lib/dhcp/lease_loop.go:158-161 | an infinite lifetime without T2 puts T2 in the past |
| `LeaseLoop.RetryBackoff` | pkg/lib/dhcp/lease_loop.go:165-174 | a quarter of the time from T1 to T2 inside [100 ms, 10 s], and never outside these bounds even where the difference wraps |
| `LeaseLoop.AttemptsAreBounded` | pkg/lib/dhcp/lease_loop.go:72-134 | the attempts of a phase are bounded by its length over 100 ms, plus one |
| `LeaseLoop.NothingAfterRelease` | pkg/lib/dhcp/lease_loop.go:45-51 | Release comes last |
| `LeaseLoop.RenewsInLifetimeIff` | pkg/lib/dhcp/lease_loop.go:45-142 | in every run, on grants whose T2 lies within their lifetime, every Renew comes before the end of the lifetime in force, exactly when the first T2 lies within its lifetime |
| `LeaseLoop.RenewsEndedLease` | pkg/lib/dhcp/lease_loop.go:45-142 | for all initial times with a T2 beyond the lifetime, a world in which the loop issues a Renew at or after the end of the lifetime |
| `LeaseLoop.RenewWithinLifetime` | pkg/lib/dhcp/lease_loop.go:69-101 | in every run a Renew whose T2 lies within the lifetime is issued within it |
| `LeaseLoop.RenewOfEndedLease` | pkg/lib/dhcp/lease_loop.go:45-142 | with a T2 of 10 s and a lifetime of 2 s, a loop that wakes up after 2 s issues a Renew and nothing else before it releases |
| `LeaseLoop.Loop.RenewPhase` | pkg/lib/dhcp/lease_loop.go:69-101 | the phase is that of the reference; Renew only from T1 on and before T2; ends with a lease, at T2 or cancelled |
| `LeaseLoop.Loop.RebindPhase` | pkg/lib/dhcp/lease_loop.go:105-137 | the phase is that of the reference; Rebind only from T2 on and before the lifetime's end; ends with a lease, at that end or cancelled |
| `LeaseLoop.Loop.Run` | pkg/lib/dhcp/lease_loop.go:45-142 | in every world the run is that of the reference; all events keep these rules, Release is called exactly once and last, and without cancellation only once the lifetime in force has passed |
| `LeaseTimely.RunInTime` | pkg/lib/dhcp/lease_loop.go:45-142 | on every script without cancellation: after a binding comes an event by T1 plus the delays, a Renew not before T1 if these leave room before T2; after a failed attempt one by the pause of its lease plus the delays, another attempt of the phase if these leave room; after a granted one a binding with exactly the granted times; the run ends because the lease expired or the script is over, and no event takes more than five ticks |
| `LeaseTimely.BindingIsRenewed` | pkg/lib/dhcp/lease_loop.go:59-80 | every binding whose T1, T2 and delays leave room is followed by a Renew between T1 and T1 plus the delays, while the script goes on |
| `LeaseTimely.LogGoesOn` | pkg/lib/dhcp/lease_loop.go:59-142 | while the script goes on, so does the log, each event in time |
| `LeaseTimely.GrantedNeverExpires` | pkg/lib/dhcp/lease_loop.go:59-142 | while the server grants leases with room for a Renew, nothing is rebound and nothing expires |
| `Ext4.HasSuperblockBackup` | pkg/lib/mkfs/ext4.go:31-45 | true exactly for 0, 1 and the powers of 3, 5 and 7 |
| `Ext4.GroupsCover` | pkg/lib/mkfs/ext4.go:66-70 | the groups cover the image exactly up to 2^32 - 32768 blocks |
| `Ext4.LayoutGroups` | pkg/lib/mkfs/ext4.go:90-134 | every group's places and the sum of free blocks, without wrap-around, for every uint32 number of blocks |
| `Ext4.DescriptorsAreRight` | pkg/lib/mkfs/ext4.go:175-204 | the descriptor's count is what is free, in group 0 exactly when it has room for its metadata |
| `Ext4.SmallImageClaimsBlocks` | pkg/lib/mkfs/ext4.go:175-204 | an image of 100 blocks has none free, and its descriptor claims 65535 |
| `Ext4.BitmapMarksUse` | pkg/lib/mkfs/ext4.go:227-248 | a bit is set exactly for metadata, the root directory block and blocks past the end |
| `Ext4.TablesLieInUse` | pkg/lib/mkfs/ext4.go:71-118 | every byte of the group descriptors and of the group's inodes lies in a block that is in use, and no block more is kept for them than they need |
| `Ext4.ClearBitsAreFree` | pkg/lib/mkfs/ext4.go:227-248 | the clear bits of a bitmap number the free blocks |
| `Ext4.DescriptorSum` | pkg/lib/mkfs/ext4.go:175-204 | the descriptors add up to the free blocks, or to 65535 more when group 0 has no room |
| `Ext4.FormatBlocks` | pkg/lib/mkfs/ext4.go:66-248 | for every uint32 number of blocks the bitmaps mark exactly the blocks in use and their clear bits add up to the superblock's count; descriptors agree with bitmaps and with the superblock exactly when group 0 has room |
| `Dhcp6.ParseMarshal` | pkg/lib/dhcp/options6.go:118-149 | options that fit are parsed back without error |
| `Dhcp6.MarshalParse` | pkg/lib/dhcp/options6.go:118-149 | bytes that parse without error are marshalled back |
| `Dhcp6.RoundTripIff` | pkg/lib/dhcp/options6.go:118-149 | options come back exactly when all lengths fit 16 bits |
| `Dhcp6.LongOptionIsLost` | pkg/lib/dhcp/options6.go:118-149 | an option of 65536 bytes does not come back |
| `Dhcp6.MarshalOptions` | pkg/lib/dhcp/options6.go:118-128 | the loop produces the wire format |
| `Dhcp6.ParseOptions` | pkg/lib/dhcp/options6.go:131-149 | the loop returns the options before an error, and whether there was one |
| `Dhcp6.PacketRoundTrip` | pkg/lib/dhcp/packet6.go:45-68 | a packet comes back exactly when its options' lengths fit |
| `Dhcp6.BytesRoundTrip` | pkg/lib/dhcp/packet6.go:45-68 | bytes that unmarshal are marshalled back |
| `Dhcp6.IARoundTrip` | pkg/lib/dhcp/options6.go:75-89 | an IA_NA or IA_PD comes back exactly when its options' lengths fit |
| `Dhcp6.IABytesRoundTrip` | pkg/lib/dhcp/options6_pd.go:47-75 | its bytes come back exactly when the nested options parse without error |
| `Dhcp6.IALosesByte` | pkg/lib/dhcp/options6_pd.go:47-75 | 12 bytes and one more are read as an IA, and the last byte is lost |
| `Dhcp6.PrefixRoundTrip` | pkg/lib/dhcp/options6_pd.go:77-108 | a prefix with its options comes back exactly when their lengths fit |
| `Dhcp6.PrefixBytesRoundTrip` | pkg/lib/dhcp/options6_pd.go:77-108 | the bytes of a prefix come back exactly when its nested options parse without error |
| `Dhcp6.PrefixLosesByte` | pkg/lib/dhcp/options6_pd.go:77-108 | 25 bytes and one more are read as a prefix, and the last byte is lost |
| `Dhcp6.CollectPrefixes` | pkg/lib/dhcp/options6_pd.go:31-44 | the prefixes of an IA_PD in order, those too short skipped |
| `Dhcp6.FirstByteCountsMost` | pkg/lib/dhcp/options6.go:118-149 | numbers are in network order: little-endian order read backwards |
| `Dhcp6.PacketOnTheWire` | pkg/lib/dhcp/packet6.go:45-68 | a Solicit with one option, byte by byte |
| `Dhcp6.IAOnTheWire` | pkg/lib/dhcp/options6_pd.go:47-75 | an IA with its times and an option, byte by byte |
| `Dhcp6.PrefixOnTheWire` | pkg/lib/dhcp/options6_pd.go:77-108 | a prefix with its lifetimes, byte by byte |
| `Dhcp6Nest.ItemsRebuiltIff` | pkg/lib/dhcp/options6_pd.go:31-108 | the options of an IA_PD come back from their prefixes exactly when nothing was cut off inside one |
| `Dhcp6Nest.PrefixesAreItems` | pkg/lib/dhcp/options6_pd.go:31-44 | the prefixes the code lists are those among the parts, in order |
| `Dhcp6Nest.DeepRoundTrip` | pkg/lib/dhcp/options6_pd.go:47-108 | a packet put together through all three levels is taken apart into the same parts exactly when the lengths fit at every level |
| `Dhcp6Nest.DeepBytesRoundTrip` | pkg/lib/dhcp/options6_pd.go:47-108 | bytes that unmarshal are rebuilt byte for byte from everything taken out of them, through all three levels, exactly when no nested options were cut off |
| `Dhcp6Nest.DelegationIsFound` | pkg/lib/dhcp/options6_pd.go:47-75 | the first IA_PD of such a packet is found, with its prefixes and their own options |

## Left out

- pkg/lib/zstd/zstd.go: the frame reader, and with it where the window size and the block boundaries come from.
- pkg/lib/zstd/huff.go:19-128: the weights of a Huffman header are an input; how they are read (as nibbles or
  FSE-compressed) is not modelled.
- pkg/lib/zstd/literals.go: the header of a literals section, raw, run-length and four-stream literals; one stream is
  modelled.
- `FseSpread.PlaceLows`: not for more low-probability symbols than cells, where the code indexes below the table.
- `FseSpread.Spread`: nor for a table full of them with other symbols left to place, where the code does not end.
- `FseTable.BuildFse`: not for distributions that close the walk without filling the table (its caller excludes
  them): the entries then depend on what the table held before, or the code shifts by a negative amount.
- `XxReference.HashIsChecksum`: for inputs below 2^64 bytes, and above that for those the code does not take for
  shorter than a stripe, because their length wraps.
- `SeqReaders.SeqReader.ExecSeqs`: for windows of at most 8 MiB, the largest the frame reader allows.
- `SquashWriter.Writer.Build`: how much data compresses to is bounded, not computed, so a tree that only fits
  compressed is not covered; errors of writing are left out; uid and gid index are always 0 and the parent inode field
  always 1, as in the code. A reader is assumed that wants owner and group to be the first id.
- `SquashWriter.Writer.ProcessDir`: the tree is given as a value, filtered and in the order of its sorted names;
  listing directories, the path filter, special files and errors of the file system are left out, and modes
  are those of `unixMode`.
- `SquashWriter.Writer.WriteTree`: names of 1 to 65536 bytes, as the length field of an entry needs; file systems
  give shorter ones.
- `SquashWriter.Writer.constructor`: block sizes below 2^24, where the size field and the flag for stored blocks
  do not collide.
- `SquashWriter.Writer.BuildDirInode`: a listing of 4 GiB or more, whose size wraps in 32 bits, is excluded by the
  condition on positions, as are all other 32-bit truncations.
- `Ext4.FormatBlocks`: inode accounting is left out (the bitmap marks 10 inodes, the counters subtract 11), and so
  are the contents of the superblock and of the root directory.
- `Ext4.HasSuperblockBackup`: for group numbers below 2^32 / 7; the largest one of any image is 131070.
- `GenProtocol.GenerationsRise`: one lifetime of a state file; when a file is deleted and written again its
  counter may start over. Each read-bump-write counts as one step.
- `Controller.ContainerList.ReconcileState`: no other step runs in between.
- The files under pkg/controller are assumed to be written without error, and JSON to be a faithful encoding.
- `LeaseTimely.RunInTime`: the delays of all clock readings, timers and transactions of a script are taken
  together.
- `LeaseLoop.Loop.Run`: an event's time is the clock reading before it; time may pass between that and the call.
- Everything else in the repository (commands, VM boot, namespaces, mounts, networking, relays, images,
  documentation) is system calls or user interface.
