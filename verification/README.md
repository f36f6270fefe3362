# nget: a verified model

nget is a command-line newsreader that finds, fetches and puts together posts.  This project
models the parts of it whose correctness is not obvious from reading them, in Dafny, and proves what
they promise:

- **Lock files** (`LockProtocol`, `MidInfoSharing`, `MidInfo`): the protocol over the locks file and
  its gate as a state machine over the system calls of any number of processes, and on top of it
  the message-id file that several processes load, merge and replace.
- **Knapsack** (`Knapsack`, `RecoveryPackets`): the in-place solver with its lists of improvements, its
  dual, and the caller that picks recovery files with it.
- **Checksums** (`Bits`, `Crc`, `Md5`, `FileCheckSummer`): the sliding CRC, incremental MD5, and the
  double buffer that keeps both up to date while a window moves over a file.
- **Ranges of article numbers** (`NRange`): interval lists over unsigned longs.
- **Header cache** (`FileOrder`, `CacheFiles`, `Cache`, `UpdatePlan`, `GroupMerge`, `MetaGroup`): adding and
  flushing headers, planning updates, and reading several groups as one.
- **Cache text** (`Lines`, `Buffy`, `CacheText`, `CacheShape`, `CacheReader`): saving and loading, through the ring buffer
  and its tokenizer.
- **PAR2 reading** (`HashOrder`, `HashTree`, `HashTable`, `PacketScan`): the verification hash table and the
  search for packets in damaged files.
- **Automatic parity retrieval** (`ServerFiles`, `ParLists`, `Autopar`, `Retrieve`): the lists of parity files,
  and the loop that retrieves the queue.
- **Wildmats** (`Wildmat`): turning a regular expression into a wildmat.

`dafny verify dfyconfig.toml` checks everything.  Code that updates objects is modelled with classes and
methods, and each method is proved against a function of its inputs or of the old state; what the code
promises is then proved about these functions, or follows from the methods' postconditions.

Some things do not hold on every input.  The model keeps the code as it is, and states exactly when
they hold:

- The knapsack reconstruction stops at capacity 0, so it misses items of size 0 and positive value
  (`Knapsack.WalkOptimalIff`).  Its only caller never has such items.
- `remove(l, h)` looks at one range only when `h` lies above all of them (`NRange.RemoveExactIff`); every
  call made by a flush or a header update is exact (`Cache.CutExactly`, used for the complement of the
  server's list and for the range below a low end).
- `clip_to_max_total` changes nothing when the set reaches from 0 to ULONG_MAX and either nothing is
  to be kept or the total does not fit (`NRange.ClipExactIff`).
- With a limit of zero headers, a header update that uses neither the server's list nor the numbers seen
  so far inserts a range whose low end is one above its high end, which is no set (`UpdatePlan.PlanUpdate`,
  `NRange.BackwardsIff`).
- A merge does not lower the count of parts of the file it takes parts from.  The file left over has a
  right count exactly when all its parts that count stayed (`GroupMerge.MergeFile`).  All files put out are
  right when no two messages claim a part; otherwise a count can be too high (`MetaGroup.CountTooHigh`).
- A packet length near 2^64 wraps around the end check, and what is hashed then is the header alone.  The
  scan agrees with the byte-by-byte search exactly when no such place with a right hash is visited
  (`PacketScan.ScanIsGreedyIff`); on some files it never ends (`PacketScan.ScanMayNotEnd`).
- A part of a cached file all of whose articles are on servers no longer known is dropped when the cache is
  read, but stays in the file's count.  The count is right exactly when no such part counts
  (`CacheShape.CountRightIff`); else a file can pass as complete without it (`CacheShape.CompleteWithoutFirst`).
- A recovery file is listed, and can be queued, once for every name of a set that reads new packets from
  its subject (`RecoveryPackets.ListedOnceIff`, `RecoveryPackets.ListedTwice`).
- The wildmat conversion does not keep a lone `^`, nor an escaped backslash, unless the `$` at the end or an
  escaped `]` follows it (`Wildmat.ConvertKeepsMeaning`).  A backslash at the very end of a wildmat is taken to
  stand for itself, and an escaped ordinary character for that character; section 3.3 of RFC 2980 leaves both open.
- Ignoring case, a bracket class keeps its meaning when it has no ranges (`Wildmat.ClassMeans`); a range may
  come to hold more (`Wildmat.RangeFolded`).

## Model

| member | source | states |
|---|---|---|
| `Knapsack.Solve` | knapsack.cc:23-77 | the value returned is the maximum over all choices that fit the target and is attained by one; the choice rebuilt from the `best` lists fits the target, and has that value whenever no item of size 0 has a positive value (the asserts at 70-71) |
| `Knapsack.FillItem` | knapsack.cc:35-41 | one round of the in-place table: every capacity ends up with the best value over one item more, and `best` gains the item exactly where it improves |
| `Knapsack.Fill` | knapsack.cc:26-42 | after all rounds the table holds the optimum for every capacity, and each list holds exactly the improving items in order |
| `Knapsack.OptUpper` | knapsack.cc:34-43 | no choice that fits has a greater value than the table says |
| `Knapsack.OptAttained` | knapsack.cc:34-43 | some choice that fits has the value the table says |
| `Knapsack.BestOfExact` | knapsack.cc:37-40 | an item is in a capacity's list exactly when it improves on the items before it, and the list increases |
| `Knapsack.LastBelow` | knapsack.cc:51-66 | scanning a list from the back finds its greatest entry below the last item taken |
| `Knapsack.Rebuild` | knapsack.cc:45-71 | the reconstruction loop ends and takes exactly the items of the walk through the table |
| `Knapsack.WalkFits` | knapsack.cc:48-70 | the choice rebuilt fits its capacity |
| `Knapsack.WalkOptimalIff` | knapsack.cc:48-71 | the choice rebuilt is optimal for every target if and only if no item of size 0 has a positive value: the loop stops at capacity 0 |
| `Knapsack.OptWithinSum` | knapsack.cc:36-38 | every number in the table lies between 0 and the sum of the positive values, so sums within int suffice |
| `Knapsack.SumInComplement` | knapsack.cc:79-95 | the sum over a choice and over its complement make up the sum of all: what the dual rests on |
| `Knapsack.MinSize` | knapsack.cc:82-96 | for values from 0 up: the choice returned reaches the wanted value, or is everything if nothing reaches it; the number returned is at most the size of any choice that reaches it, and is the size of the choice returned when no item of value 0 has a positive size |
| `Knapsack.MinimalPrefixShort` | par.cc:405-411 | the items of a minimal choice before any one of them do not reach the wanted value, when all sizes are positive |
| `LockProtocol.NextInv` | mylockfile.h:118-225 | every system call keeps the invariant: one owner of the gate, lock table and processes agree, every held lock is on the inode the locks path names now, a locks file found free stays free until unlinked |
| `LockProtocol.RunInv` | mylockfile.h:118-225 | the invariant holds at every point of every run of any number of processes |
| `LockProtocol.MutualExclusion` | mylockfile.h:118-225 | two processes that hold locks at the same time hold shared ones, on the same inode, although the locks file may have been unlinked and made again |
| `LockProtocol.WaitsExactly` | mylockfile.h:146-156 | F_SETLKW waits if and only if some process has a lock and not both are shared, whatever inodes were opened: readers never wait for readers |
| `LockProtocol.FreeExactly` | mylockfile.h:200-216 | the destructor finds the locks file free, and so unlinks it, if and only if no process has a lock |
| `LockProtocol.GateOwnerOrHolder` | mylockfile.h:129-167 | a process that has the gate can go on, or waits in F_SETLKW for a holder, who can close its descriptor without the gate |
| `LockProtocol.NoDeadlock` | mylockfile.h:118-225 | whenever some process is inside constructor or destructor, some process can take a step that gets on |
| `LockProtocol.WorkDecreases` | mylockfile.h:118-225 | every such step uses up a measure, so a run of them is finite |
| `LockProtocol.CanDrain` | mylockfile.h:118-225 | from every reachable point all processes can be brought out of the protocol |
| `LockProtocol.NothingLeftBehind` | mylockfile.h:165-225 | when all are idle no lock and no gate is left, and no locks file unless a constructor threw after opening it |
| `MidInfo.JoinLattice` | cache.h:270-292 | "not removed" < times < "dead" is a total order whose join is associative and commutative |
| `MidInfo.InsertedFullJoins` | cache.h:280-292 | insert_full joins the removal time in, and touches no other message |
| `MidInfo.MergedJoins` | cache.cc:1025-1034 | merging a file joins it in message by message, whatever the order of its lines |
| `MidInfo.WrittenReads` | cache.cc:1072-1078 | a written file says of each message what the store says, less the dead ones |
| `MidInfo.WrittenLoads` | cache.cc:1025-1034 | a written file, loaded into an empty store, gives back the table with its added and removal times, less its dead messages |
| `MidInfo.InsertedFullPicks` | cache.h:280-292 | of the stamp held and the one given the one removed later is kept whole, the one given when they are removed alike |
| `MidInfo.MergedPicks` | cache.cc:1025-1034 | after a merge each message has its own stamp or the one the file gives it, whichever was removed later |
| `MidInfo.StampInIs` | cache.cc:1025-1034 | the stamp a file gives a message is that of one of its lines, none of which was removed later |
| `MidInfo.Store.InsertFull` | cache.h:280-292 | the mutating form computes that insertion, the added time included, and says when it changes nothing |
| `MidInfo.Store.Insert` | cache.h:299-305 | a message is added as not removed unless known; only then is the store marked changed |
| `MidInfo.Store.Remove` | cache.h:306-312 | a known message becomes dead and the store is marked changed |
| `MidInfo.Store.SetDelete` | cache.h:319-324 | a known message gets a removal time; the store is not marked changed |
| `MidInfo.Store.DoDelete` | cache.cc:978-996 | exactly the unrelated messages past their keeping times become dead |
| `MidInfo.Store.Merge` | cache.cc:1025-1034 | loading with merge folds all lines of the file in, stamps included |
| `MidInfo.Store.Write` | cache.cc:1071-1079 | one line for each message that is not dead |
| `MidInfoSharing.OneSaver` | cache.cc:1050-1088 | while one process saves no other holds the lock or is saving |
| `MidInfoSharing.RunInv` | cache.cc:1000-1088 | the saving process always holds the exclusive lock and its temporary file holds what it has written so far, in every interleaving |
| `MidInfoSharing.NoLostUpdate` | cache.cc:1050-1088 | after a completed save each message of the old file or of the saver's store is in the new file with the joined removal time, and is absent only if that is "dead"; loading the new file gives the merge of the two with all stamps, less the dead |
| `MidInfoSharing.FileOnlyRises` | cache.cc:1000-1088 | over any stretch of any run what the file says of a message only goes up, unless a save drops it as dead |
| `MidInfoSharing.ReplacedUnderLock` | cache.cc:1056-1086 | the file is replaced only by a holder of the exclusive lock while nobody else holds any |
| `Crc.GenerateCRC32Table` | par2/crc.cpp:34-47 | the generated table holds the bitwise CRC of every byte |
| `Crc.TableIsBitwise` | par2/crc.h:52-55 | one step with the table is the bitwise step |
| `Crc.PolynomialIs` | par2/crc.cpp:31-31 | the polynomial is that of IEEE 802.3, power by power, its highest coefficient in the lowest bit |
| `Crc.ChecksumOfA` | par2/crc.h:35-58 | the checksum of the letter a is the known one |
| `Crc.CRCUpdateBlock` | par2/crc.h:58-68 | the loop computes the bitwise CRC of the block |
| `Crc.CRCUpdateZeros` | par2/crc.h:71-79 | the same for a block of zero bytes |
| `Crc.BlockAppend` | par2/crc.h:26-27 | a CRC may be computed piecemeal |
| `Crc.BlockLinear` | par2/crc.h:57-68 | the CRC of the bytewise exclusive or of two blocks is the exclusive or of their CRCs |
| `Crc.GenerateWindowTable` | par2/crc.cpp:50-63 | each entry is the byte's CRC followed by a window of zero bytes |
| `Crc.ComputeWindowMask` | par2/crc.cpp:66-78 | the mask is what the initial value leaves behind after a window of zero bytes |
| `Crc.MaskRemovesStart` | par2/crc.cpp:65-78 | masking a checksum gives the CRC started from 0 |
| `Crc.SlideIsRecompute` | par2/crc.h:89-92 | sliding with the two tables and the mask equals the checksum of the window one byte on, computed afresh, for every window size and data |
| `Md5.Padded` | par2/md5.cpp:274-297 | padding as in sections 3.1 and 3.2 of RFC 1321 extends the message to whole blocks |
| `Md5.PaddingIs` | par2/md5.cpp:274-297 | behind the message come the byte 0x80, as few zeros as whole blocks allow, and the number of bits modulo 2^64 as eight bytes, low byte first |
| `Md5.InitialBytes` | par2/md5.cpp:66-72 | the state starts as the bytes 01 23 45 67 up to 10, as section 3.3 of RFC 1321 has them |
| `Md5.WordBytesBack` | par2/md5.cpp:266-324 | words are made of bytes and read out again low byte first |
| `Md5.AbsorbPrefix` | par2/md5.cpp:232-255 | the blocks of a message do not depend on what follows |
| `Md5.BlockCompleted` | par2/md5.cpp:233-255 | filling the block up completes one more block of the message |
| `Md5.BitsModulo` | par2/md5.cpp:272-272 | shifting the wrapped byte count gives the wrapped bit count |
| `Md5.MD5Context.Update` | par2/md5.cpp:225-263 | the context stands for the bytes fed in so far, however they are cut up |
| `Md5.MD5Context.UpdateZeros` | par2/md5.cpp:195-222 | feeding zero bytes is feeding that many zero bytes |
| `Md5.MD5Context.Final` | par2/md5.cpp:266-307 | the digest of all bytes fed in |
| `Md5.MD5Context.CopyFrom` | par2/filechecksummer.cpp:179-179 | assignment between contexts copies what they stand for |
| `FileCheckSummer.CheckSummer.Start` | par2/filechecksummer.cpp:54-69 | establishes the invariant at offset 0, and says exactly when it fails |
| `FileCheckSummer.CheckSummer.Step` | par2/filechecksummer.h:136-175 | keeps the invariant one byte on; fails only at the end or when a read fails; pointers stay in the buffer |
| `FileCheckSummer.CheckSummer.Jump` | par2/filechecksummer.cpp:72-128 | keeps the invariant up to a block on; fails only at the end, at distance 0, or when a read fails; what is discarded is loaded (the assert at 103) |
| `FileCheckSummer.CheckSummer.Fill` | par2/filechecksummer.cpp:132-161 | reads on, hashes what it read, keeps what was loaded, and blanks the rest only while the file has not been read to its end |
| `FileCheckSummer.CheckSummer.UpdateHashes` | par2/filechecksummer.cpp:164-191 | the full context has seen every byte once and in order, the 16k context the first 16384 |
| `FileCheckSummer.CheckSummer.GetFileHashes` | par2/filechecksummer.cpp:194-212 | at the end of the file: the MD5 of the whole file and of its first 16k |
| `FileCheckSummer.CheckSummer.WindowIsFile` | par2/filechecksummer.h:111-127 | a full window holds the file's bytes, and the running checksum is their direct CRC |
| `FileCheckSummer.CheckSummer.Hash` | par2/filechecksummer.cpp:215-224 | the MD5 of the window, which for a full window is that of the file's bytes |
| `FileCheckSummer.CheckSummer.ShortChecksum` | par2/filechecksummer.cpp:226-238 | the CRC of that many bytes of the window followed by zeros up to a block |
| `FileCheckSummer.CheckSummer.ShortHash` | par2/filechecksummer.cpp:240-255 | the MD5 of the same |
| `FileCheckSummer.ScanDataFile` | par2/par2repairer.cpp:1354-1485 | whatever matches are found, the scan ends; every place of the file is looked at, unless it lies strictly inside a jump, and each look goes on by one byte without a match and by the jump with one; full windows are looked at with their direct checksums; the hashes at the end are those of the whole file; for an empty file none are computed |
| `FileCheckSummer.NothingPassed` | par2/par2repairer.cpp:1414-1480 | looks one behind the other, by one byte without a match, pass over no place but those inside a jump |
| `NRange.EqualSetsEqualLists` | nrange.h:74-75 | two canonical lists are equal exactly when their sets are |
| `NRange.CheckIsMem` | nrange.h:54-59 | lower_bound and one comparison decide membership |
| `NRange.Ranges.InsertOne` | nrange.cc:22-47 | union with one number, still canonical, including the ends of the range |
| `NRange.Ranges.Insert` | nrange.cc:48-80 | union with a range l <= h, still canonical; with l = h + 1 exactly what Backwards says |
| `NRange.BackwardsIff` | nrange.cc:48-80 | inserting [h + 1, h] leaves a canonical list if and only if a range lies around both ends; otherwise it leaves a range whose low end is above its high end |
| `NRange.Ranges.Remove` | nrange.cc:82-136 | difference with a range as far as the loop reaches (RemoveTop), still canonical; nothing changes when every range ends below l, proper or not |
| `NRange.RemoveExactIff` | nrange.cc:92-98 | remove(l, h) is exact if and only if h is at most the highest element's range or at most one range ends at or above l |
| `NRange.ReachingExact` | nrange.cc:92-98 | from a set that reaches up to ULONG_MAX, or is a single range, every removal is exact |
| `NRange.StillReaching` | nrange.cc:82-136 | a removal from below leaves such a set such a set |
| `NRange.Ranges.RemoveOne` | nrange.h:62-62 | removing one number is always exact |
| `NRange.Ranges.GetTotal` | nrange.h:38-43 | the number of elements modulo 2^64 |
| `NRange.Ranges.Low` | nrange.h:44-47 | the least element; an error on the empty set |
| `NRange.Ranges.High` | nrange.h:48-51 | the greatest element; an error on the empty set |
| `NRange.Ranges.ClipToMaxTotal` | nrange.cc:138-152 | keeps exactly the num largest elements, unless the set reaches from 0 to ULONG_MAX and num is 0 or the set is full; then it changes nothing |
| `NRange.ClipExactIff` | nrange.cc:141-150 | in that case changing nothing is wrong, so the condition is exact |
| `NRange.Ranges.Invert` | nrange.cc:154-168 | adds exactly the complement, including 0 and ULONG_MAX |
| `NRange.InvertInvolution` | nrange.cc:154-168 | inverting twice into empty sets gives the same list again |
| `FileOrder.LessTotal` | cache.h:62-77 | the order of files is asymmetric, and its ties are exactly the equal keys |
| `FileOrder.LessTransitive` | cache.h:62-74 | the order of files is transitive |
| `FileOrder.LessIs` | cache.h:62-74 | number of parts, offset, author, subject, and references decide in this order, each only when all before it are equal |
| `FileOrder.StringLessIs` | cache.h:62-74 | strings are compared at the first place where they differ, a beginning coming before the whole |
| `CacheFiles.LowerBound` | cache.cc:161-182 | binary search finds the first part not below a number |
| `CacheFiles.FindPart` | cache.h:148-154 | the part with a number, if there is one |
| `CacheFiles.AddPart` | cache.h:156-159 | a part is inserted at its place, and the list stays sorted |
| `CacheFiles.RemovePart` | cache.h:161-165 | exactly the part with the number is taken out |
| `CacheFiles.FileAddPart` | cache.cc:185-195 | the part goes to its place, and the count of parts goes up exactly when the part counts |
| `CacheFiles.AddedPart` | cache.cc:185-195 | inserting a part inserts its articles and counts it |
| `CacheFiles.CountedIs` | cache.cc:34-39 | the count is the number of different part numbers between 1 and the number required, or the one number required when there is a single part |
| `CacheFiles.CompleteIff` | cache.h:195-195 | a file has as many parts as required if and only if it has a part with every number from 1 on; a single-part post, if and only if it has the part with its number |
| `Cache.NntpCache.AddItem` | cache.cc:330-373 | keeps the invariant: parts strictly sorted, no empty part or file, counters right, numbers within the server's bounds; the article joins the part with its number and message, or a new part with its date and message-id, of the first file with the key whose number is free or the same message's; otherwise a new file comes behind all that are not after it; nothing else of any file changes but the count and the time of change; the server's lowest and highest numbers take it in |
| `Cache.NntpCache.EqualRange` | cache.cc:334-334 | exactly the files with the key |
| `Cache.NntpCache.GetServerInfo` | cache.cc:324-329 | an entry is made if there is none, the rest is untouched |
| `Cache.NntpCache.Flush` | cache.cc:411-493 | keeps the invariant; what is left is exactly what does not lie in the range on that server, in order, with dates, message-ids, offsets and flags as they were; counters follow, including the early return; the message-ids handed on are exactly those of the parts dropped, in that order; both removals at 421-422 are exact when the range reaches up to ULONG_MAX or is a single one |
| `Cache.FlushComplete` | cache.cc:470-486 | an article survives a flush if and only if it is not one of the server in the range |
| `Cache.GoneMeans` | cache.cc:429-457 | the message-ids handed on are those of exactly the parts all of whose articles go |
| `Cache.CutExactly` | cache.cc:421-422 | cutting the range down to the numbers known for the server is exact in both steps when the range reaches up to ULONG_MAX or is a single one |
| `Cache.FilesStem` | cache.cc:429-466 | every file and part left by a flush is one there was, less articles and parts |
| `Cache.NntpCache.FlushLow` | cache.cc:403-410 | keeps the invariant; everything of the server below the new low end is gone; the range is cut down exactly |
| `Cache.FlushFile` | cache.cc:429-466 | one file's flush, counters included |
| `Cache.ItemsKept` | cache.cc:426-467 | filtering files, parts and articles filters the articles they hold |
| `Cache.KeepItemsCount` | cache.cc:468-468 | the count returned is the number of articles the server lost; no other server loses any |
| `Cache.KeptFilesOk` | cache.cc:426-467 | a flush leaves sorted files with no empty part and right counts |
| `Cache.NntpCache.GetXRange` | cache.cc:380-402 | takes exactly the numbers held for the server out of a range set, and leaves an improper one below them alone |
| `Cache.NntpCache.GetXRangeFrom` | cache.cc:375-379 | the numbers from the lower of the two low ends to the high end, less those held; when that low end is above the high end, the improper range between them |
| `UpdatePlan.PlanUpdate` | prot_nntp.cc:572-620 | nothing held is asked for; with fullxover 2 on the list path exactly the list (clipped) less what is held; with 1 exactly everything from the lower low end less what is held; with 0 exactly what lies above and below the numbers seen; exactly what the clipped list lacks, or what lies below the low end, is flushed before; and what is asked for is a proper set if and only if the limit is not zero, or the list is used, or fullxover is 0 with something seen before (AsksProperly) |
| `UpdatePlan.PlanFromList` | prot_nntp.cc:579-594 | the list path: exactly what the list lacks is flushed, by exact removals, the low end becomes the lowest number listed, and exactly what the list has and the cache has not is asked for |
| `UpdatePlan.PlanByEnds` | prot_nntp.cc:606-617 | the numbers above and below those seen so far, none of them held; an improper range exactly when nothing has been seen and the low end is above the high end |
| `UpdatePlan.ReadList` | prot_nntp.cc:522-544 | the range set read from the server's list |
| `UpdatePlan.LimitKeepsOrder` | prot_nntp.cc:595-599 | the limit leaves the newest numbers, exactly as many as it says or all there are; low <= high if and only if it is not zero; with zero low becomes high + 1 |
| `GroupMerge.MergeFile` | cache.cc:201-226 | no article is lost or made; each part of the result is one the target had, with the other's articles for the same message behind its own, or one of the other's whose number the target lacked; exactly the parts whose number another message has stay behind; the target's count stays as right as it was; the other's, if right before, is right afterwards if and only if all its parts that count stayed behind; the later time of change is kept |
| `GroupMerge.LeftoverCountIff` | cache.cc:207-224 | as many parts that count stay behind as there were exactly when all of them clash |
| `GroupMerge.AddArticles` | cache.cc:207-222 | one part's articles move to the part with its number and message-id, or to a new one, or clash |
| `GroupMerge.LeftoverOk` | cache.cc:212-216 | what stays behind is exactly what clashes with the target, still sorted |
| `MetaGroup.MergeGroups` | cache.cc:871-931 | the loop ends, after the rounds RoundFrom describes; files come out in order; the articles put out are exactly those read; counts are never too low, and all right if they were on reading and no two messages claim a part; if no reader repeats a key, a key comes out again only with parts that clash with the earlier file |
| `MetaGroup.CountTooHigh` | cache.cc:201-226 | two groups of right files from which a file with too high a count is put out |
| `MetaGroup.MergeRound` | cache.cc:893-926 | one round, with erasing and reading on, keeps the invariant while the merged file may move or leave the list, and ends as RoundFrom says |
| `MetaGroup.MinElement` | cache.cc:890-890 | the first of the least heads |
| `MetaGroup.FirstFiles` | cache.cc:871-876 | the first file of every reader that has one |
| `MetaGroup.MergeHead` | cache.cc:895-900 | merging a head with an equal key into the merged file keeps order, articles and refusals |
| `MetaGroup.ReadHead` | cache.cc:901-914 | reading on keeps order, articles and refusals |
| `MetaGroup.EraseHead` | cache.cc:915-922 | dropping a reader at its end keeps order, articles and refusals |
| `MetaGroup.NextNotRefused` | cache.cc:912-912 | a strictly later file has a key nothing put out so far has |
| `MetaGroup.LeftoverTaken` | cache.cc:212-216 | what a merge leaves behind clashes, article by article, with the target |
| `HashOrder.HashLess` | par2/md5.h:139-148 | the loop compares the hashes as numbers, low byte first |
| `HashOrder.ValueInjective` | par2/md5.h:130-148 | hashes with the same number are the same, so the order is strict and total |
| `HashOrder.BelowTotal` | par2/verificationhashtable.h:67-78 | ties of (checksum, hash) are exactly the equal pairs |
| `HashTree.InsertedBst` | par2/verificationhashtable.h:131-155 | inserting keeps the tree a search tree and adds exactly the entry |
| `HashTree.InsertedChain` | par2/verificationhashtable.h:131-155 | the entry goes to the end of the chain of its pair; no other chain changes |
| `HashTree.ChainHolds` | par2/verificationhashtable.h:161-201 | an entry is in the tree exactly when it is in the chain of its pair |
| `HashTree.Written` | par2/verificationhashtable.h:131-155 | writing the entry through the pointer found links the tree with the entry inserted, in the heap |
| `HashTree.FindSpot` | par2/verificationhashtable.h:133-152 | the walk from pointer to pointer ends at the null pointer where the entry belongs |
| `HashTree.Insert` | par2/verificationhashtable.h:131-155 | the tree in the heap becomes the tree with the entry inserted; other buckets are untouched |
| `HashTree.FindCrcKeeps` | par2/verificationhashtable.h:158-177 | the subtree found by checksum holds every entry with it, in the same chains |
| `HashTree.SearchCrc` | par2/verificationhashtable.h:158-177 | the loop finds that subtree |
| `HashTree.SearchHash` | par2/verificationhashtable.h:180-201 | searching on by hash finds the head of the chain of the pair, or null when there is none |
| `HashTable.MaskIsRemainder` | par2/verificationhashtable.cpp:94-94 | masking with one less than a table size takes the remainder |
| `HashTable.Table.SetLimit` | par2/verificationhashtable.cpp:51-65 | the size is the least power of two from 256 to 65536 that reaches the limit, or 65536 |
| `HashTable.Table.Add` | par2/verificationhashtable.cpp:86-94 | one more entry; every pair's chain is the entries with it in the order they came |
| `HashTable.Table.Load` | par2/verificationhashtable.cpp:68-107 | one entry for each block, each pointing to the next, the first marked as first |
| `HashTable.Table.Lookup` | par2/verificationhashtable.h:248-256 | an entry is found if and only if one with the checksum was inserted; all such entries are below it |
| `HashTable.Table.LookupHash` | par2/verificationhashtable.h:259-263 | the two-stage search gives the first entry inserted with the pair, with all others chained to it in order, or null exactly when there is none |
| `HashTable.Table.FindMatch` | par2/verificationhashtable.h:265-443 | the suggested entry if it fits; none if no entry matches; a single one if it may be used; else the first usable one of the preferred file, else the first usable one; near the end of the file only an entry of just that length, and of several none only when each was found before or has another length |
| `HashTable.OnlyMatch` | par2/verificationhashtable.h:335-393 | when a single match is returned, and when it counts as a duplicate |
| `HashTable.PreferredMatch` | par2/verificationhashtable.h:395-425 | the first usable entry of the file along the chain, else the first usable one |
| `PacketScan.LoadPackets` | par2/par2repairer.cpp:198-372 | for every file and buffer size, when reads succeed: the packets found are those of the byte-by-byte search if and only if no place that search visits wraps around; otherwise the scan takes the first such place and goes back; if reads fail, whole packets one behind the other; the set is the first packet's and the packets handed on are those of the set |
| `PacketScan.FindMagic` | par2/par2repairer.cpp:234-273 | no place with the magic value is passed over, at buffer edges or elsewhere |
| `PacketScan.ScanBuffer` | par2/par2repairer.cpp:249-255 | the first place in the buffer with the magic value |
| `PacketScan.HashPacket` | par2/par2repairer.cpp:286-314 | the MD5 of the packet from its set id to the computed end, or to the end of the header if that lies further on, read a buffer at a time |
| `PacketScan.CheckPacket` | par2/par2repairer.cpp:277-319 | when reads succeed a candidate is accepted exactly as Accepts says; what is accepted is a packet or wraps around |
| `PacketScan.NothingSkipped` | par2/par2repairer.cpp:249-258 | skipping places without the magic value changes nothing |
| `PacketScan.StepAgreesIff` | par2/par2repairer.cpp:277-371 | one step of the scan is a step of the byte-by-byte search if and only if the candidate does not wrap around: its end exceeds 64 bits and its hash is that of the rest of its header; then the scan takes what is no packet and goes back |
| `PacketScan.ScanIsGreedyIff` | par2/par2repairer.cpp:215-372 | the scan ends with what the byte-by-byte search finds if and only if no place that search visits wraps around |
| `PacketScan.ScanMayNotEnd` | par2/par2repairer.cpp:215-372 | a file of 68 bytes, for any compression function, on which the scan goes round for ever while the search finds nothing |
| `ServerFiles.ListInsert` | par.h:53-58 | a file goes behind those of its rank |
| `ServerFiles.FileQueue.AddFile` | cache.h:237-241 | one file more, in order of date |
| `ParLists.SetInitialPars` | par.h:59-76 | all index files are queued, and the first smallest volume when there are none; files only move |
| `ParLists.GetPxxs` | par.cc:169-212 | files only move; each queued file brings a volume of its own that was not held; at most num; short of num only if the rest brings none, or the optimistic find too few; nothing changes when nothing is queued |
| `ParLists.NoVolumes` | par.cc:169-212 | when nothing was queued, and not for being optimistic, no volume on offer is new |
| `ParLists.EnoughOffered` | par.cc:173-187 | counting stops early but decides whether enough volumes are on offer |
| `RecoveryPackets.GetExtradata` | par.cc:326-357 | the front of the useful files until enough blocks are expected; all or nothing for the optimistic, and nothing exactly when there are too few; files only move |
| `RecoveryPackets.CountNew` | par.cc:371-379 | counts the packets neither held nor on offer so far |
| `RecoveryPackets.ListItems` | par.cc:364-389 | the ranges listed are exactly those that bring packets neither held nor on offer so far, for any matcher; values of complete files add up to the packets on offer |
| `RecoveryPackets.ListedOnceIff` | par.cc:368-390 | each file is listed at most once if and only if no file has two ranges that both bring packets neither held nor on offer so far |
| `RecoveryPackets.OnceInAllListsIff` | par.cc:368-390 | that holds for every list of some files if and only if no one of them has two ranges that both bring packets not held |
| `RecoveryPackets.ListedTwice` | par.cc:368-418 | one file from which two names read packets 0 and 5, both needed: it is listed twice, and every smallest choice queues it twice |
| `RecoveryPackets.QueueBest` | par.cc:399-419 | when no file is listed twice, a smallest choice reaching num is queued; before each file fewer than num have been gathered, and the sizes cancel to 0 (the asserts at 408 and 418) |
| `RecoveryPackets.GetRecoveryPackets` | par.cc:359-420 | when no file is listed twice, files only move; either blocks from incomplete files or a smallest choice, as Request says; 0 exactly when nothing was queued, and then the lists are as they were |
| `RecoveryPackets.NoPackets` | par.cc:359-420 | when nothing was queued, and not for being optimistic, no packet on offer is new and no incomplete file is useful |
| `RecoveryPackets.EnoughFetched` | par.cc:399-419 | with complete files and enough packets on offer, at least num packets are fetched |
| `Autopar.ParXInfo.MaybeAddParfile` | par.cc:121-324 | a file is kept if and only if it is wanted: with the local set it matches, else in the set its subject names, else (PAR2) with the incomplete files; nothing else changes |
| `Autopar.AddToSet` | par.h:147-149 | exactly the set with the name gets the file, a new one if there is none |
| `Autopar.ParXInfo.Reclaim` | par.cc:219-230 | released volumes are all taken back (the assert at 229): each goes to the index files or volumes if it matches a local set so, else to the set its subject names; none that matches stays with the sets |
| `Autopar.ReleaseUnclaimed` | par.h:77-82 | all volumes leave the sets, none is lost |
| `Autopar.ParXInfo.GetInitialPars` | par.cc:156-167 | all index files known and exactly the initial files of every set are queued |
| `Autopar.ParXInfo.Ask` | par.cc:479-481 | a request only moves files, returns 0 exactly when it moved none, and then changes nothing; what it moves is what get_pxxs or get_recoverypackets says (AskedFor) |
| `Autopar.ParXInfo.OneSet` | par.cc:441-490 | a set not finished that needs something is asked for, and exactly what that says enters the queue; a finished or complete set is passed over; a set is finished exactly when nothing was queued for it |
| `Autopar.NothingQueued` | par.cc:480-484 | when a set was asked for, not optimistically, and nothing was queued, nothing on offer would bring it anything |
| `Autopar.ParXInfo.AskEach` | par.cc:434-490 | every set of the path has its turn, one behind the other, on what the turns before it left on offer |
| `Autopar.AllTurnsIdle` | par.cc:434-497 | when no turn queued anything, not optimistically, nothing on offer would bring anything to any set that needs something and was not finished |
| `Autopar.ParXInfo.MaybeGetPxxs` | par.cc:422-497 | queue and lists together hold the same files; a round reclaims, queues the initial files, and gives every set its turn, and what enters the queue is just what these say (Served); no index file is left in the lists; 0 exactly when nothing was queued, and then every set is finished and, unless optimistic, nothing left would bring anything to a set that needs something |
| `Retrieve.PathMaybeGetPxxs` | par.cc:506-530 | the first handler of the path, and no other, has its PAR1 and its PAR2 round, and what these ask for is queued; queue and all lists together hold the same files |
| `Retrieve.RetrieveAll` | prot_nntp.cc:1175-1298 | whatever turns up on disk, and whatever is found to be there already, the loop ends with an empty queue; it is a run of rounds: each takes the first file queued, skips those found to be there, and when the path then has no files left its handler is asked and what that asks for is queued, and otherwise nothing changes; every file ends up retrieved, skipped or held, as often as it was there; only files queued in the beginning, to be checked, are skipped, so no parity file is |
| `Retrieve.SkipDupes` | prot_nntp.cc:1271-1294 | exactly the files to be checked, of the same path, that are found to be there are taken out; the others stay, in order |
| `Retrieve.KeptIs` | prot_nntp.cc:1271-1294 | a file is skipped if and only if it is to be checked, is for the path, and was found to be there |
| `Retrieve.AtMostOnce` | prot_nntp.cc:1175-1298 | so a file that was there once is retrieved or skipped at most once, and not both |
| `Retrieve.PathFilesLeft` | prot_nntp.cc:1184-1190 | counts the queued files of a path |
| `Wildmat.Regex2Wildmat` | misc.cc:76-149 | the loop computes the conversion, errors and bracket classes included |
| `Wildmat.RefusedExactly` | misc.cc:95-116 | an expression without bracket classes is refused if and only if it has, not escaped, a backslash before nothing, a letter, a digit or an angle bracket, a star not behind a dot, or another operator |
| `Wildmat.ClassText` | misc.cc:124-140 | a class becomes its characters up to the next closing bracket, the first one excepted, each in both cases when case is ignored |
| `Wildmat.ClassMeans` | misc.cc:124-140 | a class without ranges holds a character afterwards if and only if one of its own is the same, in either case when case is ignored |
| `Wildmat.RangeFolded` | misc.cc:134-136 | with a range it may not: ignoring case, a range from a to c becomes one that holds the underscore |
| `Wildmat.ConvertKeepsMeaning` | misc.cc:76-149 | for expressions of literals, dot, dot-star, escaped punctuation and anchors at the ends: the wildmat matches a string exactly when the expression finds a match in it, for all strings, if and only if the expression is not a lone caret and every escaped backslash is followed by the dollar at the end or an escaped closing bracket |
| `Wildmat.FromAgrees` | misc.cc:85-145 | the same for the rest of an expression, item by item, when its backslashes are kept |
| `Wildmat.CaretAlone` | misc.cc:81-84 | the lone caret becomes the empty wildmat |
| `Wildmat.BackslashLost` | misc.cc:110-113 | whenever an escaped backslash is followed by anything else, some string is matched by the wildmat or found by the expression but not both |
| `Wildmat.Lighter` | misc.cc:85-146 | from any string the wildmat matches, one that weighs no more than the expression, and less if a backslash is lost |
| `Wildmat.MatchWeight` | misc.cc:85-146 | what an expression finds weighs at least as much as the expression |
| `Wildmat.StarMatch` | misc.cc:84-84 | a star matches any beginning (section 3.3 of RFC 2980) |
| `Wildmat.PairMatch` | misc.cc:119-123 | the two-letter class matches either case |
| `Buffy.RingBuffer.Dofill` | buffy.h:75-87 | there is room, and what the source hands out is appended, wherever the ring stands |
| `Buffy.RingBuffer.Bget` | buffy.h:99-105 | the next byte of what remains, however the source is chunked |
| `Buffy.RingBuffer.Bpeek` | buffy.h:94-98 | the same without taking it |
| `Buffy.RingBuffer.Beof` | buffy.h:89-92 | true exactly when nothing remains |
| `Buffy.RingBuffer.Bgets` | buffy.h:115-131 | the first line without carriage returns, and the count of bytes swallowed |
| `Buffy.RingBuffer.Btoks` | buffy.h:133-165 | the number of tokens of the first line and the first of them as C strings |
| `Lines.SplitJoin` | buffy.h:133-165 | splitting undoes joining when no field has the separator |
| `Lines.AtoulUnsigned` | strreps.h:44-44 | reading a printed unsigned number gives it back |
| `Lines.AtoiSigned` | cache.cc:673-676 | reading a printed signed number gives it back |
| `CacheReader.Save` | cache.cc:762-798 | the nested loops write the text of the cache |
| `CacheReader.SaveFile` | cache.cc:775-794 | the text of one file |
| `CacheReader.Reader.ReadFile` | cache.cc:603-699 | reads one file as the mode machine says, on any text; what it returns has articles on known servers only, its parts in order and none empty, and a count not below theirs (ReadWell) |
| `CacheReader.Reader.PartLine` | cache.cc:638-671 | the branch for lines of parts, with dropping of empty parts and the assert against repeated numbers |
| `CacheReader.Reader.ArticleLine` | cache.cc:613-637 | the branch for lines of articles: one on a server not known is ignored and counted |
| `CacheReader.Reader.ReferenceLine` | cache.cc:682-691 | the branch for references |
| `CacheReader.LoadCache` | cache.cc:715-743 | the result of opening a cache depends on the text alone, not on how its bytes are handed out; on any text all articles loaded are on known servers, files and parts are in order, no part is empty, counts are not too low, all servers are known, and the total is the number of parts when the text was read to the end |
| `CacheShape.ReadIsShape` | cache.cc:603-699 | on every text the mode machine reads the blocks of the format: a file line, references and parts up to their dots, articles within parts; parts without articles on known servers are left out |
| `CacheShape.KnownIs` | cache.cc:624-631 | the articles kept are exactly those on known servers |
| `CacheShape.AssembledIs` | cache.cc:638-672 | the parts kept are those with articles on known servers, sorted; the counters give the parts kept, the articles ignored, and the message-ids of exactly the parts dropped; the count of parts exceeds the true one by the dropped parts that count |
| `CacheShape.CountRightIff` | cache.cc:638-645 | the count of parts of a file read is right if and only if no part was dropped that counts |
| `CacheShape.CompleteWithoutFirst` | cache.cc:638-645 | a post in two parts whose first is on a server no longer known: it passes as complete with the second alone |
| `CacheShape.GotIsWell` | cache.cc:603-699 | whatever file a text gives has articles on known servers only, sorted parts, none empty, and a count not below theirs |
| `CacheShape.LoadIsWell` | cache.cc:715-743 | so does everything a cache loads, in order, whatever the text |
| `CacheShape.FirstEntryStays` | cache.cc:588-592 | a server entry stays as first read |
| `CacheShape.HeadDecides` | cache.cc:560-571 | only a text whose first line has two fields and this version is read to the end; it is to be saved again exactly when its order is another |
| `CacheText.LinesAre` | cache.cc:757-794 | the lines of servers, files, parts and articles have their fields in this order |
| `CacheText.FileRead` | cache.cc:775-794 | the text of a file is read as the file, references and counts included |
| `CacheText.PartsRead` | cache.cc:781-794 | the texts of the parts are read as the parts, and counted |
| `CacheText.ArticlesRead` | cache.cc:785-791 | the lines of the articles are read as the articles |
| `CacheText.ReferencesRead` | cache.cc:776-780 | references are read back, those that begin with a dot too |
| `CacheText.ServersAreRead` | cache.cc:764-768 | the server lines are read back as the map |
| `CacheText.FilesAreRead` | cache.cc:771-799 | all files are read back in order |
| `CacheText.HeadRead` | cache.cc:560-566 | the first line is accepted, with the sort version |
| `CacheText.LoadUndoesSave` | cache.cc:745-800 | loading what was saved gives back servers and files, the count of parts read, and nothing to save again |

## Left out

- Sockets, the NNTP dialogue, retries, progress display, option parsing, exit status and warnings printed: input and output.
- uulib decoding, compression of cache files, the regex library, directory scanning and date parsing: foreign or environment code.
- The PAR1 repairer, the repair itself, and the fallback in VerifyDataFile, whose result depends on a shadowed variable.
- The compression function of MD5 is an uninterpreted parameter; blocking, padding and chunking do not depend on it.
- Cache files, parts and articles are values owned by their lists, not objects: nothing else refers to them, but updates in place of a single part are not modelled as such.  The same holds for the sets of parity files in `Autopar`.
- Cache.NntpCache.Flush: the message-ids of dropped parts are returned; the calls of the message-id store themselves, and the related ids it keeps, are not modelled.
- Cache.NntpCache.AddItem: assumes article numbers from 1 (section 6 of RFC 3977) and below ULONG_MAX.
- UpdatePlan.PlanUpdate: assumes a group that is not empty, with article numbers from 1 and below ULONG_MAX; what the server answers to the request is not modelled.
- NRange.Ranges.Insert: assumes l <= h + 1, which every caller keeps to; with a larger l the erasing loop would be given its ends in the wrong order.
- NRange.Ranges.Remove: assumes l <= h, as every caller does.
- NRange.Ranges.Invert: assumes that source and target are different objects.
- LockProtocol.NextInv: one lock object per path and process, no crashes, and no errors in the destructor; errors thrown by the constructor are modelled.  An inode number is not handed out while a descriptor or a lock refers to it.
- MidInfoSharing.NoLostUpdate: the text of the lines is not modelled, a line is its fields; a read of the open file is one step, since a renamed-over file keeps its contents for those who have it open.
- MidInfo.Store.DoDelete: times are unbounded integers.
- FileCheckSummer.CheckSummer.WindowIsFile: says nothing of windows that reach past the end of the file, whose tail may hold bytes read earlier; short blocks inside the file are covered by ShortChecksum and ShortHash.
- FileCheckSummer.ScanDataFile: what is looked up and how matches are recorded is an arbitrary answer for each window; the answers of the hash table are modelled in `HashTable`.
- FileCheckSummer.CheckSummer.Start: used once per object, as the code does; the hashes are not reset.
- HashTable.Table.FindMatch: the window's checksums and hashes, and which source files are complete, are parameters.
- HashTable.Table.Load: block counts and entries come as a list; the packet they are read from is not part of this model.
- PacketScan.LoadPackets: follows the scan up to the first time it goes back; assumes a file size that fits a signed 64-bit number; the types of packets and what is loaded from each are not modelled.
- RecoveryPackets.QueueBest: says nothing of listings that have a file twice, from which the code would erase the same list entry twice.
- RecoveryPackets.GetRecoveryPackets: sums stay within int; priorities and completeness of files are an abstract rank.
- ParLists.GetPxxs: which volumes a subject names is a parameter.
- Autopar.ParXInfo.MaybeAddParfile: what subjects look like and which local set they match are parameters; the order of sets by name is not modelled.
- Autopar.ParXInfo.MaybeGetPxxs: what is found on disk, and so how much each set needs, is a parameter of every round.
- Retrieve.RetrieveAll: downloading and decoding a file is one step, and which queued files are then found to be there already is an arbitrary answer; assumes that every queued path has a handler when parity files are handled, and that no file held is listed twice for a set.
- MetaGroup.MergeGroups: that all counts are right is proved from clean groups, not the other way round; a reader that fails hands out the files before the failure; counters shown to the user are not modelled.
- CacheText.LoadUndoesSave: for strings without tab, line end, carriage return and NUL, known servers, and times that are not negative; reading a part number twice is the failed assert it is in a build with assertions.
- CacheReader.LoadCache: what is done with the message-ids of parts that lost all their articles is not modelled beyond returning them from the reader; a file made only of dropped parts is passed over, as in the code.
- Buffy.RingBuffer.Btoks: the characters of all tokens are kept as a list of strings instead of one buffer with offsets; without tokfinal it is not modelled.
- Wildmat.ConvertKeepsMeaning: says nothing of expressions with bracket classes; what one class becomes and means is said apart (`Wildmat.ClassText`, `Wildmat.ClassMeans`), without equivalence classes and the like.
