# Verification of the ERWT3D volume store

ERWT3D stores a volume of floats as superblocks of Morton-ordered leaves and rebuilds slices and lines from it. It does
so along several independent fast paths: planned scatter, merged windows, line extents, replicas sorted by axis,
compressed sidecars, caches. All of them have to agree with one simple meaning, the raw file in which cell (x, y, z)
lies at `(x*ny + y)*nz + z`. This project models those paths in Dafny and proves that they do, for volumes, request
lists, window sizes and budgets of any size.

The modules follow the program's components.

- **Layout and slices**: `Morton`, `Layout`, `SuperblockWriter`, `SlicePlan`, `SliceReader`, `HddReader`, `HddBatch`,
  `WindowSplit`, `Extents`, `LeafExtents`, `LineBatches`, `LineReader`, `PreparedSlice`. `SliceReader.IsSlice` is the
  meaning that every reader of slices, of both formats, is proved against.
- **Windowed reading and caches**: `LruList`, `WindowCache`, `LeafCache`, `WindowedRead`, `ReadPipeline`. The pipeline
  appears twice, as the loop over windows and as a state machine over the steps of its two threads.
- **The compressed format**: `RzfpFormat`, `RzfpFile`, `RzfpWriter`, `RzfpFileWriter`, `RzfpTasks`, `RzfpOffsets`,
  `RzfpStrategies`, `RzfpReader`, `RzfpRoundTrip`.
- **Codecs**: `Float32`, `RelativeError`, `Bytes`, `BlockCells`, `LeafRecords`, `LeafChoice`, `LeafSearch`,
  `LeafExceptions`, `LeafCandidates`, `LeafCodec`, `LeafExponent`, `PlaneBlocks`, `PlaneChoice`, `PlaneCodec`. zfp is
  an arbitrary pair of functions: all that is assumed is that it is deterministic, that it decompresses to whole
  blocks and that a setting it settled on settles on itself. The error guarantee rests on the encoder's own
  decode-and-check. `LeafChoice` says which record is chosen, as a function of the block and the compressor;
  `LeafCodec` has the loops that find it; `LeafCandidates` says of every record whether it is a candidate, in terms of
  compressing, decompressing and checking alone.
- **Axis replicas**: `AxisLeaf`, `AxisLeafRepack`, `AxisLeafReader`.
- **Rounds of requests**: `PhasePacking`, `ContestPhasePlan`, `ContestRoundExecutor`, `RoundPlan`.
- **Packages and sidecars**: `EmbeddedSections`, `PackageFile`, `PackageHeader`, `SectionLayout`, `SectionEmbedder`,
  `Lz4Sidecar`, `Lz4SidecarWriter`, `Lz4SidecarReader`, `Lz4RoundTrip`. Every operation on a package file may fail, a
  write after any number of bytes; LZ4 is a pair of functions whose inverse law is a hypothesis.
- **Shared**: `Basics`, `Sorting`.

Results that go across components: `SliceReader.ReadSlice` plans and reads what `SuperblockWriter.WriteVolume` stores;
`RzfpRoundTrip.GuaranteedSlice` follows a volume from the raw file through the
encoder, the writer and the reader; `AxisLeafReader.ReadSlicesBatchFromAxisLeaf` has the same contract as
`RzfpReader.ReadSlicesBatch`; `Lz4RoundTrip.WrittenSound` and `PackagedSidecar` connect the sidecar writer, the
package and the sidecar reader.

## Where the code and its promises part

Each of these is proved at an input the code accepts, with the exact condition under which the promise holds.

- Header validation (include/erwt3d/format.hpp:82-93) admits leaf grids whose Morton order has holes. A leaf is then
  lost exactly when its code is not below the leaf count: the writer puts it nowhere (`Layout.HolesIff`,
  `SuperblockWriter.LostLeaf`, `SuperblockWriter.CellLost`). Readers and writers are proved for grids without holes.
- Splitting an oversized read window ends with every superblock unpacked from its own place exactly when the window is a
  run without gap or repetition; on a gap it never ends, for instance in a slice of a volume with default superblocks
  under the default window and gap (`WindowSplit.SplitsRightIffRun`, `WindowSplit.SplittingEndsIffGapFree`,
  `WindowSplit.DefaultReadNeverEnds`). When every window fits a thread's share or is a run, the strategy is proved right.
- The line reader's memory limit may be exceeded by the first range of a batch. For ranges of one size it is kept exactly
  when two full batches take them all, for others whenever they fit it together (`LineBatches.LimitKeptIff`,
  `LineBatches.OneBatchKept`, `LineReader.LineExceedsLimit`).
- The compressed writer encodes only whole chunks of 64 leaves: all leaves of a superblock with fewer are lost
  (`RzfpWriter.AllLeavesEncoded`, `RzfpWriter.SmallSuperblockStoresNothing`).
- The accuracy exponent is cut to one signed byte after the encoder's check. For blocks of ordinary numbers the record
  returned is sound for every compressor that takes the exponent as it is exactly when the exponent fits
  (`LeafExponent.SoundIffExponentFits`); with the default bound it does not for the smallest normal numbers
  (`LeafExponent.SmallestNormalBreaks`).
- A phase plan drops groups beyond the axis list (`ContestPhasePlan.BuiltIsValid`), and the executor silently skips
  groups whose slice exceeds the budget (`ContestRoundExecutor.AllDelivered`).
- A round plan is rejected by its own validator exactly when an interval is only empty records, as for a round of leaves
  of zeros (`RoundPlan.PlanValid`, `RoundPlan.EmptyRecordsRejected`, `RoundPlan.CloseRoundValid`).
- A second put into the leaf cache keeps the first block (`LeafCache.SecondPutKeepsFirst`).
- After a failed commit the original is back exactly when the old header was put back over all that the commit had
  changed and the file was cut; otherwise the header may be neither the old nor the new one
  (`SectionEmbedder.RestoredIff`, `SectionEmbedder.NeitherHeader`, `SectionEmbedder.CommitCutShort`).

## Model

| member | source | states |
|---|---|---|
| Morton.DecodeEncode | src/morton.cpp:5-13 | decoding a code gives back the coordinates it was made from, for coordinates of any size |
| Morton.EncodeDecode | src/morton.cpp:5-13 | encoding decoded coordinates gives back the code: with DecodeEncode, a bijection |
| Morton.Dense | src/morton.cpp:5-13 | the codes of the cube of side 2^k are exactly the numbers below 8^k |
| Morton.Monotone | src/morton.cpp:5-13 | growing a coordinate never lowers the code |
| Morton.BitsInterleaved | src/morton.cpp:5-13 | digit k of a code in base eight is bit k of x, plus twice that of y, plus four times that of z |
| Layout.GaplessIffCornerFits | src/writer.cpp:51-61 | a superblock's leaves get exactly the codes below their count if and only if the code of the last leaf is below the count |
| Layout.CubeIsGapless | src/writer.cpp:51-61 | cubes of side 2^k, the defaults among them, satisfy that condition |
| Layout.HolesIff | src/writer.cpp:51-61 | a leaf grid has holes if and only if some leaf's code is not below the leaf count |
| Layout.ValidHeaderWithHoles | include/erwt3d/format.hpp:82-93 | a header that validation accepts and whose Morton order has holes |
| SuperblockWriter.FillSuperBuffer | src/writer.cpp:95-112 | the buffer holds the box of the volume, zero beyond its faces |
| SuperblockWriter.WriteLeavesToBuffer | src/writer.cpp:45-63 | whatever the leaf grid, the output is slot by slot the leaves whose codes are below the leaf count, in Morton order, and the rest of the buffer is as before; without holes that is the superblock as readers address it |
| SuperblockWriter.LostLeaf | src/writer.cpp:45-63 | a leaf is in no slot if and only if its code is not below the leaf count |
| SuperblockWriter.CellLost | src/writer.cpp:45-63 | under the header with holes a cell of the volume may take any value without changing what is written for any superblock |
| SuperblockWriter.PackLeavesFromSlab | src/rzfp_writer.cpp:27-74 | packing leaf by leaf from a slab of X planes gives the packed superblock, ragged faces included |
| SuperblockWriter.PackingsAgree | src/rzfp_writer.cpp:27-74 | both packings of a superblock, of the two writers, are equal cell by cell |
| SuperblockWriter.WriteVolume | src/writer.cpp:158-502 | uncompressed, every superblock of the volume is stored, packed, at its place behind the header |
| Layout.StoredCell | src/writer.cpp:158-502 | in a stored file each cell of the volume is where its superblock, X fastest, its leaf's Morton code and its X-fastest place in the leaf say, and holds what the raw file has at (x*ny + y)*nz + z |
| SlicePlan.BuildSBPlan | src/sb_common.cpp:63-244 | the plan has exactly the leaves of the slice that meet the volume, each once, grouped by superblock in ascending file order |
| SlicePlan.PlanCoversOnce | src/sb_common.cpp:63-244 | every output cell lies in exactly one planned leaf |
| SliceReader.DeliverLeaf | src/sb_common.cpp:250-299 | scattering a leaf gives exactly the cells it covers the value of the raw volume and leaves the others |
| SliceReader.UnpackLeaves | src/sb_common.cpp:301-316 | unpacking a superblock does so for exactly the leaves planned for it |
| SliceReader.DeliveredAll | src/sb_common.cpp:301-316 | when every superblock has been unpacked, in any order, the output is the slice of the raw volume |
| SliceReader.SliceIsRaw | src/slice.cpp:8-12 | an X slice has the raw file's (index*ny + a)*nz + b at a*nz + b, a Y slice (a*ny + index)*nz + b at a*nz + b, a Z slice (a*ny + b)*nz + index at a*ny + b |
| SliceReader.ReadSlice | src/reader.cpp:198-208 | of a file as written, a slice within the volume is planned and read as the slice of the raw volume, in whatever order threads come to the superblocks; one outside is refused and the output untouched |
| HddReader.BuildWindows | src/sb_hdd.cpp:58-87 | windows split the superblocks, duplicates allowed, into consecutive groups; each holds all of its superblocks, stays within the read size or one superblock, bridges no larger gap than allowed and stops only where it must; windows do not overlap |
| HddReader.RunReads | src/sb_hdd.cpp:107-192 | contiguous runs, split where too large, take every superblock once and fit the buffer; the buffers of all threads fit the limit |
| HddReader.WindowsUnique | src/sb_hdd.cpp:58-87 | these conditions determine the windows |
| WindowSplit.EndsIff | src/sb_hdd.cpp:357-376 | the loop that splits an oversized window ends if and only if the window has as many blocks as tasks, or fewer blocks that are whole pieces; it ends with every task taken only in the first case |
| WindowSplit.SplittingEndsIffGapFree | src/sb_hdd.cpp:357-376 | for distinct superblocks it ends if and only if the window has no gap |
| WindowSplit.SplitsRightIffRun | src/sb_hdd.cpp:491-505 | where superblocks repeat, as in a batch, it ends and unpacks each task from its own superblock if and only if the window is a run without gap or repetition |
| WindowSplit.ServedOrNeverEnds | src/sb_hdd.cpp:326-428 | every window built for a slice fits a thread's share or has no gap, or else the thread that meets it never ends |
| WindowSplit.DefaultReadNeverEnds | src/sb_hdd.cpp:326-428 | slice X = 0 of a volume of 128 x 512 x 512 in default superblocks, read with the default window and gap and a limit of 64 MiB: one window of 127 MiB, on which the loop never ends |
| HddReader.ExecuteRunBatch | src/sb_hdd.cpp:107-192 | refused exactly when a thread's share cannot hold a superblock; otherwise the output is the slice, within the memory limit over all threads |
| HddReader.ExecuteReadWindow | src/sb_hdd.cpp:326-428 | the same for the window strategy, when each window fits a thread's share or has no gap; ServedOrNeverEnds says what happens otherwise |
| HddReader.ServedIffBuilt | src/sb_hdd.cpp:326-428 | that condition is one on the windows built |
| HddReader.SmallReadsServed | src/sb_hdd.cpp:326-428 | a read size within a thread's share meets it |
| HddBatch.BuildBatchPlan | src/sb_hdd.cpp:436-446 | the superblocks of all plans, each listed exactly once for each plan that needs it, in file order |
| HddBatch.ExecuteBatch | src/sb_hdd.cpp:448-520 | every output of a batch is its slice although superblocks of different slices share windows, when each window fits a thread's share or is a run; refusal exactly as for one slice |
| Extents.MergeExtents | src/extent.cpp:6-33 | merged ranges lie strictly apart, each given range is inside one, and they cover no other byte |
| Extents.Located | src/reader.cpp:1916-1933 | a range, found through the merged range that holds it, is in the buffer what it is in the file |
| Extents.FoundOnce | src/slice.cpp:302-311 | each nonempty range is found in exactly one merged range |
| Extents.NothingMerged | src/extent.cpp:6-33 | ranges in order that do not touch stay as they are |
| LineBatches.Locate | src/slice.cpp:302-311 | the search over merged ranges finds the range's place in the buffer; its fallback for a range not found is never taken |
| LineBatches.BatchesPartition | src/reader.cpp:1935-1961 | the batching loop puts each merged range in exactly one batch |
| LineBatches.BatchesBounded | src/reader.cpp:1935-1961 | a batch holds at most the limit, or the largest range, plus its first range |
| LineBatches.LimitKeptIff | src/reader.cpp:1935-1961 | for ranges of one size, at most the limit, no batch loads more than the limit if and only if they number at most twice as many as fit it |
| LineBatches.OneBatchKept | src/reader.cpp:1935-1961 | ranges of any sizes that fit the limit together are one batch, within it |
| LineReader.LineExceedsLimit | src/reader.cpp:1906-1962 | a line through four leaves of 1 MiB that lie apart: with a limit of 1 MiB the second batch loads 2 MiB |
| LineBatches.ReadLineBatched | src/reader.cpp:1906-1962 | in one go or in batches, it succeeds exactly when all merged ranges can be read, and then every leaf's cells are in place; the batches are those of the batching loop |
| LineReader.PlanLine | src/reader.cpp:247-263 | the extents are those of exactly the leaves the line runs through, in order |
| LineReader.ReadLine | src/reader.cpp:220-435 | a line along any axis is the raw volume's, whatever the memory limit; one outside the volume is refused and the output untouched |
| LineReader.LineIsRaw | src/reader.cpp:220-435 | cell i of an X, Y or Z line is the raw file's cell with i for that coordinate |
| PreparedSlice.PlanSlice | src/slice.cpp:14-174 | one copy and one extent for every leaf the slice meets |
| PreparedSlice.PrepareSlicePlan | src/slice.cpp:283-317 | each copy is assigned the merged range that holds its leaf and its offset in a buffer of all ranges |
| PreparedSlice.ExecutePreparedSlice | src/slice.cpp:239-281 | on the buffer of one batch exactly the copies of that batch are carried out |
| PreparedSlice.ReadPreparedSlice | src/slice.cpp:239-317 | plan, prepare and execute over consecutive batches give the slice of the raw volume |
| LruList.TrimOne | src/window_cache.cpp:151-159 | evicting from the back removes only a suffix of the recency list |
| WindowCache.BoundedWindowCache.PutShared | src/window_cache.cpp:70-96 | keeps the index, the list and the byte count in step and within capacity; succeeds exactly for a nonempty window that fits, which is then the most recent; only a least recent suffix is evicted |
| WindowCache.BoundedWindowCache.Get | src/window_cache.cpp:11-28 | an exact hit returns the stored window and makes it the most recent |
| WindowCache.BoundedWindowCache.GetContaining | src/window_cache.cpp:30-60 | a hit is the most recent window that holds the range; counters and recency follow |
| WindowCache.BoundedWindowCache.SetCapacity | src/window_cache.cpp:98-102 | lowering the capacity evicts the least recent suffix until the rest fits |
| WindowCache.StoredIsFirst | src/window_cache.cpp:70-96 | a window that fits is resident after its put, at the front |
| WindowCache.ContainingHit | src/window_cache.cpp:30-60 | what a containing hit copies out is what the file has at the offset asked for |
| WindowCache.RunAgrees | src/window_cache.cpp:11-159 | over any sequence of operations whose puts agree with the files, every resident window agrees with its file |
| LeafCache.LeafCache.Put | src/cache.cpp:34-64 | keeps size and index in step and within the maximum; a key that is present only becomes the most recent |
| LeafCache.LeafCache.Get | src/cache.cpp:13-32 | a hit needs the key and the exact size |
| LeafCache.SecondPutKeepsFirst | src/cache.cpp:34-64 | a second put under a key never replaces the first block |
| WindowedRead.ComputeWindow | src/rzfp_reader.cpp:613-629 | the window covers a stretch of intervals, one at least, keeps the read size unless its first interval is larger, bridges no larger gap than allowed, and stops only at a larger gap or the size limit |
| WindowedRead.ReadWindowData | src/rzfp_reader.cpp:641-712 | the window's bytes are the file's; the cache, which other files may share, agrees with every file it agreed with before |
| ReadPipeline.ExecuteWindowedRead | src/rzfp_reader.cpp:586-814 | success means each interval was handed to the callback exactly once with exactly its bytes of the file, and all callbacks accepted; otherwise some callback refused or some window was not in the file; a shared cache keeps agreeing with all its files |
| ReadPipeline.SuccessOrFailure | src/rzfp_reader.cpp:586-814 | for intervals in the file, success is decided by the callbacks alone: cache and windows change nothing |
| ReadPipeline.StepSafe | src/rzfp_reader.cpp:714-806 | each step of prefetching, decoding and swapping keeps: the buffer being filled is not the one being decoded, and the windows are at most the read size or their first interval |
| ReadPipeline.RunSafe | src/rzfp_reader.cpp:714-806 | every reachable state of every interleaving is safe |
| ReadPipeline.RunComplete | src/rzfp_reader.cpp:714-806 | a finished run has decoded every interval exactly once from its own bytes |
| ReadPipeline.StepProgress | src/rzfp_reader.cpp:714-806 | every productive step lowers a measure, so runs end |
| ReadPipeline.NoDeadlock | src/rzfp_reader.cpp:714-806 | until all is decoded some productive step is possible |
| RzfpFormat.PhysicalIdBijection | src/rzfp_reader.cpp:69-85 | in both physical orders the superblocks have the numbers below their count, each its own |
| RzfpFormat.PhysicalIdIs | include/erwt3d/rzfp_format.hpp:163-175 | the number is (z*gy + y)*gx + x in the first order and (y*gz + z)*gx + x in the second |
| RzfpFormat.PhysicalOrder | src/rzfp_reader.cpp:69-85 | one superblock is numbered before another exactly when its (z, y, x), or in the second order its (y, z, x), comes first |
| RzfpFormat.DescriptorRoundTrip | include/erwt3d/rzfp_format.hpp:44-61 | codec and size come back from a descriptor |
| RzfpFormat.PayloadAt | src/rzfp_writer.cpp:255-358 | prefix sums of descriptor sizes find each record in the payload |
| RzfpFile.Open | src/rzfp_reader.cpp:1280-1370 | the constructor's checks accept exactly the well-formed files |
| RzfpFile.RecordsTile | src/rzfp_reader.cpp:1354-1370 | in an accepted file a superblock's leaf records follow one another without gap and end where its bytes end |
| RzfpFile.RecordBytes | src/rzfp_reader.cpp:302-328 | a leaf's record has the codec in the upper three bits of its descriptor and as many bytes of the file as the lower thirteen say |
| RzfpWriter.BuildValidMask | src/rzfp_writer.cpp:76-92 | bit (z*4+y)*4+x tells whether the cell lies in the volume |
| RzfpWriter.EncodeSuperblock | src/rzfp_writer.cpp:277-333 | descriptors and payload are those of the records of the leaves in whole chunks, the rest empty |
| RzfpWriter.AllLeavesEncoded | src/rzfp_writer.cpp:277-299 | all leaves are encoded if and only if their number is a multiple of 64 |
| RzfpWriter.SmallSuperblockStoresNothing | src/rzfp_writer.cpp:277-299 | a superblock of eight leaves stores none of them |
| RzfpFileWriter.WriteRzfpFile | src/rzfp_writer.cpp:158-410 | every superblock is written once, its records described and packed, and the superblocks' payload ranges tile the payload |
| RzfpFileWriter.WrittenAccepted | src/rzfp_reader.cpp:1280-1370 | the reader accepts every file the writer produces |
| RzfpFileWriter.WrittenRecord | src/rzfp_reader.cpp:302-328 | the record found for a leaf is the one encoded for it |
| RzfpOffsets.PrefixFromCheckpoint | src/rzfp_reader.cpp:286-300 | the checkpointed prefix equals the full prefix sum for every leaf |
| RzfpOffsets.ComputeTaskOffsets | src/rzfp_reader.cpp:302-328 | each leaf gets codec, size and offset of its own record |
| RzfpOffsets.AddressedRecord | src/rzfp_reader.cpp:302-328 | in an accepted file that record lies inside the payload and is the one the descriptors say |
| RzfpTasks.BuildLeafTasks | src/rzfp_reader.cpp:174-247 | each leaf some request meets is listed once with every place its cells go to; logical requests = unique leaves + duplicates |
| RzfpStrategies.ExecuteSelectiveLeaf | src/rzfp_reader.cpp:981-1064 | succeeds exactly when every record decodes, and then hands over for each leaf exactly its record's bytes |
| RzfpStrategies.ExecuteWholeSuperblock | src/rzfp_reader.cpp:1066-1146 | the same, cutting the records out of whole superblocks |
| RzfpStrategies.ExecuteFullPayloadScan | src/rzfp_reader.cpp:1148-1227 | the same, reading every superblock of the file |
| RzfpStrategies.StrategiesAgree | src/rzfp_reader.cpp:981-1227 | any two strategies hand over the same bytes for each leaf |
| RzfpStrategies.DirectReadChangesNothing | src/rzfp_reader.cpp:1007-1044 | the second, direct read of a record never changes the outcome |
| RzfpReader.ReadSlicesBatch | src/rzfp_reader.cpp:2497-2705 | whatever strategy, window size and cache: success exactly when the batch is nonempty and every needed leaf decodes, and then every output is its slice of the decoded volume |
| RzfpRoundTrip.EveryFileHasVolume | src/rzfp_reader.cpp:2497-2705 | an accepted file determines the volume its slices are slices of |
| RzfpReader.VolumeCell | src/rzfp_reader.cpp:2497-2705 | each cell of that volume is the cell, X fastest, of what the decoder makes of the bytes that the descriptor of its leaf, found by superblock order and Morton code, leads to |
| RzfpRoundTrip.WrittenDecodes | src/rzfp_writer.cpp:158-410 | no read of a written file fails for want of a decodable leaf |
| RzfpRoundTrip.WrittenSlice | src/rzfp_writer.cpp:158-410 | every cell of every slice read from a written file is accepted against the raw volume |
| RzfpRoundTrip.GuaranteedSlice | src/rzfp_codec.cpp:232-493 | the whole way from a raw volume through the leaf codec, the file and the reader: every slice cell is within the error allowed, whatever zfp does |
| RzfpRoundTrip.EncoderQualifies | src/rzfp_codec.cpp:232-493 | the leaf codec is an encoder as GuaranteedSlice asks for |
| RzfpRoundTrip.CodecFitsDescriptors | src/rzfp_codec.cpp:232-493 | the codec's records always fit the 13-bit size of a descriptor |
| RelativeError.IdentityAccepted | src/relative_error.cpp:8-62 | every number is accepted as its own reconstruction if and only if the contest bound is positive or, under the legacy policy, no finite number exceeds the zero tolerance, and that tolerance is not negative |
| RelativeError.BitClasses | src/relative_error.cpp:15-36 | what NaN, infinite, finite, zero, subnormal and normal mean for the 31 bits without the sign |
| RelativeError.ValueOfOne | src/relative_error.cpp:32-33 | 0x3F800000 is one |
| RelativeError.ValueNegates | src/relative_error.cpp:32-33 | setting the highest bit negates |
| RelativeError.ValueOfSmall | src/relative_error.cpp:32-33 | up to the second exponent the bits count multiples of the smallest number |
| RelativeError.ValueDoubles | src/relative_error.cpp:32-33 | the next exponent doubles a normal number; with the three facts above this fixes the value of every finite number |
| RelativeError.NaNChecked | src/relative_error.cpp:15-18 | a NaN is accepted exactly as a NaN, with both errors zero |
| RelativeError.InfiniteChecked | src/relative_error.cpp:20-25 | an infinite number is accepted exactly as itself |
| RelativeError.NonFiniteRefused | src/relative_error.cpp:27-30 | no finite number is accepted as infinite or NaN |
| RelativeError.ZeroChecked | src/relative_error.cpp:32-46 | a zero is accepted exactly as a zero of either sign, under the legacy policy exactly within the tolerance; the relative error is zero or infinite |
| RelativeError.NonzeroChecked | src/relative_error.cpp:32-61 | any other number is accepted exactly if the error is below the bound times its size, or, if small under the legacy policy, within the tolerance; the relative error times the size is the absolute error |
| RelativeError.CheckBlockError | src/relative_error.cpp:64-91 | a block passes exactly when every marked cell is accepted in the sense of the lemmas above; the largest absolute and relative errors bound those of all marked cells and are attained |
| RelativeError.MarkedCounts | src/relative_error.cpp:73-78 | the number of valid cells is that of the set of marked ones |
| RelativeError.ViolationsCount | src/relative_error.cpp:84-87 | the number of violations is that of the set of marked cells not accepted |
| BlockCells.FillIsMean | src/rzfp_codec.cpp:40-57 | the filling is zero or the mean of the finite marked cells that are no exceptions, zero when there are none |
| Bytes.LeRoundTrip | src/rzfp_codec.cpp:137-181 | numbers come back from their little-endian bytes |
| Bytes.LeDigit | src/rzfp_codec.cpp:137-181 | byte i of a number is its digit i in base 256 |
| Bytes.MaskRoundTrip | src/rzfp_codec.cpp:148-170 | a 64-bit mask comes back from its eight bytes |
| Bytes.BitOfMask | src/rzfp_codec.cpp:148-170 | bit i of the number a mask is stored as is element i of the mask |
| Bytes.FloatsRoundTrip | src/rzfp_codec.cpp:148-170 | stored floats come back bit by bit |
| LeafRecords.ExponentRoundTrip | src/rzfp_codec.cpp:137-146 | the exponent survives its one byte if and only if it lies in -128..127 |
| LeafRecords.ExceptionsRoundTrip | src/rzfp_codec.cpp:148-170 | exponent, count, mask, payload and exception values of a record all come back |
| LeafRecords.ExceptionsLayout | src/rzfp_codec.cpp:148-170 | where the parts of the record lie: exponent, count, mask, compressed payload, and the exceptions as four little-endian bytes each at the end |
| LeafRecords.PatchBack | src/rzfp_codec.cpp:59-73 | patching with the exceptions taken out restores exactly the masked cells |
| LeafRecords.RunDecodeRecord | src/rzfp_codec.cpp:502-642 | the decoder with its buffer patched in place computes what the record means, and fails exactly on malformed records |
| LeafCodec.ExceptionMask | src/rzfp_codec.cpp:298-327 | after sorting, the optional exceptions are exactly the cells with fewer than the given number of smaller ones; the two lemmas below say which these are |
| LeafExceptions.ChosenSmaller | src/rzfp_codec.cpp:298-327 | every optional exception is smaller than every compressible cell that is none, cells of one size in order |
| LeafExceptions.ChosenCount | src/rzfp_codec.cpp:298-327 | there are as many optional exceptions as asked for unless the compressible cells run out; mandatory exceptions are always in and unmarked cells never |
| LeafCandidates.AccuracyCandidates | src/rzfp_codec.cpp:288-418 | an accuracy record is a candidate if and only if no error occurs and an attempt makes it whose decompressed and patched block is accepted, in a round before which no tried number of four or more exceptions left the last record no smaller than an earlier one |
| LeafCandidates.PrecisionCandidates | src/rzfp_codec.cpp:422-470 | a precision record is a candidate if and only if precisions are tried, no marked cell is an exception, no error occurs and a precision makes it whose decompressed block is accepted, before which each record made was smaller than all before it |
| LeafCandidates.ConstantCandidates | src/rzfp_codec.cpp:253-277 | the empty record is a candidate exactly for blocks of zeros, a value record exactly for blocks of that one normal number |
| LeafCandidates.CandidateKinds | src/rzfp_codec.cpp:248-470 | besides these there are none |
| LeafCandidates.NothingCompressible | src/rzfp_codec.cpp:279-287 | a block without a marked normal number has only the constant record |
| LeafCandidates.TargetErrors | src/rzfp_codec.cpp:75-85 | encoding is refused exactly when accuracy is tried and the internal bound times the smallest magnitude is not positive or its exponent does not fit sixteen bits |
| LeafChoice.SmallestChosen | src/rzfp_codec.cpp:472-484 | the record returned is the smallest candidate, and the raw one only if no candidate that gains enough is smaller |
| LeafCandidates.NoLargerThanPrecision | src/rzfp_codec.cpp:422-484 | so the record returned is no larger than that of any precision that passes, is reached and gains enough |
| LeafCandidates.NoLargerThanAccuracy | src/rzfp_codec.cpp:312-484 | nor than that of any accuracy attempt that passes, is reached and gains enough |
| LeafCandidates.GainEnough | src/rzfp_codec.cpp:480-484 | gaining enough means saving that share of the 256 bytes of a raw leaf |
| LeafChoice.BestIsSound | src/rzfp_codec.cpp:232-493 | it is never larger than the raw leaf and decodes to accepted cells for any zfp, provided the exponent fits |
| LeafCodec.EncodeBest | src/rzfp_codec.cpp:232-493 | the loops of the encoder find exactly these candidates and return the smallest that gains enough, the raw leaf if there is none |
| LeafExponent.ExponentFitsRange | src/rzfp_codec.cpp:75-85 | the exponent fits its byte if and only if the target tolerance lies in [2^-128, 2^128) |
| LeafExponent.WrappedExponentBreaks | src/rzfp_codec.cpp:137-146 | for every block of ordinary numbers whose requested exponent does not fit, some zfp that takes the exponent as it is makes the encoder return a record that decodes to rejected cells |
| LeafExponent.SoundIffExponentFits | src/rzfp_codec.cpp:232-493 | for such a block the record returned is sound for every zfp that takes the exponent as it is if and only if the exponent fits one signed byte |
| LeafExponent.DefaultBoundDoesNotFit | src/rzfp_codec.cpp:75-85 | with the default internal bound the smallest normal number asks for such an exponent |
| LeafExponent.SmallestNormalBreaks | src/rzfp_codec.cpp:232-493 | so the encoder returns an unsound record for a block of the smallest normal number under the default bound |
| PlaneChoice.EncodeBestBlock | src/rzfp_xplane_codec.cpp:364-432 | of the raw block, the constant record, the accuracy attempts and the precision attempts that the configuration allows and whose decompressed block is accepted, the smallest, and the first of those |
| PlaneChoice.BestBlockUnique | src/rzfp_xplane_codec.cpp:364-432 | that determines the record |
| PlaneChoice.BestBlockSize | src/rzfp_xplane_codec.cpp:364-432 | a block of zeros has an empty record, one of a single normal number at most four bytes, and none is larger than the raw block, so the size fits 13 bits |
| PlaneChoice.BestBlockGood | src/rzfp_xplane_codec.cpp:364-432 | for any zfp it decodes to accepted cells, provided the exponent fits its byte |
| PlaneBlocks.PatchedLayout | src/rzfp_xplane_codec.cpp:253-272 | where the parts of a record with exceptions lie |
| PlaneCodec.PlaneRoundTrip | src/rzfp_xplane_codec.cpp:525-601 | parsing the blocks of an encoded plane gives each block's cells in order and uses up every byte |
| PlaneCodec.DescriptorBytes | src/rzfp_xplane_codec.cpp:20-33 | a block's two bytes: eight bits of size, then five bits of size below three of codec |
| PlaneCodec.DecodePlane | src/rzfp_xplane_codec.cpp:525-601 | succeeds exactly when the record parses to its last byte, and then each plane cell is its block's, padding left out |
| PlaneCodec.EncodePlane | src/rzfp_xplane_codec.cpp:487-523 | the best record of each block of the plane, concatenated |
| PlaneCodec.EncodedOrder | src/rzfp_xplane_codec.cpp:487-523 | record cz * ceil(ny / 4) + cy is that of block (cy, cz) |
| PlaneCodec.EncodedCell | src/rzfp_xplane_codec.cpp:487-523 | cell lz*4 + ly of that block is the plane's cell at (4cz + lz)*ny + 4cy + ly, or masked out and zero beyond the plane |
| PlaneCodec.DecodedCell | src/rzfp_xplane_codec.cpp:525-601 | and the plane's cell (y, z) is set from cell (y % 4, z % 4) of block (y / 4, z / 4) |
| PlaneCodec.PlaneGuarantee | src/rzfp_xplane_codec.cpp:487-601 | decoding an encoded plane succeeds and sets every cell to an accepted value, for every ny and nz and any zfp |
| AxisLeaf.OpenReplica | src/rzfp_reader.cpp:1594-1651 | accepts exactly the replicas whose slabs are contiguous from the payload offset to the end of the file |
| AxisLeaf.SlabIs | src/rzfp_axis_leaf.cpp:262-346 | the slab of a leaf is its leaf coordinate along the axis over the whole volume |
| AxisLeafRepack.BuildAxisReplica | src/rzfp_axis_leaf.cpp:207-452 | slab s holds exactly the (number, record) pairs of the leaves whose coordinate on the axis is s, each once, whatever the buffer size; total = source payload + 4 bytes a leaf; the reader accepts it |
| AxisLeafRepack.OrderDoesNotMatter | src/rzfp_axis_leaf.cpp:262-346 | in whatever order superblocks are scanned, the buckets get the payload and four bytes a leaf |
| AxisLeafReader.BuildJobs | src/rzfp_reader.cpp:1701-1780 | exactly one job for each slab some request needs, with every request in the job of its slab |
| AxisLeafReader.RecordIsKey | src/rzfp_reader.cpp:110-149 | a record of the slice's slab that meets the volume is the leaf of one of the slice's planned leaves |
| AxisLeafReader.KeyHasRecord | src/rzfp_reader.cpp:110-149 | every planned leaf of the slice has such a record |
| AxisLeafReader.RunJob | src/rzfp_reader.cpp:1815-2003 | parsing a slab delivers each needed record to all outputs that want it, and fails exactly when a needed record does not decode |
| AxisLeafReader.ReadSlicesBatchFromAxisLeaf | src/rzfp_reader.cpp:1672-2024 | the same outcome and the same slices as reading the main payload, duplicates included, for both physical orders |
| PhasePacking.ClassIsNextFit | src/contest_phase_plan.cpp:71-87 | the batches of a class are its groups that fit the budget, in order, each batch closed by the group that would have overflowed it; oversized groups go alone, and phases are sent in the order of the groups that made them be sent |
| PhasePacking.ClassKept | src/contest_phase_plan.cpp:71-87 | every group and every byte of the class is in exactly one phase |
| PhasePacking.NextFitBound | src/contest_phase_plan.cpp:71-87 | (phases - 1) * budget <= 2 * class bytes |
| ContestPhasePlan.BuildContestPhasePlan | src/contest_phase_plan.cpp:10-154 | one phase of everything when it fits; otherwise the X slices, then the random Y and Z slices, then the rest, each class packed by next-fit and in one phase if it fits, random ones and the rest in one phase if both fit together; every group with an axis exactly once; (phases - 3) * budget <= 2 * bytes of all phases |
| ContestPhasePlan.PhaseOrder | src/contest_phase_plan.cpp:26-151 | so no phase mixes X slices with others, X slices come first, and random groups come before the rest |
| ContestPhasePlan.SharedExactlyIf | src/contest_phase_plan.cpp:89-101 | a random group shares a phase with one of the rest if and only if there are both and they fit the budget together |
| ContestPhasePlan.ValidateContestPhasePlan | src/contest_phase_plan.cpp:156-213 | accepts exactly the plans that partition the group ids within the budget |
| ContestPhasePlan.BuiltIsValid | src/contest_phase_plan.cpp:10-213 | a built plan is valid if and only if every group has an axis or all outputs fit the budget |
| ContestRoundExecutor.AllocateOne | src/contest_round_executor.cpp:135-155 | the first pass gives one slice each; a group gets none only if it has none left or its slice is larger than what remains in the end |
| ContestRoundExecutor.Expand | src/contest_round_executor.cpp:157-170 | the second pass leaves no member that could take one more slice of its group within the budget |
| ContestRoundExecutor.RunBatch | src/contest_round_executor.cpp:123-261 | a batch keeps the budget, writes the next slices of its groups, each to its own file, and nothing more would have fitted it |
| ContestRoundExecutor.ExecuteContestRound | src/contest_round_executor.cpp:37-291 | from planning the phases and opening the outputs on: ends, with never more than the budget in buffers; unless a slice is unreadable or an output fails every group that fits is served completely and the others not at all |
| ContestRoundExecutor.AllDelivered | src/contest_round_executor.cpp:37-291 | every slice of every group is written exactly once if and only if each group that wants something fits the budget |
| RoundPlan.NextInterval | src/rzfp_round_plan.cpp:163-185 | an interval covers its records, bridges no larger gap than allowed and keeps the size limit, and stops only where it must; what follows starts behind it |
| RoundPlan.BuildIntervals | src/rzfp_round_plan.cpp:137-189 | intervals take the offset-sorted leaves in consecutive groups, each covering all its records and stopping only where it must |
| RoundPlan.BuildRoundPlan | src/rzfp_round_plan.cpp:193-310 | requests are conserved: logical = unique + duplicate, and each leaf keeps all its places |
| RoundPlan.ValidateRoundPlan | src/rzfp_round_plan.cpp:313-366 | accepts exactly the plans whose intervals are nonempty, in the payload, in order and apart |
| RoundPlan.PlanValid | src/rzfp_round_plan.cpp:313-366 | a built plan is accepted if and only if no interval consists of empty records only |
| RoundPlan.EmptyRecordsRejected | src/rzfp_round_plan.cpp:193-366 | whatever the read size, what is built for a round whose records are all empty and at one place is rejected |
| RoundPlan.CloseRoundValid | src/rzfp_round_plan.cpp:193-366 | when the records of a round lie within the read size and the gap, what is built is accepted if and only if no record is needed or not all are empty at one place |
| RoundPlan.WrittenTasksApart | src/rzfp_round_plan.cpp:137-189 | in a written file the records of a plan lie apart, so its intervals are in order and disjoint |
| EmbeddedSections.ReadDirectory | src/embedded_sections.cpp:234-296 | the reader finds exactly the sections the directory bytes mean, and none if anything is malformed |
| EmbeddedSections.DirectoryRoundTrip | src/embedded_sections.cpp:234-296 | the directory written for a list of acceptable sections is read back as that list |
| EmbeddedSections.AcceptedSectionsListed | src/embedded_sections.cpp:234-296 | whatever the bytes, accepted sections lie between header and directory, none empty, each kind once |
| PackageHeader.CommittedLinks | src/embedded_sections.cpp:207-223 | after the commit the header is still valid and leads to the directory where it was put |
| PackageFile.PackageFile.CopyRange | src/embedded_sections.cpp:87-167 | a copy that succeeds puts the whole source at the offset; whatever fails, every state keeps what was there before |
| SectionLayout.LinkedIsPackage | src/embedded_sections.cpp:381-474 | the file as committed holds each source, aligned, in order, disjoint, behind the original, and nothing else of the original but the flag and the link changed |
| SectionEmbedder.Prepare | src/embedded_sections.cpp:381-470 | before the commit the complete package is on disk and every state on the way starts with the original file; all bytes are accounted for |
| SectionEmbedder.RollBack | src/embedded_sections.cpp:476-482 | the length and the header are those that the cut and the header write, each as far as it got, leave; the body is untouched |
| SectionEmbedder.EmbedSectionsInPlace | src/embedded_sections.cpp:310-503 | success means a package of the original and the inputs; without faults it succeeds exactly when a caller could foresee it; after a failure the header is exactly what commit and undoing left of it; until the commit every state starts with the original |
| SectionEmbedder.RestoredIff | src/embedded_sections.cpp:476-482 | after a failure the original is back if and only if the old header was put back over all that the commit had changed and the file was cut to length |
| SectionEmbedder.NeitherHeader | src/embedded_sections.cpp:207-227 | a commit that stops between flag and link, and an old header not put back as far as the flag, leave a header that is neither the old nor the new one, in a file that a reader finds flagged and without a directory |
| SectionEmbedder.CommitCutShort | src/embedded_sections.cpp:460-482 | such a run of the commit and the undoing |
| SectionEmbedder.InterruptedOpens | src/embedded_sections.cpp:310-503 | a file interrupted before the commit opens as the original, with nothing embedded |
| Lz4SidecarWriter.WriteWhole | src/lz4_axis_plane_writer.cpp:284-359 | whole-plane mode: every plane is one record that compresses the whole plane |
| Lz4SidecarWriter.WriteChunks | src/lz4_axis_plane_writer.cpp:360-499 | memory-bounded mode: every plane and slab has a record of that fragment, indexed by plane, stored by slab |
| Lz4SidecarWriter.SlabFits | src/lz4_axis_plane_writer.cpp:203-242 | a slab is one row or fits the slab budget, and a fragment fits the codec's int sizes |
| Lz4SidecarWriter.SlabLargest | src/lz4_axis_plane_writer.cpp:203-242 | more rows would be more than there are or than the codec, the chunk size or the slab budget allow |
| Lz4SidecarWriter.WriteSidecar | src/lz4_axis_plane_writer.cpp:133-527 | a sidecar comes about exactly when the arguments are admissible, all fragments compress and the storage budget is kept; its index leads to every fragment and its records tile the data area |
| Lz4Sidecar.ChunkRows | src/lz4_axis_plane_writer.cpp:244-245 | each chunk has between one row and the chunk height |
| Lz4SidecarReader.OpenIndex | src/reader.cpp:1106-1119 | an index is accepted exactly if all its entries lie inside the section |
| Lz4SidecarReader.ReadPlane | src/reader.cpp:1187-1234 | decoding a plane's entries in order gives exactly the raw plane, and fails only if a read fails |
| Lz4SidecarReader.ReadBatch | src/reader.cpp:1132-1246 | every request marked as handled has its slice, whatever fails; without failures exactly the requests of the axis are handled |
| Lz4RoundTrip.WrittenSound | src/lz4_axis_plane_writer.cpp:133-527 | a written sidecar, in a file of its own or inside a package, is accepted by the reader and satisfies all it relies on |
| Lz4RoundTrip.PackagedSidecar | src/embedded_sections.cpp:310-503 | a sidecar embedded in a package is found at its section's offset, byte for byte |

## Left out

- System calls, retries, mmap, read-ahead, reflinks, timing, profiles and console output: only whether an operation
  succeeds, and on what bytes, is kept.
- zfp and LZ4 internals: arbitrary functions, with determinism and, for LZ4, the inverse law.
- Thread scheduling: parallel decoding is any order of independent callbacks, or the interleavings of `ReadPipeline`;
  the loops of worker threads over disjoint planes, windows or shares are written one after the other.
- SSD executors and the SSD extent planner, the leaf-index extraction (src/sb_hdd.cpp:212-320) and the X-panel reader:
  their planners or their cell order are not those of the main path.
- The LZ4-compressed main file, its compression index (src/writer.cpp:65-93) and the compressed batch reader: the
  superblock layout they share with the uncompressed file is modelled.
- Raw X auxiliary planes, the older X sidecar, RZFP plane sidecars (src/rzfp_reader.cpp:2157-2450), RZFP line reads and
  full restores, `readFull`: further readers of records or superblocks that are modelled.
- Cost models, strategy selection by measurement, device profiles, memory budgets, command-line tools, api.cpp: they
  choose among modelled paths.
- Machine widths: superblock, leaf and request numbers, chunk counts and offsets are natural numbers; sizes stored in
  32 or 64 bits are preconditions (RZFP leaf tables below 65536 leaves, chunk counts below 2^32).
- 64-bit mask tricks of spreadBits and compactBits in include/erwt3d/morton.hpp: Morton codes are defined by interleaving
  binary digits.
- Units: files of the ERWT3D format and sidecar raw sizes count cells of four bytes; RZFP files, packages and sidecar
  records count bytes.
- Defaults that the superblock readers substitute for a zero read window or gap: the values substituted are parameters.
- Index and descriptor tables of RZFP files, replicas and sidecars are sequences of entries, not bytes; in a sidecar's
  bytes the header and index are a stretch of the right length. The directory and header link of a package are bytes.
- The descriptor hash: an equality test on fields.
- Order inside the slice path: the three plan builders and the three line readers are one, with the axis as parameter;
  the X line reader's own copy of the batching loop (src/reader.cpp:307-352) is the shared one. Morton tables are
  inlined. Sorting by file offset drops nothing here, while sortTasksByFileOffset resets a field no reader uses.
- Plane buffers of the sidecar writer grow row by row instead of being allocated first and filled in place.
- Double rounding in the relative error and the storage ratio: real numbers. Rounding of a mean to float and the floor
  of a binary logarithm are parameters with their defining property.
- The RZFP writer's abort when the encoder reports violations: `LeafCodec.EncodeBest` shows when none occur.
- Removal of embedded sources after success, and the statistics of how bytes were copied.
- Power loss inside the single header write of a commit: what then is on disk is not modelled beyond the body.
- ReadPipeline.ExecuteWindowedRead: for windows that begin in the file and contain an empty interval past its end the
  contract says only that success means everything was delivered.
- WindowedRead.ComputeWindow: interval ends are unbounded, while the code adds in 64 bits.
- HddReader.ExecuteReadWindow: only for windows that fit a thread's share or have no gap; on all others the loop never
  ends (`WindowSplit.ServedOrNeverEnds`), which no contract of a method can say.
- HddBatch.ExecuteBatch: only for windows that fit a thread's share or are runs; for others
  `WindowSplit.SplitsRightIffRun` says that the loop does not do right, not what it leaves in the outputs.
- WindowSplit.EndsIff: the loop in which superblocks repeat may also stop because a read runs past the end of the file,
  which is a failure and no end of the loop.
- LineBatches.LimitKeptIff: for ranges of different sizes there is only the sufficient condition and the bound of
  `LineBatches.BatchesBounded`.
- SuperblockWriter.WriteVolume: the optional LZ4 compression of superblocks and the block index it writes.
- SliceReader.ReadSlice: uncompressed files, and reads that do not fail.
- RzfpFile.Open: the checks of the branch for files in the axis-leaf format; the replicas themselves are in `AxisLeaf`.
- AxisLeaf.OpenReplica: magic, version and hash of the replica header, which are equality tests on fields.
- AxisLeafRepack.BuildAxisReplica: up to 2^32 leaves, as the code numbers them in 32 bits without a check.
- Lz4SidecarWriter.WriteSidecar: up to 2^32 - 1 planes, as the code narrows the chunk count to 32 bits.
- RoundPlan.CloseRoundValid: rounds whose records spread further have only the condition on the intervals built.
- LeafExponent.SoundIffExponentFits: blocks with zeros, subnormals or other exceptions, whose records also hold the
  exceptions and may not pay off; for them fitting is only sufficient (`LeafChoice.BestIsSound`).
- RzfpReader.ReadSlicesBatch: slice indexes within the volume are a precondition, which the code does not check on this
  path; the replica path checks it.
- PlaneCodec.DecodePlane: a record too short for what it announces, or whose mask marks more cells than it has values,
  is a failure here, where the code reads on behind it.
- SectionEmbedder.EmbedSectionsInPlace: sources do not change while they are copied.
- LineReader.ReadLine: uncompressed files; on a compressed one the code reads the same offsets without looking at the
  compression index.
