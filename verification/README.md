# A verified model of the StreamBox TV service

The TV service of this repository sits between an HDMI receiver, which is fed by game consoles and
players, and an HDMI transmitter, which drives the real screen. Its hardest code rewrites the EDID the
receiver presents, in place, so that sources see exactly what the screen behind the transmitter supports.
This project models that code and the stateful parts around it in Dafny, and proves what they promise.

`dafny verify dfyconfig.toml` checks everything.

## How the model is built

**The EDID rewriter** (`libtv/CHDMIRxManager.cpp`, assembled in `libtv/CTv.cpp`). Every routine that edits the
buffer is a method over an `array<byte>` with the loops and the running variables of the source
(`offset`, `dst`, `dtdStart`, `dataEnd`). Each one is proved equal to a function of the old bytes, for
arbitrary bytes, and the theorems are about those functions.

- `Bytes`: bytes, checksums, blocks of 128 bytes. `Arith`: the arithmetic facts several modules use.
- `Timing`: the 18-byte detailed timing codec (section 3.10.2 of the VESA E-EDID Standard, Release A,
  Revision 2), VIC and mode support, the timing filter.
- `DataBlocks`: the data block collection of section 7.5 of CTA-861-G as a printer and a walk that reads it.
- `Passes`: the three removing or rewriting walkers as one function `Sweep`, whose measure is the number of
  non-zero bytes ahead, and what a sweep means for a well-formed block: parse, rewrite a list, print.
- `VicTimings`: the VIC table and the patcher's tables against the timings behind them.
- `CeaFilter`: the walkers themselves, in place. `FeatureBits`: the feature bits one by one.
- `FilterLists`, `FeatureFilter`, `EdidTheorems`: what the filter does to the lists of short video descriptors, other blocks,
  feature flags and timings; that it is idempotent.
- `Parsers`: the two parsing walks. `EdidFilter`: checksums and the whole filter.
- `Malformed`: what the passes leave of extensions that are not well formed. `CapabilityMap`: what dropping
  descriptors does to the 4:2:0 capability map that numbers them (section 7.5.11 of CTA-861-G).
- `EdidPatch`, `PatchMethods`, `PatchTheorems`: adding VIC 63 and the second extension; idempotence; the filter undoes the insertion.
- `EdidPipeline`: the name copy, patch, name and filter in the order of `LoadEdidData`, and the whole-EDID theorems.
- `EdidLoaded`: what the sources see: VICs, features and timings of the EDID delivered, in terms of the stored one and the TX.
  `TxAnswer`: the same in terms of the TX's own EDID. `MonitorName`: the monitor name they see. `Untouched`: what stays as it was.

A CEA extension is well formed here when byte 2 lies in 4..127 and blocks of at least one payload byte fill bytes 4 up
to byte 2 exactly. Termination, the bytes written and the meaning of `Sweep` need no such assumption.

**The INI store** (`libtv/tvutils/ConfigFile.cpp`). `IniFile` is the heap: two linked lists whose section
nodes point to line nodes. `IniLines` has the lookups and updates on the sequence of lines, each with its
512 characters, because a value is read from a stored pointer into a buffer that may hold stale text.
`IniText` has trimming, line types, `fgets` rows, and the save/load round trip. `IniUpdate` says what every lookup
returns after an update, `IniPersist` what a value set survives.

**The message queue** (`libtv/tvutils/CMsgQueue.cpp`): a class with the vector, and a step machine over every
interleaving of what happens under the lock, with the clock as an arbitrary input.

**The callback registry** (`service/TvService.cpp`): a map whose reads insert null entries, and runs of register, remove and signal.

**The no-signal screen and the mode choice** (`test/streambox-tv.c`): `NoSignal`, `NoSignalStart`, `NoSignalBlit` and `ModeChoice`.

## What turned out false

For each of these a lemma gives an input that fails, and another says for all inputs exactly when the code does
meet the promise.

- `GetString` after `SetString` does not always return the value: a key that is a proper prefix of a stored
  key overwrites that line but leaves its value pointer (`IniLines.PrefixHitLosesValue`, `IniLines.GetAfterSet`).
- An update can change what another key of the section reads (`IniUpdate.NewKeyShadowsAnother`, `IniUpdate.SetKeepsOthers`).
- The filter does not always take back what the patch inserted: the shift pushes out byte 126
  (`PatchTheorems.PushedOutByteIsLost`, `PatchTheorems.FilterUndoesPatch`).
- On an extension that is not well formed the filter can let unsupported VICs through, by wrapping byte 2 or by moving a
  cut-off block into view (`Malformed.WrapShowsUnfiltered`, `Malformed.FilteredVideoIff`, `Malformed.VendorPassRevealsBlock`,
  `Malformed.ZeroByte2Iff`).
- The timing filter and the VIC filter disagree on interlaced timings, as a descriptor has the lines of one field
  (`VicTimings.InterlacedDescriptorGoes`, `VicTimings.FiltersAgreeIff`).
- Dropping descriptors can change which VICs the 4:2:0 capability map marks (`CapabilityMap.MarkMovesToAnother`, `CapabilityMap.FilteredMarks`).
- The TX's monitor name is not always shown (`MonitorName.NameInFirstSlotIsLost`, `MonitorName.TxNameShownIff`).
- The random start of a box is not always defined (`NoSignalStart.StartsDefined` names the sizes).
- Saving and loading does not always keep the lines (`IniText.LongLineIsSplit`, `IniText.RoundTrip`: it does if none is longer than 509 characters).
- The patcher's walk can visit other blocks than the filter's (`EdidPipeline.PatcherCanMissBlocks`, `EdidPipeline.PatcherWalkAgrees`).
- An event can miss a live client, and the loops that return at a null entry go on missing it
  (`CallbackRegistry.RemovalCanHideAClient`, `CallbackRegistry.NullEntryHidesAClient`, `CallbackRegistry.CalledIff`).
- Collision handling can leave the boxes overlapping (`NoSignal.NestedBoxesStillOverlap`, `NoSignal.ResolvedStillOverlaps`).
- A framebuffer mapping need not cover the pages counted (`NoSignal.RemapCanBeTooSmall`, `NoSignal.OpenedPageOneIsOutside`,
  `NoSignal.RemapFits`, `NoSignal.OpenFits`, `NoSignal.DrawnFits`).
- The weighted score is lexicographic only for modes of up to 5*10^8 pixels (`ModeChoice.OrderHoldsUpTo` has both).

One comment disagrees with its code: at libtv/CHDMIRxManager.cpp:1006 the end of the shift is called the byte before
the checksum, but it is the checksum's own index, so the shift pushes byte 126 into it. The model follows the code.

## Model

| member | source | states |
|---|---|---|
| Timing.ModeSupportedByDispCap | libtv/CHDMIRxManager.cpp:121-134 | true exactly for a mode that the driver lists |
| Timing.TxSupportsVic | libtv/CHDMIRxManager.cpp:301-316 | a VIC is supported exactly if the sink's EDID lists it or its mode is among the driver's |
| Timing.DetailedTimingToMode | libtv/CHDMIRxManager.cpp:177-210 | on any 18 bytes, the mode decoded from the fields the standard places there, or none |
| Timing.WriteDetailedTiming | libtv/CHDMIRxManager.cpp:223-253 | writes the encoding of the timing and no other byte |
| Timing.DecodeEncode | libtv/CHDMIRxManager.cpp:188-208 | decoding what was encoded gives back all twelve fields, for every timing within the field widths |
| Timing.EncodeInjective | libtv/CHDMIRxManager.cpp:230-252 | two timings within the field widths with the same 18 bytes are equal |
| Timing.WriteThenRead | libtv/CHDMIRxManager.cpp:177-253 | reading a written timing returns its width, height, scan flag and rounded rate, and fails exactly when clock or a total is zero |
| Timing.FpsIsNearest | libtv/CHDMIRxManager.cpp:204 | no integer is nearer to clock*10000/(hTotal*vTotal) than the rate computed |
| Timing.FpsRoundsUp | libtv/CHDMIRxManager.cpp:204 | halfway between two integers the rate is the higher one |
| Timing.NoOverflow | libtv/CHDMIRxManager.cpp:188-204 | for any 18 bytes every intermediate of the rate computation fits a signed 32-bit int |
| Timing.InlineEncoderAgrees | libtv/CHDMIRxManager.cpp:1120-1152 | the encoder written out in the patcher gives the bytes of WriteDetailedTiming with image size 800x450, for every argument |
| Timing.FilterDetailedTimings | libtv/CHDMIRxManager.cpp:442-462 | within the range each 18-byte slot is filtered on its own; bytes of an incomplete last slot and outside stay |
| VicTimings.VicIsItsTiming | libtv/CHDMIRxManager.cpp:136-175 | the table knows 26 VICs, and the mode of each is the one that the clock and totals of its CTA-861-G timing come to; up to 4095 pixels wide it is what the descriptor of this timing reads as, with the lines of both fields |
| VicTimings.SupportedByTiming | libtv/CHDMIRxManager.cpp:301-316 | TxSupportsVic in these terms: listed by the TX, or the mode of its timing listed by the driver |
| VicTimings.FiltersAgreeIff | libtv/CHDMIRxManager.cpp:177-210 | the timing filter keeps the descriptor of a VIC's timing exactly where the driver lists the VIC's mode, for every driver, if and only if the timing is progressive |
| VicTimings.InterlacedDescriptorGoes | libtv/CHDMIRxManager.cpp:177-210 | the interlaced VICs 5 and 20 stay where the driver lists just their mode, and their descriptors go |
| VicTimings.AddedModes | libtv/CHDMIRxManager.cpp:1041-1105 | the nine timings of the patcher's tables read as the modes their names say |
| VicTimings.FullHdBytes | libtv/CHDMIRxManager.cpp:230-252 | the 18 bytes of the descriptor of 1920x1080p60 |
| VicTimings.HighBits | libtv/CHDMIRxManager.cpp:230-252 | where the high bits of every field lie, on a timing with digits of its own in each |
| DataBlocks.VisitPrint | libtv/CHDMIRxManager.cpp:281-297 | the walk over a printed block list visits exactly those blocks, whatever follows |
| DataBlocks.LayoutIsWellFormed | libtv/CHDMIRxManager.cpp:281-297 | bytes laid out from a block list and a rest are well formed and parse back to that list and rest |
| DataBlocks.WellFormedIsLayout | libtv/CHDMIRxManager.cpp:281-297 | conversely, a well-formed extension is the layout of its parsed blocks, byte for byte |
| Passes.KeepVics | libtv/CHDMIRxManager.cpp:351-359 | a descriptor remains exactly if it was there and its VIC is supported |
| Passes.ClearBit | libtv/CHDMIRxManager.cpp:470-476 | clears one feature bit and leaves the other three as they were |
| Passes.SweepDecreases | libtv/CHDMIRxManager.cpp:335-394 | every round of a removing walk leaves strictly fewer non-zero bytes ahead of the offset, for arbitrary bytes and also when byte 2 is zero |
| Passes.SweepBlock | libtv/CHDMIRxManager.cpp:318-440 | for arbitrary bytes, a walker leaves bytes 0, 1, 3 and 127 of the extension alone |
| Passes.SweepPrinted | libtv/CHDMIRxManager.cpp:335-394 | a sweep over a printed list is the printed rewritten list, then what followed, then a zero for every byte lost |
| Passes.SweepBlockMeaning | libtv/CHDMIRxManager.cpp:318-515 | on a well-formed extension: parsing after a walk gives the rewritten block list, and the bytes behind byte 2 are the old ones followed by the zeros |
| Passes.SweepBlockConserves | libtv/CHDMIRxManager.cpp:361-390 | byte 2 falls by the bytes lost R, every byte from the old byte 2 on moves left by R, the last R are zero |
| CeaFilter.CloseGap | libtv/CHDMIRxManager.cpp:369-370 | the memmove and memset pair takes out n bytes and puts n zeros before the end |
| CeaFilter.CompactVics | libtv/CHDMIRxManager.cpp:351-359 | the two-pointer loop writes exactly the supported descriptors, in order, to the front of the payload |
| CeaFilter.FilterVideoBlock | libtv/CHDMIRxManager.cpp:344-390 | one round on a video block: the block is replaced by its filtered form or disappears, and the tail closes up |
| CeaFilter.FilterCeaVideoDataBlocks | libtv/CHDMIRxManager.cpp:318-395 | the in-place walk is the video sweep of the extension for arbitrary 128 bytes, and the rest of the buffer stays |
| CeaFilter.RemoveCeaDataBlocksByOui | libtv/CHDMIRxManager.cpp:397-440 | the in-place walk is the sweep that removes the vendor's blocks |
| CeaFilter.FilterHfScdbCapabilities | libtv/CHDMIRxManager.cpp:464-479 | clears the unsupported feature bits and bytes 8 and 9 of the payload under the length conditions and nothing else |
| FeatureBits.ClearedByteByByte | libtv/CHDMIRxManager.cpp:464-479 | which bits of byte 7 stay, one by one, what becomes of bytes 8 and 9, and that no other byte changes, for every payload and every answer of the TX |
| FeatureBits.BitsDecide | libtv/CHDMIRxManager.cpp:471-475 | a byte is its eight bits, so this leaves no choice |
| FeatureBits.ForumBlocks | libtv/CHDMIRxManager.cpp:553-571 | the OUI and the extended tag by which HDMI Forum blocks are known, and the bits that announce ALLM and VRR |
| FeatureBits.VrrRange | libtv/CHDMIRxManager.cpp:564-569 | a VRR range counts with both ends above zero in a payload of at least ten bytes, and only then |
| FeatureBits.NativeBit | libtv/CHDMIRxManager.cpp:352 | a descriptor names its VIC with or without the native bit |
| FeatureBits.DescriptorBytes | libtv/CHDMIRxManager.cpp:344-346 | where the descriptors of the two kinds of video blocks lie |
| CeaFilter.FilterCeaHfScdb | libtv/CHDMIRxManager.cpp:481-515 | the in-place walk is the feature sweep for arbitrary bytes |
| FilterLists.KeepVicsCounts | libtv/CHDMIRxManager.cpp:351-359 | a supported descriptor keeps its multiplicity and an unsupported one has none left |
| FilterLists.VideoPassMeaning | libtv/CHDMIRxManager.cpp:335-394 | the video pass filters the concatenated descriptors of the video and of the 4:2:0 blocks and keeps all other blocks in order |
| FilterLists.OtherPassesKeepSvds | libtv/CHDMIRxManager.cpp:397-515 | the feature and vendor passes leave every short video descriptor in place |
| FilterLists.FilterMeaning | libtv/CHDMIRxManager.cpp:1291-1295 | all three passes together: descriptors are filtered by TX support, other blocks see only the feature and vendor passes |
| FilterLists.FilterTwice | libtv/CHDMIRxManager.cpp:1291-1295 | the three passes over a block list are idempotent |
| CapabilityMap.FilterKeepsMap | libtv/CHDMIRxManager.cpp:1291-1295 | the YCbCr 4:2:0 capability map of a block list comes through unchanged |
| CapabilityMap.BitOrder | libtv/CHDMIRxManager.cpp:1291-1295 | the bits of the map are numbered from the lowest of each byte on, byte after byte |
| CapabilityMap.FilteredMarks | libtv/CHDMIRxManager.cpp:1291-1295 | where the kept descriptors name no VIC twice: the supported VICs the map marks stay marked if and only if none moves from a set bit to a clear one; no other becomes marked if and only if none moves the other way |
| CapabilityMap.NothingMoves | libtv/CHDMIRxManager.cpp:351-364 | nothing changes in this where every descriptor is supported |
| CapabilityMap.MarkMovesToAnother | libtv/CHDMIRxManager.cpp:351-364 | three descriptors and a map whose mark moves from VIC 16 to VIC 31 |
| FeatureFilter.FilterAnnounces | libtv/CHDMIRxManager.cpp:1291-1295 | after the passes a feature is announced exactly if the TX has it and it was announced before |
| FeatureFilter.FeatureBlocks | libtv/CHDMIRxManager.cpp:497-514 | for arbitrary bytes the feature walk moves no header: the blocks visited afterwards are the old ones rewritten one by one |
| FeatureFilter.FeatureFilterMeaning | libtv/CHDMIRxManager.cpp:464-578 | for arbitrary bytes the parser finds a feature after the feature walk exactly if the TX has it and it was found before |
| FeatureFilter.FeatureIdentity | libtv/CHDMIRxManager.cpp:481-515 | with both features supported the walk changes no byte |
| Parsers.ParseTxEdidVics | libtv/CHDMIRxManager.cpp:255-299 | marks exactly the VICs of the video blocks of all CEA extensions within the buffer; nothing for a short EDID or table |
| Parsers.ParseTxFeatureSupport | libtv/CHDMIRxManager.cpp:517-578 | true exactly if some CEA extension has an HDMI Forum block that announces the feature |
| Parsers.BlockAnnounces | libtv/CHDMIRxManager.cpp:549-573 | when a block announces ALLM or VRR |
| EdidFilter.RecalculateEdidBlockChecksum | libtv/CHDMIRxManager.cpp:212-221 | writes the one last byte that makes the block sum to 0 modulo 256 |
| Bytes.SealUnique | libtv/CHDMIRxManager.cpp:212-221 | the checksum depends only on the first 127 bytes, and a sealed block is its own sealing |
| EdidFilter.FilterExtensionAt | libtv/CHDMIRxManager.cpp:1286-1301 | one round of the extension loop, in place |
| EdidFilter.FilterEdidByTxCapabilities | libtv/CHDMIRxManager.cpp:1241-1307 | error for a short buffer, no change without a TX EDID or TX modes, otherwise the filter for the capabilities parsed from the TX EDID |
| EdidTheorems.FilterExtensionMeaning | libtv/CHDMIRxManager.cpp:1286-1301 | a well-formed extension stays well formed; its blocks are the filtered list and its slots the filtered old slots with the zeros gained behind them |
| EdidTheorems.FilterSlotMeaning | libtv/CHDMIRxManager.cpp:447-461 | a slot that is no timing or a supported mode stays, any other becomes zeros |
| EdidTheorems.FilteredVics | libtv/CHDMIRxManager.cpp:1286-1301 | soundness and completeness for one extension: descriptors, other blocks, and the set of VICs left |
| EdidTheorems.FilteredSlots | libtv/CHDMIRxManager.cpp:1297-1300 | soundness and completeness for one extension: every slot is acceptable and no acceptable one is lost |
| EdidTheorems.SlotsTwice | libtv/CHDMIRxManager.cpp:442-462 | the timing filter is idempotent on any bytes |
| EdidTheorems.FilterExtensionTwice | libtv/CHDMIRxManager.cpp:1286-1301 | the filter of one extension is idempotent, although the first run moves the slots |
| Malformed.SweepLoss | libtv/CHDMIRxManager.cpp:335-394 | for arbitrary bytes, what byte 2 falls by, and that a block crossing byte 2 can take at most 31 bytes more than lie before it |
| Malformed.SweptBlocks | libtv/CHDMIRxManager.cpp:318-515 | for any CEA extension and any pass: after a walk, walks find only blocks the pass leaves alone, unless byte 2 fell below 4; then they go on to offset 127 |
| Malformed.SettledIff | libtv/CHDMIRxManager.cpp:318-515 | the same as an if and only if |
| Malformed.NoOverrun | libtv/CHDMIRxManager.cpp:318-440 | byte 2 does not fall below 4 on a well-formed extension, nor from a value outside 4..127 |
| Malformed.SettledIsSupported | libtv/CHDMIRxManager.cpp:351-359 | the video pass leaves a block list alone if and only if every descriptor in it is supported |
| Malformed.FilteredVideoIff | libtv/CHDMIRxManager.cpp:318-395 | for any CEA extension: after the video pass only supported VICs are found if and only if byte 2 did not fall below 4, or the bytes then met happen to name only such |
| Malformed.WrapShowsUnfiltered | libtv/CHDMIRxManager.cpp:369-375 | a byte 2 of 5 under a block of ten unsupported VICs: it wraps to 250 and an unfiltered block is found |
| Malformed.FeatureKeepsSupport | libtv/CHDMIRxManager.cpp:481-515 | the feature pass changes nothing in this, for arbitrary bytes |
| Malformed.ZeroSweep | libtv/CHDMIRxManager.cpp:413-439 | with byte 2 zero: the blocks found after a walk are those found before, rewritten, and then what the zeros moved in complete |
| Malformed.ZeroByte2Iff | libtv/CHDMIRxManager.cpp:1291-1301 | with byte 2 zero the whole filter lets only supported VICs through if and only if the vendor pass does not run, or what it brings into view names only such |
| Malformed.VendorPassRevealsBlock | libtv/CHDMIRxManager.cpp:422-436 | an extension with byte 2 zero on which it brings an unsupported VIC into view |
| EdidPatch.VideoAtPrinted | libtv/CHDMIRxManager.cpp:982-1000 | on a printed list the patcher's walk stops at the first video block |
| EdidPatch.InsertVicMeaning | libtv/CHDMIRxManager.cpp:972-1028 | on a well-formed extension the block list gains only VIC 63 at the end of the first video block, byte 2 grows by one and all behind moves by one, losing byte 126; or nothing changes |
| EdidPatch.VideoAtStable | libtv/CHDMIRxManager.cpp:982-1000 | the walk stops at the same block when only bytes behind its header change and the limit does not fall |
| EdidPatch.PatchSeals | libtv/CHDMIRxManager.cpp:1030-1175 | a successful patch leaves three blocks with correct checksums |
| PatchMethods.FindVideoBlock | libtv/CHDMIRxManager.cpp:982-1000 | finds the first video block of the walk for arbitrary bytes |
| PatchMethods.PayloadLists63 | libtv/CHDMIRxManager.cpp:991-996 | whether the payload lists VIC 63, with or without the native bit |
| PatchMethods.AddVic63 | libtv/CHDMIRxManager.cpp:972-1028 | the in-place insertion for arbitrary bytes |
| PatchMethods.WriteBaseModes | libtv/CHDMIRxManager.cpp:1053-1061 | writes consecutive timings into the base slots and nothing else |
| PatchMethods.WriteNewModes | libtv/CHDMIRxManager.cpp:1113-1158 | the inline encoder writes the encodings of the table, one behind the other |
| PatchMethods.FindCea | libtv/CHDMIRxManager.cpp:956-964 | only the block at 128 can be found, whatever the extension count |
| PatchMethods.PatchEdidFor120Hz | libtv/CHDMIRxManager.cpp:938-1182 | fails without a change or rewrites the buffer as specified, for every buffer |
| PatchTheorems.PatchExtensionTwice | libtv/CHDMIRxManager.cpp:972-1035 | patching an extension twice is patching it once, for arbitrary bytes |
| PatchTheorems.PatchTwice | libtv/CHDMIRxManager.cpp:938-1182 | the patcher accepts its own result and does not change it again, for every buffer it accepts |
| PatchTheorems.SlotsChange | libtv/CHDMIRxManager.cpp:442-462 | clearing one byte leaves the filtered slots as they were if and only if it was zero or its full slot is cleared either way |
| PatchTheorems.FilterUndoesPatch | libtv/CHDMIRxManager.cpp:1002-1035 | without VIC 63 on the TX, filtering a patched well-formed extension gives the bytes of filtering alone if and only if nothing was inserted, or the byte 126 pushed out was zero, or its slot is cleared anyway |
| PatchTheorems.PushedOutByteIsLost | libtv/CHDMIRxManager.cpp:1006-1011 | a well-formed extension with room for VIC 63 and a last byte of 1: the filtered results differ, for every TX without VIC 63 |
| EdidPipeline.FindNameSlot | libtv/CHDMIRxManager.cpp:1328-1335 | the first of the four base slots that is a monitor name |
| EdidPipeline.PatchEdidMonitorName | libtv/CHDMIRxManager.cpp:1309-1379 | copies the 13 name bytes from slot to slot and seals the base block, or changes nothing on each early exit |
| EdidPipeline.LoadEdid20 | libtv/CTv.cpp:690-694 | the three passes in their order, with independent reads of the TX EDID |
| EdidPipeline.FilterByBlock | libtv/CHDMIRxManager.cpp:1274-1302 | the whole filter acts on each 128-byte block on its own |
| EdidPipeline.FilterSeals | libtv/CHDMIRxManager.cpp:1274-1302 | every block within the buffer that the filter reaches has a correct checksum, CEA or not |
| EdidPipeline.CopyNameKeeps | libtv/CHDMIRxManager.cpp:1309-1379 | on every exit and for any buffer the name copy keeps a correct base checksum, all bytes behind the base block and the extension count |
| EdidPipeline.LoadedIsSealed | libtv/CTv.cpp:690-694 | if the patch succeeds all three blocks have correct checksums after patch, name and filter, whichever early exits are taken |
| EdidPipeline.FilterUndoesPatchEdid | libtv/CHDMIRxManager.cpp:1241-1307 | the same if and only if for extension block 1 of whole buffers |
| EdidPipeline.FilteredExtension | libtv/CHDMIRxManager.cpp:1274-1302 | each CEA extension of a filtered EDID stays one, with the supported VICs and features only |
| EdidPipeline.FilteredEdid | libtv/CHDMIRxManager.cpp:255-578 | what the two parsers find in a filtered EDID: exactly the supported VICs and features that were there |
| EdidPipeline.FilteredBaseSlots | libtv/CHDMIRxManager.cpp:1274-1275 | the four base slots: all acceptable, no acceptable one lost |
| EdidPipeline.FilteredEdidSlots | libtv/CHDMIRxManager.cpp:1274-1302 | for every CEA extension of a whole EDID: descriptors of both kinds, other blocks and timing slots, sound and complete |
| EdidPipeline.FilterBaseTwice | libtv/CHDMIRxManager.cpp:1274-1275 | the filter of the base block is idempotent |
| EdidPipeline.FilterEdidTwice | libtv/CHDMIRxManager.cpp:1241-1307 | the whole filter is idempotent for fixed TX capabilities on well-formed extensions |
| EdidPipeline.PatcherWalkAgrees | libtv/CHDMIRxManager.cpp:973-983 | the patcher's walk visits the blocks the other walks visit if and only if byte 2 is at least 4 or there are none |
| EdidPipeline.PatcherCanMissBlocks | libtv/CHDMIRxManager.cpp:973-983 | with byte 2 zero the filter visits a video block that the patcher does not |
| EdidLoaded.PatchedExtension | libtv/CHDMIRxManager.cpp:972-1035 | a well-formed extension stays well formed, with VIC 63 added where there is room |
| EdidLoaded.NewExtensionShape | libtv/CHDMIRxManager.cpp:1073-1175 | the second extension is well formed, has no data blocks, and its timings start behind the header |
| EdidLoaded.PatchedEdid | libtv/CHDMIRxManager.cpp:938-1182 | what the parsers find after the patch: the VICs of the first extension, 63 if there was room, and its features |
| EdidLoaded.CopyNameUnseen | libtv/CHDMIRxManager.cpp:1309-1379 | the name copy changes nothing that the parsers find, nor whether the EDID is well formed |
| EdidLoaded.LoadedEdid | libtv/CTv.cpp:690-694 | the VICs delivered are the stored ones, and 63 where the patch added it, that the TX supports; a feature is delivered exactly if stored and supported; without an answer of the TX nothing goes |
| EdidLoaded.LoadedUnpatched | libtv/CTv.cpp:690-694 | the same where the patch refuses the EDID |
| EdidLoaded.NamedBaseSlots | libtv/CHDMIRxManager.cpp:1342-1360 | a base block whose first three slots are timings keeps them through the name copy |
| EdidLoaded.LoadedBaseTimings | libtv/CTv.cpp:690-694 | every base slot delivered is acceptable to the TX, and of the three timings added exactly the supported ones are delivered |
| EdidLoaded.LoadedTimings | libtv/CTv.cpp:690-694 | the same for both extensions, with the timings stored in the first and the six added in the second |
| EdidLoaded.AddedTiming | libtv/CHDMIRxManager.cpp:1040-1105 | an added timing is delivered if and only if the TX lists its width, height and rate, progressive |
| TxAnswer.FilteredAmd | libtv/CHDMIRxManager.cpp:1293-1295 | the AMD vendor blocks of a list come through the filter, all and in order, if the TX has VRR, and none otherwise |
| TxAnswer.LoadedForTx | libtv/CTv.cpp:690-694 | in terms of the TX's own EDID and driver modes: which features, which VICs and which AMD blocks the EDID delivered has |
| TxAnswer.UnpatchedForTx | libtv/CTv.cpp:690-694 | the same of features and VICs where the patch refuses the EDID |
| Untouched.FilterBaseKeeps | libtv/CHDMIRxManager.cpp:1274-1275 | outside its four slots and the checksum the filter leaves the base block alone |
| Untouched.OtherKindKept | libtv/CHDMIRxManager.cpp:1286-1289 | an extension of another kind only gets its checksum |
| Untouched.FilterKeepsBehind | libtv/CHDMIRxManager.cpp:1277-1284 | the filter leaves alone what lies behind the extensions counted, and a last part of less than a block |
| Untouched.NamedBaseKeeps | libtv/CHDMIRxManager.cpp:1357-1376 | the name copy changes the 13 bytes of the name and the checksum only |
| Untouched.PatchBaseKeeps | libtv/CHDMIRxManager.cpp:1037-1069 | the patch changes the first three slots, the extension count and the checksum of the base block only |
| Untouched.NewExtensionStart | libtv/CHDMIRxManager.cpp:1075-1082 | the four header bytes of the second extension |
| Untouched.LoadedKeepsIdentity | libtv/CTv.cpp:690-694 | through all three passes bytes 0 to 0x35 of the base block stay, for every stored EDID and every answer of the TX |
| MonitorName.CopiedName | libtv/CHDMIRxManager.cpp:1324-1360 | the name found after the copy is the TX's, if both sides had one, and otherwise the own one |
| MonitorName.FilterKeepsName | libtv/CHDMIRxManager.cpp:442-462 | the timing filter neither clears a name nor makes one |
| MonitorName.PatchedName | libtv/CHDMIRxManager.cpp:1040-1062 | after the patch only a name in the last slot is found |
| MonitorName.LoadedName | libtv/CTv.cpp:690-694 | which monitor name the sources see, for every stored EDID and every answer of the TX |
| MonitorName.TxNameShownIff | libtv/CTv.cpp:690-694 | a patched EDID shows the TX's name if and only if its last slot held a name |
| MonitorName.NameInFirstSlotIsLost | libtv/CTv.cpp:690-694 | a stored EDID with its name in the first slot, whose sources see none |
| MsgQueue.InsertAt | libtv/tvutils/CMsgQueue.cpp:27-28 | the place find_if picks: behind all messages due no later, in front of the first due later |
| MsgQueue.Queue.SendMsg | libtv/tvutils/CMsgQueue.cpp:23-32 | the stamped message is put in by due time, behind equal ones |
| MsgQueue.Queue.RemoveMsg | libtv/tvutils/CMsgQueue.cpp:34-42 | messages of the type go, the others keep their order |
| MsgQueue.Queue.ClearMsg | libtv/tvutils/CMsgQueue.cpp:44-48 | nothing is pending |
| MsgQueue.Queue.TakeDue | libtv/tvutils/CMsgQueue.cpp:74-76 | takes the front message exactly if it is due at the captured time |
| MsgQueue.Queue.DeliverRound | libtv/tvutils/CMsgQueue.cpp:73-80 | an undisturbed round delivers exactly the due messages, in order |
| MsgQueue.InvNext | libtv/tvutils/CMsgQueue.cpp:23-80 | each atomic step keeps order, conservation, distinctness and due times |
| MsgQueue.ReachableStates | libtv/tvutils/CMsgQueue.cpp:23-80 | in every reachable state: sorted with FIFO on ties; sent = pending + delivered + removed; nothing was delivered in a round captured before it was due |
| MsgQueue.NotBeforeDelay | libtv/tvutils/CMsgQueue.cpp:26-74 | in every reachable state: no message was delivered in a round whose clock reading is less than that of its send plus its delay |
| MsgQueue.StepsOfQueue | libtv/tvutils/CMsgQueue.cpp:23-80 | the steps of the machine do to the vector what the methods of the class do |
| MsgQueue.AheadIsFirst | libtv/tvutils/CMsgQueue.cpp:65-83 | over every interleaving, a message ahead of another is delivered first unless it is removed |
| CallbackRegistry.FreeId | service/TvService.cpp:455-471 | the first id whose entry is absent or null, at most the size of the map |
| CallbackRegistry.FreeIdIsFree | service/TvService.cpp:467-470 | the id handed out is not live; when it is the size of the map, the map has no such key, by pigeonhole |
| CallbackRegistry.Registry.At | service/TvService.cpp:80 | a map read returns the entry and inserts a null one if there was none |
| CallbackRegistry.Registry.SetTvServiceCallBack | service/TvService.cpp:449-476 | -1 and no change for a null callback, otherwise the first free id, now bound to it |
| CallbackRegistry.Registry.RemoveTvServiceCallBack | service/TvService.cpp:478-492 | erases the id unless it is negative |
| CallbackRegistry.Registry.SendSignal | service/TvService.cpp:70-137 | the loop's calls and the null entries its reads leave, for the loops that go on at a null entry and those that return |
| CallbackRegistry.EventKeepsLive | service/TvService.cpp:70-137 | an event changes no live client |
| CallbackRegistry.AfterEvent | service/TvService.cpp:70-137 | which entries an event leaves, for both kinds of loop: those there were, and null ones for the ids it read |
| CallbackRegistry.AfterCalls | service/TvService.cpp:449-492 | which entries a registration and a removal leave |
| CallbackRegistry.CalledInOrder | service/TvService.cpp:79-89 | clients are called once each, in the order of their ids |
| CallbackRegistry.NextLive | service/TvService.cpp:449-492 | what each operation does to the live clients: bind a new id, unbind one, nothing |
| CallbackRegistry.BoundUntilRemoved | service/TvService.cpp:449-492 | over any run without a removal of that id a client keeps its id |
| CallbackRegistry.CookiesNeverCollide | service/TvService.cpp:449-492 | after any run the id returned belongs to no live client, and stays the new client's over any later run that does not remove it |
| CallbackRegistry.CalledIff | service/TvService.cpp:70-137 | a live client is called if and only if its id is below the map's size and, in the loops that return at a null entry, every smaller id is live |
| CallbackRegistry.AllCalledIff | service/TvService.cpp:70-137 | when an event reaches every live client, for both kinds of loop |
| CallbackRegistry.RemovalCanHideAClient | service/TvService.cpp:76-89 | two registrations and one removal leave a live client that the next event does not reach |
| CallbackRegistry.NullEntryHidesAClient | service/TvService.cpp:93-115 | the null entry this event leaves makes the client reachable again for the loops that skip it, but not for those that return at it |
| ModeChoice.ScoreIsLexicographic | test/streambox-tv.c:2326-2336 | up to 5*10^8 pixels the score orders modes as (same rate, fits, lower rate, pixels) does |
| ModeChoice.OrderHoldsUpTo | test/streambox-tv.c:2326-2336 | for all pairs of modes of up to n pixels the score is in that order if and only if n is at most 5*10^8 |
| ModeChoice.ScoreFitsLong | test/streambox-tv.c:2319-2336 | for 32-bit dimensions the score fits a 64-bit long |
| ModeChoice.ScoreModes | test/streambox-tv.c:2318-2342 | the first progressive mode of the highest score, or -1 exactly if no progressive mode scores at least 0 |
| ModeChoice.TopIsBest | test/streambox-tv.c:2318-2342 | that mode is the first lexicographically maximal one |
| ModeChoice.ExactIsBest | test/streambox-tv.c:2310-2316 | the first exact match is the first lexicographically maximal mode too |
| ModeChoice.BestIsUnique | test/streambox-tv.c:2310-2342 | there is one first maximal mode, so the exact-match loop returns what scoring alone would |
| ModeChoice.ChooseMode | test/streambox-tv.c:2310-2347 | both loops together: the first maximal progressive mode, or none exactly if all modes are interlaced |
| ModeChoice.SelectSupportedHdmitxMode | test/streambox-tv.c:2291-2353 | -1 for a missing buffer; otherwise the name of that mode, cut to the buffer, or the requested mode if there is none |
| ModeChoice.RoundFpsIsClosure | test/streambox-tv.c:2181-2200 | rounding never lowers a rate, keeps order and is idempotent |
| ModeChoice.RoundedRate | test/streambox-tv.c:2181-2200 | with fine tuning the rate is the even one of the rate and the next; without, it is one of 30, 60, 120, 144 and 240 in the stated ranges and itself elsewhere |
| ModeChoice.DecimalRoundTrip | test/streambox-tv.c:2202 | reading a printed number gives the number |
| ModeChoice.ModeNameRoundTrip | test/streambox-tv.c:2175-2254 | parsing a formatted name gives width, height, progressive scan and the rounded rate |
| ModeChoice.LongName | test/streambox-tv.c:2225-2232 | a name of width, height, scan and rate parses to these, interlaced exactly for an i of either case |
| ModeChoice.ShortName | test/streambox-tv.c:2234-2251 | a name of height, scan and rate parses to the width that goes with the height, or to nothing |
| ModeChoice.ShortWidths | test/streambox-tv.c:2235-2243 | the five heights with a width, which is that of the VIC with this height |
| ModeChoice.FormattedName | test/streambox-tv.c:2202 | one name, character by character |
| ModeChoice.ModeNameFits | test/streambox-tv.c:2202 | the name of 32-bit fields fits 64 characters with its terminator |
| NoSignal.MovingBox.ClampAndBounce | test/streambox-tv.c:1050-1067 | the clamped position and the reflected speed |
| NoSignal.ResolveBoxCollision | test/streambox-tv.c:1069-1107 | boxes are pushed apart along the smaller overlap and swap that speed |
| NoSignal.ResolvedSpeeds | test/streambox-tv.c:1069-1107 | each of two overlapping boxes leaves with the other's signed speed on the axis of the smaller overlap and its own on the other, and both move apart by the same distance on that axis only; other boxes are left alone |
| NoSignal.ClampedTurns | test/streambox-tv.c:1050-1067 | a box over an edge stops at that edge with its speed pointing back into the area; on an axis where it is over none it keeps place and speed |
| NoSignal.StepFrame | test/streambox-tv.c:1506-1516 | one frame: move, clamp, resolve, clamp |
| NoSignal.ClampedMeaning | test/streambox-tv.c:1050-1067 | a box that fits the area ends inside it, a box inside is not touched, and no speed changes its size |
| NoSignal.FrameMeaning | test/streambox-tv.c:1506-1516 | after a frame both boxes are inside, and the pairs of absolute speeds are the old ones up to order |
| NoSignal.FreeFrame | test/streambox-tv.c:1506-1516 | boxes that meet neither an edge nor each other advance by exactly their speeds |
| NoSignal.CollidingFrame | test/streambox-tv.c:1506-1516 | boxes that meet only each other leave the frame with their speeds exchanged on one axis |
| NoSignal.FrameTurns | test/streambox-tv.c:1506-1516 | a box pushed over an edge ends the frame at that edge with its speed pointing back |
| NoSignal.FramesMeaning | test/streambox-tv.c:1490-1530 | the same after any number of frames |
| NoSignal.ResolvedStillOverlaps | test/streambox-tv.c:1079-1106 | two overlapping boxes overlap after the push if and only if the overlap reaches deeper than both moves together |
| NoSignal.NestedBoxesStillOverlap | test/streambox-tv.c:1079-1106 | two nested boxes that do |
| NoSignal.RemapFits | test/streambox-tv.c:641-680 | after a successful remap all counted pages lie in the mapping if and only if virtual height >= height, or the single-page branch was taken, or a line has no bytes |
| NoSignal.RemapShape | test/streambox-tv.c:648-670 | a remap counts as many pages as the virtual height has room for, or one, and keeps the screen's size and pixel format |
| NoSignal.RemapCanBeTooSmall | test/streambox-tv.c:641-680 | a screen on which the remap succeeds and page 0 does not fit |
| NoSignal.OpenFits | test/streambox-tv.c:603-620 | the mapping made on opening holds all counted pages if and only if one page fits the memory and there is only one, or a line has no bytes |
| NoSignal.DrawnFits | test/streambox-tv.c:1404-1418 | the pages of the framebuffer the frame loop starts with, after a refused, successful or failed resize, lie in its mapping if and only if a stated condition on the driver's answers holds |
| NoSignal.OpenedPageOneIsOutside | test/streambox-tv.c:603-620 | on a double-buffered screen whose resize is refused, page 1 begins where the mapping ends |
| NoSignal.BlitStaysInPage | test/streambox-tv.c:889-902 | for a box inside the area the blit is not rejected and every row copied lies in its page |
| NoSignalBlit.RowsMove | test/streambox-tv.c:898-900 | rows are a line apart, and a box a pixel further right or down has its rows a pixel or a line further on |
| NoSignalBlit.RowsApart | test/streambox-tv.c:897-901 | rows of a box do not overlap in the page |
| NoSignalBlit.BlitSurfaceToFb | test/streambox-tv.c:889-902 | nothing happens to a box that is not inside; otherwise every row of the box shows that row of its surface, and no other byte of the mapping changes |
| NoSignal.EveryFrameIsDrawnInBounds | test/streambox-tv.c:1404-1527 | if the driver's answers meet that condition, in every frame both blits are accepted and every row lies in the mapping, for every page number |
| NoSignalStart.BoxesFit | test/streambox-tv.c:1426-1440 | both boxes, as sized for the screen, fit below the margin if and only if it has at least 178 by 53 pixels |
| NoSignalStart.FullHdBoxes | test/streambox-tv.c:1426-1440 | the sizes of both boxes and the margin on a screen of 1920 by 1080 |
| NoSignalStart.StartsDefined | test/streambox-tv.c:1465-1474 | the random starts have room from 179 by 54 pixels on, and divide by zero exactly on the widths 124 and 178 and the heights 46 and 53 |
| NoSignalStart.StartsInside | test/streambox-tv.c:1465-1480 | a box starts inside, at a random place or in the corner |
| NoSignalStart.ThreadDrawsInBounds | test/streambox-tv.c:1404-1527 | the boxes the thread makes are drawn within the mapping in every frame, on every such screen whose driver answers as required |
| IniLines.SectionFound | libtv/tvutils/ConfigFile.cpp:303-312 | the first header whose name has the wanted one as a prefix |
| IniLines.KeyFound | libtv/tvutils/ConfigFile.cpp:314-324 | the first key line with the key as a prefix and no header before it |
| IniLines.ReadAfterWrite | libtv/tvutils/ConfigFile.cpp:189-191 | what any pointer into a line reads after a text was printed over it: a suffix of the text, or the stale bytes behind it |
| IniLines.GetAfterSet | libtv/tvutils/ConfigFile.cpp:142-216 | GetString after SetString returns the value if and only if no line was hit, or its value pointer stands right behind the new key, or stale bytes past the text read the same |
| IniUpdate.SetKeepsOtherSections | libtv/tvutils/ConfigFile.cpp:142-216 | lookups that settle on another section, or on none, are unchanged, for every key, also when the section is newly created |
| IniUpdate.SetThenGet | libtv/tvutils/ConfigFile.cpp:142-216 | what every lookup returns after every SetString, in terms of the lines before |
| IniUpdate.SetKeepsOthers | libtv/tvutils/ConfigFile.cpp:142-216 | any lookup is unchanged if and only if it is in another section, or hits an earlier line, or its key is a prefix of neither the old nor the new text, or the same value is read by chance |
| IniUpdate.NewKeyShadowsAnother | libtv/tvutils/ConfigFile.cpp:294-301 | setting volumeMax changes what volume reads |
| IniUpdate.LookRewritten | libtv/tvutils/ConfigFile.cpp:314-324 | which line a key lookup hits when one line before or behind its own was rewritten |
| IniLines.PrefixHitLosesValue | libtv/tvutils/ConfigFile.cpp:189-191 | setting vol over volume=5 is not read back |
| IniText.AllTrim | libtv/tvutils/ConfigFile.cpp:326-352 | in place: cut at the first newline, drop one carriage return, delete the spaces |
| IniText.DeleteSpaces | libtv/tvutils/ConfigFile.cpp:339-350 | the nested shifting loops delete exactly the spaces and keep the terminator |
| IniText.ShiftOne | libtv/tvutils/ConfigFile.cpp:342-346 | the inner loop moves the rest up to the terminator left by one |
| IniText.LineReads | libtv/tvutils/ConfigFile.cpp:69-95 | a loaded line reads as its text, and a key's value as what follows its first equals sign |
| IniText.LoadIsLoaded | libtv/tvutils/ConfigFile.cpp:55-100 | every loaded text is free of spaces, newlines and terminators, and determines type, buffer and value pointer |
| IniText.TrimPrinted | libtv/tvutils/ConfigFile.cpp:131-133 | trimming a printed line gives its text |
| IniText.NoSpacesAppend | libtv/tvutils/ConfigFile.cpp:339-350 | spaces go from either part of a text on its own, so the rest keeps its order |
| IniText.TrimOrder | libtv/tvutils/ConfigFile.cpp:328-350 | only the one carriage return at the very end goes, before the spaces do |
| IniText.PrintedRow | libtv/tvutils/ConfigFile.cpp:55 | how fgets cuts a printed line: in one row up to 509 characters, in two beyond |
| IniText.SaveLoad | libtv/tvutils/ConfigFile.cpp:36-140 | saving and loading adds one line for every text longer than 509 characters, and is the identity if there is none |
| IniText.RoundTrip | libtv/tvutils/ConfigFile.cpp:36-140 | the lines of any loaded file survive saving and loading if and only if none is longer than 509 characters |
| IniText.LongLineIsSplit | libtv/tvutils/ConfigFile.cpp:55 | a file of one line of 510 characters that comes back as two lines |
| IniText.GetAfterSetLoaded | libtv/tvutils/ConfigFile.cpp:142-216 | on any loaded file: the get/set law holds if and only if no line was hit, or the hit line has exactly the key before its first equals sign, or stale bytes read the same |
| IniPersist.ReloadedLine | libtv/tvutils/ConfigFile.cpp:36-140 | what a saved line of any length is loaded as |
| IniPersist.PersistedGet | libtv/tvutils/ConfigFile.cpp:36-216 | load, set, save, load, get returns the value if and only if section, key and value hold none of the characters that loading drops or reinterprets, whichever line was hit and however long the lines are |
| IniFile.Store.LoadFromFile | libtv/tvutils/ConfigFile.cpp:36-108 | the lists hold the lines of the file, and the section list is exactly the header lines in order; for a file that cannot be opened they are empty and -1 is returned |
| IniFile.Store.LoadLines | libtv/tvutils/ConfigFile.cpp:55-103 | the loop: one line for every row that fgets reads |
| IniFile.Store.AppendLine | libtv/tvutils/ConfigFile.cpp:69-87 | a line goes to the end of the line list, a header also to the end of the section list |
| IniFile.Store.SaveToFile | libtv/tvutils/ConfigFile.cpp:131-134 | the text of every line in list order |
| IniFile.Store.GetSection | libtv/tvutils/ConfigFile.cpp:303-312 | walking the section list finds the header that walking the lines would |
| IniFile.Store.GetKeyLineAtSec | libtv/tvutils/ConfigFile.cpp:314-324 | walking on from a section's line finds the first matching key line before the next header |
| IniFile.Store.GetString | libtv/tvutils/ConfigFile.cpp:208-216 | the lookup on the sequence of lines; none stands for the default |
| IniFile.Store.InsertSection | libtv/tvutils/ConfigFile.cpp:283-292 | both lists gain a first element and stay in step |
| IniFile.Store.InsertKeyLine | libtv/tvutils/ConfigFile.cpp:294-301 | the line stands right behind the section's, and the section list still names exactly the headers |
| IniFile.Store.Overwrite | libtv/tvutils/ConfigFile.cpp:188-192 | only that line's text changes; links, type and value pointer stay |
| IniFile.Store.SetString | libtv/tvutils/ConfigFile.cpp:142-198 | the list invariant is kept and the lines become those of the specification, in all three branches; the text saved |

## Left out

- NULL arguments, log output and the `removedCount` out-parameters: NULL checks return an error before anything is read or written, and the counts are only logged.
- Reading the TX EDID, the TX mode list, files, sysfs and ioctls: their results are arbitrary inputs. In `LoadEdid20` the two reads of the TX EDID may differ.
- Parsing of the mode list in `CHDMIRxManager.cpp` (`ParseModeName`): the list is an arbitrary sequence of modes. The EDID 1.4 half of `LoadEdidData` runs the same name copy and filter; copying both results into one buffer is not modelled.
- Bit operations are written as arithmetic on bytes 0..255, and the buffer size argument is the array's length.
- EdidTheorems.FilterExtensionMeaning: states the meaning as lists for well-formed extensions only. For others the walkers are specified byte by byte, and `Malformed` says what the video and feature passes leave, and the whole filter where byte 2 is zero; where byte 2 is not zero it does not follow the timing filter into a block that crosses byte 2.
- CapabilityMap.FilteredMarks: does not cover lists that keep two descriptors of the same VIC, whose marks cannot be told apart by the VIC.
- IniFile.Store.SetString: does not model texts of 512 or more characters, which the source prints over the end of the line without a check; what memory that reaches is not defined.
- IniFile.Store.Overwrite: does not model texts of 512 or more characters, as above.
- The fields `pKeyStart`, `pKeyEnd`, `pValueEnd` and `LineLen` of a line: they are written but never read. Integer and float getters and setters print or parse around `SetString` and `GetString`.
- ModeChoice.ModeNameRoundTrip: does not model what `sscanf` does with numbers beyond `int`; `ModeNameFits` covers the name's length for 32-bit fields.
- MsgQueue.Queue.DeliverRound: describes a round during which no other thread takes the lock; interleavings are the business of the step machine. Condition waits, the exit flag and the handler itself are not modelled.
- CallbackRegistry.Registry.SendSignal: does not model the transaction to a client, its re-entrancy or the error number returned by the loops that stop.
- NoSignal.RemapFits: does not model a zero height, on which the source divides by zero, nor sizes beyond `int`; the same holds of `OpenFits` and `DrawnFits`.
- Drawing of text and logo, random numbers and the count of attempts at a start, page flips and the threads of the no-signal screen.
- The decoder and VRR control in `CTvin` and `CTv`, the binder transport, the JSON configuration and the web plugin: they depend on the kernel or only pass values on.
