# Verification model of the jdxld ELF back end

jdxld lays out an output file in one pass and writes it in another. The two passes are separate loops over
different state, and the second must consume exactly the space that the first reserved, at the addresses
that the first handed out. The writer also produces compact tables that a loader decodes later. This
project models those passes and tables in Dafny and proves what ties them together.

- **RELR tables** (`Relr`, `RelrGot`, `RelrTable`, `RelrRuns`): the encoder that runs on offsets to count and on
  addresses to write, the closed form for the GOT block, and the table writer, against the decoder that the
  gABI describes for SHT_RELR.
- **.eh_frame** (`EhFrame*`): parsing and attribution of frames in the layout, the back-linked frame lists,
  and the writer that drops dead FDEs and redirects the others to the copies of their CIEs. The format is
  section 10.6.1 of LSB Core Generic 5.0.
- **Hash tables** (`GnuHash`, `SysvHash`): the tables that the writer fills, against the lookups that a loader
  does and a plain search of the definitions.
- **PHDRS** (`Phdrs*`): the scan of linker scripts, the spans of segments, and the events that are emitted,
  against a state machine that follows one segment along the events.
- **RISC-V relaxation** (`RelaxDeltas`, `RelaxCompaction`, `RiscvRelax`, `RiscvDecisions`, `RiscvPasses`,
  `RiscvCalls`): the scan that collects deletions, pass after pass, the compaction and translation that follow
  from them, and the reach of calls.
- **GOT and PLT** (`GotPlt*`, `GotTlsMeaning`): how much a resolution needs, where its entries are, what the
  writer takes, and what each word means once the output is loaded, down to the place in a thread that the words
  of a TLS variable lead to.
- **RISC-V attributes** (`Leb128`, `RiscvArch`, `RiscvAttributes`): sizes, writing and reading. Numbers are
  ULEB128 as in section 7.6 of DWARF 5.
- **Script symbols** (`ScriptSymbols`, `ScriptOperators`, `ScriptEvaluation`): early evaluation with its cut of
  cycles, and what operators and symbols mean wherever they are used.
- **Manifests** (`Manifests`, `ManifestCompare`): what changed between two links.
- **File offsets** (`FileOffsets`, `FileSplit`): offsets after compression and the split of the output file.
- **GNU properties** (`GnuProperties`): the merge over all files.

Code that works step by step is modelled by classes and methods with loops, each proved against a pure
function; the results are lemmas about those functions. `dafny verify dfyconfig.toml` checks everything.

## Findings

Some expected properties do not hold of the code in all cases. For each there is an input for which it
fails, and the exact condition or amount as far as one is named here.

- **.eh_frame sizes.** The layout goes by the last relocation at pc-begin that names a symbol, and the writer
  peeks at the first relocation of the entry. `EhFrameSizes.SizesDiffer` says by how much the sizes differ, for
  any relocations, and `EhFrameSizes.SizesAgreeExactly` when they are the same. Entries are shorter than 2^32
  bytes there, and nothing else is assumed. With another relocation before the one at pc-begin too much is
  reserved (`EhFrameSizes.LateRelocationWastes`); with two relocations at pc-begin it can be too little
  (`EhFrameSizes.SecondPcBeginOverruns`). With at most one at pc-begin, against a section whose frames are
  listed, it is never too little (`EhFrameSizes.OnePcBeginIsEnough`).
- **RELR counts and odd addresses.** The counts agree for all relocations of a section exactly when its address
  is even (`RelrTable.AgreesExactlyWhenEven`, `RelrTable.OddAddressDisagrees`).
- **RELR counts without a reset.** Script-sorted sections are written without a reset before each. That makes no
  difference where every section opens a new address entry (`RelrRuns.NoResetAgrees`). Otherwise fewer entries
  can be written than were reserved (`RelrRuns.NoResetDisagrees`), but never more as long as the places of all
  sections ascend (`RelrRuns.NoResetNeedsLess`). Where they do not, the writer can run out: six entries are
  wanted where four were reserved (`RelrRuns.UnsortedOverruns`). When all sections but the first have at most
  one place, the counts differ exactly when some first place falls into the bitmap that is being filled
  (`RelrRuns.NoResetAgreesExactly`).
- **PHDRS names.** A name that a later script takes over, or a segment called NONE, breaks the rule of one start
  and one end (`PhdrsResults.NameTakenOver`, `PhdrsResults.NoneAsAName`; `PhdrsResults.SegmentOnceExactly` says
  when).
- **RISC-V padding.** Padding whose start is a multiple of the bytes missing from the alignment need not come out
  aligned: those bytes must also divide the alignment (`RiscvPasses.AlignedForWholeUnits`,
  `RiscvPasses.UnitMustDivideAlignment`; `RiscvPasses.AlignedExactly` says when).
- **Relaxed calls.** The scan measures from the input offset of a call in the section as it lies. The distance in
  the end differs by the bytes deleted before the call and by what section and target have moved, so the jal
  reaches its target exactly when that drift leaves the tested distance in range
  (`RiscvCalls.CallReachesExactly`, `RiscvCalls.TargetStaysExactly`, `RiscvCalls.CallOvershoots`). A call within
  its section, backward or past nothing that earlier passes deleted, always reaches
  (`RiscvCalls.CallWithinSectionReaches`).
- **Deleted lui.** The writer looks for the delta of a wholly deleted `lui` at the input offset that an output
  offset comes back to. No delta ever starts there (`RelaxDeltas.NoDeltaWhereItComesBack`), so that branch is
  not taken.
- **Shortened lui.** The comment in the source says that a c.lui holds -32 to -1 and 1 to 31; the high part of a
  64-bit value is never negative there, so only 1 to 31 are taken (`RiscvDecisions.OnlyCluiExactly`).
- **Symbol sizes.** `object_symbol_size` is off when an end of the symbol is strictly inside a deletion, by an
  exact amount (`RelaxCompaction.ObjectSymbolSize`, `RelaxCompaction.EndInsideCut`).
- **TLS relocations.** Those reserved and those taken may differ for a variable, by an exact amount
  (`GotPltAgreement.TlsAgreesExactly`, `GotPltAgreement.UndefinedTlsWastes`). Over a group the output is written
  exactly when the amounts do not add up to less than nothing, and passes the final check exactly when they add
  up to nothing (`GotPltLayout.AllAgreeExactly`, `GotPltLayout.LayoutThenWrite`).
- **TLS module words.** Of a variable with a dynamic symbol that cannot be interposed, the offset word is 0 and
  gets no relocation. `__tls_get_addr` then leads to the variable exactly when its offset in the block is the bias
  of the architecture (`GotTlsMeaning.ModuleLeadsExactlyInAll`, `GotTlsMeaning.ProtectedVariableLost`).
- **Script symbols in another section.** A symbol that a script defines in one section has the base of another
  added to its address when an expression in that other section uses it, so its value is right there exactly when
  that base is 0 (`ScriptOperators.SectionSymbolExactly`). The symbols for the start and the end of a section count
  from 0 when they are seen early from outside of sections (`ScriptOperators.StartAndEndSeen`).
- **Architecture strings.** Versions of two digits, or names with separators, do not survive
  (`RiscvAttributes.RoundTripExactly`, `RiscvArch.LongVersions`).
- **Cyclic definitions.** They have no plain meaning that evaluation could compute. Evaluation still ends, and in
  a ring of symbols, each one more than the next, its values depend on where it starts and satisfy no definition
  (`ScriptEvaluation.CutChangesMeaning`). Which other cycles come out right is not stated.

## Model

| member | source | states |
|---|---|---|
| `Relr.InsertAddsAddress` | libjdxld/src/elf.rs:5911-5919 | inserting an address into a bitmap adds exactly that address to what a loader reads from the bitmap, and nothing is lost |
| `Relr.StepKeepsInStep` | libjdxld/src/elf.rs:5943-5993 | each step of the three-state machine, from any state, keeps the table decoding to the places encoded so far, and never overwrites an entry that is not there |
| `Relr.RoundTrip` | libjdxld/src/elf.rs:5936-5994 | for every list of even addresses, decoding the entries as the gABI describes SHT_RELR yields exactly the set that was encoded |
| `Relr.RoundTripInOrder` | libjdxld/src/elf.rs:5936-5994 | for strictly increasing even addresses the decoded sequence is the encoded one |
| `Relr.EncodeShifted` | libjdxld/src/elf.rs:5943-5993 | from shifted states, an offset and the address that it becomes take the same New or Update step |
| `Relr.CountShifted` | libjdxld/src/elf.rs:5943-5993 | the run over section offsets, which counts, and the run over addresses, which writes, make the same number of entries |
| `RelrGot.GotEntriesCount` | libjdxld/src/elf.rs:6341-6347 | the closed form writes exactly the number of entries that the layout counted, for every size of the block |
| `RelrGot.GotIsRun` | libjdxld/src/elf_writer.rs:1004-1028 | for an even base the closed form is what the encoder produces for the slots of the block, and it decodes to those slots in order |
| `RelrTable.ReserveSection` | libjdxld/src/elf.rs:6224-6236 | the layout, which sees section offsets only, counts the RELR entries and the RELA fall-backs of a section |
| `RelrTable.TableWriter.ResetRelrRun` | libjdxld/src/elf_writer.rs:997-1000 | a new run begins and nothing that was written changes |
| `RelrTable.TableWriter.EmitEntry` | libjdxld/src/elf_writer.rs:1221-1238 | New takes the next slot, Update rewrites the last one of the run; either fails exactly when there is no such slot |
| `RelrTable.TableWriter.WriteAddressRelocation` | libjdxld/src/elf_writer.rs:1205-1252 | even places join the run and return the address, others become one RELA entry and return 0; success exactly when the table has room |
| `RelrTable.TableWriter.WriteSection` | libjdxld/src/elf_writer.rs:1747-1758 | a section appends the entries of one run over its addresses and its RELA entries, and succeeds exactly when both fit |
| `RelrTable.TableWriter.WriteObject` | libjdxld/src/elf_writer.rs:1743-1767 | behind whatever was written for earlier objects, all sections of an object, with a reset before each, succeed exactly when the two tables have room for all their entries, and append exactly those |
| `RelrTable.TableWriter.WriteGotRelrBitmap` | libjdxld/src/elf_writer.rs:1004-1028 | the GOT block appends its closed-form entries, and fails exactly when they do not fit |
| `RelrTable.ReservedIsEmitted` | libjdxld/src/elf.rs:5823-5860 | for any list of sections at even addresses, the reservations on offsets are the sizes of what is emitted on addresses |
| `RelrTable.NothingToPack` | libjdxld/src/elf_writer.rs:726-728 | dropping an empty RELR slice turns packing off, which then changes no table |
| `RelrTable.LayoutThenWrite` | libjdxld/src/elf_writer.rs:1031-1068 | with even section addresses the writer never runs out and leaves nothing over in either table |
| `RelrTable.TableRoundTrip` | libjdxld/src/elf.rs:5936-5994 | the whole table of many runs decodes to the even places of all sections and to nothing else |
| `RelrTable.AgreesExactlyWhenEven` | libjdxld/src/elf_writer.rs:1215-1219 | what is reserved for a section on its offsets is what it takes at its address, whatever its relocations, exactly when the address is even |
| `RelrTable.OddAddressDisagrees` | libjdxld/src/elf_writer.rs:1215-1219 | at any odd section address one RELR entry is reserved for offset 0 and one RELA entry is wanted |
| `RelrRuns.NoResetAgrees` | libjdxld/src/elf_writer.rs:4333-4350 | where every section opens a new address entry, a run that is never reset writes the very table of runs that are |
| `RelrRuns.NoResetAgreesExactly` | libjdxld/src/elf_writer.rs:4333-4350 | when all sections but the first have at most one place, fewer entries are written than with resets exactly when some first place only overwrites a bitmap, and never more |
| `RelrRuns.CarryingOnSaves` | libjdxld/src/elf.rs:5943-5993 | for ascending places, a run that carries on into another list takes no more entries than two runs, and where it takes as many it is ahead of the new run |
| `RelrRuns.NoResetNeedsLess` | libjdxld/src/elf_writer.rs:4333-4350 | for sections with ascending places a run that is never reset writes at most as many entries as runs with resets, which is what is reserved at even addresses |
| `RelrRuns.UnsortedOverruns` | libjdxld/src/elf_writer.rs:4333-4350 | at any even address, two sections whose places do not ascend for which four entries are reserved and a run that is never reset writes six |
| `RelrRuns.NoResetDisagrees` | libjdxld/src/elf_writer.rs:4333-4350 | wherever two sections with adjacent words lie, a run that carries on from one to the other emits two entries where three were reserved |
| `Words.Le32RoundTrip` | libjdxld/src/elf_writer.rs:2757-2762 | reading a little-endian word gives back what was written |
| `EhFrame.CountedIsKept` | libjdxld/src/elf.rs:3681-3720 | with the pc-begin relocation first, the layout counts an FDE exactly when the writer keeps it |
| `EhFrame.KeptExactlyWhenFirst` | libjdxld/src/elf_writer.rs:2690-2756 | for an FDE of a live section with one pc-begin relocation, counted always and kept exactly when that relocation is the first of the entry |
| `EhFrame.CountedIsKeptOverall` | libjdxld/src/elf.rs:3737-3788 | over all entries, counted frames and CIEs take the bytes and header entries of what the writer keeps |
| `EhFrame.TrailingExactly` | libjdxld/src/elf_writer.rs:2811-2819 | all bytes behind the last entry are carried over unless they are the four zeros of the end mark |
| `EhFrameSizes.CountedExactly` | libjdxld/src/elf.rs:3681-3720 | an FDE is counted exactly when the layout accepts it and its last relocation at pc-begin that names something names a loaded, non-empty section whose frames are listed |
| `EhFrameSizes.OneEntryExactly` | libjdxld/src/elf.rs:3639-3720 | for one entry below 2^32 bytes, whatever its relocations, reserved and missing are kept and unused, where FDEs are missing or unused by the verdicts of their last and first relocation |
| `EhFrameSizes.SizesDiffer` | libjdxld/src/elf.rs:3595-3734 | the same for the sums over all entries, in bytes and header entries |
| `EhFrameSizes.SizesAgreeExactly` | libjdxld/src/elf_writer.rs:2690-2756 | sizes are equal exactly when as much is missing as is unused; if no entry is missing anything, exactly when none has anything unused, and the other way round; entries are below 2^32 bytes |
| `EhFrameSizes.OnePcBeginIsEnough` | libjdxld/src/elf_writer.rs:2690-2756 | with at most one relocation at pc-begin, against a section whose frames are listed, too little is never reserved, and too much exactly for a counted FDE that does not start at pc-begin |
| `EhFrameSizes.LateRelocationWastes` | libjdxld/src/elf_writer.rs:2690-2693 | a section of 32 bytes whose FDE has another relocation before pc-begin: 32 bytes and a header entry reserved, 8 bytes used |
| `EhFrameSizes.SecondPcBeginOverruns` | libjdxld/src/elf_writer.rs:2690-2717 | the same section with two relocations at pc-begin: 8 bytes reserved, 32 bytes and a header entry needed |
| `EhFrameLayout.LinksGoBack` | libjdxld/src/elf.rs:3703-3719 | every link of the frame list points to an earlier frame, so walks end |
| `EhFrameLayout.WalkVisitsOwnFrames` | libjdxld/src/elf.rs:3737-3788 | the walk from the head of a section visits each frame of that section once, newest first, and no other frame |
| `EhFrameLayout.OneMoreSection` | libjdxld/src/elf.rs:3737-3788 | section lists partition the frames, so that loading one more section adds exactly its own space, in any order |
| `EhFrameLayout.CountedIsLive` | libjdxld/src/elf.rs:3737-3788 | summing over the lists of the loaded sections is summing over the entries that count |
| `EhFrameLayout.ObjectLayoutState.AddFrame` | libjdxld/src/elf.rs:3703-3719 | the new frame points to the former head of its section and becomes the head; all links stay in order |
| `EhFrameLayout.ObjectLayoutState.ScanFde` | libjdxld/src/elf.rs:3682-3701 | the scan of an FDE consumes the relocations of the entry and yields the section of its last pc-begin relocation |
| `EhFrameLayout.ObjectLayoutState.ProcessEntry` | libjdxld/src/elf.rs:3639-3721 | one entry extends CIEs or frames as the parsed entry calls for and moves the relocation cursor past it |
| `EhFrameLayout.ObjectLayoutState.ProcessEhFrame` | libjdxld/src/elf.rs:3595-3734 | a section is accepted exactly when it parses and every FDE can be attributed; frames, links, CIEs and trailing bytes are then those of its entries |
| `EhFrameLayout.ObjectLayoutState.ProcessSectionExceptionFrames` | libjdxld/src/elf.rs:3737-3788 | the backward walk returns the space of all frames of the section |
| `EhFrameLayout.ObjectLayoutState.HandleSectionLoadRequest` | libjdxld/src/layout.rs:4198-4310 | a discarded section is refused; loading a section once adds its frames to the running totals, asking again adds nothing |
| `EhFrameLayout.ObjectLayoutState.FinaliseObjectSizes` | libjdxld/src/elf.rs:942-952 | every CIE is added to the size |
| `EhFrameLayout.LayoutObject` | libjdxld/src/elf.rs:3595-3788 | accepted exactly when all sections are and no discarded one is requested; whatever the order of requests, the reserved size is all CIEs, the counted frames of loaded sections and the trailing bytes |
| `EhFrameOutput.EmitKeepsFaithful` | libjdxld/src/elf_writer.rs:2667-2808 | one more entry keeps all that is known of the output: places without gaps, lengths, and where each id leads; of an entry that is kept, no relocation may touch the length and id fields |
| `EhFrameOutput.OutputIsFaithful` | libjdxld/src/elf_writer.rs:2667-2808 | whatever FDEs are dropped, kept entries follow each other in input order without gaps and each FDE leads to the copy of the very CIE that it named, when no relocation touches the length and id fields of a kept entry |
| `EhFrameOutput.RegularIsPlain` | libjdxld/src/elf_writer.rs:2657-2717 | in a parsed section with relocations in order that is so for every kept FDE; it remains to be asked of the CIEs, which also need room for their id |
| `EhFrameOutput.SectionReadsBack` | libjdxld/src/elf_writer.rs:2644-2824 | what is emitted for such a section parses to the kept entries, one behind the other, and each FDE leads to the copy of its CIE |
| `EhFrameOutput.OutputParses` | libjdxld/src/elf_writer.rs:2657-2809 | the reader that parsed the input parses the output and finds each kept entry at its place |
| `EhFrameOutput.EmittedSizes` | libjdxld/src/elf_writer.rs:2729-2797 | the bytes emitted are the kept entries, and the header table lists them in order as far as it has room |
| `EhFrameOutput.OutputSize` | libjdxld/src/elf_writer.rs:2757-2797 | the place after the last kept entry is the kept space |
| `EhFrameOutput.HdrCount` | libjdxld/src/elf_writer.rs:2729-2747 | one header entry for each kept FDE |
| `EhFrameOutput.SectionTable` | libjdxld/src/elf_writer.rs:2690-2747 | the header entries of a section lead, one for each kept FDE in turn as far as there is room, to the FDE and to its function: section address plus relaxed symbol value and addend of the relocation at pc-begin |
| `EhFrameOutput.HdrOverflowsExactly` | libjdxld/src/elf_writer.rs:2729-2747 | a header entry is refused exactly when the distance of the function or of the FDE from the table does not fit in 32 signed bits |
| `EhFrameEmit.PatchesInPlace` | libjdxld/src/elf_writer.rs:2763-2796 | when no two relocations of an entry overlap, each patch is at its offset within the entry in the end, and every other byte is as it was |
| `EhFrameOutput.EntryIsCopied` | libjdxld/src/elf_writer.rs:2757-2797 | in the output a kept entry is its input byte by byte, but for its patches and the id field of an FDE |
| `EhFrameWriter.FrameWriter.TakeEhFrameData` | libjdxld/src/elf_writer.rs:1332-1344 | the cursor moves by what was asked for, and refuses exactly when that is not left |
| `EhFrameWriter.FrameWriter.AddHdrEntry` | libjdxld/src/elf_writer.rs:2729-2747 | a header entry is added when there is room, and no room is no error; where it leads is `EhFrameOutput.SectionTable` |
| `EhFrameWriter.FrameWriter.ApplyRelocations` | libjdxld/src/elf_writer.rs:2763-2796 | relocations change the bytes of their own entry only, and the cursor ends where the entry ends |
| `EhFrameWriter.FrameWriter.CopyEntry` | libjdxld/src/elf_writer.rs:2757-2797 | an entry is copied, its id rewritten and its relocations applied, leaving all that was written before |
| `EhFrameWriter.FrameWriter.PcBeginTarget` | libjdxld/src/elf_writer.rs:2690-2717 | the peek at the first relocation decides as the pure definition of a kept FDE |
| `EhFrameWriter.FrameWriter.WriteFde` | libjdxld/src/elf_writer.rs:2718-2797 | a kept FDE adds its header entry and its bytes, or fails exactly when it cannot be emitted or does not fit |
| `EhFrameWriter.FrameWriter.WriteEntry` | libjdxld/src/elf_writer.rs:2671-2808 | one entry of any kind brings the buffers to the next state of the pure emission |
| `EhFrameWriter.FrameWriter.WriteEhFrame` | libjdxld/src/elf_writer.rs:2644-2824 | a section is written exactly when it parses, all kept entries can be emitted and all fits; the buffers then hold its emission and its trailing bytes, each header entry leads to its FDE and the function of that, and when relocations are in order and leave the headers of CIEs alone the emission reads back as the kept entries with each FDE leading to the copy of its CIE |
| `EhFrameWriter.FrameWriter.WriteTrailing` | libjdxld/src/elf_writer.rs:2811-2819 | bytes too few for an entry are kept unless they are the end marker |
| `EhFrameWriter.FailsEarly` | libjdxld/src/elf_writer.rs:2644-2824 | an entry that cannot be emitted, or does not fit, settles the whole section |
| `EhFrameAgreement.SectionUses` | libjdxld/src/elf_writer.rs:2644-2824 | one section uses exactly its kept space and as many header entries as fit |
| `EhFrameAgreement.ObjectExactly` | libjdxld/src/elf_writer.rs:2612-2824 | the sections of an object can be emitted one behind the other exactly when each can be at the address, and with the header entries, that those before it leave; together they take what is needed |
| `EhFrameAgreement.WriteObject` | libjdxld/src/elf_writer.rs:1762-1764 | with the reserved space left, the writer succeeds exactly when each section can be emitted at its place, so it never runs out; the buffers then go on with exactly the emission of the sections in order |
| `EhFrameAgreement.ReservedIsNeeded` | libjdxld/src/elf.rs:942-952 | what the layout reserves for an object is what its writer needs |
| `EhFrameAgreement.ObjectTable` | libjdxld/src/elf_writer.rs:2690-2747 | the header entries of all sections of an object lead to the kept FDEs in turn and to their functions |
| `EhFrameAgreement.LayoutThenWrite` | libjdxld/src/elf_writer.rs:2612-2824 | both passes succeed exactly when the layout accepts all sections and requests and each section can be emitted at its place; then both tables are the emission, every header entry leads to its FDE and function, and not a byte or header entry is left over |
| `Words.NextPowerOfTwo` | libjdxld/src/elf.rs:5068 | the smallest power of two that is not below its argument, and 1 for 0 |
| `Words.SetBitBits` | libjdxld/src/elf_writer.rs:4590-4592 | setting one bit of a word sets that bit and leaves all others |
| `GnuHash.CreateLayout` | libjdxld/src/elf.rs:5065-5073 | the number of buckets is a power of two, at least half the number of definitions and less than twice that half; there is one bloom word, and the shift is 6 |
| `GnuHash.WhereLoadersLook` | libjdxld/src/elf.rs:5102-5104 | the bucket, bloom word and bloom bits that the writer goes by are those that a loader computes from the hash |
| `GnuHash.BloomStep` | libjdxld/src/elf_writer.rs:4585-4592 | adding the two bits of a symbol keeps the filter exactly the bits of the symbols so far |
| `GnuHash.WriteGnuHashTables` | libjdxld/src/elf_writer.rs:4535-4611 | for symbols sorted by bucket the loop fills bloom, buckets and chains exactly: no bit, head or end mark more or less |
| `GnuHash.ChainFinds` | libjdxld/src/elf_writer.rs:4594-4608 | from any entry of the right bucket the chain walk and a plain search of the rest agree |
| `GnuHash.BloomNeverRejects` | libjdxld/src/elf_writer.rs:4585-4592 | the filter lets every defined symbol through |
| `GnuHash.LookupIsSearch` | libjdxld/src/elf_writer.rs:4535-4611 | with a symbol base above 0 the lookup as a loader computes it finds, for every name, exactly what a plain search of the definitions finds, and never leaves the table |
| `GnuHash.EveryDefinitionIsFound` | libjdxld/src/elf.rs:5054-5105 | every definition that the layout was given is found under its name after sorting |
| `GnuHash.ZeroBaseLosesFirstSymbol` | libjdxld/src/elf_writer.rs:4597-4601 | with symbol base 0 the first symbol is not found, so the base is no formality |
| `GnuHash.ChainIsBucket` | libjdxld/src/elf_writer.rs:4594-4608 | the chain of a bucket holds exactly the symbols of that bucket |
| `SysvHash.CreateLayout` | libjdxld/src/elf.rs:3790-3818 | there is a table exactly when there are definitions, and its chains cover every dynamic symbol |
| `SysvHash.WriteSysvHashTable` | libjdxld/src/elf_writer.rs:4464-4533 | the table is written exactly when the buffer has room; each bucket then holds its first symbol and each chain entry the next of the same bucket |
| `SysvHash.ChainsIncrease` | libjdxld/src/elf_writer.rs:4508-4530 | chains only go forward, stay below the chain count and end in 0 |
| `SysvHash.ChainIsComplete` | libjdxld/src/elf_writer.rs:4508-4530 | every bucket of the table holds the first definition of its bucket |
| `SysvHash.LookupIsSearch` | libjdxld/src/elf_writer.rs:4464-4533 | the gABI lookup finds, for every name, exactly what a plain search of the definitions finds |
| `SysvHash.ChainIsBucket` | libjdxld/src/elf_writer.rs:4508-4530 | the chain of a bucket is exactly the definitions of that bucket in order, so the chains partition them |
| `PhdrsEvents.RunHeaders` | libjdxld/src/elf.rs:2705-2746 | where a segment stands after the file header, after the program headers and before the first section, whatever its flags |
| `PhdrsEvents.RunSectionEvents` | libjdxld/src/elf.rs:2702-2783 | where a segment stands at every section of the order |
| `PhdrsEvents.OneStartOneEnd` | libjdxld/src/elf.rs:2702-2806 | a segment is started once and later ended once exactly when the emitted mark agrees with having headers or sections |
| `PhdrsEvents.AssignedLiesInside` | libjdxld/src/elf.rs:2747-2783 | every section from the first to the last assigned to a segment lies inside it |
| `PhdrsEvents.TakenLiesInside` | libjdxld/src/elf.rs:2759-2782 | sections that a used segment takes in at its end lie inside it |
| `PhdrsEvents.FileHeaderInside` | libjdxld/src/elf.rs:2729-2732 | at the file header a segment is open exactly when it has FILEHDR |
| `PhdrsEvents.ProgramHeadersInside` | libjdxld/src/elf.rs:2733-2739 | at the program headers a segment is open exactly when it has PHDRS, or has FILEHDR and goes on to sections |
| `PhdrsScan.Named` | libjdxld/src/elf.rs:2604 | a name stands for the last header that has it |
| `PhdrsScan.FirstAssigned` | libjdxld/src/elf.rs:2659-2661 | the first of the sections assigned to a segment, if any |
| `PhdrsScan.LastAssigned` | libjdxld/src/elf.rs:2662 | the last of the sections assigned to a segment, if any |
| `PhdrsScan.Scan.AddHeader` | libjdxld/src/elf.rs:2563-2605 | a header is refused exactly when it is a LOAD with headers after a LOAD without |
| `PhdrsScan.Scan.AddName` | libjdxld/src/elf.rs:2609-2636 | a name is accepted exactly when it is NONE or names a segment that may hold sections, and then marks that segment and calls for the flags of the section there |
| `PhdrsScan.Scan.AddSection` | libjdxld/src/elf.rs:2607-2638 | a section is accepted exactly when all its names are, and marks all their segments |
| `PhdrsScan.Scan.AddScript` | libjdxld/src/elf.rs:2561-2639 | a script is accepted exactly when its headers are in order and its names known by then |
| `PhdrsScan.Scan.AddScripts` | libjdxld/src/elf.rs:2561-2639 | all scripts are accepted exactly when all headers are in order and every name is known when it is used |
| `PhdrsScan.FlagsCalledFor` | libjdxld/src/elf.rs:2578-2636 | a segment without flags of its own has a flag exactly when it has headers and the flag is for reading, or a section that was assigned to it, by the names known by then, has the flag |
| `PhdrsBuilder.FindSpans` | libjdxld/src/elf.rs:2641-2683 | the spans are the first and last section assigned to each segment; of the LOAD segments in use, the flags decide which is picked: the first that executes and cannot be written, else one that executes, the first that can be written and not executed, and the first that can only be read |
| `PhdrsBuilder.CoverKeepsFlags` | libjdxld/src/elf.rs:2664-2682 | one more name of a section keeps the picks those that the flags call for |
| `PhdrsBuilder.NextOfCategory` | libjdxld/src/elf.rs:2727-2746 | from a list sorted by category, the segments of the next category are taken off and nothing else |
| `PhdrsBuilder.CollectHeaderEvents` | libjdxld/src/elf.rs:2706-2724 | each category collects exactly the segments that its rule applies to, in order |
| `PhdrsBuilder.EmitHeaderEvents` | libjdxld/src/elf.rs:2706-2746 | the header events in their order |
| `PhdrsBuilder.EmitEvents` | libjdxld/src/elf.rs:2702-2806 | the loops emit the event list that the results are about |
| `PhdrsBuilder.BuildCustomOutputOrder` | libjdxld/src/elf.rs:2536-2809 | succeeds exactly when the scripts are accepted and some section is in a LOAD segment, and then emits the events of the plan that the scripts call for, with the unnamed sections taken in by the LOAD segments that the flags of all segments call for, and by the first one in use where none is fit |
| `PhdrsResults.EverySegmentOnce` | libjdxld/src/elf.rs:2536-2809 | accepted scripts with distinct PHDRS names, none of them NONE, start every segment once and end it once later |
| `PhdrsResults.SegmentOnceExactly` | libjdxld/src/elf.rs:2536-2809 | without any condition on names, that holds for a segment exactly when it has headers or the scan marked it just in case a section is assigned to it |
| `PhdrsResults.AssignedSectionInside` | libjdxld/src/elf.rs:2648-2783 | every section assigned to a PHDR lies between its start and its end |
| `PhdrsResults.HeadersInside` | libjdxld/src/elf.rs:2705-2746 | the file header lies inside every FILEHDR segment and the program headers inside every PHDRS segment |
| `PhdrsResults.NameTakenOver` | libjdxld/src/elf.rs:2604-2621 | when a second script takes a name over, the first segment of that name, marked as used, is not started and ended |
| `PhdrsResults.TakingOverIsAccepted` | libjdxld/src/elf.rs:2561-2687 | such scripts are accepted |
| `PhdrsResults.NoneAsAName` | libjdxld/src/elf.rs:2610-2612 | a segment named NONE with a section assigned to it is not started and ended exactly once |
| `PhdrsResults.NamedNoneIsAccepted` | libjdxld/src/elf.rs:2561-2687 | such a script is accepted |
| `PhdrsResults.EverySectionOnce` | libjdxld/src/elf.rs:2702-2806 | every section is emitted as often as it is ordered or listed, the headers and the RISC-V attributes once each |
| `PhdrsResults.UnnamedSectionsInside` | libjdxld/src/elf.rs:2759-2782 | sections that the script does not name lie inside a LOAD segment in use |
| `PhdrsResults.UnnamedSectionsByFlags` | libjdxld/src/elf.rs:2759-2782 | unnamed executable sections lie inside a segment that executes if there is one in use, and that cannot be written if there is such a one; writable ones inside one that can be written and not executed, read-only ones inside one that can only be read |
| `RelaxDeltas.TranslationCounts` | linker-utils/src/relaxation.rs:102-118 | an offset less the bytes deleted before it counts the bytes that survive below it, less what the cut around it still deletes |
| `RelaxDeltas.TranslationExactly` | linker-utils/src/relaxation.rs:102-118 | an offset translates to the number of surviving bytes below it exactly when it is not strictly inside a deletion |
| `RelaxDeltas.MergedDeletes` | linker-utils/src/relaxation.rs:66-82 | merging adds up what two lists delete before any offset, and in all |
| `RelaxDeltas.MergedWellFormed` | linker-utils/src/relaxation.rs:66-82 | lists whose cuts are all apart stay sorted and apart when merged |
| `RelaxDeltas.SectionRelaxDeltas.constructor` | linker-utils/src/relaxation.rs:28-46 | each recorded delta carries the bytes deleted up to and including it |
| `RelaxDeltas.SectionRelaxDeltas.MergeAdditional` | linker-utils/src/relaxation.rs:66-82 | the record becomes that of the merged cuts, cumulative counts included |
| `RelaxDeltas.SectionRelaxDeltas.TotalDeleted` | linker-utils/src/relaxation.rs:59-61 | the last cumulative count is the sum of all cuts |
| `RelaxDeltas.SectionRelaxDeltas.HasDeltaAt` | linker-utils/src/relaxation.rs:85-89 | the search finds a delta exactly when a cut starts there |
| `RelaxDeltas.SectionRelaxDeltas.DeltaBytesAt` | linker-utils/src/relaxation.rs:93-97 | the length of the cut that starts there, or 0 |
| `RelaxDeltas.SectionRelaxDeltas.InputToOutputOffset` | linker-utils/src/relaxation.rs:102-118 | the search over recorded deltas subtracts exactly what is deleted before the offset |
| `RelaxDeltas.SectionRelaxDeltas.OutputToInputOffset` | linker-utils/src/relaxation.rs:122-136 | the result is a surviving byte, and as many bytes survive below it as the output offset says |
| `RelaxDeltas.BackIsUnique` | linker-utils/src/relaxation.rs:122-136 | there is only one such byte |
| `RelaxDeltas.ThereAndBackExactly` | linker-utils/src/relaxation.rs:102-136 | an offset comes back from the output exactly when its byte survives |
| `RelaxDeltas.NoDeltaWhereItComesBack` | libjdxld/src/elf_riscv64.rs:246-256 | no delta starts where an output offset comes back to, so the test for a wholly deleted lui at that place is never true |
| `RelaxCompaction.SurvivorLands` | libjdxld/src/elf_writer.rs:2342-2372 | a byte that survives lands at its offset less the bytes deleted before it |
| `RelaxCompaction.SurvivorsStayInOrder` | libjdxld/src/elf_writer.rs:2342-2372 | the map from survivors to output offsets is strictly monotone |
| `RelaxCompaction.KeptLength` | libjdxld/src/elf_writer.rs:2342-2372 | the output is as long as the input less all that was deleted |
| `RelaxCompaction.WriteSectionRaw` | libjdxld/src/elf_writer.rs:2342-2372 | the output starts with exactly the surviving bytes in order, and the rest of the allocation is padding |
| `RelaxCompaction.ObjectSymbolSize` | libjdxld/src/elf_writer.rs:1368-1390 | a symbol gets the size of what survives in its range, off by the difference of what the cuts around its two ends still delete |
| `RelaxCompaction.SymbolEndsOutsideCuts` | libjdxld/src/elf_writer.rs:1368-1390 | that difference is 0 when neither end is strictly inside a cut |
| `RelaxCompaction.EndInsideCut` | libjdxld/src/elf_writer.rs:1387-1388 | a symbol of 6 bytes that ends inside the cut of a jalr keeps 4 bytes and gets size 2 |
| `RelaxCompaction.RelaxCursor.Translate` | linker-utils/src/relaxation.rs:147-167 | for offsets that never go down, the cursor translates as the search does |
| `RiscvRelax.CollectRelaxationDeltas` | libjdxld/src/elf_riscv64.rs:401-540 | the scan over relocations returns the cuts of the step function, with the running deletion and the waiting call or lui |
| `RiscvRelax.ExcessPadding` | libjdxld/src/elf_riscv64.rs:416-450 | what is removed from padding, taking earlier passes and this one into account |
| `RiscvRelax.RelaxCandidate` | libjdxld/src/elf_riscv64.rs:463-531 | a RELAX deletes for the call or lui just before it as the step function says, which `RiscvDecisions` puts in the terms of the instructions |
| `RiscvDecisions.CallExactly` | libjdxld/src/elf_riscv64.rs:463-487 | at a RELAX behind a call the jalr is deleted exactly when it is still there, the target is known and not interposable, and the distance from the input offset lies within a jal: -2^20 to 2^20 - 1 |
| `RiscvDecisions.LuiExactly` | libjdxld/src/elf_riscv64.rs:488-531 | at a RELAX behind a lui that is open it is deleted exactly when the value differs from a low part of 12 signed bits by a multiple of 2^32, and else shortened exactly when the register is neither 0 nor 2 and the value is 4096 times 1 to 31 plus a low part |
| `RiscvDecisions.NoLuiExactly` | linker-utils/src/riscv64.rs:88-92 | the high part is zero on 20 bits exactly when a low part alone gives the value on 32 bits |
| `RiscvDecisions.OnlyCluiExactly` | linker-utils/src/riscv64.rs:97-104 | the high part fits exactly when an immediate of 1 to 31 and a low part give the value |
| `RiscvPasses.StepMakes` | libjdxld/src/elf_riscv64.rs:414-537 | whatever a step deletes lies in the code of this or the preceding relocation, and no earlier pass deleted anything for it |
| `RiscvPasses.ScannedGood` | libjdxld/src/elf_riscv64.rs:401-540 | at every point of a scan the new cuts are in order, apart and accounted for |
| `RiscvPasses.PassKeepsConsistent` | libjdxld/src/layout.rs:5272-5314 | a pass keeps all cuts of a section sorted, apart, within it and each inside the code of one relocation |
| `RiscvPasses.PassesStayConsistent` | libjdxld/src/layout.rs:5200-5332 | so do any number of passes, with any addresses |
| `RiscvPasses.PaddingAfterPass` | libjdxld/src/elf_riscv64.rs:416-450 | after all cuts of a pass, padding that earlier passes left alone ends at the next multiple of its alignment if it reaches that far, and is left whole if not |
| `RiscvPasses.AlignedExactly` | libjdxld/src/elf_riscv64.rs:416-450 | the padding ends aligned exactly when it starts aligned or is long enough to reach the next multiple, and at most all of it is deleted |
| `RiscvPasses.AlignedForWholeUnits` | libjdxld/src/elf_riscv64.rs:438-442 | after all cuts of a pass the padding ends aligned when the bytes missing from its alignment divide both its start and the alignment |
| `RiscvPasses.UnitMustDivideAlignment` | libjdxld/src/elf_riscv64.rs:438-442 | dividing the start is not enough: in a section at 9 that is 5 bytes of padding, the padding ends at 14 |
| `RiscvCalls.CallReachesExactly` | libjdxld/src/elf_riscv64.rs:463-473 | a call whose jalr was deleted reaches its target with a jal, at the addresses in the end, exactly when the tested distance and the drift add up to one in range |
| `RiscvCalls.TargetStaysExactly` | libjdxld/src/elf_riscv64.rs:463-473 | with section and target unmoved, exactly when the tested distance and the bytes deleted before the call do |
| `RiscvCalls.CallOvershoots` | libjdxld/src/elf_riscv64.rs:463-473 | a section of padding and a call for which one pass deletes both and the jal then falls short |
| `RiscvCalls.CallStartsOutside` | libjdxld/src/elf_riscv64.rs:401-540 | no consistent deletion starts before a call and ends in it |
| `RiscvCalls.CallWithinSectionReaches` | libjdxld/src/elf_riscv64.rs:463-473 | a call to its own section, backward or past nothing that earlier passes deleted, reaches its target whatever this and later passes delete |
| `RiscvPasses.RelaxableSection.RunPass` | libjdxld/src/layout.rs:5264-5314 | the size of the section and the bytes deleted add up to its input after every pass |
| `RiscvPasses.RelaxableSection.Write` | libjdxld/src/elf_writer.rs:2324-2372 | after any number of passes the section fills exactly the size that the layout kept for it |
| `GotPlt.MemSizes.AllocateResolution` | libjdxld/src/elf.rs:1985-2053 | the seven tables grow by what a resolution needs |
| `GotPlt.MemoryOffsets.CreateResolution` | libjdxld/src/elf.rs:2192-2259 | addresses are handed out at the current offsets, which move by the slots taken |
| `GotPltWriter.TableWriter.TakeNextGotEntry` | libjdxld/src/elf_writer.rs:983-987 | the next word of the table, or failure exactly when none is left |
| `GotPltWriter.TableWriter.WriteRelrEntryFlat` | libjdxld/src/elf_writer.rs:1175-1201 | one RELR or one relative RELA entry, and the word that goes with it |
| `GotPltWriter.TableWriter.ProcessResolution` | libjdxld/src/elf_writer.rs:741-842 | a resolution puts all its entries in the tables, or fails exactly when they do not fit or something is missing |
| `GotPltWriter.TableWriter.ValidateEmpty` | libjdxld/src/elf_writer.rs:1031-1068 | the final check passes exactly when the tables that it looks at are full |
| `GotPltAgreement.PlainAgreesExactly` | libjdxld/src/elf.rs:1985-2053 | without TLS the writer takes from all seven tables what was reserved exactly when PLT implies GOT, a second ifunc entry implies PLT, and no dynamic ifunc has a GOT entry |
| `GotPltAgreement.TlsAgreesExactly` | libjdxld/src/elf_writer.rs:844-962 | for a TLS variable the writer is ready under exact conditions, takes every word reserved, and leaves an exact number of relocations over |
| `GotPltAgreement.UndefinedTlsWastes` | libjdxld/src/elf.rs:2030-2036 | in a shared object, a TLS variable with a GOT offset that is not dynamic and has no value: one relocation more is reserved than is taken |
| `GotPltAgreement.WordMeansSymbol` | libjdxld/src/elf_writer.rs:778-824 | with its own relocations, the word of a symbol comes to be what was intended: its dynamic value, the result of its resolver, an address that moves, or a number |
| `GotPltAgreement.SecondWordMeansPlt` | libjdxld/src/elf_writer.rs:829-840 | with its own relocations, the second word of an ifunc comes to be the address of its PLT entry |
| `GotPltLayout.NeedsAreMoves` | libjdxld/src/elf.rs:2192-2259 | the two layout passes agree on words and PLT entries |
| `GotPltLayout.OneAgrees` | libjdxld/src/layout.rs:6286-6340 | for consistent flags one resolution, TLS or not, takes exactly what it needs but for its exact excess of relocations |
| `GotPltLayout.AllAgree` | libjdxld/src/elf_writer.rs:1768-1780 | over any list of such symbols the writer takes what was reserved but for the relocations that the excesses add up to, and the offsets move with the tables |
| `GotPltLayout.AllAgreeExactly` | libjdxld/src/elf_writer.rs:1031-1068 | all tables come out even exactly when the excesses of all symbols cancel out, and there is room exactly when they do not add up to less than nothing |
| `GotPltLayout.WordsAreAtTheirAddress` | libjdxld/src/elf.rs:6349-6368 | each GOT or GOT_RELR word and PLT entry that a symbol fills in, TLS variables included, is at the address in its resolution |
| `GotPltLayout.RelrUnused` | libjdxld/src/elf_writer.rs:726-728 | when no RELR entry was reserved it makes no difference that the writer takes RELR to be off |
| `GotPltLayout.LayoutThenWrite` | libjdxld/src/layout.rs:6286-6340 | counting, handing out addresses and writing a group: no take fails exactly when the excesses of relocations do not add up to less than nothing, and the final check passes exactly when they cancel out |
| `GotPltMeaning.OnlyOwnCount` | libjdxld/src/elf.rs:2192-2259 | at a place that was handed out to a symbol, no other symbol has a relocation |
| `GotPltMeaning.WordMeansSymbolInAll` | libjdxld/src/elf_writer.rs:778-824 | in the whole output, whatever the other symbols, the word of a symbol is what was intended: what its resolver returns, what the loader finds under its dynamic symbol, or its own address, which moves with the output unless it is absolute |
| `GotPltMeaning.SecondWordMeansPltInAll` | libjdxld/src/elf_writer.rs:829-840 | in the whole output the second word of an ifunc is the address of its PLT entry |
| `GotPltMeaning.PltEntryJumpsToSymbol` | libjdxld/src/elf_writer.rs:821-824 | in the whole output the PLT entry of a symbol is at the address in its resolution, 16 bytes for each entry before it, and jumps through the word that is meant for the symbol; it stands for a symbol that is defined elsewhere |
| `GotPltMeaning.InBlockExactly` | libjdxld/src/elf.rs:6327-6339 | a word is in the block of the RELR bitmap exactly when it is to move with the output, RELR is on, and its symbol was not made local |
| `GotTlsMeaning.OffsetLeadsInAll` | libjdxld/src/elf_writer.rs:844-888 | in the whole output the word for an offset from the thread pointer leads to the variable, for the loader, for an executable and for a shared object alike |
| `GotTlsMeaning.ModuleLeadsExactlyInAll` | libjdxld/src/elf_writer.rs:889-930 | in the whole output the words for a module and an offset lead `__tls_get_addr` to the variable exactly when it has no dynamic symbol, or one that can be interposed, or is where an offset of 0 leads |
| `GotTlsMeaning.ProtectedVariableLost` | libjdxld/src/elf_writer.rs:913-922 | an exported variable that cannot be interposed, 8 bytes into the block of a shared object, for which they lead elsewhere |
| `GotTlsMeaning.DescriptorLeadsInAll` | libjdxld/src/elf_writer.rs:931-962 | in the whole output the relocation of a TLS descriptor is about the variable |
| `Leb128.UlebRoundTrip` | libjdxld/src/elf_writer.rs:4427-4458 | every number of 64 bits is read back, with what follows it untouched |
| `Leb128.U32RoundTrip` | libjdxld/src/elf_writer.rs:4418-4434 | every word of 32 bits is read back |
| `Leb128.StringRoundTrip` | linker-utils/src/utils.rs:53-60 | a string without NUL is read back up to its terminator |
| `Leb128.UlebSize` | libjdxld/src/elf.rs:4615-4645 | the computed size of a number is the number of bytes written |
| `RiscvArch.ArchRoundTrip` | libjdxld/src/elf.rs:4281-4286 | components with distinct names free of separators and one-digit versions survive printing and parsing |
| `RiscvArch.ParsedArchOk` | libjdxld/src/elf.rs:4677-4705 | the parser returns only such components, whatever the text |
| `RiscvArch.LongVersions` | libjdxld/src/elf.rs:4677-4705 | all but the last digit of a major version go to the name when read back, and a minor version of two digits is not read at all |
| `RiscvAttributes.SizesAgree` | libjdxld/src/elf.rs:4615-4645 | the section written is as long as the size reserved |
| `RiscvAttributes.Cursor.WriteAll` | libjdxld/src/elf_writer.rs:4417 | data is appended, or refused exactly when it does not fit |
| `RiscvAttributes.WriteRiscvAttributes` | libjdxld/src/elf_writer.rs:4413-4462 | in a buffer of the reserved size the writer succeeds and fills all of it with the section |
| `RiscvAttributes.ProcessRiscvAttributes` | libjdxld/src/elf.rs:4647-4741 | the loop reads what the recursive reader reads |
| `RiscvAttributes.RoundTripExactly` | libjdxld/src/elf.rs:4647-4741 | reading what was written gives back the same attributes exactly when numbers have 64 bits and every architecture can be printed and parsed |
| `RiscvAttributes.NestedLengths` | libjdxld/src/elf_writer.rs:4420-4434 | both length fields count from themselves, or from the tag before them, to the end of the section |
| `RiscvAttributes.SectionBytes` | libjdxld/src/elf_writer.rs:4413-4462 | the bytes of a section with one attribute of each kind |
| `ScriptEvaluation.EarlyEvaluator.EvaluateExpressionValue` | libjdxld/src/expression_eval.rs:221-424 | the evaluator with its set of visited symbols returns the value by definition, ends on every graph, and restores the set on every return |
| `ScriptEvaluation.EarlyEvaluator.EvaluateExpression` | libjdxld/src/expression_eval.rs:177-219 | the same with the section base added where the kinds of value call for it |
| `ScriptEvaluation.EarlyEvaluator.EvaluateInternalSymbol` | libjdxld/src/expression_eval.rs:596-658 | a symbol under evaluation counts as 0, any other by its definition, and the visited set is restored |
| `ScriptOperators.BinaryMeans` | libjdxld/src/expression_eval.rs:302-367 | every binary operator gives, for its left and right operand on 64 bits, what it stands for: sums, differences and products modulo 2^64, signed quotients and remainders rounded to zero, the least and the greatest, the next multiple, and truth values |
| `ScriptOperators.LeftDecides` | libjdxld/src/expression_eval.rs:340-367 | a left operand that settles the outcome leaves the right one alone, and an alignment to 0 is an error |
| `ScriptOperators.RightDecides` | libjdxld/src/expression_eval.rs:305-318 | a division by 0 is an error whatever the left operand is |
| `ScriptOperators.UnaryMeans` | libjdxld/src/expression_eval.rs:368-424 | negation on 64 bits, truth of 0, and assertions that fail for 0 |
| `ScriptOperators.ComparisonMeans` | libjdxld/src/expression_eval.rs:321-326 | comparisons are 1 or 0 by the absolute values of both sides |
| `ScriptOperators.FactsMean` | libjdxld/src/expression_eval.rs:660-716 | ADDR and SIZEOF of a section give its end; of a section that is not there sizes are 0 and addresses are errors |
| `ScriptOperators.SectionsMean` | libjdxld/src/expression_eval.rs:328-338 | addresses of sections are the same wherever they are asked for, and sizes and alignments count from the section that the expression stands in |
| `ScriptOperators.RegionsMean` | libjdxld/src/expression_eval.rs:372-398 | so are the origin of a memory region and an overridden segment start, and lengths count from the section |
| `ScriptOperators.LocationMeans` | libjdxld/src/expression_eval.rs:141-175 | the location counter is the address of the start or the end of the section, or what was recorded |
| `ScriptOperators.AlignLocationMeans` | libjdxld/src/expression_eval.rs:340-357 | ALIGN of one operand is the next multiple of it from the location on, and an error for 0 |
| `ScriptOperators.SectionSymbolExactly` | libjdxld/src/expression_eval.rs:77-100 | a symbol that a script defines in a section has its address as its value exactly outside of sections, in its own section unless it is before the start of that, and in a section at 0; in any other section the base of that is added |
| `ScriptOperators.ObjectSymbolExactly` | libjdxld/src/expression_eval.rs:101-125 | a symbol of an object has its address as its value exactly unless it is used in its own section and before the start of that |
| `ScriptOperators.DefinitionIsSeen` | libjdxld/src/expression_eval.rs:612-643 | what a symbol was defined as is what an expression outside of sections sees, or one in the same section, or any one when the definition is outside of sections |
| `ScriptOperators.StartAndEndSeen` | libjdxld/src/expression_eval.rs:646-653 | seen from outside of sections, the symbols for the start and the end of a section are 0 and the size |
| `ScriptEvaluation.ValueDependsOnMentions` | libjdxld/src/expression_eval.rs:221-424 | only the symbols mentioned in an expression matter to its value |
| `ScriptEvaluation.VisitedDoesNotMatter` | libjdxld/src/expression_eval.rs:612-643 | without cycles a symbol is the same whatever symbols further up are being evaluated: the cut never fires |
| `ScriptEvaluation.EvaluationSatisfies` | libjdxld/src/expression_eval.rs:485-658 | without cycles evaluation gives values that satisfy every definition at once |
| `ScriptEvaluation.MeaningIsUnique` | libjdxld/src/expression_eval.rs:485-658 | and no other values do |
| `ScriptEvaluation.CutChangesMeaning` | libjdxld/src/expression_eval.rs:613-615 | in a ring of any number of symbols, each one more than the next, each comes out as that number, and as one less if the one before it asks: values depend on where evaluation starts and satisfy no definition |
| `Manifests.ObservationIsUnique` | jdxld/src/persistent_state.rs:236-302 | all counts follow from the inputs |
| `Manifests.OrderPlaysNoPart` | jdxld/src/persistent_state.rs:263-267 | inputs in another order give the same index, hence the same counts |
| `Manifests.GreedyIsMaximum` | jdxld/src/persistent_state.rs:286-299 | a pairing of renamed inputs that nothing can be added to is as large as any other |
| `Manifests.EveryInputCounted` | jdxld/src/persistent_state.rs:236-302 | unchanged, changed and added make up the current inputs, unchanged, changed and removed the previous ones |
| `Manifests.FastBranchAgrees` | jdxld/src/persistent_state.rs:243-262 | with the same paths in the same places the short cut gives the answer of the general branch |
| `ManifestCompare.MatchPaths` | jdxld/src/persistent_state.rs:272-285 | current inputs are split by path into unchanged, changed and new |
| `ManifestCompare.MatchContents` | jdxld/src/persistent_state.rs:286-299 | the greedy loop leaves a pairing that nothing can be added to |
| `ManifestCompare.PairedIsMost` | jdxld/src/persistent_state.rs:286-300 | what the loop leaves is a largest pairing |
| `ManifestCompare.Compare` | jdxld/src/persistent_state.rs:236-302 | with distinct paths, whichever branch is taken, an input at the same path is unchanged by its digest when both are known and by time and length otherwise, renames are as many as possible and the rest is added or removed |
| `ManifestCompare.StateDirectory.Record` | jdxld/src/persistent_state.rs:57-104 | the manifest holds the new inputs; the generation starts at 1, stays when nothing changed, and else goes up by 1 up to its limit |
| `FileOffsets.OutputLayout.UpdateFileOffset` | libjdxld/src/compression.rs:475-525 | refused exactly when a segment would move; otherwise every section of the order is placed at its aligned running offset and others stay |
| `FileOffsets.MovesExactly` | libjdxld/src/compression.rs:484-497 | no segment moves exactly when each segment that is started has the running offset, where it starts, as its file offset |
| `FileOffsets.StartsExist` | libjdxld/src/compression.rs:484-487 | each segment in turn is started by the first event that does behind the start of the one before it |
| `FileOffsets.RangesInOrder` | libjdxld/src/compression.rs:494-520 | sections are aligned and come in order without overlap |
| `FileOffsets.PartsTile` | libjdxld/src/compression.rs:510-514 | the parts of a section tile its range |
| `FileSplit.SplitOutputIntoSections` | libjdxld/src/file_writer.rs:354-396 | succeeds exactly when sorted allocations go forward within the file; each padding has its bytes, and each allocation too when ids are distinct |
| `FileSplit.SplitExactly` | libjdxld/src/file_writer.rs:354-396 | splitting succeeds exactly when no two ranges overlap and all end within the file |
| `FileSplit.PiecesTile` | libjdxld/src/file_writer.rs:375-394 | padding and sections tile the start of the file |
| `FileSplit.SplitSucceeds` | libjdxld/src/file_writer.rs:354-396 | after the offsets were updated, with every section once in the order, a file of the final size can be split |
| `FileSplit.PlaceAndSplit` | libjdxld/src/file_writer.rs:354-396 | updating the offsets and splitting the file, with every section once in the order: refused only when a segment would move, and then every section gets exactly the bytes of its updated range |
| `GnuProperties.FileBitsSet` | libjdxld/src/elf.rs:4386-4397 | within a file a bit is set exactly when some note of the type sets it |
| `GnuProperties.AllBitsSet` | libjdxld/src/elf.rs:4398-4410 | across files a bit of an And type stays exactly when all files that have the type set it, of other types when some file does |
| `GnuProperties.OrderPlaysNoPart` | libjdxld/src/elf.rs:4372-4447 | the outcome for a type does not depend on the order of the files |
| `GnuProperties.InOutputExactly` | libjdxld/src/elf.rs:4412-4444 | a type is in the output exactly when it is in all files, for And and AndOr, and some bit is left, for Or and And; its bits are those that every file sets, for And, or some file sets, and those asked for on the command line |
| `GnuProperties.MergeFile` | libjdxld/src/elf.rs:4386-4397 | a file is accepted exactly when all its types are classified |
| `GnuProperties.MergeInto` | libjdxld/src/elf.rs:4398-4410 | each type of a file is joined to what there is, in whatever order they come |
| `GnuProperties.OutputProperties` | libjdxld/src/elf.rs:4421-4444 | types come out in ascending order, each once, without those that are not kept |
| `GnuProperties.MergeGnuPropertyNotes` | libjdxld/src/elf.rs:4372-4447 | the output is, for every type, what its class calls for over all files and the command line |

## Left out

- RelrTable.TableWriter.WriteSection: sections with relaxation deltas are not modelled; places are section address plus offset.
- EhFrameLayout.ObjectLayoutState.ProcessEhFrame: the requests that relocations make of other symbols are not modelled.
- EhFrameSizes.SizesAgreeExactly: frame sizes are kept as 32-bit numbers for each frame, as in the source, and totals are unbounded.
- EhFrameWriter.FrameWriter.ApplyRelocations: the bytes that a relocation patches in are an uninterpreted function; only their place and number matter.
- EhFrameAgreement.LayoutThenWrite: the end marker that the epilogue adds to .eh_frame and the fixed part of .eh_frame_hdr are not modelled.
- GnuHash.WriteGnuHashTables: hash values are given with the definitions, and the arrays have the lengths that the layout calls for; the bytes of the header, the split of the buffer and the hash functions of the object crate are not part of this model.
- GnuHash.EveryDefinitionIsFound: the sort is any permutation in bucket order; ties by name do not matter to the table.
- PhdrsBuilder.BuildCustomOutputOrder: script expressions are given evaluated; location counters, secondary sections, flags that unnamed sections add to their segment and the limit on segment numbers are not modelled.
- PhdrsBuilder.FindSpans: where no LOAD segment can only be read, which one takes the read-only sections follows the function of the source, and no claim is made but that it is in use.
- RiscvRelax.CollectRelaxationDeltas: the margin that decides whether a section is scanned again is not modelled, and addresses do not wrap around.
- RiscvPasses.AlignedExactly: padding of 2^32 bytes or more, and padding that an earlier pass has already cut, are not claimed to be aligned.
- RelaxDeltas.SectionRelaxDeltas.InputToOutputOffset: strictly inside a cut the result may be negative, where the source wraps around.
- GotPltWriter.TableWriter.ProcessResolution: tables are counted in entries, assertions of debug builds are not modelled, and a word that does not fit a 32-bit class is not an error.
- GotPltAgreement.WordMeansSymbol: GOT_RELR words count as moved by the bitmap, which `RelrGot.GotIsRun` is about.
- GotPltMeaning.OnlyOwnCount: the two blocks of words are taken to lie apart; relocations that other sections have are not modelled.
- GotTlsMeaning.OffsetLeadsInAll: an undefined variable, of value 0, has the word 0 and no place; what the loader knows is a parameter, with executables as module 1 and their block at a fixed distance from the thread pointer.
- EhFrameOutput.RegularIsPlain: CIEs shorter than 8 bytes, or with a relocation in their length or id field, are not claimed to be read back.
- RiscvArch.ParsedArchOk: text is bytes; the replacement of bytes that are not UTF-8 is not modelled.
- ScriptSymbols.Value: bitwise operations are an open parameter, the text of error messages is not compared with the source, and sums that overflow 64 bits wrap around or stay unbounded.
- ScriptOperators.BinaryMeans: operands are numbers of 64 bits, and shifts and bitwise operators are the open parameter.
- ScriptEvaluation.EarlyEvaluator.EvaluateInternalSymbol: symbols of input objects and the layout that they come from are given.
- ManifestCompare.Compare: counts are claimed for distinct paths; with repeated paths only the generation and the empty case are.
- ManifestCompare.StateDirectory.Record: the digest of the link structure is given, and reading and writing the file does not fail.
- FileOffsets.OutputLayout.UpdateFileOffset: the merged layouts of sections that share a primary section are not modelled.
- FileSplit.SplitOutputIntoSections: the primary section that padding belongs to is not modelled.
- GnuProperties.MergeGnuPropertyNotes: a word of property data is the set of its bits, and the classes of an architecture are given as a table.
- Relocation values and instruction patterns of each architecture, which are long case lists.
- Merging of RISC-V attributes, symbol tables, dynamic entries and version tables, which would add easy members.
- Parallel execution, file systems, compression and digests: loops run in sequence and contents are opaque.
