# OpenFAST input, output and checkpoint formats: a verified model

OpenFAST is a wind-turbine simulation code. This project models the parts of its repository in
which data is written in one place and read back in another, or rewritten in place, and proves that
the two sides fit together, or exactly when they do.

| files | what they model |
|---|---|
| `RegStream`, `RegFile`, `RegWriting`, `RegReading`, `RegRoundTrip`, `RegShapes`, `RegDamaged`, `RegReuse`, `RegClient` | the registry checkpoint: the run-time library that the generator `modules/nwtc-library/ModRegGen.py` emits |
| `ExtPtfm`, `ExtPtfmNotes`, with `Text` | printers and parsers of the ExtPtfm superelement, connection and forcing files, character by character |
| `MoorDyn`, `MoorDynTitles`, `MoorDynChannels`, `MoorDynRoundTrip`, `MoorDynRows`, `MoorDynText`, `MoorDynLines`, `MoorDynOptions` | printer and parser of the mooring file |
| `VarTree`, `Update`, `UpdateRepeat`, `Outlist`, `OutlistFile`, `Prune`, `PruneKeys` | nested dictionaries: `update`, the channel flags and their section in the input files, the removal of unused modules |
| `BinaryOutput`, `BinaryValues` | the decoder of the binary output formats 1 to 4 |
| `StringPeriods`, `OutputVars`, `OutputLines` | the shortest period of a string; the two passes that generate the channel dictionaries |

`Wrappers` holds the option and result types and the mapping of a sequence.

Code that changes state step by step is modelled by classes and methods with loops
(`RegFiles.RegFile`, `Update.Writer`, `Outlist.ChannelFlags`, `Prune.Model`,
`BinaryOutput.OutputFile`, and the reading loops). Each method is proved equal to a function of the
old state, and the properties are lemmas about those functions.

## Where code and intention differ

The registry runtime is modelled as emitted and as its parts presuppose it.
`RegStream.Variant` names the choice: `EMITTED` is the text of the generator, `REPAIRED` also fills
the pointer slot after an allocation and gives a shared view its full extent.

- The emitted `UnpackPtr` never stores the new address in slot `PtrIdx`
  (`modules/nwtc-library/ModRegGen.py:518-528`), although it looks the slot up (lines 270 and 506).
  The code the registry emits for derived types does store it
  (`modules/openfast-registry/src/registry_gen_fortran.cpp:956`).
  `RegRoundTrip.EmittedReaderInStepExactly`, `RegRoundTrip.EmittedRunsOnExactly` and
  `RegRoundTrip.EmittedBreaksSharing` say what follows, `RegReuse.SharedScalarLost` gives an input.
- A shared array gets extent `UB - LB` (line 513), one short. `RegRoundTrip.CheckpointRestored` and
  `RegRoundTrip.ShortViewLosesElements` say exactly which values survive that.
- `InitRegFile` keeps a table of any size (line 102), and `int(1.5*n)` exceeds `n` only from 2 on:
  `RegWriting.OverflowExactly`, and `RegReuse.OverflowAfterReading` for how such a table comes about.
- The MoorDyn reader stores the optional line-type columns by their number, so a lone second or third
  column comes back as the first, and with two of them nothing is stored:
  `MoorDynRoundTrip.ExtrasStored`, `MoorDynRoundTrip.MisalignedColumns`.
- A comment in the MoorDyn reader says that its channel loop stops at a rule and at END. The code tests
  one character against a rule of three, so only END stops it (`openfast_io/openfast_io/FAST_reader.py:3593`):
  `MoorDynChannels.ChannelsEndExactly`, `MoorDynChannels.RuleIsChannel`, and
  `MoorDynChannels.DocumentedExactly` for when this makes no difference. On a line with quotes the pattern
  finds the empty text.
- `removeDeactivatedModules` lists the key `read_ExtPtfm`, so no choice of `CompSub` removes `ExtPtfm`:
  `Prune.ExtPtfmKept`, `Prune.ReadExtPtfmExactly`, `Prune.LeftoverStays`.
- An `update` without settings takes the string keys left by the last one for tuples of letters:
  `UpdateRepeat.RepeatExactly` says when it succeeds nevertheless, `UpdateRepeat.RepeatFails` gives an input.

## Model

| member | source | states |
|---|---|---|
| `RegFiles.RegFile.InitRegFile` | modules/nwtc-library/ModRegGen.py:70-113 | Starts a checkpoint: header -1 at the current end of the unit, counters at zero, all slots null; a table left from an earlier use keeps its size, whatever that is. The object is then the writer state machine in its initial state |
| `RegFiles.RegFile.CloseRegFile` | modules/nwtc-library/ModRegGen.py:115-145 | Writes the number of pointers over the header and nothing else; after an error the file is left as it is |
| `RegFiles.RegFile.OpenRegFile` | modules/nwtc-library/ModRegGen.py:147-182 | Puts the object in the initial reader state for the header found: counter zero, as many null slots as the header says, reading position behind it; a refused table is an error behind which the program stops |
| `RegFiles.RegFile.RegPack` | modules/nwtc-library/ModRegGen.py:325-341 | One numbered record is appended, as the writer state machine says; nothing happens after an error |
| `RegFiles.RegFile.RegPackBounds` | modules/nwtc-library/ModRegGen.py:273-285 | Lower and upper bounds as two records |
| `RegFiles.RegFile.FindPointer` | modules/nwtc-library/ModRegGen.py:224-231 | The search loop returns the 1-based index of the first occurrence, or 0 exactly when the address was never registered |
| `RegFiles.RegFile.GrowTable` | modules/nwtc-library/ModRegGen.py:236-248 | A full table is replaced by one of int(1.5*n) slots with the old prefix and nulls behind it; a refused allocation leaves no table and an error |
| `RegFiles.RegFile.AppendPointer` | modules/nwtc-library/ModRegGen.py:250-252 | The address goes to the next slot; with no slot left the program stops |
| `RegFiles.RegFile.RegPackPointer` | modules/nwtc-library/ModRegGen.py:212-256 | `Found` holds exactly when the address was packed before; state and file change as the writer state machine says |
| `RegFiles.RegFile.RegPackAlloc` | modules/nwtc-library/ModRegGen.py:362-385 | The imperative routine equals the writer step for an allocatable: flag, then bounds and data only when allocated |
| `RegFiles.RegFile.RegPackPtr` | modules/nwtc-library/ModRegGen.py:432-462 | The imperative routine equals the writer step for a pointer: flag, bounds, index, and data only at first sight |
| `RegFiles.RegFile.DataNumValid` | modules/nwtc-library/ModRegGen.py:301-321 | Counts, compares the record number, and sets the error exactly when it differs |
| `RegFiles.RegFile.RegUnpack` | modules/nwtc-library/ModRegGen.py:344-360 | Equals the reader step: number check, then the cells asked for; nothing moves after an error |
| `RegFiles.RegFile.RegUnpackBounds` | modules/nwtc-library/ModRegGen.py:287-299 | Equals the reader step for two bound records |
| `RegFiles.RegFile.RegUnpackAlloc` | modules/nwtc-library/ModRegGen.py:388-429 | Equals the reader step for an allocatable |
| `RegFiles.RegFile.RegUnpackPointer` | modules/nwtc-library/ModRegGen.py:258-271 | Equals the reader step: index record, then the slot of that index |
| `RegFiles.RegFile.AllocateTarget` | modules/nwtc-library/ModRegGen.py:518-528 | Allocates and reads a new target; the variant says whether the slot is filled, which the emitted text never does |
| `RegFiles.RegFile.RegUnpackPtr` | modules/nwtc-library/ModRegGen.py:464-529 | Equals the reader step for a pointer, in the emitted and in the repaired variant |
| `RegWriting.FirstUsesExact` | modules/nwtc-library/ModRegGen.py:224-252 | The list of first uses holds no null, no address twice, and exactly the addresses that were packed |
| `RegWriting.PackItemNumbers` | modules/nwtc-library/ModRegGen.py:325-462 | Each call, whatever the allocator answers, keeps the file a list of numbered records, and appends exactly the records of its item |
| `RegWriting.NumbersAreConsecutive` | modules/nwtc-library/ModRegGen.py:325-341 | In every run the record numbers written since initialisation are 1 to NumData, with and without errors |
| `RegWriting.GrowthMakesRoom` | modules/nwtc-library/ModRegGen.py:236-248 | A growth step keeps the table and makes room exactly when there are at least two slots |
| `RegWriting.CallFailsExactly` | modules/nwtc-library/ModRegGen.py:236-248 | A call sets an error if and only if a new address finds the table full and the larger one is refused |
| `RegWriting.RunFailsExactly` | modules/nwtc-library/ModRegGen.py:236-248 | A run ends with an error if and only if that happens at some call of it |
| `RegWriting.TableIsFirstUses` | modules/nwtc-library/ModRegGen.py:212-256 | In every running state the table is the list of first uses and fits the capacity; from two slots on no run overflows; an error has a refused allocation behind it; from the fresh size all growth steps of a run with k pointers copy at most 4*k slots |
| `RegWriting.OverflowExactly` | modules/nwtc-library/ModRegGen.py:101-109 | With any table size kept by InitRegFile: the run is stopped exactly when there are fewer than two slots and more distinct pointers than slots |
| `RegWriting.FileIsFramedRecords` | modules/nwtc-library/ModRegGen.py:325-462 | An error-free file is, record by record, the records of its calls in order, numbered from 1 |
| `RegWriting.ErrorFreeRun` | modules/nwtc-library/ModRegGen.py:236-248 | A run that ends without an error, whatever the allocator answered, is the run in which no allocation is refused, so that what is said of that one holds of every error-free run |
| `RegWriting.WriteErrorIsFinal` | modules/nwtc-library/ModRegGen.py:126-130 | Once an error is set no pack call moves the file, the counter or the table |
| `RegWriting.HeaderTellsCompletion` | modules/nwtc-library/ModRegGen.py:126-133 | After close the header is the number of distinct pointers if no error occurred, and -1 exactly if one did |
| `RegWriting.IndexWithinHeader` | modules/nwtc-library/ModRegGen.py:251-255 | After an error-free run the index record of every pointer lies in 1 to the header and names its address by first use, so the lookup of the reader is in range |
| `RegReading.RecordRead` | modules/nwtc-library/ModRegGen.py:325-360 | One record: an aligned reader returns the packed cells and stays aligned |
| `RegReading.CallStep` | modules/nwtc-library/ModRegGen.py:344-529 | One call of any kind, away from an unfilled repeat: the value comes back and reader and writer stay in step |
| `RegRoundTrip.StaysInStep` | modules/nwtc-library/ModRegGen.py:325-529 | Any run that is not stopped, all calls up to k: values as expected and exactly the written records consumed, for the emitted text up to the first repeat and for the repaired text always |
| `RegReading.RepeatReadsPastRecord` | modules/nwtc-library/ModRegGen.py:504-528 | Emitted text: at a repeated address the reader goes on to read a target behind the records of the matching call, and is left running exactly when as many cells are left |
| `RegRoundTrip.EmittedReaderInStepExactly` | modules/nwtc-library/ModRegGen.py:518-528 | Emitted text: every call consumes exactly the matching records if and only if no address is packed twice |
| `RegRoundTrip.EmittedRunsOnExactly` | modules/nwtc-library/ModRegGen.py:504-528 | Emitted text, any run: behind the first repeat the reader is still running if and only if a number and as many cells as the repeated target lie between the records of that call and the end of the file |
| `RegRoundTrip.EmittedRepeatGoesUnnoticed` | modules/nwtc-library/ModRegGen.py:301-321 | Emitted text: when the next record is long enough, the number check passes at the first repeat and the cells of that record are returned as the target |
| `RegRoundTrip.EmittedBreaksSharing` | modules/nwtc-library/ModRegGen.py:518-528 | Emitted text: a repeat that is read without a stop gets an address different from that of every pointer before it, also of those to the same target |
| `RegRoundTrip.CheckpointRestored` | modules/nwtc-library/ModRegGen.py:464-529 | With slots stored: no error, the whole file consumed, and value k matches if and only if it is not a repeat or its shared view keeps its shape and lies within the first target. With the extent of line 513 the shape is kept exactly by scalars and arrays empty in every dimension; with the full extent always |
| `RegRoundTrip.RepairedRestores` | modules/nwtc-library/ModRegGen.py:504-528 | With the repaired text: value k comes back if and only if it is no repeat or its shared view lies within the block written at the first use |
| `RegRoundTrip.SharingRestored` | modules/nwtc-library/ModRegGen.py:212-271 | With slots stored: two unpacked pointers are equal exactly when the packed ones were |
| `RegRoundTrip.EmittedRestoresWithoutRepeats` | modules/nwtc-library/ModRegGen.py:325-529 | Emitted text, no address packed twice: every value, bound and null flag comes back, no error, whole file consumed |
| `RegRoundTrip.ShortViewLosesElements` | modules/nwtc-library/ModRegGen.py:510-514 | A shared view of extent UB-LB has as many elements as the packed array exactly if that is a scalar or empty |
| `RegShapes.ExtentCounts` | modules/nwtc-library/ModRegGen.py:416-427 | An array declared LB:UB has exactly as many elements as there are index vectors between its bounds, for every rank; a scalar has one |
| `RegShapes.FilledItems` | modules/nwtc-library/ModRegGen.py:416-427 | The values the round trips are about are exactly those whose arrays hold one element for each such index vector |
| `RegShapes.ReadFilled` | modules/nwtc-library/ModRegGen.py:416-427 | On any file: an allocatable, and a new target of a pointer, is read with one element for each index vector between the bounds that were read |
| `RegShapes.RunFilled` | modules/nwtc-library/ModRegGen.py:388-429 | So is every allocatable in every run of calls |
| `RegDamaged.AcceptedNumbers` | modules/nwtc-library/ModRegGen.py:301-321 | A run of RegUnpack calls on any file: the longest run of records numbered 1, 2, 3, ... is accepted; the first other number is rejected there, and the end of the file stops the program |
| `RegDamaged.NumberedAccepted` | modules/nwtc-library/ModRegGen.py:344-360 | Records numbered 1 to k of the sizes asked for are accepted and returned |
| `RegDamaged.ItemIsRun` | modules/nwtc-library/ModRegGen.py:344-529 | Every unpack routine is such a run in position, counter and status, with sizes taken from the records read before, up to a stop at the slot lookup or a refused allocation |
| `RegDamaged.AllIsRun` | modules/nwtc-library/ModRegGen.py:344-529 | So is every sequence of unpack calls |
| `RegDamaged.RejectedAtFirstWrongNumber` | modules/nwtc-library/ModRegGen.py:301-321 | On any file and for any calls: the records read are numbered 1, 2, 3, ... and the reading is rejected at the first other number; apart from that only a refused allocation, the end of the file or an index outside the table ends it |
| `RegDamaged.ReadErrorIsFinal` | modules/nwtc-library/ModRegGen.py:352-353 | Once an error is set no unpack call moves the file or the counter, and none returns a value |
| `RegDamaged.RefusedAllocation` | modules/nwtc-library/ModRegGen.py:416-427 | A call that would have allocated a value or a target ends in an error and returns nothing when the allocation is refused; no other call asks for one |
| `RegDamaged.UnfinishedYieldsNoPointer` | modules/nwtc-library/ModRegGen.py:162-174 | After a run that ended in an error, in whatever way, no call reads a pointer other than null from the file it left |
| `RegReuse.ReuseAfterReading` | modules/nwtc-library/ModRegGen.py:101-112 | Reading a checkpoint of at most one pointer and then writing with the same object starts the writer with a table of at most one slot |
| `RegReuse.OverflowAfterReading` | modules/nwtc-library/ModRegGen.py:236-252 | Two different pointers packed into such a table stop the program |
| `RegReuse.SharedScalarLost` | modules/nwtc-library/ModRegGen.py:518-528 | An input for the emitted reader: a scalar packed twice through one pointer comes back as two, the second holding the value packed next |
| `RegClient.SaveCheckpoint` | modules/nwtc-library/ModRegGen.py:70-145 | Opening, one pack call per value and closing leave exactly the closed file of the run behind what the unit held, also when an allocation was refused on the way |
| `RegClient.LoadCheckpoint` | modules/nwtc-library/ModRegGen.py:147-182 | Opening any file and one unpack call per shape return what the reader state machine says |
| `RegClient.SaveAndLoad` | modules/nwtc-library/ModRegGen.py:70-529 | Through the object: after a save without an error, loading uses up the file and restores each value exactly under the condition on its view, with slots stored or, for the emitted text, when no address was packed twice |
| `ExtPtfm.ReadMatrix` | openfast_io/openfast_io/FAST_reader.py:2980-2985 | The row loop equals the matrix specification on the lines from iStart on, with an error for a missing line or a row of the wrong length |
| `ExtPtfm.ReadFile` | openfast_io/openfast_io/FAST_reader.py:2987-3033 | The line loop with its index jumps equals the parser on the remaining lines; one text serves the four formats |
| `ExtPtfm.RowRoundTrip` | openfast_io/openfast_io/FAST_writer.py:2440 | A printed row is read back exactly if every number but the first is shorter than the 16 columns of its field |
| `ExtPtfm.MatrixRoundTrip` | openfast_io/openfast_io/FAST_writer.py:2440 | The same for a matrix of any size, in both directions |
| `ExtPtfm.FileRoundTrip` | openfast_io/openfast_io/FAST_reader.py:2987-3040 | For any format whose titles are told apart: the printed file is read back to the same count and matrices if and only if all rows are spaced |
| `ExtPtfmNotes.NotesMakeNoDifference` | openfast_io/openfast_io/FAST_reader.py:3018-3026 | For every format and any lines read so far: inserting lines that are blank, or that start with ! and with no key, changes nothing, in front of the count line, behind it, between matrices or at the end |
| `ExtPtfmNotes.StrayRefused` | openfast_io/openfast_io/FAST_reader.py:3018-3026 | Any other line there that does not start with ! is refused |
| `ExtPtfmNotes.CommentedRoundTrip` | openfast_io/openfast_io/FAST_reader.py:2987-3040 | A printed file behind any number of comments is read back to the same count and matrices if and only if all rows are spaced |
| `ExtPtfmNotes.MatrixReadExactly` | openfast_io/openfast_io/FAST_reader.py:2980-2985 | A matrix is read if and only if there are enough lines, each with as many numbers as columns or with one; its rows are these numbers |
| `ExtPtfmNotes.TitleStores` | openfast_io/openfast_io/FAST_reader.py:2993-3017 | A title stores the matrix behind it under its own section, with as many rows and columns as the count in force calls for, and is refused when the count is too small or the matrix is not there |
| `ExtPtfmNotes.CountSet` | openfast_io/openfast_io/FAST_reader.py:3019-3022 | A line with the count key sets the count to the integer behind its first colon |
| `ExtPtfmNotes.CountRequired` | openfast_io/openfast_io/FAST_reader.py:2993-2995 | A title before a dimension of at least 1 is refused in the superelement, before a count of at least 0 in the other files |
| `ExtPtfmNotes.SuperelementKeys` | openfast_io/openfast_io/FAST_reader.py:2993-3020 | What starts the five titles and the dimension line of the superelement, in any mixture of cases |
| `ExtPtfmNotes.OtherKeys` | openfast_io/openfast_io/FAST_reader.py:3062-3074 | And those of the other three files |
| `Text.ParseIntExactly` | openfast_io/openfast_io/FAST_reader.py:3021 | The integer read is that of the digits, negative behind a minus sign, whatever white space is around them |
| `Text.ParseIntForm` | openfast_io/openfast_io/FAST_reader.py:3021 | Nothing else is read as an integer |
| `Text.SecondPartExactly` | openfast_io/openfast_io/FAST_reader.py:3021 | The text behind the first colon ends at the second |
| `Text.LowerExactly` | openfast_io/openfast_io/FAST_reader.py:2992 | Lower case, letter by letter |
| `Text.SpaceExactly` | openfast_io/openfast_io/FAST_reader.py:3023 | The white space that is stripped and split at, by code points |
| `Text.StripExactly` | openfast_io/openfast_io/FAST_output_reader.py:160 | Stripping takes off all white space at both ends and nothing else |
| `Text.SplitJoined` | openfast_io/openfast_io/FAST_reader.py:3599 | Splitting at a separator gives parts free of it, which joined give the text again |
| `ExtPtfm.SuperelementRoundTrip` | openfast_io/openfast_io/FAST_writer.py:2433-2454 | For every dimension from 1 on and all five matrices, in both directions; success includes that no line index leaves the file |
| `ExtPtfm.ConnectionsRoundTrip` | openfast_io/openfast_io/FAST_reader.py:3045-3094 | The same for the connection file |
| `ExtPtfm.ForcingRoundTrip` | openfast_io/openfast_io/FAST_writer.py:2498-2532 | The same for the user and the connection forcing files |
| `VarTree.SameProbes` | openfast_io/openfast_io/FAST_writer.py:77-88 | A nested dictionary is determined by what lies at each path |
| `VarTree.GraftProbe` | openfast_io/openfast_io/FAST_writer.py:174-175 | Writing at a path changes what lies at and below it and nothing else |
| `Update.Writer.AddSetting` | openfast_io/openfast_io/FAST_writer.py:124-131 | The key loop inserts the value below dictionaries made on the way; it fails, changing nothing, exactly when an earlier value blocks the way or the key is empty |
| `Update.Writer.Assemble` | openfast_io/openfast_io/FAST_writer.py:122-131 | The entry loop equals assembling the trie of all entries, and fails exactly when that does |
| `Update.Writer.LoopDict` | openfast_io/openfast_io/FAST_writer.py:106-115 | Induction over the traversal: with the branch leading to the visited node, exactly the subtree at the branch is overlaid; it fails exactly when a parent is missing |
| `Update.Writer.Apply` | openfast_io/openfast_io/FAST_writer.py:100-136 | update as a whole, with settings or without: equals overlaying the trie of the keys, and says exactly when it fails; it leaves the nested dictionary of the settings behind. Without settings the keys left by the last update are taken for tuples of letters |
| `Update.InsertExactly` | openfast_io/openfast_io/FAST_writer.py:124-132 | What lies at every path after an insertion |
| `Update.NestedExactly` | openfast_io/openfast_io/FAST_writer.py:120-132 | The trie of a key list: defined exactly when no key goes through an earlier one, and its leaves are exactly the keys not swallowed by a later prefix |
| `Update.OverlayProbe` | openfast_io/openfast_io/FAST_writer.py:106-115 | What lies at every path after overlaying a trie |
| `Update.AcceptedExactly` | openfast_io/openfast_io/FAST_writer.py:100-136 | update succeeds exactly when no key is blocked and every surviving parent path exists |
| `Update.UpdateExactly` | openfast_io/openfast_io/FAST_writer.py:100-136 | After a successful update a key path holds the given value exactly when the key survives, and every path not comparable to a key shows what it showed |
| `Update.SettingsAssembled` | openfast_io/openfast_io/FAST_writer.py:122-131 | For settings the trie the loop builds is the nested dictionary the properties speak of |
| `UpdateRepeat.AssembledShows` | openfast_io/openfast_io/FAST_writer.py:119-136 | The assembled tree shows at every path what the last entry with a key comparable to the path puts there, and nothing if there is none |
| `UpdateRepeat.AssembledExactly` | openfast_io/openfast_io/FAST_writer.py:119-136 | Assembling entries whose keys may overwrite or extend each other succeeds if and only if no key is empty or passes a value put there by the entries before it |
| `UpdateRepeat.RepeatExactly` | openfast_io/openfast_io/FAST_writer.py:119-136 | An `update` without settings succeeds if and only if no spelled key is empty or passes a value put there by those before it, and every key that holds a value in the end has an inner node of the model as its parent |
| `UpdateRepeat.RepeatNeedsFirstLetters` | openfast_io/openfast_io/FAST_writer.py:119-136 | In particular it fails for keys of two letters or more unless the model has an entry for every first letter |
| `UpdateRepeat.RepeatFails` | openfast_io/openfast_io/FAST_writer.py:119-136 | An input: an update of Fst/TMax succeeds, and the same update repeated without settings fails |
| `Update.UpdateOrderIrrelevant` | openfast_io/openfast_io/FAST_writer.py:120-132 | For prefix-free keys neither success nor the result depends on the order of insertion |
| `Outlist.ChannelFlags.LoopDict` | openfast_io/openfast_io/FAST_reader.py:226-234 | The traversal with its branch sets exactly the leaves of the requested name below the branch |
| `Outlist.ChannelFlags.SetChannels` | openfast_io/openfast_io/FAST_writer.py:187-192 | The request loop equals marking for each request in turn |
| `Outlist.BlanksDropped` | openfast_io/openfast_io/FAST_reader.py:238 | Of a requested name exactly the blanks are dropped |
| `Outlist.MarkAllProbe` | openfast_io/openfast_io/FAST_reader.py:236-239 | Exactly the leaves whose own name was requested change, at any depth, and the shape stays |
| `Outlist.RequestOrderIrrelevant` | openfast_io/openfast_io/FAST_writer.py:187-192 | The result does not depend on the order of the requests, for distinct names or for one common value |
| `Outlist.TrueNames` | openfast_io/openfast_io/FAST_writer.py:141-149 | The collecting traversal returns exactly the names that are on somewhere |
| `Outlist.FlagsRestored` | openfast_io/openfast_io/FAST_reader.py:236-239 | Setting the true names in the tree with all flags off restores it if and only if no name is on in one branch and off in another |
| `OutlistFile.NextLine` | openfast_io/openfast_io/FAST_reader.py:312-314 | The blank-line loop returns the next line that is not blank, and runs forever when there is none |
| `OutlistFile.ReadLines` | openfast_io/openfast_io/FAST_reader.py:289-315 | The reading loop equals the specification, for any way of telling blank lines, END lines and channels |
| `OutlistFile.ReadOutlist` | openfast_io/openfast_io/FAST_reader.py:280-320 | And so for the way of read_outlist |
| `OutlistFile.ReadNamesExactly` | openfast_io/openfast_io/FAST_reader.py:289-315 | Reading ends if and only if a line starting with END lies ahead; it then returns the words of all non-blank lines before the first one, each cut at its first dash, and stops behind it |
| `OutlistFile.EndExactly` | openfast_io/openfast_io/FAST_reader.py:296 | A line ends the section if and only if END stands in front of it behind white space |
| `OutlistFile.ChannelsListed` | openfast_io/openfast_io/FAST_reader.py:297-306 | A line of any number of clean names, with blanks and delimiters between them and a comment behind a dash, stands for exactly these names |
| `OutlistFile.PrintedReadBack` | openfast_io/openfast_io/FAST_writer.py:536-542 | A printed section inside any file is left right behind its closing line, whatever the names are, and the names come back if and only if all of them are free of dashes, delimiters and blanks |
| `OutlistFile.OutlistRoundTrip` | openfast_io/openfast_io/FAST_reader.py:280-320 | Print and read: the names come back, and the flags are restored if and only if no name is on in one branch and off in another |
| `Prune.Model.DeleteKeys` | openfast_io/openfast_io/FileTools.py:289-291 | The deletion loop removes the listed keys at one level |
| `Prune.Model.RemoveNestedKeys` | openfast_io/openfast_io/FileTools.py:288-297 | The recursive deletion in place equals pruning, below the visited branch only |
| `Prune.PrunedProbe` | openfast_io/openfast_io/FileTools.py:288-297 | A path disappears exactly if a listed key is on it; every other path keeps its value |
| `Prune.PrunedTwice` | openfast_io/openfast_io/FileTools.py:288-297 | Idempotent, and independent of the order of the keys |
| `Prune.CollectKeys` | openfast_io/openfast_io/FileTools.py:348-361 | The two lists hold exactly the modules of active choices and of inactive choices of recognised switches |
| `Prune.RemoveDeactivatedModules` | openfast_io/openfast_io/FileTools.py:299-366 | Removes, at every depth, exactly the keys that only inactive choices of recognised switches name |
| `Prune.DeactivationExactly` | openfast_io/openfast_io/FileTools.py:363-364 | Every key of an active choice is kept; a path disappears exactly if a key on it belongs only to inactive choices |
| `PruneKeys.DeactivatedExactly` | openfast_io/openfast_io/FileTools.py:301-361 | For all settings and every key: it is removed exactly if it is a module whose switch is set to one of the choices that go without it, named key by key; no other key is removed |
| `PruneKeys.ModulesRemovedExactly` | openfast_io/openfast_io/FileTools.py:299-366 | So a path of the model is gone exactly if the key of a module switched off is on it, and shows what it showed otherwise |
| `Prune.ExtPtfmNotListed` | openfast_io/openfast_io/FileTools.py:328-332 | For all settings, ExtPtfm belongs to no choice of any switch |
| `Prune.ReadExtPtfmExactly` | openfast_io/openfast_io/FileTools.py:328-332 | The key listed in its place is removed exactly when CompSub is 0 or 1 |
| `Prune.ExtPtfmKept` | openfast_io/openfast_io/FileTools.py:348-364 | For every model and all settings ExtPtfm shows after the removal what it showed before |
| `Prune.LeftoverStays` | openfast_io/openfast_io/FileTools.py:299-366 | An input: a model with CompSub 0 and ExtPtfm data, which the removal leaves unchanged |
| `StringPeriods.RepetitionExactly` | openfast_io/openfast_io/FileTools.py:80-83 | The truncated repetition of a prefix is the string exactly if the prefix length is a period, equivalently the rest is a border |
| `StringPeriods.StrRepeats` | openfast_io/openfast_io/FileTools.py:78-83 | Returns the shortest such prefix, which leaves the longest border, and nothing exactly when there is no border |
| `OutputVars.AddAliases` | openfast_io/openfast_io/create_output_vars.py:44-49 | The alias loop adds every non-empty alias once, under the description of its row, and bumps both counters by their number |
| `OutputVars.ReadRows` | openfast_io/openfast_io/create_output_vars.py:26-52 | The row pass ends with names, headers and counter matching the list of slots in sheet order |
| `OutputVars.HeaderRead` | openfast_io/openfast_io/create_output_vars.py:51-52 | A header is stored at the slot between its neighbours |
| `OutputVars.Generate` | openfast_io/openfast_io/create_output_vars.py:26-65 | The second pass never indexes past the name list and writes one line per slot: every header, variable and alias once, in sheet order |
| `OutputVars.OwnDescription` | openfast_io/openfast_io/create_output_vars.py:39-46 | A name carries the description of the last row that lists it, which is its own when no other does |
| `OutputLines.HeaderWritten` | openfast_io/openfast_io/create_output_vars.py:51-61 | A row without a name or without a unit is written as its first cell, in the place of the row |
| `OutputLines.ChannelWritten` | openfast_io/openfast_io/create_output_vars.py:26-65 | Each name of a channel row, its own and its aliases, has a line in the place of the row, with description, convention and unit from cells 3, 4 and 5 of the last row that lists the name; characters beyond ASCII become blanks, one for one |
| `OutputLines.AliasesListed` | openfast_io/openfast_io/create_output_vars.py:44-46 | The aliases are the comma-separated parts of cell 2 that are not blank |
| `OutputLines.AliasAt` | openfast_io/openfast_io/create_output_vars.py:44-47 | In order, each without the white space around it |
| `BinaryOutput.SignedRoundTrip` | openfast_io/openfast_io/FAST_output_reader.py:126-128 | Integers of any width survive little-endian two's complement coding |
| `BinaryOutput.OutputFile.FreadItems` | openfast_io/openfast_io/FAST_output_reader.py:126-128 | Reading the bytes of n items at once and cutting them up in a loop equals reading item after item; a short file, and a negative count with anything left, is an error |
| `BinaryOutput.OutputFile.FreadBlocks` | openfast_io/openfast_io/FAST_output_reader.py:162-170 | The name loop reads one block per name |
| `BinaryOutput.OutputFile.Load` | openfast_io/openfast_io/FAST_output_reader.py:135-209 | The reading routine equals the decoder on the bytes of the file, for any bytes |
| `BinaryOutput.DecodeRecovers` | openfast_io/openfast_io/FAST_output_reader.py:135-187 | For every format 1 to 4 and all counts and lengths: decoding a laid-out file recovers all fields and consumes exactly its bytes |
| `BinaryOutput.AssembledEntry` | openfast_io/openfast_io/FAST_output_reader.py:189-208 | Entry (t, c+1) is (packed[t*NumOutChans+c] - ColOff[c]) / ColScl[c], or the raw value in format 3, entry (t, 0) is the time; as many names as columns |
| `BinaryValues.ValueDecoded` | openfast_io/openfast_io/FAST_output_reader.py:193-196 | A value stored in the compressed formats as the nearest integer to ColScl*x + ColOff of its channel is found in its place of the decoded file within 1/(2*abs(ColScl)), and the stored integer in the packed table; the integer is that of two bytes, low byte first |
| `BinaryValues.FloatDecoded` | openfast_io/openfast_io/FAST_output_reader.py:189-191 | In format 3 both tables hold the 8-byte float of that place |
| `BinaryValues.TimeDecoded` | openfast_io/openfast_io/FAST_output_reader.py:197-203 | Column 0: TimeOut1 + t*TimeIncr, or with stored times the number x for which TimeScl*x + TimeOff is the stored one |
| `BinaryValues.TextsDecoded` | openfast_io/openfast_io/FAST_output_reader.py:158-170 | Description, names and units padded with blanks come back without them, units also without their brackets |
| `BinaryValues.CutFileRejected` | openfast_io/openfast_io/FAST_output_reader.py:126-187 | No proper part of a laid-out file is decoded: wherever it is cut off, reading fails |
| `BinaryOutput.QuantisationError` | openfast_io/openfast_io/FAST_output_reader.py:195 | A value stored as the nearest integer is decoded within 1/(2*abs(ColScl)) of itself |
| `BinaryOutput.DecodingKeepsOrder` | openfast_io/openfast_io/FAST_output_reader.py:195 | Decoding keeps the order of stored values for a positive slope and reverses it for a negative one |
| `MoorDyn.NextLine` | openfast_io/openfast_io/FAST_reader.py:17-33 | The filtering loop finds the next line that is neither empty nor a comment |
| `MoorDyn.ReadPart` | openfast_io/openfast_io/FAST_reader.py:3312-3344 | The row loop of every part equals the specification: rows up to the line that ends the part, an index error at a short row, no end at the end of the file |
| `MoorDyn.ReadMoorDyn` | openfast_io/openfast_io/FAST_reader.py:3275-3609 | The dispatcher loop equals the specification on every file |
| `MoorDynLines.DispatchExactly` | openfast_io/openfast_io/FAST_reader.py:3288-3609 | Any line opens the first part, in the order of the branches, one of whose keywords its words, glued together in lower case, contain; the keywords are given one by one |
| `MoorDynLines.ContainsExactly` | openfast_io/openfast_io/FAST_reader.py:3288 | A keyword is contained exactly if the text is that keyword with something in front and behind |
| `MoorDynLines.RowAdded` | openfast_io/openfast_io/FAST_reader.py:3312-3556 | For each table, how many cells of a row are stored; a shorter row is an index error, further cells are ignored |
| `MoorDynLines.ExtrasAdded` | openfast_io/openfast_io/FAST_reader.py:3324-3335 | Of a row with 12 cells, or with more than 13, no optional column is stored |
| `MoorDynLines.TableStored` | openfast_io/openfast_io/FAST_reader.py:3293-3311 | A table read again replaces the one before and no other |
| `MoorDynLines.ControlNumbers` | openfast_io/openfast_io/FAST_reader.py:3523-3533 | The line numbers of a control row are those of all its words, separated by commas, blanks or both, without the empty ones |
| `MoorDynLines.PartKept` | openfast_io/openfast_io/FAST_reader.py:3529-3531 | Exactly the empty parts are dropped |
| `MoorDynLines.NamesListed` | openfast_io/openfast_io/FAST_reader.py:3595-3602 | A channel line stands for the texts between its commas without the blanks around them; with a quote in it, for one empty name |
| `MoorDynLines.CommentsIgnored` | openfast_io/openfast_io/FAST_reader.py:17-33 | Empty lines and comments make no difference wherever they stand in a part |
| `MoorDynOptions.OptionStored` | openfast_io/openfast_io/FAST_reader.py:3569-3584 | Every option line: the name is stored in capitals, the value in capitals without the quotes around it, letter by letter, and the words behind them, or a dash if there are none |
| `MoorDynOptions.OptionsStored` | openfast_io/openfast_io/FAST_reader.py:3567-3586 | All option lines up to a rule are stored in this way, in order |
| `MoorDynOptions.ShortOptionRaises` | openfast_io/openfast_io/FAST_reader.py:3569-3570 | A line of one word among the options is an index error |
| `MoorDynLines.HeadingsPrinted` | openfast_io/openfast_io/FAST_writer.py:2618-2790 | The rules printed above each part and at the end |
| `MoorDynLines.TablePrinted` | openfast_io/openfast_io/FAST_writer.py:2622-2770 | A table is printed below its heading and two lines; bodies, failures, controls and external loads only if there are any |
| `MoorDynTitles.HeadingDispatched` | openfast_io/openfast_io/FAST_reader.py:3288-3589 | Each printed heading sends the reader to its own part: it names that part and no part tried earlier |
| `MoorDynTitles.PreambleDispatched` | openfast_io/openfast_io/FAST_writer.py:2618-2621 | The first three printed lines are passed over; the note line names the options |
| `MoorDynRoundTrip.PreambleRead` | openfast_io/openfast_io/FAST_reader.py:3558-3567 | The options branch that the note line opens meets a rule at once and stores an empty list |
| `MoorDynRoundTrip.TablesRead` | openfast_io/openfast_io/FAST_reader.py:3293-3556 | The printed tables are visited in order, each stored in turn, and the reader ends at the rule behind them |
| `MoorDynRoundTrip.CommasSplit` | openfast_io/openfast_io/FAST_reader.py:3523-3533 | The line numbers of a control row, joined by commas, come apart again |
| `MoorDynRoundTrip.ExtrasStored` | openfast_io/openfast_io/FAST_reader.py:3324-3335 | The lists of the optional columns are restored exactly when each line type has none of them, the first, or all three |
| `MoorDynRoundTrip.MisalignedColumns` | openfast_io/openfast_io/FAST_writer.py:2637-2642 | A lone second or third optional column comes back as the first; of two optional columns nothing comes back |
| `MoorDynChannels.ChannelsRead` | openfast_io/openfast_io/FAST_reader.py:3589-3606 | The channel loop on printed names, whatever they are: it ends, and has added exactly the names that survive |
| `MoorDynChannels.ChannelsKeptExactly` | openfast_io/openfast_io/FAST_reader.py:3593-3602 | The channels are restored if and only if no name holds a comma, a quote or END or begins with a comment mark |
| `MoorDynChannels.ChannelsEndExactly` | openfast_io/openfast_io/FAST_reader.py:3591-3606 | On any lines: the channel loop ends if and only if an unfiltered line with END lies ahead, at the first such line, with the names before it |
| `MoorDynChannels.RuleIsChannel` | openfast_io/openfast_io/FAST_reader.py:3593-3602 | A rule of any length does not end the loop; it adds a channel made of dashes |
| `MoorDynChannels.DocumentedExactly` | openfast_io/openfast_io/FAST_reader.py:3593 | The loop reads what the comment beside it says if and only if every rule without END stands behind a line with END |
| `MoorDynRoundTrip.OptionsKept` | openfast_io/openfast_io/FAST_reader.py:3569-3584 | The options are restored exactly when they are in upper case, without quotes around the value, and described |
| `MoorDynRoundTrip.MoorDynRoundTrip` | openfast_io/openfast_io/FAST_writer.py:2612-2794 | Printing any model without rods and reading it: ends normally, every table is restored cell by cell, absent ones stay empty, and the optional columns, the options and the channels are restored if and only if the conditions above hold |
| `MoorDynRows.TablesRestoredExactly` | openfast_io/openfast_io/FAST_reader.py:3312-3313 | For rows of the right number of columns, and options that begin with neither a rule nor a comment mark: every table is restored if and only if no row begins with one either |
| `MoorDynRows.OptionsStoredPlain` | openfast_io/openfast_io/FAST_reader.py:3558-3586 | Behind plain tables all options are restored only if none begins with a rule or a comment mark, whatever part of the file such a line makes the reader enter |
| `MoorDynRows.ModelRestoredExactly` | openfast_io/openfast_io/FAST_writer.py:2612-2794 | For rows of the right number of columns: a printed model without rods is read back as it was, with all tables, optional columns, options and channels, if and only if no row and no option begins with a rule or a comment mark, the options are of the form the reader keeps, the optional columns are aligned and the names are those of channels |
| `MoorDynText.FileTextSplit` | openfast_io/openfast_io/FAST_writer.py:2629-2644 | The text of padded cells, whatever their width and alignment, comes apart into the lines and words that were printed |
| `MoorDynText.TextRoundTrip` | openfast_io/openfast_io/FAST_writer.py:2612-2794 | The round trip for the printed text |
| `MoorDynText.TextRestoredExactly` | openfast_io/openfast_io/FAST_writer.py:2612-2794 | The same if and only if for the text: a printed model is read back as it was exactly when it is of that form |

## Left out

Of the registry checkpoint:

- One cell of the model is one stored scalar; byte widths, kinds and the text of error messages are not modelled, so a misread cell is any integer.
- RegRoundTrip.EmittedRunsOnExactly: compares lengths in cells, where the source counts bytes of different kinds.
- RegRoundTrip.EmittedRepeatGoesUnnoticed: is the case of a next record that is long enough, and compares lengths in cells, too.
- RegFiles.RegFile.OpenRegFile: the assignment to a table whose allocation was refused is undefined in Fortran and taken to stop the program.
- RegFiles.RegFile.AppendPointer: a store behind the end of the table is undefined in Fortran and taken to stop the program.
- RegFiles.RegFile.RegUnpackPointer: a lookup outside the table is undefined in Fortran and taken to stop the program. After a number check that fails at the index record the source still indexes the table, with an undefined `Idx` (`modules/nwtc-library/ModRegGen.py:267-270`); the model returns before the lookup.
- RegFiles.RegFile.RegUnpackPtr: inherits this.
- RegDamaged.RejectedAtFirstWrongNumber: counts a wrong number at an index record as a rejection, although that lookup follows it in the source.
- Record counters and table sizes are unbounded, and 1.5*n is exact; the source uses 64-bit counters and double precision.
- New targets get addresses in order of allocation, apart from those in use; `deallocate` of an old target before unpacking is not modelled.
- Each pack call is taken to name the first element of a contiguous block; strided pointer targets are not part of the model.
- A refused allocation is a boolean parameter of each call. A failed write of data, which the emitted code does not check, is not modelled; a read past the end of the file stops the program.
- After an error some output arguments are undefined in Fortran (`Found`, `Idx`); the methods return a fixed value there.

Of the text formats:

- Numbers are opaque words: decimal formatting, float parsing and its errors are not modelled, except that counts are parsed and printed as decimals. Cells whose parts are joined by a vertical bar or a comma are one word, except the line numbers of a control row.
- Lines end at the newline character only; Python also splits at other separators. Upper and lower case are those of the letters A to Z, and white space that of the first 256 characters.
- Of numpy, a row of one number fills the whole row, as in the source; other shapes are an error.
- MoorDyn.ReadMoorDyn: lines are given by their words, so a run of blanks inside a channel line counts as one blank; it starts from a reader that has read no mooring file before, and the WATERKIN and stiffness files it names are not read.
- MoorDynRoundTrip.MoorDynRoundTrip: rods, the WATERKIN file and nonlinear stiffness files are not printed or read, since printer and reader do not correspond there; the two lines below each heading are arbitrary. Rows and options that begin with a rule or a comment mark are the subject of MoorDynRows.ModelRestoredExactly.
- Outlist.TrueNames: `get_outlist` sorts the names and repeats one that is on in several branches; the round trip is proved for every order and number of repetitions, so neither is modelled. The ElastoDyn nodal section, printed from another module than it is read into, is left out.
- `read_outlist_freeForm` shares the loop of `read_outlist` and then sets flags by name at one level; only the loop is modelled.

Of the dictionaries and the generator:

- Settings whose values are themselves dictionaries are not modelled in Update.
- Update.Writer.Apply: when a step fails the source has written part of the settings; the model says when it fails and leaves the partly written model tree open.
- `cleanup_fstvt` and the parameter of it that hides the function `removeDeactivatedModules` are not modelled.
- OutputVars.Generate: the layout of a written line and the index kept in the metadata are not modelled; an alias shares the description by value.
- `select_cases`, the case matrix functions and the file comparison helpers.

Of the binary output:

- What real number a stored float stands for is a parameter, and arithmetic is over the reals; rounding, infinities and the behaviour of numpy for a zero slope are one non-finite value.
- BinaryOutput.OutputFile.Load: negative counts, which numpy partly treats as wildcards in `reshape`, end in an error.
- The text and linearization readers.

The straight-line readers and writers of the other OpenFAST modules, the post-processing and build scripts.
