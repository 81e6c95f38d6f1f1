# A Dafny model of the dos-actors integrated telescope model

dos-actors is an actor framework for the integrated model of a segmented
telescope. Actors exchange data through typed inputs and outputs. Each
actor wraps a client: a controller, a FEM state space, an optical sensor,
a wind-load player or a logger. This project models the pieces of that
code base that decide *what goes where*. Those pieces are the following.

- **Actor wiring.**
  - Output channel capacities, and the input and output rate checks.
  - The bootstrap and run rate loops.
  - DSL rate matching and client deduplication.
  - Type-name trimming and the flowchart colour map.
- **Vector shaping.**
  - Left/right split and merge.
  - The M1 segment dispatch and the M1 mode-to-force converter.
  - The M2 ASM preprocessor masks.
  - The sign conventions of the FSM piezo stacks and the M2 positioners.
- **Calibration bookkeeping.**
  - Calibration modes, masks and block assembly.
  - Reconstructor cross-talks.
  - DFS frame chopping.
  - Pyramid data filtering and estimate padding.
  - M2 calibration data sources.
- **Time series and state machines.**
  - The `Signals`, `Source` and `Concat` clients.
  - Arrow logger decimation.
  - Zero- and first-order-hold wind loads and their ping-pong extension.
  - The dome-seeing counter and interpolation.
  - Scope quantiles.
- **FEM bookkeeping.**
  - The frequency histogram and model-reduction filter of the inspection tool.
  - The discrete state-space builder: inputs and outputs, modal properties, range assignment and truncation.

Every source file is one Dafny module, and the modules are named after the
program's own types. `Common` holds the shared option and result types,
counting, sums and chunking. `Sorting` is a stable insertion sort by key,
used where the program calls `sort_by`.

How the Rust code is carried over:

- Clients that mutate themselves are immutable datatypes. Each step is a
  pure function from the old state to the new state and its output.
- `f64` is `real`, and Rust's `usize` is `nat`. Where the source's integer
  width matters (a shift, a capacity cap), it is written out.
- Where the source panics (an `assert!`, an out-of-range index, an
  `unwrap` on `None`, a `drain` past the end), the model has a
  precondition. A few preconditions have other reasons, each named under
  "Left out": an `f64` division by zero, whose infinity or NaN has no
  `real`; or a restriction of the model itself, such as distinct client
  names in a chain. One panic has no precondition: the empty selection
  of `AsmPreprocessor.Kij`, also named there.
- Where the source returns an error or `None`, the model returns a
  `Result` or an `Option` with the same cases.
- Values the program reads from files, the clock or a foreign library are
  parameters of the model.

## Model

| member | source | states |
|---|---|---|
| Actors.NewBuilder | src/lib.rs:273-280 | `ActorOutputBuilder::new(n)` asks for `n` receivers, each a channel of capacity 1, not bootstrapped |
| Actors.Unbounded | src/lib.rs:307-316 | `unbounded` keeps the number of channels and the bootstrap flag and lifts every capacity to `usize::MAX` |
| Actors.Bootstrap | src/lib.rs:317-325 | `bootstrap` sets the flag and leaves the capacities alone |
| Actors.Multiplex | src/lib.rs:326-334 | `multiplex(n)` gives `n` channels, all with the first channel's capacity; a builder with no channel panics |
| Actors.UnboundedMultiplexCommute | src/lib.rs:307-334 | the builder settings commute: unbounded after multiplex equals multiplex after unbounded, and likewise for bootstrap |
| Actors.Build | src/lib.rs:335-360 | one sender per capacity, unbounded exactly when the capacity is `usize::MAX` and bounded by it otherwise; the receivers match the senders in number |
| Actors.BuildUnbounded | src/lib.rs:345-350 | once the builder is unbounded, every channel it builds is unbounded |
| Actors.NewActor | src/actor/core.rs:117-124 | a new actor has neither inputs nor outputs |
| Actors.AddOutput | src/lib.rs:356-366 | building appends the output to the actor's outputs (creating the list when absent) and adds as many senders to `n_outputs` as the builder has channels |
| Actors.IntoInput | src/lib.rs:170-178 | `into_input` pops the last receiver, if there is one, and appends an input to the reader; with none left the reader is unchanged |
| Actors.Confirm | src/lib.rs:179-185 | `confirm` succeeds exactly when no receiver is left, and otherwise fails with `OrphanOutput` naming the actor |
| Actors.HandOut | src/lib.rs:170-178 | feeding `k` readers in turn leaves `n - k` receivers (none once `k >= n`); the first `n` readers each gain one input and the rest are untouched |
| Actors.MultiplexConfirm | src/lib.rs:170-185 | an output multiplexed `n` times is confirmed exactly when it was fed into at least `n` actors |
| Actors.CheckInputs | src/actor/core.rs:237-243 | inputs are accepted exactly when present inputs go with a positive input rate and absent ones with a zero rate; each mismatch has its own error |
| Actors.CheckOutputs | src/actor/core.rs:244-250 | the same rule for outputs against the output rate |
| Actors.InputsHashes | src/actor/core.rs:251-261 | one hash per input, in order, as many as `n_inputs` counts |
| Actors.OutputsHashes | src/actor/core.rs:254-269 | each output's hash repeated once per sender, output after output: the senders of output `k` come right after those of the outputs before it and all carry its hash, as many hashes in all as `n_outputs` counts senders |
| Actors.RepeatHashesPlaced | src/actor/core.rs:262-268 | the `flat_map` of `vec![hash; len]` puts output `k`'s hash at exactly the places of its senders, after the senders of the outputs before it |
| Actors.BootstrapRounds | src/actor/core.rs:154-178 | without outputs nothing is sent; once when `NO >= NI`; otherwise `NI / NO` rounds, the integer quotient |
| Actors.RunCycle | src/actor/core.rs:204-236 | the loop body of each wiring: an initiator updates and sends, a terminator only updates, an actor with neither does not loop |
| Actors.CheckedCanRun | src/actor/core.rs:154-250 | an actor that passes both checks never divides by a zero rate in its bootstrap or its run loop |
| Actors.RunCycleDecimation | src/actor/core.rs:207-213 | with `NO = k * NI` the actor updates `k` times per send |
| Actors.RunCycleUpsampling | src/actor/core.rs:214-221 | with `NI = k * NO` (`k > 1`) the actor sends `k` times per update |
| ArrowLogger.NewBuilder | clients/arrow/src/arrow.rs:34-45 | a new builder has no entry, saves to the default file and keeps every sample (decimation 1) |
| ArrowLogger.Capacity | clients/arrow/src/arrow.rs:54-59 | a buffer reserves one sample per kept step plus one; past 1 GiB the reservation is cut to the most values of that width 1 GiB holds |
| ArrowLogger.BuilderEntry | clients/arrow/src/arrow.rs:48-70 | `entry` appends one empty buffer with that reservation and the sample size, counts one more entry and leaves the rest alone |
| ArrowLogger.Build | clients/arrow/src/arrow.rs:101-119 | the built logger starts at step 0 with nothing counted and carries over the builder's buffers, sizes, entries, decimation and drop option |
| ArrowLogger.Entry | clients/arrow/src/arrow.rs:181-193 | `Arrow::entry` registers a buffer exactly as the builder does, changing nothing else |
| ArrowLogger.EntryCommutesWithBuild | clients/arrow/src/arrow.rs:48-193 | registering on the builder then building equals building then registering on the logger |
| ArrowLogger.Size | clients/arrow/src/arrow.rs:171-173 | `size` is the number of whole rounds of `n_entry` reads so far |
| ArrowLogger.PctComplete | clients/arrow/src/arrow.rs:168-170 | `pct_complete` is the number of whole `n_step` blocks in `size`: dividing by `n_step` then `n_entry` is dividing by `n_entry` then `n_step` |
| ArrowLogger.FindBuffer | clients/arrow/src/arrow.rs:159-167 | the first buffer registered for the identifier, or none when no buffer is |
| ArrowLogger.Round | clients/arrow/src/lib.rs:382 | the round of a step is `1 + floor(step / n_entry)`, at least 1 |
| ArrowLogger.Read | clients/arrow/src/lib.rs:381-398 | the step always advances; a datum of a kept round is appended to its buffer, if any, and counted; a save is asked for when the count reaches a multiple of `n_entry * batch_size`; no other buffer changes |
| ArrowLogger.ReadAll | clients/arrow/src/lib.rs:381-398 | a run of reads advances the step once per read and keeps the buffers, their identifiers and the settings |
| ArrowLogger.ReadAllLogs | clients/arrow/src/lib.rs:381-398 | after a run of reads, a registered signal's log is its old log followed, in order, by exactly the data of its reads in kept rounds, and the counter has grown by the number of kept reads of registered signals |
| ArrowLogger.ReadAllLogged | clients/arrow/src/lib.rs:381-398 | the log half of `ReadAllLogs`, by induction on the run |
| ArrowLogger.ReadLogged | clients/arrow/src/lib.rs:381-398 | one read appends its datum to the log of `id` exactly when it is kept and meant for `id` |
| ArrowLogger.ReadAllCount | clients/arrow/src/lib.rs:389 | the count half of `ReadAllLogs` |
| ArrowLogger.KeptRoundsCount | clients/arrow/src/lib.rs:382-387 | decimating rounds `1..=n` by `d` keeps `n / d` of them, never more than the `1 + n_step / decimation` samples the buffer reserves |
| ArrowLogger.Offsets | clients/arrow/src/lib.rs:206 | the list offsets run `0, n, 2n, …` over `n_step + 1` entries, each `n` past the one before |
| ArrowLogger.ListItems | clients/arrow/src/lib.rs:200-217 | a buffer cut at `n + 1` offsets gives `n` list items |
| ArrowLogger.ListItemsAt | clients/arrow/src/lib.rs:200-217 | list item `k` is exactly the stretch of the buffer from offset `k` up to offset `k + 1` |
| ArrowLogger.ListItemsPartition | clients/arrow/src/lib.rs:200-217 | list items cut at non-decreasing offsets, laid end to end, give back the buffer, one item per pair of offsets |
| ArrowLogger.OffsetsCutSamples | clients/arrow/src/lib.rs:200-217 | a buffer of `n_step` samples of `n` values is cut into `n_step` list items that together are the buffer |
| ArrowLogger.WordSuffix | clients/arrow/src/lib.rs:182 | the longest run of `\w` characters at the end of a string, and nothing before it is a word character |
| ArrowLogger.DigitSuffix | clients/arrow/src/lib.rs:182 | the longest run of digits at the end of a string |
| ArrowLogger.Who | clients/arrow/src/lib.rs:180-193 | the rendered name is never longer than the type name, and unless it is the name itself it is a non-empty run of word characters and `#` |
| ArrowLogger.WhoPlain | clients/arrow/src/lib.rs:180-193 | a type name ending in a word renders as that word |
| ArrowLogger.WhoIndexed | clients/arrow/src/lib.rs:180-193 | a type name ending in `Word<digits>` renders as `Word#digits` |
| ArrowLogger.WhoNoMatch | clients/arrow/src/lib.rs:180-193 | a name the expression does not match is returned whole |
| ArrowLogger.WhoExample | clients/arrow/src/lib.rs:180-193 | `gmt::Data<3>` renders as `Data#3` and `gmt::Data` as `Data` |
| AsmPreprocessor.NodesBy | clients/m2-ctrl/src/asm/preprocessor.rs:143-152 | one flag per `(x, y)` pair, set exactly when the pair's radius satisfies the region's predicate |
| AsmPreprocessor.NodesByCons | clients/m2-ctrl/src/asm/preprocessor.rs:147-151 | the first pair's flag followed by the flags of the remaining pairs |
| AsmPreprocessor.RegionsPartition | clients/m2-ctrl/src/asm/preprocessor.rs:127-129 | no radius is in two regions, and only a radius of exactly 0.21 m or 0.28 m is in none |
| AsmPreprocessor.MasksDisjoint | clients/m2-ctrl/src/asm/preprocessor.rs:127-129 | the three masks of a node list never flag the same coil twice |
| AsmPreprocessor.Vcm | clients/m2-ctrl/src/asm/preprocessor.rs:251-272 | the masked vector has one entry per set mask flag, the masked entries in order |
| AsmPreprocessor.VcmOfLongVector | clients/m2-ctrl/src/asm/preprocessor.rs:261-272 | for a vector at least as long as the mask, the masked vector is exactly the masked entries |
| AsmPreprocessor.MatVec | clients/m2-ctrl/src/asm/preprocessor.rs:178 | each entry of `A · x` is a row's dot product with `x` |
| AsmPreprocessor.Add | clients/m2-ctrl/src/asm/preprocessor.rs:178 | `A·p1 + B·p2` adds entry by entry |
| AsmPreprocessor.New | clients/m2-ctrl/src/asm/preprocessor.rs:122-139 | a new preprocessor holds the outer-ring, middle-ring and inner-disk masks of the nodes and 675 zero positions, with nothing read yet |
| AsmPreprocessor.InnerPositions | clients/m2-ctrl/src/asm/preprocessor.rs:190-195 | `p3` has one entry per row of `A` |
| AsmPreprocessor.Mul | clients/m2-ctrl/src/asm/preprocessor.rs:187-207 | without matrices the product is empty; with them it has the command's length and differs from the command only on the inner coils |
| AsmPreprocessor.MulFillsInner | clients/m2-ctrl/src/asm/preprocessor.rs:196-201 | when `A` has one row per inner coil, the inner coils of the product are `p3`, in order |
| AsmPreprocessor.Apply | clients/m2-ctrl/src/asm/preprocessor.rs:173-185 | `apply` leaves the vector alone without matrices and otherwise gives what `mul` gives |
| AsmPreprocessor.Read | clients/m2-ctrl/src/asm/preprocessor.rs:223-227 | reading stores the command and changes nothing else |
| AsmPreprocessor.Update | clients/m2-ctrl/src/asm/preprocessor.rs:209-217 | update consumes the command; the positions become its product, or none when nothing was read |
| AsmPreprocessor.WriteCommand | clients/m2-ctrl/src/asm/preprocessor.rs:218-222 | the command written is the last positions computed |
| AsmPreprocessor.WriteFaceSheet | clients/m2-ctrl/src/asm/preprocessor.rs:228-238 | the face-sheet modes exist exactly when both the positions and the positions-to-modes matrix do, one per matrix row |
| AsmPreprocessor.ReadUpdateWrite | clients/m2-ctrl/src/asm/preprocessor.rs:209-227 | a command read, updated and written comes back with its inner positions recomputed; a second update with no new command writes nothing |
| AsmPreprocessor.Kij | clients/m2-ctrl/src/asm/preprocessor.rs:296-310 | the block has no more rows than the matrix or the row mask; where the source panics on an empty column or row selection, the model gives an empty block (see Left out) |
| AsmPreprocessor.SelectColumns | clients/m2-ctrl/src/asm/preprocessor.rs:298-304 | each row cut down to the masked columns |
| AsmPreprocessor.KijOrder | clients/m2-ctrl/src/asm/preprocessor.rs:296-310 | picking columns then rows gives the same block as picking rows then columns |
| AsmPreprocessor.KijShape | clients/m2-ctrl/src/asm/preprocessor.rs:296-310 | for a matrix at least as large as the masks, the block has one row per set row flag and one column per set column flag |
| CalibMatrix.Cycle | clients/crseo/src/calibration/calib.rs:186-192 | the data repeat endlessly along the mask: entry `i` of the cycled stream is data entry `i` modulo the data length, and empty data give nothing |
| CalibMatrix.MaskData | clients/crseo/src/calibration/calib.rs:186-192 | `mask` returns one value per valid entry (the area) whenever there is any data, and nothing for empty data |
| CalibMatrix.MaskDataNoWrap | clients/crseo/src/calibration/calib.rs:186-192 | when the data are at least as long as the mask, masking keeps exactly the data entries under set mask entries, in order |
| CalibMatrix.NCols | clients/crseo/src/calibration/calib.rs:211-225 | the column count is the explicit count when set, otherwise the number of calibrated rigid body motions (at most six) or the width of the calibrated mode range |
| CalibMatrix.ToI8 | clients/crseo/src/calibration/calib.rs:44-53 | the `Vec<i8>` view has half the mask's length and holds 1 exactly where the mask is set and 0 where it is not |
| CalibMatrix.ToI8CountsArea | clients/crseo/src/calibration/calib.rs:44-53 | the `Vec<i8>` view adds up to the number of valid entries in the first half of the mask |
| CalibMatrix.MatchAreas | clients/crseo/src/calibration/calib.rs:115-162 | after `match_areas` both calibrations carry the intersection of their masks, of the original mask length, their areas shrink, and nothing but matrix and mask changes |
| CalibMatrix.MatchAreasShape | clients/crseo/src/calibration/calib.rs:129-145 | a matrix of `cols` full columns keeps `cols` columns, each now as long as the intersected area |
| CalibMatrix.MatchAreasColumn | clients/crseo/src/calibration/calib.rs:129-145 | a column keeps exactly the entries whose frame position lies in the intersection of the two masks |
| CalibMatrix.MatchAreasIdempotent | clients/crseo/src/calibration/calib.rs:115-162 | matching the areas of two calibrations whose areas were already matched changes neither |
| CalibMatrix.AndPrefix | clients/crseo/src/calibration/calib.rs:386-391 | each row-mask entry is ANDed with the calibration's mask entry where that mask reaches and kept as it is past its end |
| CalibMatrix.RowMaskContent | clients/crseo/src/calibration/calib.rs:379-391 | a block row's mask entry is set iff the first mask sets it and every calibration of the row whose mask reaches it sets it |
| CalibMatrix.Block | clients/crseo/src/calibration/calib.rs:335-413 | `block` gives segment 0, the default mode, `n_mode` and `n_cols` equal to the rows' common column count, and a well-shaped matrix whose height is the sum of the block rows' heights |
| CalibMatrix.BlockRowEntries | clients/crseo/src/calibration/calib.rs:375-412 | in column-major order a single block row is its calibrations' matrices one after the other |
| CalibMatrix.BlockOneRow | clients/crseo/src/calibration/calib.rs:375-412 | `block` of one row holds the row's matrices side by side and the row's combined mask |
| CalibMatrix.DocExample | clients/crseo/src/calibration/calib.rs:92-266 | the documented Rx/Ry calibration has area 2, two columns and two rows, masks `[1..6]` to `[4, 5]` and has an all-zero `Vec<i8>` view |
| CalibMatrix.BlockSideBySide | clients/crseo/src/calibration/calib.rs:474-495 | the `block_ab` example: a 2×3 and a 2×2 calibration side by side give a 2×5 matrix holding both in turn, with mask `[true, false]` |
| CalibrationModes.RbmOn | clients/crseo/src/calibration/mode/segment.rs:54-98 | `t_xy`, `t_z`, `r_xy` and `r_z` calibrate a motion exactly when it belongs to the chosen axes and the stroke is not zero, and then with that stroke |
| CalibrationModes.ModesOf | clients/crseo/src/calibration/mode/segment.rs:112-119 | `modes(n, stroke)` calibrates all `n` modes with a non-zero stroke and is the empty mode range otherwise |
| CalibrationModes.EmptyModes | clients/crseo/src/calibration/mode/segment.rs:123-134 | `empty_modes` is recognised as empty and calibrates no mode |
| CalibrationModes.StartFrom | clients/crseo/src/calibration/mode/segment.rs:155-172 | `start_from(id)` makes mode number `id` (1-based) the first calibrated one and leaves other calibration kinds unchanged |
| CalibrationModes.EndsAt | clients/crseo/src/calibration/mode/segment.rs:174-191 | `ends_at(id)` makes `id` the last calibrated mode number and the end of the index range, leaving other kinds unchanged |
| CalibrationModes.NMode | clients/crseo/src/calibration/mode/segment.rs:193-200 | the command length: one entry per motion for RBM, the number of mirror modes for `Modes`, two for global tip-tilt |
| CalibrationModes.CalibrationNMode | clients/crseo/src/calibration/mode/segment.rs:201-216 | the number of calibrated entries: the motions carrying a stroke for RBM (never more than the command length), the indices of the mode range for `Modes` |
| CalibrationModes.RangeAsWritten | clients/crseo/src/calibration/mode/segment.rs:217-231 | as written the RBM range ends one past the motion array; the `Modes` range is as long as the calibrated modes and the tip-tilt range as the command |
| CalibrationModes.ModeRange | clients/crseo/src/calibration/mode/segment.rs:233-248 | the 1-based mode numbers: the index range shifted by one for `Modes` and tip-tilt, and `1..=6` over the motion array for RBM |
| CalibrationModes.Range | clients/crseo/src/calibration/mode/segment.rs:217-231 | the index range of the calibrated modes, with the RBM range as long as the six motions |
| CalibrationModes.RangeMatchesModeRange | clients/crseo/src/calibration/mode/segment.rs:217-248 | `range` and `mode_range` name the same modes, 0-based and 1-based, and the RBM range stays within the motion array |
| CalibrationModes.RangeAsWrittenOverruns | clients/crseo/src/calibration/mode/segment.rs:217-220 | the RBM range as written, `0..7`, reaches index 6, past the six motions, and disagrees with `mode_range` `1..=6` |
| CalibrationModes.CalibratedDofs | clients/crseo/src/calibration/mode/segment.rs:250-266 | the entries `command` iterates over, in increasing order: the motions that carry a stroke for RBM, every index of `range()` for `Modes` |
| CalibrationModes.Command | clients/crseo/src/calibration/mode/segment.rs:250-266 | `command` yields one vector per calibrated entry, in order; vector `j` has the full command length, holds the stroke of entry `j` (the motion's own stroke, or the common mode stroke) at that entry and is zero everywhere else |
| CalibrationModes.StrokeCommand | clients/crseo/src/calibration/mode/segment.rs:268-284 | `stroke_command` pairs command vector `j` with the stroke of entry `j`, the value that vector carries |
| CalibrationModes.Interval | clients/crseo/src/calibration/mode/segment.rs:225-229 | the `Modes` range `start..end` holds exactly the indices from `start` to before `end`, in increasing order |
| CalibrationModes.ExpectedColumns | clients/crseo/src/calibration/mode/segment.rs:285-316 | the merged calibration has one column per motion calibrated on either side |
| CalibrationModes.Merge | clients/crseo/src/calibration/mode/segment.rs:285-316 | merging two RBM calibrations gives the overlay of the motions (the other side wins where set) and, in motion order, the other side's column where it calibrates the motion and the own column otherwise |
| CalibrationModes.MergeCorrect | clients/crseo/src/calibration/mode/segment.rs:294-312 | the merge loop, with the column index advanced after an insertion, computes exactly that overlay and those columns |
| CalibrationModes.MergeAsWritten | clients/crseo/src/calibration/mode/segment.rs:285-316 | the merge as written, when it does not panic, still gives the overlay of the motions |
| CalibrationModes.MergeLoopOverlays | clients/crseo/src/calibration/mode/segment.rs:294-312 | with or without the index fix, a merge loop from motion `k` that does not panic keeps the motions before `k` and overlays the other side on the rest |
| CalibrationModes.MergeAsWrittenMisplacesColumns | clients/crseo/src/calibration/mode/segment.rs:306-310 | with Ty calibrated on the left and Tx, Ty on the right, the loop as written overwrites the inserted Tx column and keeps the old Ty column, where the corrected loop gives the right side's two columns |
| CalibrationModes.AsWrittenExample | clients/crseo/src/calibration/mode/segment.rs:294-312 | the loop as written turns columns `[10]` and `[20, 21]` into `[21, 10]` |
| CalibrationModes.CorrectedExample | clients/crseo/src/calibration/mode/segment.rs:285-316 | the corrected merge turns the same columns into `[20, 21]` |
| CfdLoads.NewFoh | clients/windloads/src/lib.rs:94-99 | a new first-order hold has the given rate and starts on CFD sample 0 with no fraction |
| CfdLoads.Update | clients/windloads/src/lib.rs:100-103 | `update(step)` finds the CFD sample the step falls in and the fraction `0 <= u < 1` of the way to the next, so that `(i + u)·rate` is the step |
| CfdLoads.UpdateOnSample | clients/windloads/src/lib.rs:100-103 | a step that is a multiple `k` of the rate lands on CFD sample `k` with no fraction |
| CfdLoads.Lerp | clients/windloads/src/lib.rs:108-113 | each interpolated value is `(y1 - y0)·u + y0`, over the shorter of the two samples |
| CfdLoads.Sample | clients/windloads/src/lib.rs:105-116 | `sample` gives a value exactly when CFD samples `i` and `i + 1` both exist, and then their interpolation |
| CfdLoads.SampleOnKnot | clients/windloads/src/lib.rs:105-116 | with no fraction the interpolation is CFD sample `i` itself |
| CfdLoads.SampleBetween | clients/windloads/src/lib.rs:105-116 | every interpolated value lies between the two sampled values it interpolates |
| CfdLoads.AddInto | clients/windloads/src/lib.rs:137-140 | accumulating a sample adds it entry by entry to the running sums and leaves the sums past its end untouched |
| CfdLoads.Mean | clients/windloads/src/lib.rs:134-146 | the time average has one value per load entry: entry `i` is the sum of every `n`-th value from `i`, the short tail included, divided by the number of whole samples |
| CfdLoads.FoldColumn | clients/windloads/src/lib.rs:136-140 | summing the chunks entry by entry adds, to running sum `i`, exactly the values `i`, `i + n`, `i + 2n`, … of the load vector |
| CfdLoads.DivideScale | clients/windloads/src/lib.rs:134-146 | dividing the sum of `k` copies of a sample by `k` gives back the sample |
| CfdLoads.MeanOfSteadyLoad | clients/windloads/src/lib.rs:134-146 | the time average of a load that repeats the same sample is that sample |
| CfdLoads.MeanOfSums | clients/windloads/src/lib.rs:134-146 | when the chunk sums are `k` times a sample over `k` whole chunks, the mean is the sample |
| CfdLoads.SteadySums | clients/windloads/src/lib.rs:137-142 | summing the chunks of `k` repeated samples gives `k` times the sample, entry by entry |
| CfdLoads.OssMean | clients/windloads/src/lib.rs:134-146 | `oss_mean` exists exactly when mount loads are loaded and is their `n_fm`-value time average |
| CfdLoads.M1Mean | clients/windloads/src/lib.rs:147-159 | `m1_mean` exists exactly when M1 loads are loaded and is their 42-value time average |
| CfdLoads.StopAfter | clients/windloads/src/lib.rs:160-163 | `stop_after` sets the last step and nothing else |
| CfdLoads.StartFrom | clients/windloads/src/lib.rs:164-168 | `start_from(s)` resumes at step `s + 1` with no last step, and nothing else changes |
| CfdLoads.StartStopOrder | clients/windloads/src/lib.rs:160-168 | `start_from` cancels an earlier `stop_after`, and a later `stop_after` keeps the start |
| Chain.Find | actors/dsl/src/model/flow/chain.rs:85-87 | the set lookup finds a registered client equal to the given one exactly when there is one |
| Chain.Register | actors/dsl/src/model/flow/chain.rs:85-87 | `insert` keeps the registered clients pairwise different, only adds to them, and hands back a registered client equal to the one inserted |
| Chain.Dedup | actors/dsl/src/model/flow/chain.rs:82-89 | `dedup` keeps every position of the chain with an equal client and the same output, and every client of the result is registered |
| Chain.DedupShares | actors/dsl/src/model/flow/chain.rs:82-89 | after `dedup`, two equal clients of the chain are one and the same shared client |
| Chain.StepProgress | actors/dsl/src/model/flow/chain.rs:93-147 | one turn of the loop fixes the rates and output of the current position, sets the next client's input rate, and touches nothing else |
| Chain.MatchRates | actors/dsl/src/model/flow/chain.rs:91-149 | `match_rates` leaves every client of the chain with its final input and output rates and every pair with its final output, and leaves clients outside the chain alone |
| Chain.MatchedRatesPositive | actors/dsl/src/model/flow/chain.rs:105-145 | with a positive flow rate, every client with an output gets an output rate, and every client fed by an output, without an output, or that is a sub-system gets an input rate |
| Chain.MatchedRatesKept | actors/dsl/src/model/flow/chain.rs:109-145 | a rate the script gives is never overridden |
| Chain.LinksMatched | actors/dsl/src/model/flow/chain.rs:105-117 | every link joins equal rates or carries the transition from the output rate to the input rate it feeds |
| Chain.MatchRatesIdempotent | actors/dsl/src/model/flow/chain.rs:91-149 | matching the rates of an already matched chain changes no rate and no output |
| Chain.RunStarts | actors/dsl/src/model/flow/chain.rs:175 | the positions where a run of equal options starts, the first one and each whose entry differs from the one before, in increasing order |
| Chain.DedupAdjacent | actors/dsl/src/model/flow/chain.rs:175 | `Vec::dedup` keeps exactly the first entry of each run of equal entries, in order: no two equal neighbours remain, the last entry and the set of entries are kept |
| Chain.Plain | actors/dsl/src/model/flow/chain.rs:169-184 | the output of an implicit flow keeps its name, ends its options with `unbounded`, and has no transition, scope or logging |
| Chain.ImplicitsOf | actors/dsl/src/model/flow/chain.rs:156-212 | a pair without an output gives no implicit flow |
| Chain.Implicits | actors/dsl/src/model/flow/chain.rs:151-216 | `implicits` gives one flow per scoped output and one per logged output, each coming from a pair of the chain |
| CoreClients.EmptyConcat | clients/core/src/lib.rs:134-138 | a new `Concat` has accumulated nothing |
| CoreClients.ConcatRead | clients/core/src/lib.rs:140-148 | reading appends the datum after everything accumulated so far |
| CoreClients.ConcatWrite | clients/core/src/lib.rs:149-157 | writing hands over everything accumulated and leaves the buffer empty |
| CoreClients.ConcatLosesNothing | clients/core/src/lib.rs:140-157 | over any run of reads and writes, the written vectors end to end, followed by what is still buffered, are exactly the items read, in order |
| CoreClients.SourceWrite | clients/core/src/lib.rs:172-185 | a `Source` writes nothing once empty (and stays as it is); otherwise it hands out its next `n` items and keeps the rest |
| CoreClients.SourceRun | clients/core/src/lib.rs:172-185 | `k` writes give `k` outputs |
| CoreClients.ExhaustedSourceRun | clients/core/src/lib.rs:177-179 | an exhausted source writes nothing, however often it is asked |
| CoreClients.SourceHandsOutAll | clients/core/src/lib.rs:159-185 | a source of `chunks · n` items hands out `chunks` vectors of `n` items that laid end to end are its data, and nothing after |
| CoreClients.SourceZeroNeverEnds | clients/core/src/lib.rs:177-183 | with `n = 0` a non-empty source never empties: every write hands out an empty vector |
| DfsProcessing.Skip | clients/crseo/src/processing/dispersed_fringe_sensor.rs:136-141 | `skip(k)` drops the first `k` items, or all of them when there are fewer |
| DfsProcessing.Take | clients/crseo/src/processing/dispersed_fringe_sensor.rs:136-141 | `take(k)` keeps the first `k` items, or all of them when there are fewer |
| DfsProcessing.NFftlet | clients/crseo/src/processing/dispersed_fringe_sensor.rs:129 | the FFTlet count is rounded down to whole dozens: a multiple of 12 at most the square of the FFTlets per side, and less than 12 below it |
| DfsProcessing.KeptCount | clients/crseo/src/processing/dispersed_fringe_sensor.rs:129-149 | `process` never keeps more FFTlets than the frame holds |
| DfsProcessing.KeptCountCases | clients/crseo/src/processing/dispersed_fringe_sensor.rs:129-149 | with four or more FFTlets per side `process` keeps a positive number of whole dozens; with three or fewer, where a dozen is out of reach, it keeps them all |
| DfsProcessing.Placed | clients/crseo/src/processing/dispersed_fringe_sensor.rs:133-143 | the FFTlets go down a column block first: FFTlet `j·l + i` is the one in row block `i` of column block `j` |
| DfsProcessing.ChopColumn | clients/crseo/src/processing/dispersed_fringe_sensor.rs:134-147 | the inner loop appends the FFTlets of one column block in order and stops, reporting it, as soon as the count reaches a positive `n_fftlet` |
| DfsProcessing.Process | clients/crseo/src/processing/dispersed_fringe_sensor.rs:125-153 | `process` keeps exactly the kept count of FFTlets, in column-block order, each the `q × q` block of the frame it stands for, and records `n_px_camera` |
| DfsProcessing.Signum | clients/crseo/src/processing/dispersed_fringe_sensor.rs:46 | the sign of a coordinate is ±1, +1 for a positive and −1 for a negative one |
| DfsProcessing.Pixels | clients/crseo/src/processing/dispersed_fringe_sensor.rs:40-44 | the zipped pixels are the coordinates and intensity at each index all three vectors have |
| DfsProcessing.Unzip | clients/crseo/src/processing/dispersed_fringe_sensor.rs:194 | unzipping gives three vectors as long as the pixels, holding each pixel's parts |
| DfsProcessing.ZipUnzip | clients/crseo/src/processing/dispersed_fringe_sensor.rs:194-215 | zipping an unzipped run of pixels gives the same pixels |
| DfsProcessing.Intensities | clients/crseo/src/processing/dispersed_fringe_sensor.rs:45 | the flux sums the intensity of every zipped pixel |
| DfsProcessing.Contributions | clients/crseo/src/processing/dispersed_fringe_sensor.rs:46 | each pixel adds its intensity times `y·sign(x)` to `sy` |
| DfsProcessing.Intercept | clients/crseo/src/processing/dispersed_fringe_sensor.rs:38-53 | the intercept exists exactly when the flux is positive, and times the flux it gives back `sy` |
| DfsProcessing.WeightedWithin | clients/crseo/src/processing/dispersed_fringe_sensor.rs:38-53 | over non-negative intensities with `|y|` at most `b`, `sy` stays within `b` times the flux |
| DfsProcessing.InterceptBounded | clients/crseo/src/processing/dispersed_fringe_sensor.rs:38-53 | the intercept of an FFTlet of non-negative intensities is a weighted mean of `±y` and lies within the range of `|y|` |
| DfsProcessing.MaxOf | clients/crseo/src/processing/dispersed_fringe_sensor.rs:199-202 | the brightest intensity is one of the intensities and no intensity exceeds it |
| DfsProcessing.Masked | clients/crseo/src/processing/dispersed_fringe_sensor.rs:184-197 | with a mask radius the coordinate and data pairs are kept together; without one all coordinates and all data are taken, unzipped |
| DfsProcessing.MaskedPixels | clients/crseo/src/processing/dispersed_fringe_sensor.rs:184-195 | the masked FFTlet's pixels are exactly the coordinate and data pairs outside the radius |
| DfsProcessing.MakeFftlet | clients/crseo/src/processing/dispersed_fringe_sensor.rs:176-220 | without a threshold the FFTlet is the masked one; with one, its pixels are the masked pixels brighter than the threshold times the brightest, in their order and with their repetitions |
| DfsProcessing.Brighter | clients/crseo/src/processing/dispersed_fringe_sensor.rs:204-215 | the pixels kept by the brightness filter are exactly those brighter than the cut, never more than given |
| DfsProcessing.BrighterSelects | clients/crseo/src/processing/dispersed_fringe_sensor.rs:204-215 | the pixels the filter keeps are the given pixels at some increasing positions: order is kept |
| DfsProcessing.SelectsCons | clients/crseo/src/processing/dispersed_fringe_sensor.rs:204-215 | a selection from the tail is a selection from the whole, with or without the head in front |
| DfsProcessing.CutBelowMax | clients/crseo/src/processing/dispersed_fringe_sensor.rs:199-203 | a threshold in `[0, 1)` of a positive maximum cuts below that maximum |
| DfsProcessing.KeptAboveCut | clients/crseo/src/processing/dispersed_fringe_sensor.rs:204-215 | every pixel the threshold keeps is brighter than the cut |
| DfsProcessing.BrightestKept | clients/crseo/src/processing/dispersed_fringe_sensor.rs:199-215 | the brightest masked pixel survives a cut below it |
| DfsProcessing.ThresholdKeepsLight | clients/crseo/src/processing/dispersed_fringe_sensor.rs:176-220 | with a threshold below one and some light left by the mask, every pixel kept is lit and the FFTlet has an intercept |
| DfsProcessing.New | clients/crseo/src/processing/dispersed_fringe_sensor.rs:70-80 | a new processing has no data, no intercepts, no reference, a threshold of 0.2 and a mask radius of 0.05 |
| DfsProcessing.SetReference | clients/crseo/src/processing/dispersed_fringe_sensor.rs:84-87 | `set_reference` takes the other processing's intercepts as the reference and changes nothing else |
| DfsProcessing.WithThreshold | clients/crseo/src/processing/dispersed_fringe_sensor.rs:89-94 | `threshold` sets the threshold and nothing else |
| DfsProcessing.WithMaskRadius | clients/crseo/src/processing/dispersed_fringe_sensor.rs:96-101 | `mask_radius` sets the mask radius and nothing else |
| DfsProcessing.ThresholdCuts | clients/crseo/src/processing/dispersed_fringe_sensor.rs:89-94 | after `threshold(t)` each FFTlet keeps exactly the masked pixels brighter than `t` times the brightest, in order |
| DfsProcessing.ThresholdCutsAt | clients/crseo/src/processing/dispersed_fringe_sensor.rs:89-94 | the same for one FFTlet |
| DfsProcessing.MaskRadiusDrops | clients/crseo/src/processing/dispersed_fringe_sensor.rs:96-101 | after `mask_radius(r)` no FFTlet keeps a pixel within `r` of its centre, whatever the threshold |
| DfsProcessing.ProcessInto | clients/crseo/src/processing/dispersed_fringe_sensor.rs:262-266 | reading a frame stores exactly the FFTlets `process` chops from it, in column-block order, and its `n`, and changes nothing else |
| DfsProcessing.Fftlets | clients/crseo/src/processing/dispersed_fringe_sensor.rs:247-253 | one FFTlet per chopped piece, read at the angle table entry of its index modulo 12 |
| DfsProcessing.Measure | clients/crseo/src/processing/dispersed_fringe_sensor.rs:222-244 | the intercepts less the reference, with the reference zipped so that FFTlets past its end keep theirs, and all zero when any FFTlet has no light |
| DfsProcessing.Intercepts | clients/crseo/src/processing/dispersed_fringe_sensor.rs:222-245 | `intercept` stores the measured intercepts of the FFTlets and changes nothing else |
| DfsProcessing.MeasureSelf | clients/crseo/src/processing/dispersed_fringe_sensor.rs:236-240 | FFTlets measured against their own intercepts measure zero |
| DfsProcessing.SelfReferenceZero | clients/crseo/src/processing/dispersed_fringe_sensor.rs:84-245 | taking a processing's own intercepts as the reference zeroes its intercepts |
| DfsProcessing.Write | clients/crseo/src/processing/dispersed_fringe_sensor.rs:268-272 | writing hands out the stored intercepts |
| DfsProcessing.WriteIntercepts | clients/crseo/src/processing/dispersed_fringe_sensor.rs:222-272 | after `intercept`, what is written is one value per FFTlet, its intercept less the reference when every FFTlet has light, and zeros once the processing's own intercepts are its reference |
| Dispatch.Position | clients/m1-ctrl/src/fem/assembly/dispatch.rs:89-97 | the position of a segment in the assembly is its first occurrence, and there is none for a segment outside it |
| Dispatch.IndexTable | clients/m1-ctrl/src/fem/assembly/dispatch.rs:41-47 | the position table maps each listed segment to its last position and every other segment to 0 |
| Dispatch.NewIn | clients/m1-ctrl/src/fem/assembly/dispatch.rs:32-54 | `DispatchIn::new` sizes one 6-value motion vector and one `NA[id - 1]`-value force vector per segment, all zero, with no hardpoint motions |
| Dispatch.NewInIndex | clients/m1-ctrl/src/fem/assembly/dispatch.rs:41-47 | for an assembly without repeats the position table gives every segment's position in the assembly |
| Dispatch.Slices | clients/m1-ctrl/src/fem/assembly/dispatch.rs:59-68 | cutting the input into consecutive slices of the given sizes gives slices of those sizes that laid end to end are the input's prefix |
| Dispatch.ReadRbm | clients/m1-ctrl/src/fem/assembly/dispatch.rs:59-68 | reading the assembly motions gives each segment a 6-value slice, in order, which laid end to end are the start of the input |
| Dispatch.ForceSizesAsWritten | clients/m1-ctrl/src/fem/assembly/dispatch.rs:99-110 | as written, the force slices are sized `NA[0], NA[1], …` in order, whatever segments the assembly holds |
| Dispatch.ForceSizes | clients/m1-ctrl/src/fem/assembly/dispatch.rs:32-36 | the slice of segment `k` is sized by that segment's actuator count, as `new` sized its buffer |
| Dispatch.ReadForcesAsWritten | clients/m1-ctrl/src/fem/assembly/dispatch.rs:99-110 | as written, the `k`-th force buffer is replaced by a slice of `NA[k]` values and nothing else changes |
| Dispatch.ReadForces | clients/m1-ctrl/src/fem/assembly/dispatch.rs:99-110 | reading the assembly forces gives each segment a slice of its own actuator count, in order, which laid end to end are the start of the input |
| Dispatch.CenterSegmentForces | clients/m1-ctrl/src/fem/assembly/dispatch.rs:99-110 | for an assembly of the center segment alone the read as written cuts 335 values where the segment has 306 |
| Dispatch.FullAssemblyForceSizes | clients/m1-ctrl/src/fem/assembly/dispatch.rs:99-110 | for the full assembly of segments 1 to 7 both cuts agree |
| Dispatch.WriteRbm | clients/m1-ctrl/src/fem/assembly/dispatch.rs:89-97 | a segment outside the assembly writes no motions; otherwise it writes the motions stored at its position |
| Dispatch.WriteHardpoints | clients/m1-ctrl/src/fem/assembly/dispatch.rs:131-140 | a segment outside the assembly writes no hardpoint motion; otherwise the one at its position, when there is one |
| Dispatch.RbmRoundTrip | clients/m1-ctrl/src/fem/assembly/dispatch.rs:59-97 | after reading the assembly motions, segment `sids[k]` writes the `k`-th 6-value slice |
| Dispatch.ReadSegmentForcesAsWritten | clients/m1-ctrl/src/fem/assembly/dispatch.rs:111-115 | as written, a segment's forces are stored at `id - 1` |
| Dispatch.ReadSegmentForces | clients/m1-ctrl/src/fem/assembly/dispatch.rs:111-123 | a segment's forces are stored at its position and every other segment keeps its own |
| Dispatch.WriteSegmentForces | clients/m1-ctrl/src/fem/assembly/dispatch.rs:116-123 | a segment writes the forces stored at its position |
| Dispatch.SegmentForcesRoundTrip | clients/m1-ctrl/src/fem/assembly/dispatch.rs:111-123 | with the corrected read, what a segment reads it writes, and the other segments still write theirs |
| Dispatch.SegmentForcesMisplaced | clients/m1-ctrl/src/fem/assembly/dispatch.rs:111-123 | for the assembly of segments 2 and 3, forces read for segment 2 as written are written by segment 3, while segment 2 still writes its 335 zeros |
| Dispatch.NewOut | clients/m1-ctrl/src/fem/assembly/dispatch.rs:150-155 | `DispatchOut::new` holds one empty vector per segment, for applied and hardpoint forces |
| Dispatch.ReadApplied | clients/m1-ctrl/src/fem/assembly/dispatch.rs:160-167 | a segment's applied forces are stored at its position, and ignored for a segment outside the assembly |
| Dispatch.ReadHardpointForces | clients/m1-ctrl/src/fem/assembly/dispatch.rs:174-181 | a segment's hardpoint forces are stored at its position, and ignored for a segment outside the assembly |
| Dispatch.GatherApplied | clients/m1-ctrl/src/fem/assembly/dispatch.rs:160-172 | reading every segment's applied forces in turn assembles them in assembly order, leaving the unread ones empty |
| Dispatch.WriteApplied | clients/m1-ctrl/src/fem/assembly/dispatch.rs:168-172 | writing hands out every segment's applied forces |
| Dispatch.WriteHardpointForces | clients/m1-ctrl/src/fem/assembly/dispatch.rs:182-186 | writing hands out every segment's hardpoint forces |
| Dispatch.WriteGathered | clients/m1-ctrl/src/fem/assembly/dispatch.rs:160-172 | once every segment of the assembly has sent its applied forces, the write hands them out in assembly order |
| Dispatch.ReadThenWrite | clients/m1-ctrl/src/fem/assembly/dispatch.rs:160-186 | applied or hardpoint forces a segment of the assembly sends are written at its position, every other segment's as they were, and a segment outside the assembly changes nothing |
| DomeSeeing.Period | clients/domeseeing/src/lib.rs:106-118 | one period of the counter runs up through the frame indices and back down, leaving out both ends on the way back |
| DomeSeeing.PeriodIsMirror | clients/domeseeing/src/lib.rs:106-118 | the period is the ping-pong extension of the frame indices, cut before it returns to the first frame |
| DomeSeeing.PeriodPingPong | clients/domeseeing/src/lib.rs:106-118 | the counter moves one frame forward or backward at every step, including from the end of a period to the start of the next |
| DomeSeeing.CounterAt | clients/domeseeing/src/lib.rs:106-118 | the counter yields a frame index at every step until `take` values have been used, and none at all without frames |
| DomeSeeing.CounterPeriodic | clients/domeseeing/src/lib.rs:115-117 | without `take`, the counter starts over after each period |
| DomeSeeing.New | clients/domeseeing/src/lib.rs:84-145 | `new` holds the frames sorted by time stamp (a permutation of the ones found), starts at step 0 with the whole mapping, and loads the counter's first frame, if any, as `y2` |
| DomeSeeing.WithMasked | clients/domeseeing/src/lib.rs:146-149 | `masked` selects the masked mapping and changes nothing else |
| DomeSeeing.Get | clients/domeseeing/src/lib.rs:153-162 | `get` gives the frame at an index that exists and `OutOfBounds` with that index otherwise |
| DomeSeeing.CounterInBounds | clients/domeseeing/src/lib.rs:106-170 | the counter never asks for a frame that is not there |
| DomeSeeing.Advance | clients/domeseeing/src/lib.rs:167-184 | on a frame boundary the frames move down and the next one is loaded, or the series ends; then the values are interpolated between the two frames at the step's weight |
| DomeSeeing.Alpha | clients/domeseeing/src/lib.rs:177 | the interpolation weight is in `[0, 1)` |
| DomeSeeing.AlphaOnFrame | clients/domeseeing/src/lib.rs:177 | on a frame boundary the weight is zero |
| DomeSeeing.WholeOpd | clients/domeseeing/src/lib.rs:187-192 | the whole OPD is zero outside the mask and as long as the mask |
| DomeSeeing.WholeOpdSelect | clients/domeseeing/src/lib.rs:187-192 | read back inside the mask, the whole OPD gives the interpolated values when they fill the mask |
| DomeSeeing.Output | clients/domeseeing/src/lib.rs:185-196 | the masked mapping hands out the interpolated values as they are, the whole one scatters them into the frame's mask |
| DomeSeeing.Next | clients/domeseeing/src/lib.rs:167-199 | as written, `next` hands out the values interpolated between the two current frames, as the mapping shapes them; the whole mapping moves to the next step and the masked one stays at the same step; the series ends when a frame boundary finds the counter exhausted |
| DomeSeeing.MaskedSkipsInterpolation | clients/domeseeing/src/lib.rs:185-196 | as written, a masked series at `upsampling = 2` over three frames uses a new counter value at every call and never leaves step 0 |
| DomeSeeing.NextCorrected | clients/domeseeing/src/lib.rs:167-199 | with the step moved on by both mappings, every output advances the step and hands out the same values as `next` |
| DomeSeeing.MaskedInterpolatesCorrected | clients/domeseeing/src/lib.rs:167-199 | corrected, a masked series at `upsampling = 2` loads one frame per two calls, as the whole one does |
| DomeSeeing.MappingsAgree | clients/domeseeing/src/lib.rs:185-196 | corrected, the masked output is the whole output read inside the mask |
| DomeSeeing.NextOnFrame | clients/domeseeing/src/lib.rs:167-184 | on a frame boundary the output is exactly the frame just moved down |
| FemInspect.BinsTile | clients/fem/src/bin/inspect.rs:8-9 | the bins start at zero and tile the frequencies without gaps or overlaps: each bin ends where the next starts |
| FemInspect.CountIn | clients/fem/src/bin/inspect.rs:13-18 | a bin counts at most all the frequencies |
| FemInspect.CountInSplit | clients/fem/src/bin/inspect.rs:13-18 | counting over two adjacent ranges is counting over their union |
| FemInspect.HistogramFrom | clients/fem/src/bin/inspect.rs:6-22 | from bin `i` on, the histogram holds one count per bin up to the first bin that starts above `max_nu`, each the number of frequencies in its bin |
| FemInspect.Histogram | clients/fem/src/bin/inspect.rs:5-23 | `frequency_base2_histogram` has one count per bin `[0, 2)`, `[2, 4)`, `[4, 8)`, … up to the first bin starting above `max_nu`, each the number of frequencies in it |
| FemInspect.HistogramLength | clients/fem/src/bin/inspect.rs:5-23 | the histogram holds exactly the bins that start at or below `max_nu` |
| FemInspect.HistogramSmall | clients/fem/src/bin/inspect.rs:5-23 | a negative `max_nu` gives no bin, and one below two the single bin `[0, 2)` |
| FemInspect.BinsTotal | clients/fem/src/bin/inspect.rs:5-23 | the first `n` bins together count the frequencies in `[0, 2^n)` |
| FemInspect.HistogramTotal | clients/fem/src/bin/inspect.rs:5-23 | every frequency from zero to `max_nu` is counted in exactly one bin: the counts add up to the frequencies in a range `[0, 2^n)` that covers `max_nu` |
| FemInspect.Reduce | clients/fem/src/bin/inspect.rs:35-44 | the reduced model keeps exactly the modes at or below the lower bound (zero when unset) and those whose Hankel singular value exceeds the threshold times the largest, and no more modes than there are |
| FemInspect.DisjointFilters | clients/fem/src/bin/inspect.rs:35-44 | two filters that never keep the same mode keep no more modes between them than there are |
| FemInspect.ReduceKeepsLowModesFirst | clients/fem/src/bin/inspect.rs:35-44 | the reduced model lists its low-frequency modes first, in order, and only modes above the lower bound after them |
| FemInspect.Frequencies | clients/fem/src/bin/inspect.rs:46-53 | the histogram of the reduced model is taken over the frequencies of its modes, in order |
| FemInspect.LimitIsPow2 | clients/fem/src/bin/inspect.rs:8-9 | the 32-bit shifts compute the bin bounds exactly up to the bin starting at `2^29` |
| FemInspect.BelowLimit | clients/fem/src/bin/inspect.rs:8-10 | below that limit the bins end before the shift overflows: a bin starting at or below `max_nu` is one of the first 29 |
| FsmController.KindOf | clients/m2-ctrl/src/fsm/controller.rs:24-31 | segment 7 takes the centre tuning and no other segment does; the others take the tuning of their parity |
| FsmController.SharedTuning | clients/m2-ctrl/src/fsm/controller.rs:10-31 | two segments share a controller tuning exactly when they are the same segment or two outer segments of the same parity |
| FsmController.New | clients/m2-ctrl/src/fsm/controller.rs:97-104 | a fresh segment controller has the tuning of its segment, its controller in the initial state, and zero forces, strokes and command, three of each |
| FsmController.Errors | clients/m2-ctrl/src/fsm/controller.rs:33-53 | the controller is fed the three stroke errors, command less measured stroke |
| FsmController.Update | clients/m2-ctrl/src/fsm/controller.rs:108-118 | an update steps the controller from its state on the stroke errors: the controller moves to its next state, the first three forces become its outputs, and nothing else changes |
| FsmController.UpdateAtRest | clients/m2-ctrl/src/fsm/controller.rs:108-118 | when the strokes follow the command the controller is stepped on a zero error |
| FsmController.ReadNodes | clients/m2-ctrl/src/fsm/controller.rs:126-130 | each stroke is the displacement of the second node of its pair less that of the first, and nothing else changes |
| FsmController.ReadCommand | clients/m2-ctrl/src/fsm/controller.rs:136-140 | reading a command replaces the command and nothing else |
| FsmController.WriteForces | clients/m2-ctrl/src/fsm/controller.rs:147-157 | the forces always come out, two per piezostack: `-f` on its first node and `f` on its second |
| FsmController.ForcesReadBack | clients/m2-ctrl/src/fsm/controller.rs:126-157 | forces and strokes pair the nodes the same way: written forces read back as nodes give twice each force, and split back into the opposite pairs |
| FsmController.SizesAgree | clients/m2-ctrl/src/fsm/controller.rs:121-146 | the declared sizes agree with the data: six forces out, six node displacements making the three strokes the three-entry command is compared with |
| FsmController.CycleErrors | clients/m2-ctrl/src/fsm/controller.rs:108-140 | in one cycle, after the six node displacements and the command are read, the controller is stepped on command less stroke for each piezostack, which is zero when the strokes follow the command |
| Graph.NewColorMap | actors/src/graph.rs:23-29 | a new colour map knows no rate and hands out the palette `1..=8` in order |
| Graph.Get | actors/src/graph.rs:30-36 | a rate met before keeps its colour and changes nothing; a new rate takes the front colour, which moves to the back of the palette |
| Graph.GetValid | actors/src/graph.rs:30-36 | asking for a colour keeps the map's palette a rotation of `1..=8` turned once per rate known, and the colour is always one of the eight; a new rate takes colour `known % 8 + 1` |
| Graph.GetRotated | actors/src/graph.rs:30-36 | a new rate turns the palette once more and takes the colour at the current offset |
| Graph.GetIdempotent | actors/src/graph.rs:30-36 | asking twice for the same rate gives the same colour and leaves the map as the first ask did |
| Graph.Colors | actors/src/graph.rs:150-175 | colouring a run of edges gives one colour per edge and keeps the palette's size |
| Graph.ColorsLookup | actors/src/graph.rs:30-36 | colouring a run of edges keeps every colour given before and records for each edge's rate the colour that edge got |
| Graph.SameRateSameColor | actors/src/graph.rs:150-175 | edges of the same rate get the same colour anywhere in the chart |
| Graph.DistinctRatesCycle | actors/src/graph.rs:30-36 | distinct new rates take the palette's colours in turn, from the current offset, repeating only every eight rates |
| Graph.ShiftColors | actors/src/graph.rs:30-36 | the colour at offset `n` followed by the colours from offset `n + 1` are the colours from offset `n` |
| Graph.ColorsStep | actors/src/graph.rs:150-175 | the first edge of a run is coloured by one lookup, the rest from the map that lookup leaves |
| Graph.FreshColors | actors/src/graph.rs:23-36 | from a fresh map the `i`-th distinct rate gets colour `i % 8 + 1` |
| Graph.NewColorMapEmpty | actors/src/graph.rs:23-29 | a fresh colour map is consistent: empty, with the palette unturned |
| Graph.EmptyMapColors | actors/src/graph.rs:23-36 | from any consistent empty map the `i`-th distinct rate gets colour `i % 8 + 1` |
| Graph.NewGraph | actors/src/graph.rs:136-149 | the chart keeps its name and every actor, in order, with its client name trimmed and its rates untouched |
| Graph.NewGraphPlain | actors/src/graph.rs:136-149 | charted client names hold no module path, and charting a chart again changes nothing |
| LeftRight.SplitAt | clients/interface/src/clients/leftright.rs:110-121 | a plain splitter cuts once, at `i` |
| LeftRight.SplitChunksAt | clients/interface/src/clients/leftright.rs:128-139 | a chunked splitter cuts every `n`-long chunk at `i` |
| LeftRight.MergerOf | clients/interface/src/clients/leftright.rs:143-236 | the merger made from a splitter, or built with it, cuts at the same place with the same chunk size |
| LeftRight.WriteLeft | clients/interface/src/clients/leftright.rs:269-288 | the left part is the first `i` entries, or the first `i` of every chunk, so `i` entries per chunk |
| LeftRight.WriteRight | clients/interface/src/clients/leftright.rs:290-309 | the right part is everything from `i` on; together the two parts hold as many entries as the data |
| LeftRight.ChunkedMerge | clients/interface/src/clients/leftright.rs:341-350 | merging chunk by chunk never produces more than the two parts hold |
| LeftRight.Merge | clients/interface/src/clients/leftright.rs:333-359 | the plain merger writes the left part followed by the right part |
| LeftRight.ChunkedLeftLength | clients/interface/src/clients/leftright.rs:277-281 | the chunked left part holds `i` entries per chunk |
| LeftRight.LongerThanIsAtLeast | clients/interface/src/clients/leftright.rs:279-301 | a last chunk longer than `i` can be cut at `i` |
| LeftRight.ChunkedLengths | clients/interface/src/clients/leftright.rs:277-302 | the chunked left and right parts together hold as many entries as the data |
| LeftRight.ChunkedLeftContent | clients/interface/src/clients/leftright.rs:277-281 | entry `j` of chunk `k` of the left part is entry `j` of chunk `k` of the data |
| LeftRight.ChunkedRightContent | clients/interface/src/clients/leftright.rs:298-302 | entry `j` of chunk `k` of the right part is entry `i + j` of chunk `k` of the data |
| LeftRight.ChunkOffsets | clients/interface/src/clients/leftright.rs:277-302 | the positions of a chunk's entries past the first chunk are shifted by one chunk |
| LeftRight.AppendIndex | clients/interface/src/clients/leftright.rs:345-349 | an entry of the second part of a concatenation sits after the first part |
| LeftRight.ChunkedRoundTrip | clients/interface/src/clients/leftright.rs:269-359 | merging the two parts a chunked splitter wrote gives the data back whenever its last chunk is longer than `i` |
| LeftRight.RoundTripStep | clients/interface/src/clients/leftright.rs:269-359 | the chunked round trip goes through whenever it does past the first chunk |
| LeftRight.FullChunk | clients/interface/src/clients/leftright.rs:277-302 | a full leading chunk gives each side its own part of that chunk, followed by the side of the rest |
| LeftRight.MergeLastChunk | clients/interface/src/clients/leftright.rs:341-350 | a last pair of chunks merges into its left part followed by its right part |
| LeftRight.MergeFullChunk | clients/interface/src/clients/leftright.rs:341-350 | a full leading pair of chunks merges into its left chunk, its right chunk, then the merge of the rest |
| LeftRight.SplitMergeRoundTrip | clients/interface/src/clients/leftright.rs:4-72 | splitting data and merging the two parts with the merger made from the splitter gives the data back: always for a plain split, and for a chunked one whenever the last chunk is longer than `i` |
| LeftRight.MergeDropsShortTail | clients/interface/src/clients/leftright.rs:341-350 | the merge's `zip` loses a last chunk of exactly `i` entries: `[1, 2, 3, 4]` in chunks of 3 cut at 1 merges back to `[1, 2, 3]` |
| LeftRight.PlainExample | clients/interface/src/clients/leftright.rs:8-39 | `[1, 2, 3, 4, 5]` cut at 2 splits into `[1, 2]` and `[3, 4, 5]`, which merge back |
| LeftRight.ChunkedExample | clients/interface/src/clients/leftright.rs:41-72 | `[1, 2, 3]` four times, in chunks of 3 cut at 1, splits into `[1, 1, 1, 1]` and `[2, 3, 2, 3, 2, 3, 2, 3]`, which merge back |
| LeftRight.ChunkCons | clients/interface/src/clients/leftright.rs:277-302 | a whole chunk in front of the data puts its two sides in front of the data's two sides |
| LeftRight.ChunkedRepeat | clients/interface/src/clients/leftright.rs:277-302 | `k` copies of one chunk split into `k` copies of each of its sides |
| LeftRight.FlattenRepeatStep | clients/interface/src/clients/leftright.rs:57 | `k` copies of a chunk are one copy followed by `k - 1` copies |
| LeftRight.ExampleLeft | clients/interface/src/clients/leftright.rs:62-63 | the left part of the repeated example is `[1]` four times |
| LeftRight.ExampleRight | clients/interface/src/clients/leftright.rs:64-65 | the right part of the repeated example is `[2, 3]` four times |
| LeftRight.ExampleData | clients/interface/src/clients/leftright.rs:57 | `[1, 2, 3]` repeated four times is the example's twelve entries |
| LeftRight.FlattenRepeat4 | clients/interface/src/clients/leftright.rs:57 | four copies of a chunk are the chunk written out four times |
| M2Calibration.FromPath | clients/m2-ctrl/src/calibration.rs:28-32 | a path names a binary data source |
| M2Calibration.FromVar | clients/m2-ctrl/src/calibration.rs:33-40 | a file and a variable name name one MAT-file variable |
| M2Calibration.FromVars | clients/m2-ctrl/src/calibration.rs:41-47 | a file and variable names name a MAT-file with several variables |
| M2Calibration.Block | clients/m2-ctrl/src/calibration.rs:69-101 | the leading `r × c` block holds the matrix's entries at those positions |
| M2Calibration.Rows | clients/m2-ctrl/src/calibration.rs:86-92 | taking the first `r` rows keeps the column count |
| M2Calibration.Columns | clients/m2-ctrl/src/calibration.rs:87-96 | taking the first `c` columns keeps the row count |
| M2Calibration.Load | clients/m2-ctrl/src/calibration.rs:69-101 | a MAT-file variable loads at the requested size, each missing size being the stored one; it fails with both sizes exactly when more rows or columns are asked for than stored, and passes a read failure on |
| M2Calibration.BlockWhole | clients/m2-ctrl/src/calibration.rs:96-98 | the leading block of the full size is the whole matrix |
| M2Calibration.LoadIsBlock | clients/m2-ctrl/src/calibration.rs:77-98 | whichever of its four branches a successful load takes, it returns the leading block of the requested size |
| M2Calibration.LoadIdempotent | clients/m2-ctrl/src/calibration.rs:77-98 | a load without sizes returns the stored matrix, and loading the loaded block again at the same sizes returns it unchanged |
| M2Calibration.StiffnessKindRoundTrip | clients/m2-ctrl/src/calibration.rs:106-118 | the stiffness kind is parsed from exactly its name: parsing a kind's name gives the kind, and naming a parsed name gives the name |
| M2Calibration.Transpose | clients/m2-ctrl/src/calibration.rs:327-332 | the transposed modes swap rows and columns |
| M2Calibration.TransposeTwice | clients/m2-ctrl/src/calibration.rs:327-332 | transposing twice gives the modes back |
| M2Calibration.ColumnMajor | clients/m2-ctrl/src/calibration.rs:62-66 | a matrix turned into a vector keeps all its entries |
| M2Calibration.NewSegment | clients/m2-ctrl/src/calibration.rs:135-197 | a segment calibration fails with the modes' load error when they cannot be loaded at actuators × modes, and then with the stiffness error (the FEM computation's, or the stored variable's); on success it has its id, mode and actuator counts, the loaded modes, no transposed modes yet, and as stiffness the FEM's result or the whole stored variable in column-major order |
| M2Calibration.TransposeModes | clients/m2-ctrl/src/calibration.rs:327-332 | every segment gets transposed modes and nothing else changes; a segment that already has them keeps them |
| M2Calibration.TransposeModesIdempotent | clients/m2-ctrl/src/calibration.rs:327-332 | transposing the modes twice is transposing them once, and a consistent calibration stays consistent |
| M2Calibration.Sids | clients/m2-ctrl/src/calibration.rs:319-320 | without a list of segments all seven are meant, in order |
| M2Calibration.Modes | clients/m2-ctrl/src/calibration.rs:319-325 | the modes of the segments asked for, in the order asked, segment `s` at index `s - 1` |
| M2Calibration.ModesT | clients/m2-ctrl/src/calibration.rs:334-340 | the transposed modes come out exactly when every segment asked for has them |
| M2Calibration.ModesTAfterTranspose | clients/m2-ctrl/src/calibration.rs:319-340 | after `transpose_modes` the transposed modes are there for every segment asked for, and are the transposes of its modes |
| M2Calibration.Stiffness | clients/m2-ctrl/src/calibration.rs:341-343 | the stiffness of segment `sid` is the one stored at index `sid - 1` |
| M2Calibration.BuildFrom | clients/m2-ctrl/src/calibration.rs:224-241 | the segments from `sid` to seven are built in order, segment `s` from the `s`-th variable of the MAT-file, until one fails |
| M2Calibration.Build | clients/m2-ctrl/src/calibration.rs:217-244 | building needs a MAT-file source and fails otherwise; a built calibration holds the seven segments in order, each with actuators × modes modes and no transposed modes |
| M2Calibration.BuiltCalibrationComplete | clients/m2-ctrl/src/calibration.rs:217-340 | a built calibration answers `modes_t` for all seven segments only after `transpose_modes` |
| M2Calibration.SevenUntransposed | clients/m2-ctrl/src/calibration.rs:327-340 | seven consistent segments without transposed modes have none to give until they are transposed |
| ModeToForce.New | src/clients/m1.rs:105-121 | the converter fails exactly when its matrix cannot be loaded; otherwise it holds the loaded column-major matrix, zero modes, no range and no forces |
| ModeToForce.NInputMode | src/clients/m1.rs:123-128 | segment `S` takes the `n` modes after the `n (S - 1)` of the segments before it, and nothing else changes |
| ModeToForce.Read | src/clients/m1.rs:142-156 | the modes are overwritten, as far as both go, from the segment's slice of the command, or the whole command without a range; the rest of the converter is unchanged |
| ModeToForce.Update | src/clients/m1.rs:130-134 | an update sets one force per actuator, each its matrix row against the modes |
| ModeToForce.Write | src/clients/m1.rs:135-141 | nothing is written before the first update, then the last forces |
| ModeToForce.WriteAfterUpdate | src/clients/m1.rs:105-141 | a new converter writes nothing; after an update it writes one zero force per actuator |
| ModeToForce.ReadsOwnSegment | src/clients/m1.rs:123-156 | with `n` input modes the converter's modes become exactly the segment's block of the command |
| ModeToForce.ReadsBlock | src/clients/m1.rs:123-156 | when every segment's `n` modes are laid one after the other in the command, segment `S` reads the `S`-th block |
| ModeToForce.ReadTwice | src/clients/m1.rs:142-156 | reading the same command twice is reading it once, and without a range a command as long as the modes replaces them all |
| ModeToForce.RowDotZero | src/clients/m1.rs:132 | zero modes give zero force on every actuator |
| ModeToForce.FlattenBlock | src/clients/m1.rs:125 | in a command of equal blocks laid one after the other, block `k` takes entries `n k` to `n (k + 1)` |
| Positioner.Strokes | clients/m2-ctrl/src/positioner.rs:99 | the strokes the rigid body motions call for: one per positioner, each its row of the transform against the motions |
| Positioner.New | clients/m2-ctrl/src/positioner.rs:28-35 | 42 positioners in their initial state with the given transform, no motion, and 84 node displacements at zero |
| Positioner.Update | clients/m2-ctrl/src/positioner.rs:97-113 | each positioner with a measured stroke is fed the error between the stroke the motions call for and the measured one, and stepped from its own state to its next state and output; the rest keep their state, and the transform, motions and strokes are unchanged |
| Positioner.FreshUpdateAtRest | clients/m2-ctrl/src/positioner.rs:28-35 | a fresh set of positioners feeds every positioner a zero error and steps each from the initial state |
| Positioner.ReadRbm | clients/m2-ctrl/src/positioner.rs:115-119 | reading the 42 rigid body motions replaces them and nothing else |
| Positioner.ReadNodes | clients/m2-ctrl/src/positioner.rs:121-125 | each stroke is the displacement of the first node of its pair less that of the second, and nothing else changes |
| Positioner.WriteForces | clients/m2-ctrl/src/positioner.rs:127-138 | the forces always come out, two per positioner: its output `u` on the first node and `-u` on the second |
| Positioner.ForcesReadBack | clients/m2-ctrl/src/positioner.rs:121-138 | forces and strokes pair the nodes the same way: written forces read back as nodes give twice each output |
| Positioner.UpdateTracking | clients/m2-ctrl/src/positioner.rs:97-125 | once 84 node displacements are read every positioner is fed its error, and the errors are all zero when the strokes match what the motions call for |
| Positioner.DotZero | clients/m2-ctrl/src/positioner.rs:99 | zero motions call for zero strokes |
| Positioner.RbmDrivesUpdate | clients/m2-ctrl/src/positioner.rs:97-119 | after the motions are read, the next update feeds each positioner the stroke its row of the transform calls for less its measured stroke, zero when they match |
| PyramidCalibrator.MatVec | clients/crseo/src/pyramid/calibrating.rs:454 | the product of a matrix and a vector has one entry per row, each the row against the vector |
| PyramidCalibrator.MatVecZero | clients/crseo/src/pyramid/calibrating.rs:454 | a matrix maps the zero vector to zero |
| PyramidCalibrator.Cycle | clients/crseo/src/pyramid/calibrating.rs:187 | the cycled H filter repeats the filter over as many slopes as there are, and is empty for an empty filter |
| PyramidCalibrator.Data | clients/crseo/src/pyramid/calibrating.rs:183-196 | the calibration data are the `sx` then `sy` slopes kept by the cycled H filter, followed by those kept by the P filter |
| PyramidCalibrator.HFilterBothSlopes | clients/crseo/src/pyramid/calibrating.rs:183-196 | an H filter as long as each slope vector is applied to `sx` and to `sy` alike |
| PyramidCalibrator.DataLength | clients/crseo/src/pyramid/calibrating.rs:183-196 | with a P filter no longer than the slopes, the data hold one slope per set flag of the two filters |
| PyramidCalibrator.Centred | clients/crseo/src/pyramid/calibrating.rs:443-448 | the centred slopes are the data less the calibration offset, as far as both reach |
| PyramidCalibrator.Input | clients/crseo/src/pyramid/calibrating.rs:452-483 | the H-type estimators read the first `h_matrix.nrows()` centred slopes, the P estimator the rest, and the HP estimators all of them |
| PyramidCalibrator.Raw | clients/crseo/src/pyramid/calibrating.rs:452-483 | an estimator gives one estimate per row of its matrix |
| PyramidCalibrator.InsertAt | clients/crseo/src/pyramid/calibrating.rs:457 | inserting puts the value at its index and shifts what follows by one |
| PyramidCalibrator.Pistoned | clients/crseo/src/pyramid/calibrating.rs:455-458 | the first `k` segments of an estimate, each led by its zero piston, take `k (m + 1)` entries |
| PyramidCalibrator.InsertStep | clients/crseo/src/pyramid/calibrating.rs:456-458 | inserting the zero of segment `i` at `i n` after the zeros of the segments before it extends the pistoned segments by one |
| PyramidCalibrator.InsertLast | clients/crseo/src/pyramid/calibrating.rs:456-458 | after six segments the seventh zero goes in front of the rest of the estimate |
| PyramidCalibrator.InsertedStep | clients/crseo/src/pyramid/calibrating.rs:456-458 | each pass of the loop inserts the next segment's zero at the next segment's start |
| PyramidCalibrator.InsertPistons | clients/crseo/src/pyramid/calibrating.rs:453-460 | the H0 estimate gets seven more entries: a zero leading each of the seven segments of `n` modes |
| PyramidCalibrator.Mul | clients/crseo/src/pyramid/calibrating.rs:439-490 | no estimator gives an empty estimate; the H0 estimate gets a zero piston in front of each segment, the P estimate a zero at the centre segment's piston, and the other estimators are the matrix against what they read |
| PyramidCalibrator.PistonMask | clients/crseo/src/pyramid/calibrating.rs:218-219 | the piston mask covers `k` segments of `n` modes |
| PyramidCalibrator.NonPiston | clients/crseo/src/pyramid/calibrating.rs:218-219 | the mask of the other modes covers `k` segments of `n` modes |
| PyramidCalibrator.MasksAt | clients/crseo/src/pyramid/calibrating.rs:218-219 | mode `j` is a piston exactly when `j` is a multiple of the segment size, which is where the H0 matrix drops its columns |
| PyramidCalibrator.SelectLed | clients/crseo/src/pyramid/calibrating.rs:455-458 | a segment led by its piston gives either the piston alone or the other modes alone |
| PyramidCalibrator.SelectSegment | clients/crseo/src/pyramid/calibrating.rs:455-458 | selecting over one more segment led by its piston adds that segment's selection |
| PyramidCalibrator.Pistons | clients/crseo/src/pyramid/calibrating.rs:216-228 | the pistoned estimate without its pistons is the raw estimate, and its pistons are all zero |
| PyramidCalibrator.PistonsDropped | clients/crseo/src/pyramid/calibrating.rs:216-228 | dropping the pistons, as the H0 matrix dropped their columns, gives the raw estimate back |
| PyramidCalibrator.PistonsZero | clients/crseo/src/pyramid/calibrating.rs:453-460 | every inserted piston is zero |
| PyramidCalibrator.ZeroStep | clients/crseo/src/pyramid/calibrating.rs:455-458 | one more segment led by a zero adds that zero to the pistons |
| PyramidCalibrator.H0EstimateFull | clients/crseo/src/pyramid/calibrating.rs:216-228 | for an H0 matrix with seven segments of `n - 1` modes, the estimate is the seven segments each led by a zero piston: the pistons are zero and the other modes are the raw estimate |
| PyramidCalibrator.AllSegments | clients/crseo/src/pyramid/calibrating.rs:453-460 | an estimate of seven segments of `m` modes gets a zero piston in front of each of them |
| PyramidCalibrator.PEstimateZero | clients/crseo/src/pyramid/calibrating.rs:469-474 | the P estimate's zero sits at the centre segment's piston, and without it the estimate is the raw one |
| PyramidCalibrator.OffsetEstimatesZero | clients/crseo/src/pyramid/calibrating.rs:439-490 | slopes equal to the calibration offset give a zero estimate |
| PyramidCalibrator.SetHpEstimator | clients/crseo/src/pyramid/calibrating.rs:410-422 | setting an HP estimator of the expected shape installs it and changes nothing else |
| PyramidCalibrator.HpEstimatorApplies | clients/crseo/src/pyramid/calibrating.rs:410-422 | an HP estimator that passes the shape check reads all the centred slopes and gives one estimate per H mode |
| Reconstructors.New | clients/crseo/src/calibration/algebra/reconstructor.rs:47-53 | a new reconstructor holds the calibrations, in order, with one empty pseudo-inverse slot each |
| Reconstructors.FromCalib | clients/crseo/src/calibration/algebra/reconstructor.rs:31-40 | a single calibration makes a reconstructor of that calibration alone |
| Reconstructors.Len | clients/crseo/src/calibration/algebra/reconstructor.rs:221-223 | the reconstructor has no calibration exactly when its length is zero |
| Reconstructors.LenKept | clients/crseo/src/calibration/algebra/reconstructor.rs:47-223 | the length is the number of calibrations the reconstructor was made with, and filling pseudo-inverses, matching areas and subtracting matrices keep it |
| Reconstructors.FillPinv | clients/crseo/src/calibration/algebra/reconstructor.rs:104-110 | every slot paired with a calibration holds a pseudo-inverse afterwards: the one it had, or that calibration's; nothing else changes |
| Reconstructors.FillPinvIdempotent | clients/crseo/src/calibration/algebra/reconstructor.rs:104-110 | a pseudo-inverse, once computed, is reused: filling twice is filling once |
| Reconstructors.FillPinvFresh | clients/crseo/src/calibration/algebra/reconstructor.rs:58-61 | on a fresh reconstructor every slot ends up holding its own calibration's pseudo-inverse |
| Reconstructors.SumAreaAppend | clients/crseo/src/calibration/algebra/reconstructor.rs:75-77 | the area of two lists of calibrations is the sum of their areas |
| Reconstructors.TotalAreaAdditive | clients/crseo/src/calibration/algebra/reconstructor.rs:75-77 | the area of a reconstructor made of two lists of calibrations is the sum of theirs |
| Reconstructors.MatchLists | clients/crseo/src/calibration/algebra/reconstructor.rs:81-86 | calibrations are matched pair by pair, as far as the shorter list goes; the longer list's extra calibrations are untouched |
| Reconstructors.MatchAreas | clients/crseo/src/calibration/algebra/reconstructor.rs:81-86 | after matching, each pair of calibrations shares one mask, and the pseudo-inverses are untouched |
| Reconstructors.MatchAreasIdempotent | clients/crseo/src/calibration/algebra/reconstructor.rs:81-86 | matching two matched reconstructors again changes nothing |
| Reconstructors.Hits | clients/crseo/src/calibration/algebra/reconstructor.rs:123-127 | no more calibrations use an entry than there are calibrations |
| Reconstructors.CrossTalks | clients/crseo/src/calibration/algebra/reconstructor.rs:120-129 | one count per entry of the first mask: how many calibrations use it, zero exactly when none does |
| Reconstructors.HitsZero | clients/crseo/src/calibration/algebra/reconstructor.rs:123-127 | an entry is counted zero times exactly when no calibration uses it |
| Reconstructors.HitsAtMostOne | clients/crseo/src/calibration/algebra/reconstructor.rs:123-127 | an entry is counted at most once exactly when no two calibrations use it |
| Reconstructors.NCrossTalks | clients/crseo/src/calibration/algebra/reconstructor.rs:131-133 | there are no more cross-talks than entries |
| Reconstructors.CountTrueZero | clients/crseo/src/calibration/algebra/reconstructor.rs:131-133 | nothing is counted exactly when no flag is set |
| Reconstructors.NoCrossTalkIffDisjoint | clients/crseo/src/calibration/algebra/reconstructor.rs:120-133 | there is no cross-talk exactly when the masks are pairwise disjoint |
| Reconstructors.CrossTalkEntries | clients/crseo/src/calibration/algebra/reconstructor.rs:120-133 | the cross-talks are the entries used by two calibrations or more |
| Reconstructors.NoCrossTalkDisjoint | clients/crseo/src/calibration/algebra/reconstructor.rs:120-133 | without cross-talk no two calibrations share an entry |
| Reconstructors.CrossTalkOverlap | clients/crseo/src/calibration/algebra/reconstructor.rs:120-133 | a cross-talk means two calibrations share an entry |
| Reconstructors.AddCounts | clients/crseo/src/calibration/algebra/reconstructor.rs:123-127 | adding count vectors adds them entry by entry |
| Reconstructors.SumAddCounts | clients/crseo/src/calibration/algebra/reconstructor.rs:123-127 | the total of a sum of count vectors is the sum of their totals |
| Reconstructors.Indicator | clients/crseo/src/calibration/algebra/reconstructor.rs:125 | one calibration adds one to each entry it uses and nothing elsewhere |
| Reconstructors.IndicatorSum | clients/crseo/src/calibration/algebra/reconstructor.rs:125 | one calibration adds its area to the counts |
| Reconstructors.HitVector | clients/crseo/src/calibration/algebra/reconstructor.rs:120-129 | the counts entry by entry |
| Reconstructors.HitVectorSum | clients/crseo/src/calibration/algebra/reconstructor.rs:120-129 | the counts add up to the total area when the masks are equally long |
| Reconstructors.ZeroSum | clients/crseo/src/calibration/algebra/reconstructor.rs:123-127 | counts of zero add up to zero |
| Reconstructors.CrossTalksSumToArea | clients/crseo/src/calibration/algebra/reconstructor.rs:75-129 | the cross-talk counts add up to the reconstructor's area: each valid entry is counted once per calibration that uses it |
| Reconstructors.SumRowsPrefix | clients/crseo/src/calibration/algebra/reconstructor.rs:228-229 | the leading calibrations take no more rows or columns than all of them |
| Reconstructors.Diagonal | clients/crseo/src/calibration/algebra/reconstructor.rs:227-265 | the block-diagonal matrix is as big as all the calibrations together; its mask, mode count and modes are those of the first seven calibrations one after the other, and the mode slots past the calibrations are empty |
| Reconstructors.DiagonalMatrixLength | clients/crseo/src/calibration/algebra/reconstructor.rs:231 | the block-diagonal matrix has the summed rows times the summed columns entries |
| Reconstructors.DiagonalPartsLength | clients/crseo/src/calibration/algebra/reconstructor.rs:231-255 | the placed calibrations and the zero columns after them fill the whole matrix |
| Reconstructors.PartsOfProduct | clients/crseo/src/calibration/algebra/reconstructor.rs:231 | the placed and the zero columns add up to all the columns |
| Reconstructors.PaddedColumnsLength | clients/crseo/src/calibration/algebra/reconstructor.rs:238-241 | a calibration's columns padded with zeros above and below have the full height |
| Reconstructors.PaddedColumnsStep | clients/crseo/src/calibration/algebra/reconstructor.rs:238-241 | each padded column adds the full height |
| Reconstructors.DiagonalColumnsLength | clients/crseo/src/calibration/algebra/reconstructor.rs:236-252 | the diagonal blocks take the summed columns of the full height |
| Reconstructors.UnpaddedColumns | clients/crseo/src/calibration/algebra/reconstructor.rs:238-241 | without padding, a calibration's columns are its column-major entries |
| Reconstructors.DiagonalOfOne | clients/crseo/src/calibration/algebra/reconstructor.rs:227-265 | the diagonal of a single calibration is that calibration: same entries, mask and column count |
| Reconstructors.SubAssign | clients/crseo/src/calibration/algebra/reconstructor.rs:403-411 | each calibration matrix loses the matching matrix, as far as both lists go, and nothing else about it changes; all the pseudo-inverses are dropped |
| Reconstructors.SubAssignZero | clients/crseo/src/calibration/algebra/reconstructor.rs:403-411 | subtracting zero matrices keeps the calibrations and only drops the pseudo-inverses |
| ScopeData.Floor | clients/scope/src/client/scope/signal/data.rs:93-96 | the index is the whole part of the rank `p (n + 1)` |
| ScopeData.Weight | clients/scope/src/client/scope/signal/data.rs:95 | the interpolation weight is the fractional part of the rank, in `[0, 1)` |
| ScopeData.InterpolateWithin | clients/scope/src/client/scope/signal/data.rs:97 | an interpolated quartile lies between the two values it interpolates |
| ScopeData.InterpolateMonotone | clients/scope/src/client/scope/signal/data.rs:97 | a larger weight gives a larger quartile |
| ScopeData.FloorMonotone | clients/scope/src/client/scope/signal/data.rs:92-98 | the index never decreases with `p`, and at the same index neither does the weight |
| ScopeData.QuartileOrdered | clients/scope/src/client/scope/signal/data.rs:92-98 | the quartiles of a sorted sample, by the `(n + 1) p` rule, lie within it and in the order of `p` |
| ScopeData.MedianAsWritten | clients/scope/src/client/scope/signal/data.rs:92-98 | as written, the median of `2m + 1` sorted values is the value after the middle one, `sample[m + 1]` |
| ScopeData.MedianOfOdd | clients/scope/src/client/scope/signal/data.rs:92-98 | the `(n + 1) p` rule gives the middle value of an odd sample |
| ScopeData.MedianOfNine | clients/scope/src/client/scope/signal/data.rs:92-98 | for the sample one to nine the median is five, where the code reports six |
| ScopeData.AsWrittenNeedsEight | clients/scope/src/client/scope/signal/data.rs:92-98 | as written, the upper quartile indexes past the sample unless it has at least eight values |
| ScopeData.RuleNeedsFour | clients/scope/src/client/scope/signal/data.rs:92-98 | the `(n + 1) p` rule is defined for all three quartiles exactly from four values on |
| ScopeData.Statistics | clients/scope/src/client/scope/signal/data.rs:68-90 | minimum and maximum are the ends of the sorted sample; each whisker sits 1.5 interquartile ranges beyond its quartile, clamped to the sample's range |
| ScopeData.NewAsWritten | clients/scope/src/client/scope/signal/data.rs:65-98 | `Quantiles::new` as written: from eight values on, the box plot of the sorted data whose extremes are its ends and whose quartiles are those of the 0-based rule as written, with whiskers clamped to the extremes |
| ScopeData.NewOrdered | clients/scope/src/client/scope/signal/data.rs:65-91 | with the quartile rule proper, the box plot is in order from minimum to maximum, and its minimum and maximum are data values that bound all the data |
| ScopeData.SortedExtremes | clients/scope/src/client/scope/signal/data.rs:66-69 | the ends of the sorted sample are data values that bound all the data |
| ScopeData.SortedEnds | clients/scope/src/client/scope/signal/data.rs:66-69 | any sorted rearrangement of the data has the data's extremes at its ends |
| ScopeData.SameEntries | clients/scope/src/client/scope/signal/data.rs:66-67 | sorting keeps the same values |
| ScopeData.SortedIndex | clients/scope/src/client/scope/signal/data.rs:66-69 | every value of a sorted sample lies between its ends |
| ScopeData.FromPayload | clients/scope/src/client/scope/signal/data.rs:25-52 | a signal starts with the origin as its only point, a group with one such signal per value, and an image at time zero without texture or statistics |
| ScopeData.Push | clients/scope/src/client/scope/signal/data.rs:104-108 | one sample adds two points, keeping the earlier ones: the level `v` from the last abscissa `x` to `x + tau` |
| ScopeData.AddPayload | clients/scope/src/client/scope/signal/data.rs:102-185 | a sample adds one step to a signal; a group adds one step to each of its signals; an image advances its time by `tau`, and when masked takes the statistics of its pixels by `Quantiles::new` as written |
| ScopeData.SignalsPointwise | clients/scope/src/client/scope/signal/data.rs:109-121 | a group payload feeds its `k`-th value to its `k`-th signal exactly as a single payload would |
| ScopeData.TickIsProduct | clients/scope/src/client/scope/signal/data.rs:107 | after `k` samples the abscissa is `k tau` |
| ScopeData.Staircase | clients/scope/src/client/scope/signal/data.rs:104-108 | after the samples `v_0, v_1, …` a signal draws each `v_k` as the level from `k tau` to `(k + 1) tau` |
| ScopeData.Feed | clients/scope/src/client/scope/signal/data.rs:104-108 | each sample fed to a signal adds two points |
| ScopeData.FeedStaircase | clients/scope/src/client/scope/signal/data.rs:104-108 | a signal holding the staircase of some samples, fed more, holds the staircase of all of them |
| ScopeData.FeedStep | clients/scope/src/client/scope/signal/data.rs:104-108 | feeding the first of several samples extends the staircase by one step |
| ScopeData.PushStep | clients/scope/src/client/scope/signal/data.rs:104-108 | one more sample extends the staircase by one step |
| ScopeData.FreshSignalStaircase | clients/scope/src/client/scope/signal/data.rs:25-108 | a signal made from its first payload and fed samples holds the origin followed by their staircase |
| ScopeData.QuartileAsWritten | clients/scope/src/client/scope/signal/data.rs:92-98 | the quartile as written interpolates between the values at 0-based indices `⌊p(n+1)⌋` and the next, so lies between them when they are in order |
| ScopeData.Quartile | clients/scope/src/client/scope/signal/data.rs:92-98 | the `(n + 1) p` rule proper interpolates between the `⌊p(n+1)⌋`-th and next smallest values counting from one, so lies between them when they are in order |
| ScopeData.New | clients/scope/src/client/scope/signal/data.rs:65-91 | `Quantiles::new` with the rule proper: from four values on, the box plot of the sorted data with the quartiles of the rule proper |
| ScopeData.QuartileAsWrittenOrdered | clients/scope/src/client/scope/signal/data.rs:92-98 | the quartiles as written of a sorted sample still lie within it and in the order of `p` |
| ScopeData.NewAsWrittenOrdered | clients/scope/src/client/scope/signal/data.rs:65-98 | the box plot as written is in order from minimum to maximum, and its extremes bound all the data |
| ScopeData.EightSuffice | clients/scope/src/client/scope/signal/data.rs:92-98 | from eight values on all three quartiles as written index inside the sample |
| ScopeData.NewMedianOfNine | clients/scope/src/client/scope/signal/data.rs:65-98 | on the data one to nine `Quantiles::new` as written reports the median six, the rule proper five |
| ScopeData.AddPayloadCorrected | clients/scope/src/client/scope/signal/data.rs:102-185 | signals and groups are handled as in `add_payload`; a masked image from four pixels on gets the statistics of the rule proper |
| ScopeData.AddPayloadImageStatistics | clients/scope/src/client/scope/signal/data.rs:138-161 | a masked image payload leaves box-plot-ordered statistics with either rule, and on the pixels one to nine the code as written reports the median six where the rule proper gives five |
| Signals.Get | clients/core/src/signals.rs:59-88 | a constant signal is its value at every step, and a ramp `a i + b` at step `i` |
| Signals.Plus | clients/core/src/signals.rs:167-178 | adding a signal to a composite appends it to the parts; adding to any other signal makes a composite of the two |
| Signals.PlusAdds | clients/core/src/signals.rs:86-178 | the value of a sum of signals is the sum of their values, at every step |
| Signals.New | clients/core/src/signals.rs:104-113 | a new generator has `n` channels, each a zero constant, at step zero with the given step budget |
| Signals.Channels | clients/core/src/signals.rs:134-138 | every one of the generator's channels becomes the given signal, and nothing else changes |
| Signals.Channel | clients/core/src/signals.rs:139-144 | channel `k` becomes the given signal and every other channel keeps its own |
| Signals.FoldChannels | clients/core/src/signals.rs:147-154 | setting the channels from the data changes only the channels |
| Signals.FromData | clients/core/src/signals.rs:146-165 | a generator made from data has one channel per value, at step zero with the given step budget |
| Signals.FoldChannelsContent | clients/core/src/signals.rs:147-154 | the fold sets every channel it reaches to the constant of its value and leaves the others alone |
| Signals.FromDataChannels | clients/core/src/signals.rs:146-165 | channel `i` of a generator made from data is the constant `data[i]` |
| Signals.Sample | clients/core/src/signals.rs:191-192 | one value per channel, each the channel's value at that step |
| Signals.Write | clients/core/src/signals.rs:187-201 | while the step budget lasts a write gives every channel's value at the current step and advances it; afterwards it gives nothing and changes nothing |
| Signals.Run | clients/core/src/signals.rs:187-201 | successive writes give one output each |
| Signals.RunOutputs | clients/core/src/signals.rs:187-201 | successive writes give the samples at the following steps until the budget is spent, and nothing from then on |
| Signals.NewWritesNStep | clients/core/src/signals.rs:104-201 | a fresh generator writes exactly as many samples as its step budget |
| Signals.TryFromSignals | clients/core/src/signals.rs:214-228 | a single-signal generator is made exactly from a one-channel generator, keeping its signal, step and budget; more channels are an error |
| Signals.WriteOne | clients/core/src/signals.rs:236-250 | while the step budget lasts a write gives the signal's value at the current step and advances it; afterwards it gives nothing and changes nothing |
| Signals.OneSignalAgrees | clients/core/src/signals.rs:187-250 | a single-signal generator made from a one-channel generator writes what that generator writes, unwrapped from its one-entry vector |
| StateSpaceBuilder.FromFem | clients/fem/src/discrete_state_space.rs:63-71 | a builder made from a FEM holds that FEM and otherwise the defaults: no inputs, outputs, sampling rate, threshold or cut-off |
| StateSpaceBuilder.Sampling | clients/fem/src/discrete_state_space.rs:95-100 | `sampling(s)` sets the sampling rate to `s` and leaves every other setting as it was |
| StateSpaceBuilder.ProportionalDamping | clients/fem/src/discrete_state_space.rs:102-107 | `proportional_damping(z)` sets the damping coefficient to `z` and leaves every other setting as it was |
| StateSpaceBuilder.EigenFrequencies | clients/fem/src/discrete_state_space.rs:120-125 | `eigen_frequencies(ef)` sets the overrides to `ef` and leaves every other setting as it was |
| StateSpaceBuilder.MaxEigenFrequency | clients/fem/src/discrete_state_space.rs:129-134 | `max_eigen_frequency(f)` sets the cut-off to `f` and leaves every other setting as it was |
| StateSpaceBuilder.TruncateHankelSingularValues | clients/fem/src/discrete_state_space.rs:136-141 | `truncate_hankel_singular_values(t)` sets the threshold to `t` and leaves every other setting as it was |
| StateSpaceBuilder.HankelFrequencyLowerBound | clients/fem/src/discrete_state_space.rs:143-148 | `hankel_frequency_lower_bound(f)` sets the lower bound to `f` and leaves every other setting as it was |
| StateSpaceBuilder.Ins | clients/fem/src/discrete_state_space.rs:161-196 | `ins`/`ins_with` append one input and its transform slot, and change nothing else |
| StateSpaceBuilder.Outs | clients/fem/src/discrete_state_space.rs:236-271 | `outs`/`outs_with` append one output and its transform slot, and change nothing else |
| StateSpaceBuilder.Resolve | clients/fem/src/discrete_state_space.rs:198-213 | names resolve exactly when every one names a FEM input or output, to those in order; otherwise the error names one that does not |
| StateSpaceBuilder.InsByName | clients/fem/src/discrete_state_space.rs:198-235 | names are paired with transforms as far as both go; adding those inputs succeeds exactly when every paired name resolves, appending them in order with their transforms and changing nothing else; otherwise it gives the lookup's error |
| StateSpaceBuilder.InsByNameWithoutTransforms | clients/fem/src/discrete_state_space.rs:198-213 | adding inputs by name alone succeeds exactly when every name is a FEM input, and adds one input without a transform per name |
| StateSpaceBuilder.OutsByName | clients/fem/src/discrete_state_space.rs:273-309 | names are paired with transforms as far as both go; adding those outputs succeeds exactly when every paired name resolves, appending them in order with their transforms and changing nothing else; otherwise it gives the lookup's error |
| StateSpaceBuilder.AddingKeepsPaired | clients/fem/src/discrete_state_space.rs:161-309 | every way of adding inputs or outputs keeps each one paired with its transform slot |
| StateSpaceBuilder.CountAtMost | clients/fem/src/discrete_state_space.rs:488-495 | no more modes are kept below the cut-off than there are |
| StateSpaceBuilder.CountAtMostMonotone | clients/fem/src/discrete_state_space.rs:488-495 | raising the cut-off never loses a mode |
| StateSpaceBuilder.CountAtMostSorted | clients/fem/src/discrete_state_space.rs:126-135 | with the eigenfrequencies in increasing order, the cut-off keeps exactly the modes up to and including it |
| StateSpaceBuilder.Override | clients/fem/src/discrete_state_space.rs:482-487 | overriding eigenfrequencies keeps their number |
| StateSpaceBuilder.OverrideAt | clients/fem/src/discrete_state_space.rs:482-487 | a frequency no override names keeps its FEM value; one that is named takes the value of its last override |
| StateSpaceBuilder.GetProperties | clients/fem/src/discrete_state_space.rs:476-508 | the modal properties fail exactly without a FEM; otherwise the frequencies are the FEM's with every override written in (an untouched one keeps its FEM value, a named one takes its last override), the number of modes is the count of FEM frequencies at most the cut-off when one is set and all of them otherwise, and the damping is the set coefficient for every kept mode or the FEM's own |
| StateSpaceBuilder.OverridesHold | clients/fem/src/discrete_state_space.rs:482-487 | the overridden frequencies keep every FEM value no override names and take each named one's last override |
| StateSpaceBuilder.PropertiesCut | clients/fem/src/discrete_state_space.rs:488-495 | with increasing FEM frequencies and a cut-off, a mode is kept exactly when its FEM frequency is at most the cut-off |
| StateSpaceBuilder.DampingSetsZeta | clients/fem/src/discrete_state_space.rs:102-108 | after `proportional_damping(z)` every kept mode has damping `z`, and the frequencies and number of modes are those of before |
| StateSpaceBuilder.MaxFrequencySetsCount | clients/fem/src/discrete_state_space.rs:129-135 | after `max_eigen_frequency(f)` the modes kept are as many as FEM frequencies at most `f`; the frequencies, and a damping already set, are those of before |
| StateSpaceBuilder.OverridesSetFrequencies | clients/fem/src/discrete_state_space.rs:120-128 | after `eigen_frequencies(ef)` the frequencies are the FEM's overridden by `ef`; the number of modes and the damping are those of before |
| StateSpaceBuilder.SamplingEnablesBuild | clients/fem/src/discrete_state_space.rs:95-101 | once a sampling rate is set, building succeeds exactly when there is a FEM, and otherwise reports the missing FEM |
| StateSpaceBuilder.ThresholdTruncates | clients/fem/src/discrete_state_space.rs:136-142 | after `truncate_hankel_singular_values(t)` the build keeps exactly the modes below the frequency lower bound or whose Hankel singular value exceeds `t` |
| StateSpaceBuilder.LowerBoundKeeps | clients/fem/src/discrete_state_space.rs:143-149 | after `hankel_frequency_lower_bound(f)` every mode whose frequency is below `f` is kept |
| StateSpaceBuilder.OffsetAppend | clients/fem/src/discrete_state_space.rs:380-392 | the width of the first `k` inputs does not change when an input is added after them |
| StateSpaceBuilder.AppendRange | clients/fem/src/discrete_state_space.rs:375-403 | adding an input widens the total by its width and gives it the range right after the existing ones, which keep theirs |
| StateSpaceBuilder.InsAppendsRange | clients/fem/src/discrete_state_space.rs:161-197 | adding an input keeps inputs paired with transforms, widens the input vector by the new input's width and gives it the next range, leaving the others' ranges as they were |
| StateSpaceBuilder.OutsAppendsRange | clients/fem/src/discrete_state_space.rs:236-272 | adding an output keeps outputs paired with transforms, widens the output vector by the new output's width and gives it the next range, leaving the others' ranges as they were |
| StateSpaceBuilder.Ranges | clients/fem/src/discrete_state_space.rs:375-403 | each input (or output) gets the range of the modal matrix that follows the previous one's, as wide as it is |
| StateSpaceBuilder.OffsetTails | clients/fem/src/discrete_state_space.rs:380-392 | the widths past the first input are those of the other inputs, shifted by its width |
| StateSpaceBuilder.OffsetTail | clients/fem/src/discrete_state_space.rs:380-392 | the width of the first `k` inputs is the first one's plus that of the next `k - 1` |
| StateSpaceBuilder.OffsetMono | clients/fem/src/discrete_state_space.rs:380-392 | the width taken grows with the number of inputs counted |
| StateSpaceBuilder.OffsetTotal | clients/fem/src/discrete_state_space.rs:380-392 | the widths counted one input at a time add up to the total width |
| StateSpaceBuilder.RangesEnd | clients/fem/src/discrete_state_space.rs:375-403 | the last range ends at the total width |
| StateSpaceBuilder.RangesCover | clients/fem/src/discrete_state_space.rs:375-403 | every column of the modal matrix is in one input's range |
| StateSpaceBuilder.RangesTile | clients/fem/src/discrete_state_space.rs:375-403 | every column of the modal matrix is in exactly one input's range |
| StateSpaceBuilder.RangesIncrease | clients/fem/src/discrete_state_space.rs:375-403 | the ranges follow each other in order without overlapping, inside the total width |
| StateSpaceBuilder.Truncate | clients/fem/src/discrete_state_space.rs:527-578 | with a Hankel singular value threshold, the modes kept are exactly those below the frequency lower bound (zero when unset) or above the threshold, in increasing order; without one, all of them |
| StateSpaceBuilder.TruncateNone | clients/fem/src/discrete_state_space.rs:566-578 | without a threshold every mode is kept, in order |
| StateSpaceBuilder.Iota | clients/fem/src/discrete_state_space.rs:566 | the modes `0..n` in order |
| StateSpaceBuilder.TruncateMonotone | clients/fem/src/discrete_state_space.rs:527-565 | a higher threshold keeps no more modes |
| StateSpaceBuilder.Build | clients/fem/src/discrete_state_space.rs:510-600 | building fails without a sampling rate, then without a FEM, and succeeds otherwise: it keeps exactly the modes the truncation rule keeps, with input and output vectors as wide as all the inputs and outputs, each in its own range |
| StateSpaceBuilder.BuildFromFem | clients/fem/src/discrete_state_space.rs:63-600 | a builder made from a FEM and given a sampling rate builds with every mode kept, in order, and empty input and output vectors |
| WindLoadsClient.Numbered | src/clients/windloads.rs:41-45 | the numbered monitor names are the prefix, the number and the suffix, one per number in the range |
| WindLoadsClient.NumberedDistinct | src/clients/windloads.rs:41-55 | numbered names are pairwise distinct |
| WindLoadsClient.Keys | src/clients/windloads.rs:38-71 | mirror covers name 12 monitors, each mirror's segments 7, the trusses 9, the laser guide stars 3, the C-rings 6 and every other group one |
| WindLoadsClient.Fem | src/clients/windloads.rs:73-102 | the segment groups give 7 FEM patterns, the trusses 3, the C-rings 6 and every other group one |
| WindLoadsClient.FemSegmentPatterns | src/clients/windloads.rs:77-78 | segment `i` matches `M1-S{i} unit` on M1 and `M2 cell {i}.` on M2, and the M1 patterns differ from segment to segment |
| WindLoadsClient.SegmentKeys | src/clients/windloads.rs:45-46 | the segment monitors are `M1_{i}` and `M2seg{i}`, one per segment, all different |
| WindLoadsClient.Zip | src/clients/windloads.rs:141-145 | zipping pairs the two lists entry by entry, in order |
| WindLoadsClient.Nodes | src/clients/windloads.rs:134-150 | `nodes` needs as many locations as keys and sets the node list to the key–location pairs in order |
| WindLoadsClient.SegmentNodes | src/clients/windloads.rs:152-158 | each mirror contributes seven nodes, key `i` at segment `i` |
| WindLoadsClient.WithM1Segments | src/clients/windloads.rs:152-171 | `m1_segments` appends the seven M1 segment nodes to the node list, or starts it with them |
| WindLoadsClient.WithM2Segments | src/clients/windloads.rs:173-194 | `m2_segments` appends the seven M2 segment nodes to the node list, or starts it with them |
| WindLoadsClient.BothMirrors | src/clients/windloads.rs:152-194 | asking for M1 then M2 lists fourteen segment nodes, M1 first, each under its own key |
| WindLoadsClient.MountKeys | clients/windloads/src/builder.rs:132-153 | `mount` loads the given groups or, without any, the nine default groups, named here with the 2021 key table of the actor model's client (src/clients/windloads.rs) |
| WindLoadsClient.DefaultMountKeyCount | src/clients/windloads.rs:38-71 | with the 2021 key table the nine default mount groups count 35 monitors |
| WindLoadsClient.DrainOne | src/clients/windloads.rs:558-628 | draining a loaded vector hands out its first sample and leaves the rest |
| WindLoadsClient.ZohProduce | src/clients/windloads.rs:558-628 | the zero-order hold yields nothing (and changes nothing) when nothing is loaded or any loaded vector has run dry; otherwise the next sample of every loaded vector, mount first, each removed from its vector |
| WindLoadsClient.ZohIsSource | src/clients/windloads.rs:558-628 | with only mount loads, the zero-order hold behaves like a `Source` of `n_fm`-value samples |
| WindLoadsClient.HoldAt | src/clients/windloads.rs:634-637 | the first-order hold steps `upsampling / sampling` simulation steps per CFD sample |
| WindLoadsClient.FohProduce | src/clients/windloads.rs:634-690 | the first-order hold always advances the step and yields the interpolated sample of every loaded vector that has the two CFD samples around the step, mount first, and nothing when none has |
| WindLoadsClient.FohOnSample | src/clients/windloads.rs:634-690 | on the step of CFD sample `k`, the first-order hold of mount loads yields CFD sample `k` |
| WindLoadsClient.MountSampleOnKnot | src/clients/windloads.rs:634-651 | on the step of CFD sample `k` the interpolated mount sample is CFD sample `k` |
| WindLoads2025.Keys | clients/windloads/src/windloads/cfd2025.rs:26-81 | with the 2025 table the mirror covers name 12 monitors, the M1 cells 13, each mirror's segments 7, the trusses and cable trusses 6, the platforms 8, the C-ring trusses 4, the laser guide stars 3, the prime focus arms, C-rings and GIR 2, every other group one |
| WindLoads2025.Fem | clients/windloads/src/windloads/cfd2025.rs:83-126 | the segment groups give 7 FEM patterns, the C-ring trusses 4, the laser guide stars 3, the M1 cells, trusses and C-rings 2, every other group one |
| WindLoads2025.SegmentKeys | clients/windloads/src/windloads/cfd2025.rs:38-93 | the segment monitors are `M1s_{i}` and `M2seg{i}`, all different, and segment `i` of M2 matches `M2-S{i} unit` |
| WindLoads2025.MountKeys | clients/windloads/src/builder.rs:132-153 | built for the 2025 database, `mount` loads the given groups or, without any, the same nine default groups |
| WindLoads2025.DefaultMountKeyCount | clients/windloads/src/builder.rs:138-151 | built for the 2025 database, the nine default mount groups count 36 monitors, one more than with the 2021 table |
| TypeNames.IndexOf | actors/src/lib.rs:135 | the split at the first `<` is at its first occurrence, and there is none exactly when the name has no `<` |
| TypeNames.LastSep | actors/src/lib.rs:139 | the split at the last `::` is at a separator with none after it, and there is none exactly when the name holds no separator |
| TypeNames.Split | actors/src/lib.rs:136 | splitting the generic arguments at commas gives at least one piece, none holding a comma |
| TypeNames.Join | actors/src/lib.rs:136-137 | joining starts with the first piece, followed by the separator when there are more, and holds at least one character per separator |
| TypeNames.IndexOfJoined | actors/src/lib.rs:136 | the first separator of two texts joined by one is the joining one when the first text holds none |
| TypeNames.SplitJoin | actors/src/lib.rs:136-137 | splitting joined pieces that hold no separator gives the pieces back |
| TypeNames.JoinSplit | actors/src/lib.rs:136-137 | joining the pieces of a split with the same separator gives the text back |
| TypeNames.Trim | actors/src/lib.rs:134-145 | a plain name loses everything up to and including its last `::` and keeps no separator; a generic name is trimmed head and arguments alike |
| TypeNames.TrimPlainIdempotent | actors/src/lib.rs:138-144 | trimming a plain name twice is trimming it once |
| TypeNames.TrimKeepsGenerics | actors/src/lib.rs:134-145 | trimming keeps every `<` of the name, at every depth of generics |
| TypeNames.TrimBracket | actors/src/lib.rs:135-137 | a generic name trims to its trimmed head, the bracket, and its arguments trimmed one by one and joined again with commas |
| TypeNames.TrimPlainAt | actors/src/lib.rs:139-140 | a plain name trims to what follows its last separator |
| TypeNames.TrimPlainExamples | actors/src/graph.rs:238-243 | `print` and `a::b::print` both trim to `print` |
| TypeNames.TrimArguments | actors/src/lib.rs:135-137 | a generic name trims to its trimmed head, the bracket, and its comma-separated arguments each trimmed and joined again |
| TypeNames.TrimTwoArguments | actors/src/lib.rs:135-137 | a name with two generic arguments trims to its trimmed head, the bracket, and the two trimmed arguments separated by a comma |
| TypeNames.SplitTwo | actors/src/lib.rs:136 | text holding one comma splits into what comes before it and what comes after it |
| TypeNames.TrimGenericExample | actors/src/graph.rs:238-245 | `a::b::print<w::W,q::s::C>` trims to `print<W,C>` |
| WindLoadsBuilder.Ceil | clients/windloads/src/builder.rs:241 | the ceiling is the integer at or just above the duration |
| WindLoadsBuilder.NSample | clients/windloads/src/builder.rs:239-246 | with a duration `d`, the sample count is one more than twenty times the fewest whole seconds covering `d` (`ceil(d)`, and zero seconds for any negative `d` since the cast to `usize` saturates), and so lies between `20d + 1` and `20d + 21` for `d >= 0`; without a duration, the recorded samples are all used |
| WindLoadsBuilder.LeastWholeUnique | clients/windloads/src/builder.rs:241-243 | the fewest whole seconds covering a duration are unique, so the sample count is fixed by the duration |
| WindLoadsBuilder.Reverse | clients/windloads/src/builder.rs:414 | the samples in reverse order |
| WindLoadsBuilder.Mirror | clients/windloads/src/builder.rs:412-417 | one pass plays the samples forward, then backward without repeating the last, cut at the number of samples asked for |
| WindLoadsBuilder.ExtensionExample | clients/windloads/src/builder.rs:412-417 | three samples extended to five play `0 1 2 1 0`, and a 1.5 s duration asks for 41 samples |
| WindLoadsBuilder.Pick | clients/windloads/src/builder.rs:413-416 | the samples at the given positions, in their order |
| WindLoadsBuilder.Range | clients/windloads/src/builder.rs:410 | the recording's own positions, in order |
| WindLoadsBuilder.MirrorWalk | clients/windloads/src/builder.rs:411-418 | every pass keeps the extended recording a walk over the recorded samples that moves one sample at a time |
| WindLoadsBuilder.MirrorPick | clients/windloads/src/builder.rs:413-416 | mirroring the samples is picking them at the mirrored positions |
| WindLoadsBuilder.ExtendStep | clients/windloads/src/builder.rs:411-418 | every pass keeps the extended recording made of whole recorded samples and makes it longer, until it reaches the samples asked for |
| WindLoadsBuilder.TimesOrder | clients/windloads/src/builder.rs:411 | the loop test on values compares the numbers of samples |
| WindLoadsBuilder.Extend | clients/windloads/src/builder.rs:408-449 | a recording already long enough is left as it is; a shorter one becomes exactly `n_sample` whole samples, each a recorded sample: output sample `j` plays recorded sample `PingPong(m, j)`, forward through the `m` samples, back down without either end, and again, pass after pass |
| WindLoadsBuilder.PingPong | clients/windloads/src/builder.rs:411-418 | the recorded sample an output sample plays is always one of the `m` recorded samples |
| WindLoadsBuilder.PingPongPeriodic | clients/windloads/src/builder.rs:411-418 | the forward-and-back play repeats every `2m - 2` samples |
| WindLoadsBuilder.PingPongMirror | clients/windloads/src/builder.rs:414 | played backward from a whole number of periods, the ping-pong gives the same samples as played forward |
| WindLoadsBuilder.MirrorPingPong | clients/windloads/src/builder.rs:412-417 | one pass, the current samples followed by them reversed without the last, continues the ping-pong order, and a pass that is not cut ends on a turning point again |
| Sorting.Insert | clients/domeseeing/src/lib.rs:105 | inserting adds the entry to the others and nothing else |
| Sorting.InsertSorted | clients/domeseeing/src/lib.rs:105 | inserting into entries in order of time stamp keeps them in order |
| Sorting.SortBy | clients/domeseeing/src/lib.rs:105 | the snapshots sorted by time stamp are a permutation of them in increasing order of time stamp |
| Sorting.SortSorted | clients/domeseeing/src/lib.rs:105 | snapshots already in order stay as they are |
| Common.Select | clients/m2-ctrl/src/asm/preprocessor.rs:72-87 | `select_by` stops at the shorter input and keeps only values it is given |
| Common.SelectFlags | clients/m2-ctrl/src/asm/preprocessor.rs:79-87 | every value under a set flag is selected; a full mask keeps everything, an empty one nothing, and a mask as long as the values keeps as many as it has set flags |
| Common.Chunks | clients/windloads/src/lib.rs:136 | `chunks(n)` cuts a vector into non-empty pieces of `n` values, all full but the last, and into none exactly when the vector is empty |
| Common.ChunksFlatten | clients/windloads/src/lib.rs:136 | the pieces laid end to end give the vector back |
| Common.ChunksOfFlatten | clients/windloads/src/lib.rs:136 | pieces of `n` values each, laid end to end, are cut back into the same pieces |

## Left out

- Async runtime: tasks, channels, and the actors' receive/send loops. The model covers the rules those loops apply (capacities, rate checks, how many sends a bootstrap or run makes) but no concurrency.
- File and network I/O. This covers parquet, Arrow and MAT files, bincode and pickle, zip archives, environment variables and the GUI scope transceivers. Loaded data is a parameter (an `Option` when loading can fail). An Arrow save is only counted.
- Floating-point numerics:
  - trigonometry, exponentials and square roots (signals, sigmoids, coordinate transforms);
  - SVD, pseudo-inverses and matrix exponentials;
  - Hankel singular values and static gains.
  These are treated as inputs of the rules that use them.
- FEM-derived data is given as input:
  - `Positioner::from_fem`;
  - the M2 FEM stiffness;
  - the eigenfrequencies and damping of the FEM.
- Eigenfrequency units: the state-space builder converts frequencies, overrides and the lower bound to radians per second with the same factor 2π. The model compares them in hertz, which gives the same decisions.
- Reconstructor linear algebra (`collapse`, `merge`, `block`, `least_square_solve`, `truncated_pseudoinverse`). The model keeps the matrix shapes, masks and cross-talk counts they rely on.
- The optical models, sensors and GPU propagation behind the calibration, pyramid and DFS clients. Only the data bookkeeping around their outputs is modelled.
- The `Assembly` trait is not part of this model. Its segment list is a parameter of the dispatch model.
- `add_rate_transition` is not part of this model. The DSL model records the rate pair it is given.
- White noise signals, progress bars and logging.
- FemInspect.Histogram: requires the largest frequency to be below 2^29. The source's 32-bit shifts wrap around from there on, and the binning would not end as intended.
- WindLoadsBuilder.NSample: requires the product `ceil(d) · 20 + 1` to fit in `usize`. Past that the source panics on overflow or wraps, depending on the build.
- WindLoadsBuilder.Extend: requires a recording of at least two samples whenever it must be extended. With one sample the source loops forever.
- CfdLoads.OssMean: requires at least `n_fm` mount values when they are loaded. With fewer, the source divides by zero whole samples and returns infinities or NaN, which `real` cannot hold; with `n_fm` zero `chunks` panics.
- CfdLoads.M1Mean: requires at least 42 M1 values when they are loaded. With fewer, the source divides by zero and returns infinities or NaN, which `real` cannot hold.
- CfdLoads.Mean: requires at least one whole sample, for the same reason.
- ArrowLogger.IsWord: only ASCII letters, digits and `_`. The `regex` crate's `\w` is Unicode-aware and also matches other letters and digits; the model's names are assumed ASCII.
- Chain.MatchRates: requires every client to appear at most once in the flow. The source only panics when one client sits on both ends of a link (it is borrowed twice); a client repeated further apart is legal there, and its second occurrence then starts from the rates the first one set, which the model does not describe.
- Chain.StepProgress: requires distinct clients for the same reason as `Chain.MatchRates`.
- Sorting.SortBy: states that the result is ordered and is a permutation of the input. The stability that `sort_by` also promises is not stated.
- AsmPreprocessor.Kij: gives an empty block when the column mask or the row mask selects nothing. The source panics there, because nalgebra's `from_columns` and `from_rows` need at least one column or row; the model does not exclude those inputs.
- WindLoadsClient.DefaultMountKeyCount: counts the 2021 key table of the actor model's client. The wind-load crate's builder uses whichever table its build feature selects; the 2025 table is modelled apart as `WindLoads2025`, where the same nine groups name 36 monitors.

## Findings

| source | as written | input that shows it | evidently intended | confidence | as-written member | corrected member |
|---|---|---|---|---|---|---|
| clients/m1-ctrl/src/fem/assembly/dispatch.rs:111-123 | a segment's forces are stored at `ID - 1`, but written from its position in the assembly | the assembly of segments 2 and 3: forces read for segment 2 are written by segment 3 | store at the segment's position in the assembly | high, not executed | Dispatch.ReadSegmentForcesAsWritten, Dispatch.SegmentForcesMisplaced | Dispatch.ReadSegmentForces, Dispatch.SegmentForcesRoundTrip |
| clients/m1-ctrl/src/fem/assembly/dispatch.rs:99-110 | the assembly forces are cut by `NA[0], NA[1], …` in order, whatever segments the assembly holds | the center segment alone: 335 values are cut where it has 306 | cut each segment by its own actuator count, `NA[id - 1]` | medium, not executed | Dispatch.ForceSizesAsWritten, Dispatch.ReadForcesAsWritten, Dispatch.CenterSegmentForces | Dispatch.ForceSizes, Dispatch.ReadForces |
| clients/crseo/src/calibration/mode/segment.rs:217-220 | the RBM range is `0..7` | any RBM calibration: the range covers a seventh index, though an RBM has six degrees of freedom | `0..6`, matching `mode_range` | high, not executed | CalibrationModes.RangeAsWrittenOverruns | CalibrationModes.Range, CalibrationModes.RangeMatchesModeRange |
| clients/crseo/src/calibration/mode/segment.rs:306-310 | after inserting a column the merge does not advance its column index | Ty on the left with column `[10]`, Tx and Ty on the right with `[20, 21]`: the result is `[21, 10]` | `[20, 21]`: the index moves past the inserted column | high, not executed | CalibrationModes.MergeAsWrittenMisplacesColumns, CalibrationModes.AsWrittenExample | CalibrationModes.Merge, CalibrationModes.MergeCorrect, CalibrationModes.CorrectedExample |
| clients/scope/src/client/scope/signal/data.rs:92-98 | the 1-based rank `⌊p(n+1)⌋` of the `(n+1)p` rule is used as a 0-based index | the sample 1, …, 9: median 6, and no upper quartile for fewer than eight values | median 5, with every quartile defined from four values | high, not executed | ScopeData.MedianAsWritten, ScopeData.MedianOfNine, ScopeData.AsWrittenNeedsEight, ScopeData.NewAsWritten, ScopeData.AddPayload, ScopeData.NewMedianOfNine | ScopeData.Quartile, ScopeData.MedianOfOdd, ScopeData.RuleNeedsFour, ScopeData.New, ScopeData.NewOrdered, ScopeData.AddPayloadCorrected, ScopeData.AddPayloadImageStatistics |
| clients/domeseeing/src/lib.rs:185-196 | only the whole mapping advances the step counter `i` | a masked series at upsampling 2 over three frames: two calls load two frames and never interpolate | both mappings advance `i`, so one frame is loaded per `upsampling` calls | high, not executed | DomeSeeing.Next, DomeSeeing.MaskedSkipsInterpolation | DomeSeeing.NextCorrected, DomeSeeing.MaskedInterpolatesCorrected |
