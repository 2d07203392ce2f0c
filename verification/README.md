# BFG verification

BFG generates integrated-circuit layouts and netlists. This project models its
algorithmic core in Dafny and proves what the generated circuits and layouts
depend on. Nothing drawn as polygons is needed for it.

- `Basics` and `Names` hold what all of it shares: optional values, sequences,
  and the decimal names of nets and instances.
- **Netlists** (`Netlists`, `Hierarchies`, `Connectivity`, `PrefixedNames`,
  `Circuit`). `Circuit` is a class whose methods merge one circuit into another
  by signal name and flatten one level of hierarchy, through a staging copy
  whose signals are renamed while its name table is left alone. A hierarchy is
  elaborated into nets independently of names; flattening is proved to put two
  signals on one name exactly when they are on one net, if and only if the
  hierarchy is hygienic (no private signal named like an outer net its instance
  is connected to, no prefixed name in use already). Where instance names have
  no double underscore in them, names alone tell hygiene and success. Pins and
  signals are references, so swapped port names and two ports tied to one net
  are covered.
- **Via stacks** (`ViaPaths`, `ViaSearch`, `PhysicalDb`). The search over the
  table of via layers returns a cheapest path although its queue is never
  re-ordered, because a layer's first cost is final. What cheapest means is
  stated by the tables of via layers and via costs alone.
- **Placement** (`Rows`, `RowGuide`, `Banks`, `Stacking`, `Arrangement`,
  `MemoryBank`). Rows that grow at both ends and insert taps, and banks that
  stack and align rows, are classes; each method is tied to a function on
  values, and runs of those functions are proved to keep boxes abutting,
  counters right and taps close. For cells of any heights there are exact
  conditions, which can be checked before rows are stacked, for rows and for
  boxes to stay apart. Rows keep facing alternate ways through every sequence of
  operations.
- **Filling** (`Utility`, `Decaps`, `Channel`). Strip-mining of lengths, decap
  widths, and the loop that fills the routing channel of a mux.
- **Interconnect muxes** (`TransmissionGateStack`, `Snake`, `Mux1`,
  `MuxBehaviour`, `Mux2`, `Permutations`, `Wires`, `GateAssignment`). The
  single-output mux is built net by net, and what the result does is derived
  from its wires: in which row the memory of each gate lies, and which input
  reaches the output after bits were shifted in. For the dual-output mux, the
  net sequence, the paths it makes, and the search for an assignment of gates to
  memories whose wires do not cross.
- **Dependency order** (`CellGraph`, `BreadthFirst`, `DesignDatabase`). The
  breadth-first closure with move-to-back, and exactly when its result is a
  dependency order.
- **Vias** (`Vias`). Spreading vias over a span, and the tap's via columns.

What the source reports with `LOG(FATAL)` is a result `ok == false`, or a
precondition where the model proves that its own callers meet it. Integers are
unbounded; truncating division is written out where an operand can be negative.

Findings about the code, each with a lemma or method that shows it:

- Flattening shorts a private signal with an outer net of the same name
  (`Connectivity.PrivateSignalIsCaptured`); `Connectivity.HygieneIsExact` says
  exactly when nothing of the kind happens.
- The order that `WriteTop` emits is not always a dependency order, even on a
  graph without cycles (`DesignDatabase.UngradedExample`); it is one exactly
  when, for each cell, the last cell that instantiates it comes before the last
  cells that instantiate what it instantiates itself, in the breadth-first
  numbering (ties by address, as in `std::set<Cell*>`).
- A cell no wider than `AvailableRightSpanUpTo` can take a row past the bound
  (`Rows.FirstPlacementOvershoots`). In a row with a tap cell of some width that
  happens exactly when the row has no tap, its cells do not exceed the bound,
  and the bound is below the tap limit (`Rows.AvailableSpanIsSafeExactly`).
- Rows with cells of different heights can overlap once stacked
  (`Banks.MixedHeightsOverlap`): exactly when a row reaches further below its
  origin than its tallest cell leaves room above the row under it, that is, when
  its `Drop` exceeds the `Slack` of that row (`Stacking.ApartExactly`).
- The test for crossing wires misses wires that run oppositely and overlap,
  unless the earlier wire lies inside the later one (`Wires.ReportsExactly`), so
  the gate assignment can return wires that overlap
  (`GateAssignments.OverlapIsMissed`); they do not overlap if and only if no
  such pair is among them (`GateAssignments.FoundOverlapFreeExactly`). Two wires
  that are points at one place end the program.
- Rebalancing can log that the minimum was missed although it was met
  (`Utility.ErrorLoggedThoughMet`): the error is logged exactly unless all that
  some number of parts before the last can spare is just what the last misses
  (`Utility.Rebalance`).
- Vias of odd width that are less than two units apart stick out of a span that
  runs backwards (`Vias.OutsideByRounding`).
- The dual-output mux has gates for its memories on both sides, and is two
  (n-1):1 muxes, only for an odd number of inputs (`InterconnectMux2`).

`dafny verify dfyconfig.toml` checks the whole project.

## Model

| member | source | states |
|---|---|---|
| Names.DecimalReads | src/atoms/sky130_interconnect_mux1.cc:98 | Reading a number formatted with %u or %d gives the number back, and there are no leading zeros. |
| Names.DecimalInjective | src/atoms/sky130_interconnect_mux1.cc:98 | Numbers formatted with %u or %d give different names for different numbers. |
| Circuits.Circuit.AddSignal | src/circuit.cc:246-256 | Fatal exactly for a name in use; otherwise one new signal under the name, or under a fresh default name for "". |
| Circuits.Circuit.GetOrAddSignal | src/circuit.cc:221-232 | Finds the signal of the name with its existing width, or adds one, under a fresh default name for ""; earlier signals and table entries stay. |
| Circuits.Circuit.AddPort | src/circuit.cc:276-294 | Adds a port unless one of that name exists; the port names are the old ones and this one. |
| Circuits.Circuit.RemovePort | src/circuit.h:69-77 | Removes exactly the ports whose signal now has the name; the others stay in order. |
| Circuits.Circuit.AddInstance | src/circuit.cc:258-268 | Fatal exactly for an instance name in use. |
| Circuits.Circuit.MergeGlobals | src/circuit.cc:108-115 | Global signals keep their names; those not named as references become global here, and no others. |
| Circuits.Circuit.MergeSignals | src/circuit.cc:108-125 | Afterwards every signal of the merged circuit is in the table under its mapped name, with its width if it was created. |
| Circuits.Circuit.MergePorts | src/circuit.cc:127-138 | Appends, in order, a port with the direction of the merged one on the signal of its mapped name, unless a port of that name is there; the port names are the old ones and the mapped names. |
| Circuits.Circuit.Reconnect | src/circuit.cc:151-190 | In any order of ports, each connection leads to the signal of the mapped name; fatal exactly for a concatenation. |
| Circuits.Circuit.MergeInstances | src/circuit.cc:140-191 | Succeeds exactly if no instance name is taken and no connection is a concatenation; every instance is then copied. |
| Circuits.Circuit.AddCircuit | src/circuit.cc:104-192 | The whole merge: fatal exactly when it cannot be done, and otherwise signals, ports with directions, globals and instances of both. |
| Netlists.GlobalStep | src/circuit.cc:109-115 | One more global is found or added without breaking the table, and marked unless it is a reference. |
| Netlists.SignalStep | src/circuit.cc:117-125 | One more signal is found or added under its mapped name; earlier entries keep their signals. |
| Circuits.Circuit.RenamePort | src/circuit.cc:330-333 | Removes the port and renames the signal in place; the name table still finds it by its old name. |
| Circuits.Circuit.RenamePorts | src/circuit.cc:323-341 | In any order of ports, the staging copy carries outer net names on connected ports; fatal exactly for slices, concatenations and ports the circuit lacks. |
| Hierarchies.MergedIsStaged | src/circuit.cc:308-312 | Merging into an empty circuit makes a faithful staging copy. |
| Hierarchies.PortRenamed | src/circuit.cc:329-333 | Renaming one more connected port keeps the staging copy faithful, lookups by original name included. |
| Circuits.Circuit.FlattenInstance | src/circuit.cc:306-350 | One instance more is flattened into the circuit, or the hierarchy cannot be flattened. |
| Hierarchies.MergeDecides | src/circuit.cc:349 | A failed merge means that no order of visiting could have succeeded. |
| Circuits.Circuit.Flatten | src/circuit.cc:296-362 | For any order of instances: fatal exactly when the hierarchy is not flattenable, and otherwise the flattened hierarchy, old instances erased; PrefixedNames says what that is in terms of strings. |
| Connectivity.HygieneIsExact | src/circuit.cc:92-102 | Flattened names are equal exactly for signals of one net, if and only if the hierarchy is hygienic. |
| Connectivity.UnhygienicMerges | src/circuit.cc:221-232 | Every breach of hygiene puts two signals of different nets on one name. |
| Connectivity.FlatteningPreservesConnectivity | src/circuit.cc:296-362 | Given hygiene, two pins share a signal afterwards exactly if they shared a net before, and so for a pin and an outer signal. |
| Connectivity.PinKeepsItsBits | src/circuit.cc:151-190 | A pin leads to exactly the bits it led to before, on a signal that has the width it had. |
| Netlists.SliceKeepsBits | src/circuit/instance.cc:62-83 | A slice within its signal leads to the same bits whether it is stored as a slice or, of the whole signal, as a connection to it. |
| PrefixedNames.PrefixingSeparates | src/circuit.cc:92-102 | With a prefix that is not empty, names outside the skip set start with it and two underscores, end in themselves, and stay different from each other. |
| PrefixedNames.PrefixedNamesSplit | src/circuit.cc:92-102 | Where prefixes neither contain two underscores in a row nor end in one, equal prefixed names have equal prefixes and names. |
| PrefixedNames.PrivateNames | src/circuit.cc:108-125 | A private signal becomes its instance name, two underscores and its own name, or without prefixes its own name, unless it is captured. |
| PrefixedNames.FlattenedInstanceNames | src/circuit.cc:140-150 | The instances of the flattened circuit carry the name of their outer instance, two underscores and their own, or without prefixes their own. |
| PrefixedNames.PlainNamesAreHygienicExactly | src/circuit.cc:296-362 | If instance names are so and no shared name starts with one and two underscores, prefixed names follow nets exactly when no signal is captured. |
| PrefixedNames.PlainNamesAreFlattenableExactly | src/circuit.cc:296-362 | With such names and prefixes, flattening succeeds exactly through whole signals and without concatenations. |
| PrefixedNames.PlainFlatteningPreservesConnectivity | src/circuit.cc:296-362 | With such names and no signal captured, pins share a signal afterwards exactly if they shared a net before. |
| PrefixedNames.UnprefixedHygieneExactly | src/circuit.cc:296-362 | Without prefixes, names follow nets exactly if every private signal has a name that no other private signal and no shared name has. |
| PrefixedNames.UnprefixedFlattenableExactly | src/circuit.cc:296-362 | Without prefixes, flattening succeeds exactly if moreover all inner instance names are distinct and free. |
| Connectivity.EachInstanceArrivesOnce | src/circuit.cc:306-361 | Whatever the order, every inner instance arrives exactly once. |
| Connectivity.OldInstancesErased | src/circuit.cc:352-361 | Erasing the old instances leaves a valid circuit that is the flattened hierarchy. |
| Connectivity.PrivateSignalIsCaptured | src/circuit.cc:329-349 | A concrete hierarchy in which flattening shorts a private signal with an outer net. |
| PhysicalDb.PhysicalPropertiesDatabase.AddViaLayer | src/physical_properties_database.cc:239-255 | A via layer is found from both sides; all other pairs keep theirs; a different second via layer is fatal. |
| PhysicalDb.PhysicalPropertiesDatabase.FindLayersReachableThroughOneVia | src/physical_properties_database.cc:640-667 | Exactly the layers that some via layer connects to the source. |
| PhysicalDb.PhysicalPropertiesDatabase.GraphIsSound | src/physical_properties_database.cc:640-667 | The graph that is searched is symmetric, and has an edge exactly where there is a via layer. |
| PhysicalDb.PhysicalPropertiesDatabase.PathsAreWays | src/physical_properties_database.cc:640-667 | The paths of the searched graph are exactly the ways that the table of via layers gives. |
| PhysicalDb.PhysicalPropertiesDatabase.PathCostsWhatLayersCost | src/physical_properties_database.cc:678-687 | A path costs the sum of the via costs of the layers after its first. |
| ViaSearch.KnownCostIsFinal | src/physical_properties_database.cc:565-576 | No later hop improves the first cost given to a layer, so keys of queued layers never change. |
| ViaSearch.PopKeepsOrder | src/physical_properties_database.cc:555-557 | Popped costs never decrease, and nothing queued is cheaper. |
| ViaSearch.PathsAreCovered | src/physical_properties_database.cc:555-578 | Every path to a layer costs at least what the layer was popped at, or at least what something still queued costs. |
| ViaSearch.RelaxStep | src/physical_properties_database.cc:565-576 | A looked-at neighbour is new, or its cost cannot be improved; either way the search invariant holds. |
| ViaSearch.Explore | src/physical_properties_database.cc:552-578 | The search ends with the target popped at least cost, or with everything reachable popped. |
| ViaSearch.PredecessorsAreEarlier | src/physical_properties_database.cc:586-597 | Predecessors were popped strictly earlier, even where vias cost nothing. |
| ViaSearch.WalkBack | src/physical_properties_database.cc:580-601 | The walk along predecessors ends at the start and gives a path of the found cost, in reverse. |
| ViaSearch.FindLayerStack | src/physical_properties_database.cc:531-601 | A cheapest path in reverse, or nothing exactly when there is no path. |
| ViaPaths.ReversedCheapest | src/physical_properties_database.cc:526-529 | A cheapest path walked the other way is cheapest the other way, so ordering the two layers is harmless. |
| PhysicalDb.PhysicalPropertiesDatabase.BuildStack | src/physical_properties_database.cc:603-608 | One via for each hop, in order, on the via layer that connects its two layers. |
| PhysicalDb.PhysicalPropertiesDatabase.LayerStackIsReady | src/physical_properties_database.cc:586-608 | Every hop of a found path has a via layer, so looking it up cannot fail. |
| PhysicalDb.PhysicalPropertiesDatabase.FindViaStack | src/physical_properties_database.cc:491-610 | Empty for equal layers, nothing exactly when no way connects them, and otherwise, from the lesser layer to the greater, a stack along a way whose sum of via costs no other way undercuts, in either direction. |
| RowGuides.RowGuide.InstantiateBack | src/row_guide.cc:17-30 | Updates origin, boxes, taps and counters as Rows.InstantiateBack says. |
| RowGuides.RowGuide.InstantiateFront | src/row_guide.cc:59-73 | Updates the row as Rows.InstantiateFront says. |
| RowGuides.RowGuide.InstantiateAndInsertFront | src/row_guide.cc:32-57 | Updates the row as Rows.InstantiateAndInsertFront says. |
| RowGuides.RowGuide.MaybeAddTapLeftFor | src/row_guide.cc:166-175 | Adds a tap on the left exactly when the distance would grow too large, or the row has none yet. |
| RowGuides.RowGuide.MaybeAddTapRightFor | src/row_guide.cc:177-186 | The same on the right. |
| RowGuides.RowGuide.AccountForPlacement | src/row_guide.cc:301-311 | Both counters grow until there is a tap; then only the one on the side of the placement. |
| RowGuides.RowGuide.ShiftAllRight | src/row_guide.cc:240-244 | Moves every box by exactly the same amount. |
| RowGuides.RowGuide.MoveTo | src/row_guide.cc:246-253 | Moves the row as a whole to a new origin. |
| RowGuides.RowGuide.MoveLowerLeft | src/row_guide.cc:255-259 | Moves the row as a whole; the lower-left corner is then at the point. |
| RowGuides.RowGuide.MoveLowerRight | src/row_guide.cc:261-268 | Moves the row as a whole; the lower-right corner is then at the point. |
| Rows.MovedCornerArrives | src/row_guide.cc:255-268 | For any row, empty or not, the lower-left or lower-right corner arrives at the given point. |
| RowGuides.RowGuide.Width | src/row_guide.cc:342-349 | The total width of the cells. |
| RowGuides.RowGuide.Height | src/row_guide.cc:351-357 | The greatest height of a cell. |
| RowGuides.RowGuide.GetTilingBounds | src/row_guide.cc:368-377 | The least rectangle around all boxes. |
| RowGuides.RowGuide.AvailableRightSpanUpTo | src/row_guide.cc:152-164 | What is left up to the bound, less one tap width for each whole tap limit between the last tap and the bound; past the bound, what is missing. |
| Rows.BackKeepsRowOk | src/row_guide.cc:17-30 | A back placement keeps boxes abutting, centred, and counters right. |
| Rows.FrontKeepsRowOk | src/row_guide.cc:59-73 | So does a front placement. |
| Rows.InsertFrontKeepsRowOk | src/row_guide.cc:32-57 | So does an insertion at the front. |
| Rows.BackAdds | src/row_guide.cc:17-30 | A back placement leaves all boxes and adds one of the cell's size in the row's orientation, behind a tap exactly if there is none yet or the cell would end more than the limit from the last. |
| Rows.FrontAdds | src/row_guide.cc:32-57 | An insertion at the front adds the same on the left, the older boxes staying together. |
| Rows.AfterLastTapIsStretch | src/row_guide.cc:301-311 | What is counted after the last tap is the width of the stretch that follows a tap and has none. |
| Rows.EveryRunKeepsRowOk | src/row_guide.cc:270-311 | After any placements, moves and changes of the tap cell, the cached distances are the widths before the first and after the last tap (all cells if there is none); boxes abut and share a mid-line. |
| Rows.TapsAreNeverTooFarApart | src/row_guide.cc:313-340 | With a tap cell from the start and cells no wider than the limit, no run without taps is wider than the limit, for placements from both ends. |
| Rows.InsertFrontShiftsExactly | src/row_guide.cc:32-57 | Insertion at the front keeps the left edge and shifts older boxes right by exactly what was inserted, tap included. |
| Rows.HeightIsTilingHeight | src/row_guide.cc:351-377 | The height of a row is the height of its tiling bounds, although halving heights truncates. |
| Rows.WidthIsTilingWidth | src/row_guide.cc:342-377 | The width of a row is the width of its tiling bounds. |
| Rows.BoxesOfRowApart | src/row_guide.cc:198-238 | Two boxes of one row do not overlap. |
| Rows.SpanByWidths | src/row_guide.cc:152-164 | The available span by widths alone: all that is left, less one tap for each whole limit. |
| Rows.AvailableSpanFits | src/row_guide.cc:152-164 | In a row with a tap, a cell no wider than the available span and the tap limit never takes the row past the bound, tap included. |
| Rows.AvailableSpanIsSafeExactly | src/row_guide.cc:152-164 | Every cell no wider than the available span stays within the bound if and only if the row has a tap, the bound reaches the tap limit, nothing fits anyway, or taps take no room. |
| Rows.ExactCellOvershoots | src/row_guide.cc:152-186 | In every row on which that condition fails, the cell that fits exactly takes the row past the bound by one tap. |
| Rows.FirstPlacementOvershoots | src/row_guide.cc:152-164 | A concrete row without taps, and a bound below the tap limit, for which a cell that exactly fits overshoots. |
| MemoryBanks.MemoryBank.Row | src/memory_bank.cc:46-81 | Creates the missing rows up to an index on top of the last, rotated alternately; existing rows stay the same objects. |
| MemoryBanks.MemoryBank.InsertRowZero | src/memory_bank.cc:83-117 | Puts a new row object below the others and flips the first rotation, so that existing rows keep theirs. |
| MemoryBanks.MemoryBank.EnsureVerticalAbutment | src/memory_bank.cc:139-156 | The loop leaves the rows where Banks.Abutted puts them. |
| MemoryBanks.MemoryBank.AlignLeft | src/memory_bank.cc:169-179 | Moves every row to the least left edge. |
| MemoryBanks.MemoryBank.AlignRight | src/memory_bank.cc:158-167 | Moves every row to the greatest right edge. |
| MemoryBanks.MemoryBank.FixAlignments | src/memory_bank.cc:181-200 | Abuts and then aligns the rows. |
| MemoryBanks.MemoryBank.InstantiateRight | src/memory_bank.cc:237-250 | Creates rows as needed, places at the back and re-aligns. |
| MemoryBanks.MemoryBank.InstantiateLeft | src/memory_bank.cc:222-235 | Creates rows as needed, inserts at the front and re-aligns. |
| MemoryBanks.MemoryBank.InstantiateInside | src/memory_bank.cc:202-220 | Places on the side opposite to the alignment. |
| MemoryBanks.MemoryBank.MoveTo | src/memory_bank.cc:14-26 | Moves all rows by the same amount. |
| MemoryBanks.MemoryBank.GetTilingBounds | src/memory_bank.cc:252-283 | The least rectangle around all rows that have cells. |
| Banks.AbuttedStacks | src/memory_bank.cc:139-156 | Abutment moves each row rigidly and only vertically, and stacks the rows exactly. |
| Banks.FixAlignmentsStacks | src/memory_bank.cc:181-200 | Re-alignment moves each row rigidly; rows are then stacked exactly and flush on the bank's side. |
| Banks.FixAlignmentsIdempotent | src/memory_bank.cc:181-200 | With one cell height per row, re-aligning twice is re-aligning once. |
| Stacking.EveryRunIsSound | src/memory_bank.cc:46-250 | After any sequence of operations, with cells of any heights, every row is as a row should be, and stacked on the row with cells under it. |
| Stacking.ApartExactly | src/memory_bank.cc:139-156 | The tiling bounds of stacked rows are apart if and only if no row reaches further below its origin than there is room above the row under it. |
| Stacking.PlacementApartExactly | src/memory_bank.cc:222-250 | After a placement on either side the rows are apart if and only if that condition held before they were stacked again. |
| Stacking.LiftIsExact | src/memory_bank.cc:139-156 | How far any row comes to lie above the first cell of any row under it, from the heights and offsets of the rows between. |
| Stacking.BoxesOverlapExactly | src/memory_bank.cc:139-156 | Two boxes of different rows overlap if and only if their x ranges meet and the upper one dips further than the rows between leave room for. |
| Stacking.NoTwoBoxesOverlap | src/memory_bank.cc:46-250 | In every bank so reached, no two boxes overlap if and only if no such pair exists; bounds of rows are apart if and only if the rows fit, which is enough. |
| Stacking.OneHeightPerRowFits | src/memory_bank.cc:46-250 | With one cell height per row the rows always fit, and no two boxes overlap. |
| Arrangement.EveryRunAlternates | src/memory_bank.cc:42-117 | After any sequence of operations, rows added below included, neighbouring rows face opposite ways, the first as the bank says, or none is rotated; cells face with their rows. |
| Arrangement.CellGoesToItsSide | src/memory_bank.cc:222-250 | The cell becomes the leftmost or the rightmost of the row it is meant for, older cells staying together; every other row is only moved as a whole. |
| Arrangement.InsideIsAwayFromTheEdge | src/memory_bank.cc:202-220 | The cell becomes the leftmost of its row in a bank aligned right, otherwise the rightmost; other rows are only moved. |
| Arrangement.BankMovesAsAWhole | src/memory_bank.cc:14-26 | The origin of the first row gets to the point and all rows keep their places relative to it. |
| Arrangement.RowsAboveRowZeroRise | src/memory_bank.cc:83-117 | Once a row inserted below has a cell, the rows above have risen by exactly the difference between its height and that of the old first row. |
| Banks.PlacementCoversSumOfHeights | src/memory_bank.cc:202-269 | After each placement of such a run, rows are stacked and aligned and the covering height is the sum of row heights. |
| Banks.CoveringHeightIsSum | src/memory_bank.cc:252-269 | Exactly stacked rows cover the sum of their heights. |
| Banks.MixedHeightsOverlap | src/memory_bank.cc:139-156 | A concrete run in which a row drops further than the row under it leaves room for, and cells of the two overlap. |
| Utility.LastMultiple | src/utility.h:66-75 | The greatest multiple that is no greater than the bound. |
| Utility.NextMultiple | src/utility.h:42-51 | The least multiple that is no less than the bound. |
| Utility.Strip | src/utility.h:129-140 | Full parts first and what is left last: multiples of the unit, no greater than the maximum rounded down, summing to the length rounded down. |
| Utility.Rebalance | src/utility.h:146-170 | Borrowing keeps the sum and the multiples, goes from the last part to the first, takes no more than needed, and ends with the minimum reached or nothing left to borrow; the error is logged exactly unless all that some number of parts can spare is just what the last one misses. |
| Utility.RebalancedMeansMinimum | src/utility.h:154-169 | After borrowing every part reaches the minimum if and only if the sum has that much for each part; otherwise all but the last equal it. |
| Utility.ErrorLoggedThoughMet | src/utility.h:154-169 | A concrete rebalancing that reaches the minimum and logs that it did not. |
| Utility.StripInUnits | src/utility.h:121-173 | All of it, the logged error included, for any length, maximum at least one unit, and optional minimum no greater than the maximum. |
| Decaps.DecapWidths | src/atoms/sky130_decap.cc:563-567 | For a span of at least 1380, every width is a multiple of 460 from 1380 to 5520 and less than 460 is left over. |
| Decaps.FillDecapsRight | src/atoms/sky130_decap.cc:556-583 | Places decaps of such widths at the back of a row that is not empty; no width limit of the decap constructor fires. |
| Channel.DecapFits | src/atoms/sky130_interconnect_mux1.cc:594-611 | One decap that fits keeps the channel row within the bank, whether or not it brings a tap. |
| Channel.CoveringWidthIsWidest | src/memory_bank.cc:252-269 | A left-aligned bank is as wide as its widest row. |
| Channel.ChannelStep | src/atoms/sky130_interconnect_mux1.cc:608-611 | One more decap keeps the channel filled properly and the bank as wide as it was. |
| Channel.FillChannel | src/atoms/sky130_interconnect_mux1.cc:590-616 | Each decap placed is the widest of the pitch that fits at that time; the loop ends, never widens the bank, and stops only when no decap of the pitch is as narrow as what is left of the width, less a tap for each whole limit. |
| Channel.StandardPitchLeavesLessThanADecap | src/atoms/sky130_interconnect_mux1.cc:594-602 | With the standard pitch the channel is then short of the width by less than one minimum decap, and a tap for each whole limit still to cover. |
| TransmissionGateStack.BuildSequence | src/atoms/sky130_transmission_gate_stack.cc:211-290 | Every second net is the control of a gate between its two neighbours in the sequence. |
| TransmissionGateStack.Build | src/atoms/sky130_transmission_gate_stack.cc:405-416 | The gates of all sequences from left to right, numbered through. |
| TransmissionGateStack.EndsAreBridged | src/atoms/sky130_transmission_gate_stack.cc:282-289 | Whatever connects two nets of a stack leaves the one and enters the other through a conducting gate. |
| InterconnectMux1.BuildNetSequences | src/atoms/sky130_interconnect_mux1.cc:116-142 | Pairs of inputs around one output node, and a shorter sequence for an odd input. |
| InterconnectMux1.MuxStack | src/atoms/sky130_interconnect_mux1.cc:116-142 | The stack of these sequences has one gate per input; gate g lies between input g and Z and is controlled by Sg. |
| Snake.SnakeOfOneColumn | src/atoms/sky130_interconnect_mux1.cc:205-241 | With one column the scan order runs from row to row upwards, whatever the direction. |
| Snake.AddMemoriesVertically | src/atoms/sky130_interconnect_mux1.cc:205-241 | For all rows, columns and scan directions: each slot is filled once, consecutive memories are neighbours, rows ascend, and the last memory is where the direction leaves it. |
| Snake.NextIsNeighbour | src/atoms/sky130_interconnect_mux1.cc:218-237 | Consecutive slots are in one row and adjacent columns, or in one column and adjacent rows. |
| Snake.MemoryAtIsOnto | src/atoms/sky130_interconnect_mux1.cc:234-237 | Every memory of the grid has a slot. |
| Snake.MemoryAtIsDistinct | src/atoms/sky130_interconnect_mux1.cc:234-237 | Different slots hold different memories. |
| Snake.LastMemory | src/atoms/sky130_interconnect_mux1.cc:212-219 | Which end of the last row the chain ends at, from the first row and the scan direction. |
| InterconnectMux1.ConnectMemoryToControl | src/atoms/sky130_interconnect_mux1.cc:738-768 | Q goes to the complemented control and QI to the plain one, on the net recorded for the memory. |
| InterconnectMux1.ConnectMemories | src/atoms/sky130_interconnect_mux1.cc:770-886 | Bottom memories take even gates and top ones odd gates, counted from the mux; no pin is connected twice; the last memory drives SCAN_OUT. |
| InterconnectMux1.AllAreWired | src/atoms/sky130_interconnect_mux1.cc:786-886 | However many assignments follow, each keeps its four connections. |
| InterconnectMux1.OneMemoryPerGate | src/atoms/sky130_interconnect_mux1.cc:771-774 | For any number of inputs, gates and places in the chain correspond one to one, and no gate number exceeds the gates there are. |
| InterconnectMux1.DrawScanChain | src/atoms/sky130_interconnect_mux1.cc:1443-1508 | The first data pin is SCAN_IN and every other one the output net of the memory before it. |
| InterconnectMux1.DrawInputs | src/atoms/sky130_interconnect_mux1.cc:1385-1417 | Stack input Xi is connected to a port Xi. |
| InterconnectMux1.DrawRoutes | src/atoms/sky130_interconnect_mux1.cc:665-963 | Controls, chain and inputs together; no connection is made twice. |
| InterconnectMux1.Generate | src/atoms/sky130_interconnect_mux1.cc:379-473 | For every number of inputs from three on: memories in rows 0 to n with the row of gates left out, in scan order; even gates controlled from the rows below the gates downwards, odd gates from the topmost row downwards; all nets by name. |
| InterconnectMux1.FlopNetsDistinct | src/atoms/sky130_interconnect_mux1.cc:746-754 | Nets named after memories differ from each other and from the scan ports. |
| InterconnectMux1.StackNamesDistinct | src/atoms/sky130_interconnect_mux1.cc:742-743 | Controls, complemented controls, inputs and Z have different names. |
| MuxBehaviour.OneDriver | src/atoms/sky130_interconnect_mux1.cc:758-764 | No net of the finished mux has two drivers. |
| MuxBehaviour.TickShifts | src/atoms/sky130_interconnect_mux1.cc:1443-1500 | One clock edge moves every stored bit one place down the chain. |
| MuxBehaviour.ShiftedBits | src/atoms/sky130_interconnect_mux1.cc:1432-1508 | After any number of bits, the memory at place k holds the bit shifted in k ticks before the last. |
| MuxBehaviour.GateConducts | src/atoms/sky130_interconnect_mux1.cc:798-802 | Both transistors of a gate conduct if its memory holds 0, and neither otherwise. |
| MuxBehaviour.StoredBitSelectsInput | src/atoms/sky130_interconnect_mux1.cc:738-886 | Z is connected to input g if and only if the memory wired to gate g holds 0. |
| MuxBehaviour.InputsShorted | src/atoms/sky130_interconnect_mux1.cc:738-886 | Two inputs are shorted if and only if both their gates conduct. |
| MuxBehaviour.ShiftedBitsSelectInputs | src/atoms/sky130_interconnect_mux1.cc:738-963 | End to end, from any state: after shifting in n bits, Z is connected to input g iff bit g/2 (for odd g) or n/2 + g/2 (for even g) is 0, and inputs are shorted iff both bits are 0. |
| MuxBehaviour.ScanOutDelaysScanIn | src/atoms/sky130_interconnect_mux1.cc:838-850 | SCAN_OUT carries what was shifted in n ticks before. |
| MuxBehaviour.GenerateMux | src/atoms/sky130_interconnect_mux1.cc:379-473 | Every generated mux is one that these lemmas are about, with memories and wires in the rows where they belong. |
| InterconnectMux2.BuildNetSequence | src/atoms/sky130_interconnect_mux2.cc:49-88 | The loop builds 4n-3 nets, in the pattern input, control, output, control. |
| InterconnectMux2.ControlsNameTheirPaths | src/atoms/sky130_interconnect_mux2.cc:63-85 | Every control Si_o lies exactly between input i and output o. |
| InterconnectMux2.ControlNamesDistinct | src/atoms/sky130_interconnect_mux2.cc:70-74 | All control names are different. |
| InterconnectMux2.GatesAreForPaths | src/atoms/sky130_interconnect_mux2.cc:49-88 | There is exactly one gate for each path from an input to an output, named Si_o and lying between Xi and Zo. |
| InterconnectMux2.ReachesExactly | src/atoms/sky130_interconnect_mux2.cc:49-88 | An output reaches an input if and only if the input has a path to it on its right, or on its left: neighbouring inputs share the outputs in turn. |
| InterconnectMux2.OutputsReach | src/atoms/sky130_interconnect_mux2.h:74-78 | Each output reaches n-1 inputs if and only if n is odd; otherwise one reaches all and the other n-2. |
| InterconnectMux2.SplitRows | src/atoms/sky130_interconnect_mux1.cc:379-385 | How many rows of two memories lie above and below the gates. |
| InterconnectMux2.SplitGates | src/atoms/sky130_interconnect_mux2.cc:189-205 | Even gates go to the bottom and odd gates to the top. |
| InterconnectMux2.SidesMatch | src/atoms/sky130_interconnect_mux2.cc:189-205 | Each side has as many gates as memories if and only if n is odd. |
| Permutations.NextPermutation | src/atoms/sky130_interconnect_mux2.cc:1026 | The immediate lexicographic successor, or the first permutation if there is none greater. |
| Permutations.NothingBetween | src/atoms/sky130_interconnect_mux2.cc:1026 | No permutation lies between an order and its successor. |
| GateAssignments.FindNearest | src/atoms/sky130_interconnect_mux2.cc:886-892 | The first of the nearest gates. |
| GateAssignments.EraseGate | src/atoms/sky130_interconnect_mux2.cc:907-913 | Removes exactly the chosen gate, although the number compared with is read from the vector being changed. |
| GateAssignments.AssignRow | src/atoms/sky130_interconnect_mux2.cc:863-916 | Each memory in turn takes the nearest gate left. |
| GateAssignments.RowConservesGates | src/atoms/sky130_interconnect_mux2.cc:873-914 | Used gates and gates left over are the gates given. |
| GateAssignments.RowTakesNearest | src/atoms/sky130_interconnect_mux2.cc:884-892 | Each memory's gate is no farther from the middle between its ports than any gate left over or taken later in its row, up to the half that rounding an odd sum costs. |
| GateAssignments.GreedyTakesNearest | src/atoms/sky130_interconnect_mux2.cc:992-1010 | So in every row of a success, with gates taken by later rows counted too. |
| Wires.ReportsExactly | src/geometry/line.cc:487-534 | Exactly what the test reports: wires that meet, if they run the same way or one is a point; of wires that run oppositely, only those where the other lies inside the tested one; two points at one place are fatal. |
| Wires.CoefficientOrders | src/geometry/line.cc:286-292 | Projection coefficients tell exactly what lies beyond the end of a wire or before its start, for wires in both directions. |
| Wires.ClearMeansApartExactly | src/geometry/line.cc:518-520 | Wires tested clear have no position in common if and only if they are not of the kind missed. |
| GateAssignments.CheckRow | src/atoms/sky130_interconnect_mux2.cc:930-959 | The loop finds the first pair of wires, PMOS before NMOS, that does not test clear. |
| GateAssignments.RowTestExactly | src/atoms/sky130_interconnect_mux2.cc:930-959 | A row tests clear if and only if both wires of all pairs do, and otherwise some pair gives what the row gives. |
| GateAssignments.ClearRowOverlapFreeExactly | src/atoms/sky130_interconnect_mux2.cc:930-959 | In a row that tests clear no two PMOS wires and no two NMOS wires overlap, if and only if the test has missed none. |
| GateAssignments.CheckPermutation | src/atoms/sky130_interconnect_mux2.cc:992-1010 | The greedy assignment for one order of rows, up to the first row with a conflict. |
| GateAssignments.GreedyIsAssignment | src/atoms/sky130_interconnect_mux2.cc:992-1010 | A success serves every memory with one gate of its own, all its rows test clear, and gates are conserved. |
| GateAssignments.TryOrders | src/atoms/sky130_interconnect_mux2.cc:1012-1027 | Finds the first order without conflict; nothing is found only if every order has one. |
| GateAssignments.FoundOverlapFreeExactly | src/atoms/sky130_interconnect_mux2.cc:992-1027 | The wires of a returned assignment do not overlap if and only if no two opposite wires of a row overlap without the earlier one lying inside the later one. |
| GateAssignments.OneSidedMissesNothing | src/atoms/sky130_interconnect_mux2.cc:863-916 | If all wires are bound to run one way, which memories and gates tell beforehand, a clear row has no overlaps. |
| GateAssignments.OverlapIsMissed | src/atoms/sky130_interconnect_mux2.cc:930-959 | Two memories and two gates for which the search returns PMOS wires that overlap and NMOS wires that overlap. |
| GateAssignments.DistinctPlacesNeverAbort | src/atoms/sky130_interconnect_mux2.cc:992-1010 | With gates in different places no test ends the program. |
| GateAssignments.RowsCoverScan | src/atoms/sky130_interconnect_mux2.cc:972-990 | The rows hold each memory of the part of the scan order they take in once. |
| GateAssignments.FindGateAssignment | src/atoms/sky130_interconnect_mux2.cc:918-1028 | Given at least as many distinctly numbered gates as memories: all of this for the returned rows, and gates untouched on failure. |
| CellGraph.DepthsAreShortestPaths | src/design_database.cc:278-302 | Depths by breadth-first closure are lengths of shortest ways from the top, for exactly the reachable cells. |
| BreadthFirst.OnlyOneBreadthFirst | src/design_database.cc:278-302 | A graph and a top leave one breadth-first numbering. |
| BreadthFirst.LevelsAreDepths | src/design_database.cc:278-302 | Levels of that numbering are depths. |
| DesignDatabase.Visit | src/design_database.cc:286-301 | Visiting one cell finds new ancestors, moves known ones to the back of the order, and keeps the traversal invariant. |
| DesignDatabase.MovedToBackIsSorted | src/design_database.cc:290-296 | Moving a cell to the back keeps the order sorted by the last visit to a user. |
| DesignDatabase.WriteOrderIsRight | src/design_database.cc:305-307 | The order is a dependency order if and only if last users are in order. |
| DesignDatabase.WriteTop | src/design_database.cc:267-310 | Ends on any graph, emits each reachable cell once, and is a dependency order exactly when last users are in order. |
| BreadthFirst.DepthsDecide | src/design_database.cc:267-310 | Users on strictly deeper levels suffice, users on no lesser level are necessary, and one path length per cell suffices. |
| CellGraph.UngradedDoesNotDescend | src/design_database.cc:267-310 | A small graph without cycles on which the necessary condition fails. |
| DesignDatabase.UngradedExample | src/design_database.cc:267-310 | On that graph the emitted order is not a dependency order. |
| Vias.DistributeVias | src/layout.cc:591-632 | For any length and both readings of the ends: the greatest number of pitches that fit; vias of the rule's width, one greatest even step apart and half a step from the ends; at least the minimum apart and inside the span; on backward spans inside exactly when rounding leaves room. |
| Vias.AxisCovers | src/layout.cc:603-611 | Between centres the span is half a via longer at both ends, otherwise it is as given. |
| Vias.SpacingFits | src/layout.cc:614-623 | The spacing is never below the minimum, and all vias and spaces fit the length. |
| Vias.OutsideByRounding | src/layout.cc:625-631 | A concrete backward span with a via outside it. |
| Vias.HowManyViasFit | src/atoms/sky130_tap.cc:65-76 | The greatest number of vias that fit with spaces between them only. |
| Vias.StackVias | src/atoms/sky130_tap.cc:171-178 | The column of vias of the given width starts at the span, stays in it, has the spacing between any two, and is as long as fits. |

## Left out

- Flattening through slices and concatenations is fatal in the source and a failure here; circuit parameters, domains, power and ground marks, and instance references are not modelled.
- `Circuits.Circuit.AddCircuit`: does not model instance parameters and references, and ports of both circuits on one signal name become one, as in the source.
- `Circuits.Circuit.Flatten`: the names of the ports of the flattened circuit are stated, not their order and directions, which depend on the order in which instances are visited.
- `InterconnectMux1.Generate`: clock buffers, output buffers, power and decaps, which the source adds between the parts modelled, are left out.
- Power and ground nets of transmission gates, clock wiring and output buffers of the muxes: they add connections of the same kind.
- `ViaSearch.Explore`: the source binds the queue's top by reference and pops it before use (src/physical_properties_database.cc:556-557); the model uses the popped value, as the comment there intends. Costs are real numbers, an unknown cost is infinite, and every layer that a via connects has rules with a cost that is not negative.
- Via lookup models the table of via layers; via encapsulation rules, loading a technology (`LoadTechnology`, `AddLayerInfo`) and pin layers are data entry.
- Rows have no blank space, which the source does not keep out of taps' way, and do not grow downwards (unused). Instances are their tiling boxes; instance names, the registry of instances and circuit instances are bookkeeping beside them. The tap limit is the default of 15000.
- Banks are aligned left, right or not at all; other compass values end the program.
- `Circuits.Circuit.GenerateDefaultName`: the counter of default names is assumed to start at zero with no such name taken by hand; a clash is fatal in the source and in `AddSignal`.
- `Utility.Rebalance`: the debug check that the minimum is no greater than the maximum is a precondition.
- Nets of the mux circuits are identified by their names, so the tables behind signals, and the check for duplicate names when SCAN_IN and the inputs are added, are not modelled there; `Circuits` models them.
- The muxes' memories are placed by grid position: their boxes are the subject of `Banks`. Below three inputs the single-output mux fails a debug check, and below two the stack builder is fatal.
- The dual-output mux is modelled up to its gates and their assignment, not with its scan chain, which the single-output mux shares.
- `GateAssignments.FindGateAssignment`: a sort that leaves equal keys in place stands for `std::sort`.
- `Wires.IntersectsInMutualBounds`: wires are horizontal and at one height, as the mux makes them, and quotients of doubles are real quotients.
- `DesignDatabase.WriteTop`: what is written per cell, and missing parent cells, are not modelled. A cell's address is its number.
- `DesignDatabase.OrderCells` compares cells by direct ancestry only, which is no ordering; `WriteTop` does not use it.
- `Vias.DistributeVias`: spans are axis-aligned, where distances along the line are exact; other angles go through floating point.
- Routing, drawing of cells, polylines, input and output, logging and unit conversion (the unit scale is 1).
