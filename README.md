# yy1 nozzle planning, in Dafny

This project models the core of `yy1`, a converter that turns a KiCad
position file into the CSV job files of a YY1 pick-and-place machine. The
modelled part is the one that plans which head places each component, and
which nozzle changes the machine performs before it.

- `yy1.dfy` (module `Yy1`, from `src/yy1/mod.rs`) holds the records and
  enumerations:
  - nozzle kinds and their derived order;
  - the two heads and `!`, and the three nozzle stations;
  - the nozzle change, its `Default` and its header line;
  - the component row, its placeholder and the conversion from a KiCad row;
  - the package renaming rule.
- `planner.dfy` (module `Planning`, from `src/yy1/planner.rs`) holds the
  nozzle configuration and the planner.
  - `NozzleState` is the value of a configuration (the Rust struct is
    `Copy`), with all the lookups.
  - Class `NozzleConfig` is the planner's own copy, which `DropNozzle` and
    `PickupNozzle` update in place.
  - The planner is class `Planner`, whose `Plan` updates its fields in place.
    `Plan` is proved equal to the pure step `PlanStep` on the planner's value
    `PlannerState`, and the planner's properties are proved about that step.
- `converter.dfy` (module `Converter`, from `src/yy1/converter.rs`) holds the
  rest of the converter:
  - `PickAndPlaceStep::assign_nozzles`: the comparator sort, the loop that
    calls `plan` until it names a head, `finalize` and the placeholder row;
  - the loop that hands the components to the steps;
  - the choice of the four header changes.

  Class `PickAndPlaceStep` runs `assign_nozzles` in place, and each of its
  methods is proved against a pure function:
  - `AssignNozzles` against `AssignStep`;
  - `AssignHeads` and `AssignRow` against `RunPlanner`;
  - `PlanUntilHead` against `PlanComponent`.

  The module-level method `Distribute` runs the distribution loop over the
  step objects in place, and is proved against the function `Routed`.

The source says nothing about what a nozzle change does to the machine, so
the model states it as `Planning.Apply`. Under that meaning:

- a change that `plan` emits never loses or duplicates a nozzle
  (`ConsistentKeepsCounts`);
- every component that needs a nozzle is given a head that holds it once
  the changes anchored before it are made (`AssignStepRows`); a component
  without a nozzle keeps its row as it was;
- the reversals `finalize` appends bring the machine back to the step's
  starting configuration (`AssignStepChanges`).

A Rust panic (`unreachable!()` in `plan`, the `assert!` in `finalize`) is
the value `Panic` of `Yy1.Result`, not a precondition. The
`unreachable!()` in `drop_nozzle` and the `unwrap()` in `pickup_nozzle`
can only fail if the caller is wrong, so they are preconditions. Every
caller is proved to meet them: a station is always free, and `plan` only
picks up a nozzle it found in a station.

## Model

| member | source | states |
|---|---|---|
| Yy1.Ordinal | src/yy1/mod.rs:95-127 | each nozzle kind's declaration position, below 14, which is what the derived `Ord` compares |
| Yy1.OrdinalInjective | src/yy1/mod.rs:95-127 | two nozzle kinds have the same position exactly when they are the same kind |
| Yy1.Not | src/yy1/mod.rs:282-291 | `!` gives the other head |
| Yy1.NotInvolution | src/yy1/mod.rs:282-291 | `!` applied twice gives the head back and never fixes a head |
| Yy1.HeadNumber | src/yy1/mod.rs:276-280 | the discriminant written into the Head column is 1 exactly for Head1 and 2 otherwise |
| Yy1.StationNumber | src/yy1/mod.rs:269-274 | station numbers 1 to 3, which order the stations for a drop |
| Yy1.DefaultChange | src/yy1/mod.rs:312-322 | the default change is disabled, before component 1, on Head1, dropping into and picking up from Station3 |
| Yy1.NatToString | src/yy1/mod.rs:303-309 | the decimal rendering of the component number is non-empty and all digits |
| Yy1.NatToStringValue | src/yy1/mod.rs:303-309 | the rendering reads back, most significant digit first, as the number itself |
| Yy1.NatToStringInjective | src/yy1/mod.rs:303-309 | distinct component numbers render differently |
| Yy1.AsString | src/yy1/mod.rs:302-310 | a header line starts with "NozzleChange,ON," exactly when the change is enabled |
| Yy1.PlacementFields | src/yy1/mod.rs:306-307 | the end of the line is the head, ",Drop,", the drop station, ",PickUp,", the pickup station and a comma, at fixed offsets |
| Yy1.LeadFields | src/yy1/mod.rs:304-306 | the lead is "NozzleChange,", then "ON" or "OFF", then ",BeforeComponent,"; it starts with "NozzleChange,OFF," exactly when the change is disabled |
| Yy1.AsStringSplit | src/yy1/mod.rs:305-308 | a header line is its lead, the component number, a comma and the placement, in that order |
| Yy1.AsStringState | src/yy1/mod.rs:304-306 | a header line starts "NozzleChange,ON," exactly when the change is enabled and "NozzleChange,OFF," exactly when it is disabled, followed by ",BeforeComponent," |
| Yy1.AsStringNumber | src/yy1/mod.rs:306-307 | after ",BeforeComponent," comes the component number in decimal, which reads back as `before_component`, then a comma |
| Yy1.AsStringPlacement | src/yy1/mod.rs:306-307 | the line ends with the head, then "Drop" and the drop station, then "PickUp" and the pickup station, each followed by a comma, in that order |
| Yy1.AsStringInjective | src/yy1/mod.rs:302-310 | equal header lines come from equal changes: the line keeps state, component number, head and both stations |
| Yy1.Placeholder | src/yy1/mod.rs:53-71 | the placeholder row "PH"/"Placeholder" is skipped and has no head, feeder, nozzle or speed |
| Yy1.FromKiCad | src/yy1/mod.rs:162-181 | a converted KiCad row keeps reference, value and package, is not skipped, has no head, feeder or nozzle and mounts at speed 100 |
| Yy1.PackageMap.Rename | src/yy1/mod.rs:332-340 | a rule renames exactly the package it names, to its target |
| Planning.NozzleState.GetHeadNozzle | src/yy1/planner.rs:36-41 | the nozzle on a head; WithHead, FindNozzleHead and PickupChange state what it returns after each update and search |
| Planning.NozzleState.WithHead | src/yy1/planner.rs:88-91 | replacing a head's nozzle changes that head only |
| Planning.NozzleState.WithStation | src/yy1/planner.rs:94-98 | filling or emptying a station changes that station only |
| Planning.NozzleState.FindNozzleHead | src/yy1/planner.rs:43-52 | a head found holds the nozzle; Head2 is found only when Head1 does not hold it; none is found exactly when neither holds it |
| Planning.NozzleState.IsActive | src/yy1/planner.rs:32-34 | a nozzle is active exactly when a head holds it |
| Planning.NozzleState.FindNozzleStation | src/yy1/planner.rs:54-65 | the station found holds the nozzle and no lower-numbered one does; none is found exactly when no station holds it |
| Planning.NozzleState.Contains | src/yy1/planner.rs:24-30 | true exactly when a head, Station1 or Station2 holds the nozzle; Station3 is not looked at |
| Planning.NozzleState.FirstEmptyStation | src/yy1/planner.rs:67-80 | the station `drop_nozzle` fills is empty and every lower-numbered station is full |
| Planning.NozzleConfig.constructor | src/yy1/planner.rs:5-21 | the planner's copy of a configuration holds exactly the given value |
| Planning.NozzleConfig.DropNozzle | src/yy1/planner.rs:67-80 | drops into the lowest-numbered empty station, returns it and changes nothing else |
| Planning.NozzleConfig.PickupNozzle | src/yy1/planner.rs:82-106 | returns the change `PickupChange` describes, and the configuration becomes what the machine holds after that change |
| Planning.PickupChange | src/yy1/planner.rs:82-106 | the change is enabled, for the given head and component, picks up from the nozzle's station and drops into a free station; afterwards the head holds the nozzle, the other head is untouched, the pickup station is empty, the drop station holds the old nozzle and a station is still free |
| Planning.ApplyKeepsCount | src/yy1/planner.rs:82-106 | a change with an empty drop station distinct from its pickup station keeps the number of places each nozzle kind occupies |
| Planning.ReversalUndoes | src/yy1/planner.rs:145-157 | a change followed by its swapped-station reversal restores the configuration |
| Planning.ReplayAppend | src/yy1/planner.rs:145-157 | performing two lists of changes one after the other is performing their concatenation |
| Planning.ReplayKeepsCount | src/yy1/planner.rs:159-187 | a history of reversible changes keeps every nozzle's count |
| Planning.Reversals | src/yy1/planner.rs:145-157 | the reversals are as many as the history, in reverse order, each swapping its stations and anchored at the given component |
| Planning.ReversalsRestore | src/yy1/planner.rs:145-157 | performing a feasible history and then its reversals restores the starting configuration |
| Planning.NozzleSeq | src/yy1/planner.rs:126 | the nozzles of the components, in order, with the rows without one skipped, no longer than the components; NozzleSeqAppend and SpansAreLastPositions state the rest |
| Planning.SpanFold | src/yy1/planner.rs:127-134 | the fold that records each nozzle's 1-based position; SpanFoldLastPositions states that the last position wins |
| Planning.Spans | src/yy1/planner.rs:126-134 | the span table; SpansAreLastPositions and NeededNozzleHasSpan state what it holds |
| Planning.NozzleSeqAppend | src/yy1/planner.rs:126 | collecting the nozzles of two runs of components is collecting each and concatenating |
| Planning.SpanFoldLastPositions | src/yy1/planner.rs:127-134 | the fold over the nozzles maps each one to the 1-based position of its last occurrence |
| Planning.SpansAreLastPositions | src/yy1/planner.rs:126-134 | the span table holds exactly the nozzles the step needs, each with its last 1-based position |
| Planning.NeededNozzleHasSpan | src/yy1/planner.rs:126-134 | the nozzle of a component has a span no smaller than that component's position |
| Planning.Expired | src/yy1/planner.rs:161-166 | an empty head is expired; a nozzle with no span is not |
| Planning.ExpiredMeansNotNeededAgain | src/yy1/planner.rs:161-166 | a mounted nozzle is expired exactly when the step needs it but at no position from the current one on |
| Planning.NewPlanner | src/yy1/planner.rs:125-143 | a new planner is at component 1 on Head1 with the given configuration, no history and the last-position span table |
| Planning.Planner.constructor | src/yy1/planner.rs:125-143 | the planner object's value is `NewPlanner` of its arguments |
| Planning.PlanStep | src/yy1/planner.rs:159-187 | one `plan` call on the planner's value; its contract is PlanStepSpec |
| Planning.PlanStepSpec | src/yy1/planner.rs:159-187 | `plan` emits a change exactly when the current head's nozzle is expired and a station holds the wanted one; the change is recorded, and after it the current head holds the nozzle. Otherwise it names a head holding the nozzle, preferring the current head, advances the component and toggles the current head only when it named it. It panics, changing nothing, exactly when no change is due and no head holds the nozzle |
| Planning.Planner.Plan | src/yy1/planner.rs:159-187 | updating the planner's fields in place gives the action and new value of `PlanStep`, and keeps a station free |
| Planning.Finalize | src/yy1/planner.rs:145-157 | succeeds exactly when the history has at most four changes, and then gives them in reverse order with stations swapped, anchored at the current component |
| Planning.HistoryStep | src/yy1/planner.rs:172 | appending a change reversible where it is made keeps a history feasible, and its effect is that change applied last |
| Planning.PlanKeepsConsistent | src/yy1/planner.rs:159-187 | `plan` keeps the configuration equal to the starting one with the recorded history performed |
| Planning.ConsistentKeepsCounts | src/yy1/planner.rs:159-187 | while planning, every nozzle kind occupies as many places as it did at the start, so none is lost or duplicated |
| Planning.FinalizeRestores | src/yy1/planner.rs:145-157 | performing `finalize`'s reversals on the planner's configuration gives back the starting configuration |
| Converter.CmpBool | src/yy1/converter.rs:268-270 | `bool::cmp`: false orders before true |
| Converter.CmpInt | src/yy1/converter.rs:271-273 | the integer comparison is less exactly when smaller and equal exactly when equal |
| Converter.KeyLessOfFour | src/yy1/converter.rs:264-280 | lexicographic order on four-element keys, spelled out |
| Converter.Compare | src/yy1/converter.rs:264-280 | the comparator of `sort_by`; CompareIsKeyOrder states it is the lexicographic order of SortKey |
| Converter.CompareIsKeyOrder | src/yy1/converter.rs:264-280 | the comparator orders components as their keys (mounted nozzle first, place height, nozzle position, feeder) are ordered lexicographically |
| Converter.KeyLessTransitive | src/yy1/converter.rs:264-280 | the key order is transitive |
| Converter.KeyLessIrreflexive | src/yy1/converter.rs:264-280 | the key order is irreflexive |
| Converter.KeyLessTotal | src/yy1/converter.rs:264-280 | any two keys are equal or ordered one way |
| Converter.KeyLessAsymmetric | src/yy1/converter.rs:264-280 | the key order is asymmetric |
| Converter.CompareAntisymmetric | src/yy1/converter.rs:264-280 | swapping the components swaps Less and Greater and keeps Equal |
| Converter.CompareTransitive | src/yy1/converter.rs:264-280 | the comparator's not-greater relation is transitive, so `sort_by` has a total order |
| Converter.MountedNozzlesFirst | src/yy1/converter.rs:266-270 | a component whose nozzle a head holds sorts before one whose nozzle no head holds |
| Converter.LowerPlaceHeightFirst | src/yy1/converter.rs:271-272 | when both nozzles are equally mounted, the lower place height sorts first |
| Converter.SortedPairwise | src/yy1/converter.rs:264-280 | in the sorted order every component is not greater than every later one |
| Converter.Insert | src/yy1/converter.rs:264-280 | inserting into a sorted list keeps it sorted and adds exactly that component |
| Converter.SortBy | src/yy1/converter.rs:264-280 | the sorted components are in comparator order and are a permutation of the input |
| Converter.Upto | src/yy1/converter.rs:282-297 | the changes anchored at or before a component, in order |
| Converter.UptoAppend | src/yy1/converter.rs:282-297 | selecting from two lists of changes is selecting from each |
| Converter.UptoAll | src/yy1/converter.rs:282-297 | when every change is anchored at or before a component, selecting keeps them all |
| Converter.NozzlePosStep | src/yy1/converter.rs:283-284 | the planner's component counter advances exactly at components with a nozzle |
| Converter.NozzlePosIncreasing | src/yy1/converter.rs:283-284 | a nozzle-bearing component's counter is below that of every later component |
| Converter.HeadsAssignedExtend | src/yy1/converter.rs:284-297 | a row assigned correctly extends the correctly assigned prefix by one |
| Converter.HeadsAssignedAppend | src/yy1/converter.rs:299-303 | appending rows, such as the placeholder, after the sorted components keeps every assignment |
| Converter.MountedByHead | src/yy1/converter.rs:288-289 | writing `head as u8` into the Head column names a head that holds the nozzle |
| Converter.HeadsAssignedAfterChange | src/yy1/converter.rs:290-292 | a change anchored at the next component does not alter the configuration seen by rows already assigned |
| Converter.HeadsAssignedAfterChanges | src/yy1/converter.rs:290-292 | the same for any number of changes anchored at the next component |
| Converter.PlanComponent | src/yy1/converter.rs:285-295 | the retry loop on the planner's value, ending when `plan` names a head or panics; its contract is PlanComponentSpec |
| Converter.PlanComponentSpec | src/yy1/converter.rs:285-295 | the retry loop ends with a head holding the nozzle, one component further on, with at most one new change, enabled and anchored at that component, and none when the current head already held the nozzle |
| Converter.PlanComponentUnfold | src/yy1/converter.rs:285-295 | one pass of the retry loop: a panic ends it, a head ends it, and a change leaves the nozzle on the current head with the same outcome to come |
| Converter.PlanComponentKeepsConsistent | src/yy1/converter.rs:285-295 | the retry loop keeps the planner consistent with the starting configuration |
| Converter.RunPlanner | src/yy1/converter.rs:282-297 | after the first j components the planner's counter is one past the nozzle-bearing ones so far, and every recorded change is enabled and anchored at a component already reached |
| Converter.RunPlannerPanicStays | src/yy1/converter.rs:282-297 | once `plan` panics, the rest of the loop does not undo it |
| Converter.RunPlannerStep | src/yy1/converter.rs:282-297 | one component more: a row without a nozzle is kept as is; a row with one gets the head the retry loop names |
| Converter.AssignedOneMore | src/yy1/converter.rs:284-297 | a row whose head holds its nozzle after the changes anchored up to it extends the assigned prefix |
| Converter.RunPlannerAssigns | src/yy1/converter.rs:282-297 | throughout the loop the planner's configuration is the start with its history performed, and every row so far names a head that holds its nozzle once the changes anchored up to it are made |
| Converter.Conclude | src/yy1/converter.rs:299-303 | `finalize`, then the reversals and the placeholder row when there are any; its contract is ConcludeValue |
| Converter.ConcludeValue | src/yy1/converter.rs:299-303 | after the loop: the history, at most four changes, then its reversals, with a placeholder row exactly when there are any |
| Converter.AssignStep | src/yy1/converter.rs:262-305 | the whole of `assign_nozzles` for a configured step as a value; AssignStepValue, AssignStepChanges and AssignStepRows state what it gives |
| Converter.AssignStepValue | src/yy1/converter.rs:262-305 | the step's rows and changes are those of the loop over the sorted components, then the reversals and the placeholder |
| Converter.AssignStepChanges | src/yy1/converter.rs:282-303 | at most four forward changes, each enabled and anchored at a component of the step, feasible where made, followed by their reversals anchored after the last component; together they return the machine to the step's configuration |
| Converter.AssignStepRows | src/yy1/converter.rs:264-303 | the rows are the components sorted by the comparator, each with a nozzle naming a head that holds it when the machine reaches it, plus a placeholder exactly when there are changes to undo |
| Converter.PickAndPlaceStep.constructor | src/yy1/converter.rs:152-157 | a new step has its configuration and file path and no components or changes |
| Converter.PickAndPlaceStep.PlanOnce | src/yy1/converter.rs:285-294 | one `plan` call of the retry loop: a head ends the loop with the outcome reached; a change is pushed onto the step's changes and puts the nozzle on the current head, which it did not hold before |
| Converter.PickAndPlaceStep.PlanUntilHead | src/yy1/converter.rs:285-295 | the retry loop, in place, gives the head and planner of `PlanComponent` and pushes exactly the planner's new changes |
| Converter.PickAndPlaceStep.AssignRow | src/yy1/converter.rs:283-296 | handling one more component, in place, succeeds exactly when `RunPlanner` does and then matches it |
| Converter.PickAndPlaceStep.AssignHeads | src/yy1/converter.rs:282-297 | the loop over the components, in place, succeeds exactly when `RunPlanner` does and leaves its rows and planner |
| Converter.PickAndPlaceStep.AssignNozzles | src/yy1/converter.rs:262-305 | without a configuration nothing changes; with one the step's rows and appended changes are those of `AssignStep`, and it panics exactly when `AssignStep` does |
| Converter.Hosts | src/yy1/converter.rs:163-167 | a step hosts a nozzle exactly when it has a configuration that contains it; FirstHost and TargetStep state the choice built on it |
| Converter.FirstHost | src/yy1/converter.rs:163-167 | the first step from an index on whose configuration contains the nozzle, or none when no step does |
| Converter.TargetStep | src/yy1/converter.rs:161-173 | a component with a nozzle goes to the first step containing it, or nowhere; one without goes to the first step if there is one |
| Converter.Routed | src/yy1/converter.rs:161-173 | the components the loop appends to a step; RoutedMembers, RoutedIsSubsequence and RoutedStep state which ones and in what order |
| Converter.RoutedMembers | src/yy1/converter.rs:161-173 | a component lands in a step exactly when it is not skipped and that step is its target |
| Converter.RoutedIsSubsequence | src/yy1/converter.rs:161-173 | each step's components keep the order of the input |
| Converter.SubsequenceExtend | src/yy1/converter.rs:161-173 | extending a subsequence and its sequence by the same component keeps it a subsequence |
| Converter.RoutedStep | src/yy1/converter.rs:161-173 | routing one more component appends it to its target step only |
| Converter.ConfigsOf | src/yy1/converter.rs:161-173 | the configurations of the steps, in order |
| Converter.Route | src/yy1/converter.rs:162-172 | one pass of the loop pushes the component onto its target step, leaves every other step's components as they were, and changes no step's nozzle changes |
| Converter.Distribute | src/yy1/converter.rs:161-173 | each step's components gain exactly the non-skipped components routed to it, in input order, and no step's nozzle changes are touched |
| Converter.NthOrDefault | src/yy1/converter.rs:233-236 | the `i`-th change or `NozzleChange::default()`; HeaderChanges states the four it gives |
| Converter.HeaderChanges | src/yy1/converter.rs:231-236 | the header holds four changes: the step's first four, then `NozzleChange::default()` for each missing one |
| Converter.HeaderLines | src/yy1/converter.rs:231-236 | the header has four change lines |
| Converter.HeaderDeterminesFirstFour | src/yy1/converter.rs:231-236 | the four header lines determine how many real changes the step has, up to four, and what they are |

## Left out

- CSV reading and writing, the header template, file names, command-line
  handling, `package.rs`, `main.rs`, panelization, offsets and fiducials are
  not part of this model.
- Most of `Converter::try_new` is not modelled: reading the configuration,
  the feeder lookup that sets each component's nozzle, and the package map.
  Only its distribution loop is modelled.
- Floating-point columns (positions, rotation, pick height) are left out.
  `place_height` is an integer, used only as a sort key, so the NaN and
  signed-zero ordering of `f32::total_cmp` is not modelled.
- Converter.SortBy: proved sorted and a permutation, but it does not
  capture that `sort_by` is stable, so the order of equal-key components is
  not pinned down.
- Converter.PickAndPlaceStep.AssignNozzles: the step's components are
  sorted as a value (`SortBy`), not in place in an array.
- Converter.Distribute: its steps must be distinct objects, as the
  elements of a Rust `Vec` always are. Steps with equal configurations are
  modelled: the first one that contains a nozzle receives its components.
- Planning.Apply, Planning.Count and Planning.Consistent are not in the
  source. They are the meaning the model gives a nozzle change, so that
  restoration and "no nozzle is lost or duplicated" can be stated.
- Converter.NozzlePos, Converter.Upto, Converter.ConfigBefore and
  Converter.Mounted are also the model's own meaning, not the source's.
  They read a change's `before_component` as the planner counts it: the
  position among the rows that need a nozzle, counted from 1. Sorted rows
  without a nozzle also appear in the file. Where such rows come before
  others, that position differs from the file row number, and the model
  does not claim the machine reads it either way.
- The model follows the code where its behaviour could be argued with:
  - a mounted nozzle the step never needs has no span and is not expired;
  - `finalize` checks only that the forward changes number at most four,
    not forward plus reversals, although the header has room for four
    lines in all;
  - `contains` does not look at Station3;
  - the header writes only the first four changes and drops any others
    silently;
  - a nozzle neither mounted nor in a station is a panic (`unreachable!`),
    not a reported error.
- Planning.NozzleConfig.DropNozzle and Planning.NozzleConfig.PickupNozzle:
  the `unreachable!()` when no station is free and the `unwrap()` of the
  pickup station are preconditions, which every caller is proved to meet.
