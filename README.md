# Time-of-day scenario preparation for tm2py, in Dafny

This project models the network-preparation core of tm2py's time-of-day
scenario builder (`tm2py/model/prepare/create_tod_scenarios.py`). It also
models two small routines from `tm2py/tools.py`. The model covers:

- **Area types.** Each small zone (MAZ) whose centroid is in the network gets a
  density-based area-type code 0–5. The density is taken over a square buffer
  of neighbouring zones. Each highway link then gets the smaller code of the
  zones nearest its two end nodes (`AreaType`). The spatial grid index used for
  this is modelled by its contract (`SpatialIndex`).
- **Highway link attributes.** The capacity class ("capclass"), the free-flow
  speed from the capclass lookup table (default 25 mph), and the free-flow time
  (`LinkAttributes`).
- **Time-of-day slicing.** The reference scenario's extra attributes whose names
  end in a period name are grouped by domain and root. For each period, the
  period's scenario slot is replaced by a titled copy of the reference. Each
  group is then reduced to one canonical attribute that holds the period's
  values (`TimePeriods`, whose scenario database is the class `Emmebank`).
- **Transit network rules.**
  - Highway attributes are copied onto transit links by `#link_id`.
  - The configured modes and vehicles are created or checked for clashes.
  - Transit times come from the guideway speeds or the free-flow speed.
  - Lines get their vehicles and add their mode to the links they run on.
  - Walk, access and egress modes are laid from the centroid and walk-link flags.
  - Each period scenario keeps only its own period's lines (`Transit`, plus the
    bank-level pass in `TimePeriods`).
- **`parse_num_processors`.** It reads a processor-count setting: "MAX", a digit
  string, "MAX-X" or a number (`Processors`). The machine's CPU count is a
  parameter.
- **The zone index of `df_to_omx`.** This covers the sorted distinct zone ids,
  the zone-to-position map and the row-major flat cell index. It also covers
  zero-filled matrices, where the last write to a cell wins (`OmxIndex`).

Networks are values. A pass takes a network and returns the updated one, as
the platform's get-network / publish-network pair does. State that the source
updates in place is held in classes: the spatial index's insertions and the
scenario database's scenarios. Loops that update state are methods, proved
against specification functions; the properties are lemmas about those
functions.

Files:

- `wrappers.dfy`: `Option` and `Result`.
- `sets.dfy`: picking an element of a set.
- `network.dfy`: nodes, links, modes, vehicles, lines.
- `spatial_index.dfy`: the spatial index.
- `area_type.dfy`: area types.
- `link_attributes.dfy`: capclass and speed.
- `time_periods.dfy`: slicing and the scenario database.
- `transit.dfy`: the transit rules.
- `ascii.dfy`: character and digit helpers.
- `processors.dfy`: the processor-count parser.
- `omx_index.dfy`: the zone index.

## Model

| member | source | states |
|---|---|---|
| AreaType.Density | tm2py/model/prepare/create_tod_scenarios.py:338-341 | density times acres is pop + 2.5·emp when acres > 0; density is 0 otherwise |
| AreaType.AreaTypeCode | tm2py/model/prepare/create_tod_scenarios.py:343-354 | the code is in 0..5; for each breakpoint 6/30/55/100/300, the density is below the k-th breakpoint iff the code is ≥ 5−k |
| AreaType.AreaTypeCodeAntitone | tm2py/model/prepare/create_tod_scenarios.py:343-354 | a higher density never gives a larger (less urban) code |
| AreaType.DensityAntitone | tm2py/model/prepare/create_tod_scenarios.py:338-354 | over the same positive acreage, more population or jobs gives at least the density and at most the code |
| AreaType.NoAcreageIsRural | tm2py/model/prepare/create_tod_scenarios.py:338-344 | a buffer with no acreage has code 5 |
| AreaType.BufferTotalsPick | tm2py/model/prepare/create_tod_scenarios.py:334-336 | the buffer totals do not depend on the order in which zones are summed |
| AreaType.SumBuffer | tm2py/model/prepare/create_tod_scenarios.py:334-336 | sums population, jobs and acres over exactly the ids the square query returned |
| AreaType.IndexZones | tm2py/model/prepare/create_tod_scenarios.py:320-325 | indexes every node with a non-zero zone id, in node order, and records each zone's last centroid coordinates; fails iff some node names a zone missing from the land-use table |
| AreaType.ClassifyZones | tm2py/model/prepare/create_tod_scenarios.py:326-354 | every zone with coordinates gets the code of its square buffer; zones without coordinates keep no code |
| AreaType.ZoneInOwnBuffer | tm2py/model/prepare/create_tod_scenarios.py:330-332 | with a buffer of at least 0, a zone with coordinates is among the ids of its own square query |
| AreaType.MinAreaType | tm2py/model/prepare/create_tod_scenarios.py:360-363 | the result is ≤ both codes and equal to one of them |
| AreaType.ClassifyLinks | tm2py/model/prepare/create_tod_scenarios.py:356-363 | each link's area type is the min of the codes of zones nearest its i- and j-nodes; nothing else on the link changes; fails iff there are links but no indexed zone |
| AreaType.SetAreaType | tm2py/model/prepare/create_tod_scenarios.py:308-363 | the whole pass: it fails iff a node names an unknown zone or there are links and no zone centroid; otherwise only link area types change, each as in ClassifyLinks over the classified zones |
| AreaType.LinkAreaTypeBounds | tm2py/model/prepare/create_tod_scenarios.py:356-363 | a link's code is in 0..5, is ≤ the codes of both end zones and equals one of them |
| SpatialIndex.SquareIdsExact | tm2py/model/prepare/create_tod_scenarios.py:330-332 | the square query answers exactly the ids inserted at a point inside the square, borders included |
| SpatialIndex.LastAtInserted | tm2py/model/prepare/create_tod_scenarios.py:321-325 | every inserted id has recorded coordinates |
| SpatialIndex.LastAtWitness | tm2py/model/prepare/create_tod_scenarios.py:321-325 | the coordinates recorded for an id are the point of one of its insertions |
| SpatialIndex.SpatialGridIndex.Insert | tm2py/model/prepare/create_tod_scenarios.py:325 | appends the insertion (id, point) |
| SpatialIndex.SpatialGridIndex.WithinSquare | tm2py/model/prepare/create_tod_scenarios.py:332 | the ids inserted inside the axis-aligned square of half-width r |
| SpatialIndex.SpatialGridIndex.Nearest | tm2py/model/prepare/create_tod_scenarios.py:358-359 | None iff nothing was inserted; otherwise an id inserted at minimum Euclidean distance |
| LinkAttributes.Capclass | tm2py/model/prepare/create_tod_scenarios.py:368-372 | −1 for a negative area type; otherwise a code whose tens are the area type and whose units are a one-digit facility type |
| LinkAttributes.CapclassInjective | tm2py/model/prepare/create_tod_scenarios.py:372 | classified links with one-digit facility types share a capclass only if area type and facility type both agree |
| LinkAttributes.SetCapclass | tm2py/model/prepare/create_tod_scenarios.py:366-372 | every link gets Capclass(area type, ft) and no other attribute changes |
| LinkAttributes.LastSpeedIsLastRow | tm2py/model/prepare/create_tod_scenarios.py:376-378 | the table's speed for a capclass is v iff some row gives it v and no later row gives it a speed |
| LinkAttributes.BuildSpeedMap | tm2py/model/prepare/create_tod_scenarios.py:375-378 | the map holds exactly the capclasses with a speed row, each with its last speed |
| LinkAttributes.FreeFlowTime | tm2py/model/prepare/create_tod_scenarios.py:382-383 | time × divisor = 60 × length, where the divisor is the speed or, when that is 0, 25 |
| LinkAttributes.SetSpeed | tm2py/model/prepare/create_tod_scenarios.py:374-383 | each link's speed is its capclass's last table speed (even 0), or 25 when absent; its time is FreeFlowTime of that speed; nothing else changes |
| LinkAttributes.ZeroAndMissingSpeedTimes | tm2py/model/prepare/create_tod_scenarios.py:380-383 | a missing capclass and a zero speed both time the link at 25 mph; only the missing one stores 25 as the speed |
| TimePeriods.StripSuffix | tm2py/model/prepare/create_tod_scenarios.py:284-285 | root + suffix = name for a non-empty suffix; Python's `name[:-0]` gives the empty root |
| TimePeriods.Canonical | tm2py/model/prepare/create_tod_scenarios.py:297-298 | removes exactly one trailing "_" and leaves other roots alone |
| TimePeriods.Title | tm2py/model/prepare/create_tod_scenarios.py:291 | the title is the prefix of "<period> <reference title>" of length min(length, 60) |
| TimePeriods.MembersAdd | tm2py/model/prepare/create_tod_scenarios.py:285 | appending to a group adds the name to that group's members and to no other group's |
| TimePeriods.AddMemberAt | tm2py/model/prepare/create_tod_scenarios.py:285 | an existing group is extended in place |
| TimePeriods.AddMemberNew | tm2py/model/prepare/create_tod_scenarios.py:285 | a new group is opened at the end |
| TimePeriods.MembersAddAttribute | tm2py/model/prepare/create_tod_scenarios.py:283-285 | checking one attribute against the periods records it under each root that precedes a period name it ends with, and nowhere else |
| TimePeriods.DiscoverMembers | tm2py/model/prepare/create_tod_scenarios.py:274-285 | n is in group (d, root) iff the reference lists n in domain d and n ends with some period name preceded by root; so a name ending in two period names lands under two roots |
| TimePeriods.FindGroup | tm2py/model/prepare/create_tod_scenarios.py:285 | the first group with the key, or −1 when none has it |
| TimePeriods.DiscoverGroups | tm2py/model/prepare/create_tod_scenarios.py:274-285 | the nested loops build exactly Discover(listing, periods) |
| TimePeriods.InDomain | tm2py/model/prepare/create_tod_scenarios.py:294 | exactly the groups of that domain |
| TimePeriods.ByDomain | tm2py/model/prepare/create_tod_scenarios.py:276-282 | the reduction order holds exactly the discovered groups |
| TimePeriods.ListAttributes | tm2py/model/prepare/create_tod_scenarios.py:282 | lists every extra attribute of the scenario exactly once, with its domain |
| TimePeriods.ReduceGroupsStops | tm2py/model/prepare/create_tod_scenarios.py:294-306 | the first failing group ends the period's reduction |
| TimePeriods.DeleteAllEffect | tm2py/model/prepare/create_tod_scenarios.py:299-301 | deleting the other members succeeds iff each is present and named once; then exactly those names are gone |
| TimePeriods.ReduceGroupEffect | tm2py/model/prepare/create_tod_scenarios.py:295-306 | after a successful reduction the canonical attribute holds the period attribute's domain, description and values; the period attribute and the other members are gone; no other name changes |
| TimePeriods.ReduceGroupsFrame | tm2py/model/prepare/create_tod_scenarios.py:294-306 | names that no group touches survive a period's reduction unchanged |
| TimePeriods.SliceComplete | tm2py/model/prepare/create_tod_scenarios.py:294-306 | when the groups touch disjoint names and the reduction succeeds, every group is reduced |
| TimePeriods.ReduceGroupOn | tm2py/model/prepare/create_tod_scenarios.py:295-306 | the step-by-step delete/create/copy/delete sequence is exactly ReduceGroup, including which error stops it: a missing member, an existing canonical name, a missing source (the failing lookup at line 303) or a domain mismatch |
| TimePeriods.ReduceGroupDeleteFails | tm2py/model/prepare/create_tod_scenarios.py:299-301 | a deletion of an absent member fails the group there |
| TimePeriods.DeleteAllFails | tm2py/model/prepare/create_tod_scenarios.py:299-301 | the first failing deletion ends the deletions |
| TimePeriods.EnsureAttributes | tm2py/model/prepare/create_tod_scenarios.py:119-126 | creates each named attribute the scenario lacks, in the domain, and keeps existing ones unchanged |
| TimePeriods.EnsureReferenceAttributes | tm2py/model/prepare/create_tod_scenarios.py:159-166 | afterwards the reference has the four highway link attributes of lines 119-126 and, for transit, "@trantime" too; the names it lacked are created empty in the link domain and existing attributes are kept |
| TimePeriods.SlicedBank | tm2py/model/prepare/create_tod_scenarios.py:286-306 | slots are added for the periods; other scenarios are unchanged |
| TimePeriods.SlicedBankSlot | tm2py/model/prepare/create_tod_scenarios.py:286-306 | each slot holds the slice of the last period that uses it |
| TimePeriods.Emmebank.CopyForPeriod | tm2py/model/prepare/create_tod_scenarios.py:288-291 | the slot is replaced by the reference with the period title |
| TimePeriods.Emmebank.ReducePeriod | tm2py/model/prepare/create_tod_scenarios.py:292-306 | reduces the groups in order in the slot; the error and the new table are those of ReduceGroups |
| TimePeriods.Emmebank.PreparePeriod | tm2py/model/prepare/create_tod_scenarios.py:286-306 | the period succeeds iff its slot is not the reference and its reduction succeeds; deleting the reference slot is reported; other slots are untouched |
| TimePeriods.Emmebank.PrepareScenariosAndAttributes | tm2py/model/prepare/create_tod_scenarios.py:270-306 | a missing reference is an error and changes nothing; otherwise it succeeds iff every period is fine, the bank is then SlicedBank of the discovered groups in domain order, and scenarios outside the period slots are untouched |
| TimePeriods.Emmebank.RemoveOtherPeriodLines | tm2py/model/prepare/create_tod_scenarios.py:259-268 | succeeds iff every period's scenario exists, leaving PrunedBank; an absent scenario stops the pass and is reported, and the earlier periods stay pruned |
| TimePeriods.PreparedSlot | tm2py/model/prepare/create_tod_scenarios.py:286-306 | with one period per slot, the slot holds the reference network, the period title and every group reduced to the period's values |
| TimePeriods.PrunedScenario | tm2py/model/prepare/create_tod_scenarios.py:262-268 | a line is kept iff its upper-cased period is the period's; title, attributes, nodes, links, modes and vehicles are unchanged |
| TimePeriods.PrunedBank | tm2py/model/prepare/create_tod_scenarios.py:259-268 | no scenario is added or removed; scenarios that are no period's slot are unchanged |
| TimePeriods.PrunedSlot | tm2py/model/prepare/create_tod_scenarios.py:259-268 | a slot used by one period keeps exactly that period's lines |
| TimePeriods.TransitPeriodScenario | tm2py/model/prepare/create_tod_scenarios.py:256-268 | after preparation and pruning, a transit period's scenario has the period title, the reduced attributes and the reference network's lines of that period, in order |
| Transit.AutoLinkFor | tm2py/model/prepare/create_tod_scenarios.py:170-174 | the auto link found has the id, and none is found iff no auto link has it |
| Transit.AutoLinkForIsLast | tm2py/model/prepare/create_tod_scenarios.py:170-172 | a later auto link with the same id replaces an earlier one |
| Transit.BuildLinkLookup | tm2py/model/prepare/create_tod_scenarios.py:170-172 | the lookup maps each id to its last auto link |
| Transit.CopyAutoAttributes | tm2py/model/prepare/create_tod_scenarios.py:173-178 | links with an auto counterpart get its four highway attributes; other links are unchanged |
| Transit.ApplyModesTyped | tm2py/model/prepare/create_tod_scenarios.py:184-191 | after a successful mode table, every configured mode has its row's type and the other modes are unchanged |
| Transit.ApplyModesErr | tm2py/model/prepare/create_tod_scenarios.py:185-190 | the mode table fails iff some row meets an existing or earlier mode of another type |
| Transit.ApplyModesValues | tm2py/model/prepare/create_tod_scenarios.py:191-195 | each configured mode carries its last row's name; an aux-transit mode has its last row's speed, other modes keep their speed (0 when created); modes the table does not name are unchanged |
| Transit.ApplyModesStops | tm2py/model/prepare/create_tod_scenarios.py:188-190 | the first failing row ends the table |
| Transit.LoadModes | tm2py/model/prepare/create_tod_scenarios.py:180-202 | the loop yields exactly ApplyModes and the walk, access and egress mode sets |
| Transit.LastVehicleRow | tm2py/model/prepare/create_tod_scenarios.py:206-215 | the row found has the id and is in the table; none is found iff no row has it |
| Transit.LastVehicleRowIsLast | tm2py/model/prepare/create_tod_scenarios.py:206-215 | the row a vehicle id gets is the last row with that id |
| Transit.LastModeRowIsLast | tm2py/model/prepare/create_tod_scenarios.py:184-195 | the row a mode id gets is the last row with that id |
| Transit.ApplyVehiclesOk | tm2py/model/prepare/create_tod_scenarios.py:206-215 | after a successful vehicle table, configured vehicles carry their last row's mode, equivalence and capacities; other vehicles are unchanged; existing vehicles keep their mode |
| Transit.ApplyVehiclesErr | tm2py/model/prepare/create_tod_scenarios.py:207-212 | the vehicle table fails iff some row meets an existing or earlier vehicle of another mode, or creates a vehicle on a mode that does not exist |
| Transit.VehicleConflictLast | tm2py/model/prepare/create_tod_scenarios.py:207-212 | given the earlier rows' outcome, the last row fails iff it conflicts |
| Transit.ApplyVehiclesStops | tm2py/model/prepare/create_tod_scenarios.py:210-212 | the first failing row ends the table |
| Transit.LoadVehicles | tm2py/model/prepare/create_tod_scenarios.py:205-215 | the loop yields exactly ApplyVehicles |
| Transit.TransitTime | tm2py/model/prepare/create_tod_scenarios.py:219-229 | time × guideway speed = 60 × length for CRAIL/HRAIL/LRAIL/FERRY; otherwise time × free-flow speed = 60 × length on freeways (ft 1), with 1.65 min per mile added elsewhere; a non-positive speed keeps the old time |
| Transit.ArterialPenalty | tm2py/model/prepare/create_tod_scenarios.py:224-227 | off freeways the transit time exceeds the freeway formula by 1.65 × length |
| Transit.SetTransitTimes | tm2py/model/prepare/create_tod_scenarios.py:220-232 | each link gets TransitTime computed on its original length; links touching a centroid are then shortened to 0.01 miles |
| Transit.LineModesStep | tm2py/model/prepare/create_tod_scenarios.py:239-240 | one more line adds its vehicle's mode to exactly the links it runs on |
| Transit.AddModeOnSegments | tm2py/model/prepare/create_tod_scenarios.py:239-240 | the links the segments run on gain the mode and nothing else changes |
| Transit.AssignLineVehicles | tm2py/model/prepare/create_tod_scenarios.py:233-241 | fails iff some line's vehicle is missing, reporting the first such line; otherwise each line gets its vehicle and each link gains the modes of the lines that run on it |
| Transit.AuxLinkModes | tm2py/model/prepare/create_tod_scenarios.py:245-251 | non-aux modes are kept; the aux modes become exactly egress (i-node centroid), else access (j-node centroid), else walk (walk link), else none |
| Transit.AssignAuxModes | tm2py/model/prepare/create_tod_scenarios.py:243-251 | every link's modes become AuxLinkModes; nothing else changes |
| Transit.PeriodLines | tm2py/model/prepare/create_tod_scenarios.py:265-267 | a line is kept iff its upper-cased period equals the upper-cased period name |
| Transit.PeriodLinesIdempotent | tm2py/model/prepare/create_tod_scenarios.py:265-267 | pruning the lines of other periods twice gives the same lines as pruning once |
| Transit.RemoveOtherPeriodLines | tm2py/model/prepare/create_tod_scenarios.py:260-267 | the deletion loop leaves exactly PeriodLines, in order |
| Transit.PreparedLink | tm2py/model/prepare/create_tod_scenarios.py:173-251 | a prepared link keeps its id, ends, ft and walk flag; its non-aux modes are its own plus its lines' modes; its aux modes are the chosen ones; connectors measure 0.01 miles |
| Transit.PrepareTransitNetwork | tm2py/model/prepare/create_tod_scenarios.py:167-251 | fails on the first mode clash, else on the first vehicle clash, else iff a line's vehicle is missing; otherwise modes and vehicles are the tables' outcome, lines have their vehicles, and every link is PreparedLink |
| Processors.ParseCountAccepts | tm2py/tools.py:31-41 | a string is accepted iff it is "MAX" in any case, decimal digits (perhaps with one final newline), or "MAX", whitespace, "-" and text int() reads, all in any case; every other string is refused, with the format error |
| Processors.ParseNumProcessors | tm2py/tools.py:19-48 | a number is accepted iff int(value) is in 1..maxp and is then returned unchanged, else above/below errors; a string gives an integer or a format error |
| Processors.MaxAnyCase | tm2py/tools.py:32-35 | "MAX" in any letter case gives the processor count |
| Processors.CountRoundTrip | tm2py/tools.py:36-37 | the canonical decimal text of any count gives that count back, with no check against the processor count |
| Processors.DigitsCount | tm2py/tools.py:36-37 | any digit string, leading zeros and one final newline allowed, gives the number int() reads from it, with no range check |
| Processors.DigitsAsInt | tm2py/tools.py:37 | int() of a matched digit string is the value of its digits |
| Processors.MaxMinusReads | tm2py/tools.py:38-40 | a string whose upper case is "MAX", whitespace, "-" and whitespace, a sign and digits, whitespace gives max(maxp − x, 1) for the signed value x ("max - 3", "MAX-+3", "MAX--2" included) |
| Processors.MaxDashAccepts | tm2py/tools.py:38-40 | the split and int() both succeed iff the upper-cased text is "MAX", whitespace, "-" and text int() reads |
| Processors.StringCountsPositive | tm2py/tools.py:38-40 | with at least one processor, a parsed "MAX…" form is at least 1 |
| Processors.Truncate | tm2py/tools.py:43 | int() of a float truncates toward zero |
| Processors.DigitPart | tm2py/tools.py:36-37 | the digits of a matched string, without the optional final newline |
| Processors.ParseIntAccepts | tm2py/tools.py:40 | int() accepts a string iff it is whitespace, an optional sign, one or more digits and whitespace |
| Processors.ParseIntReads | tm2py/tools.py:40 | such a string is read as its signed digit value, leading zeros included |
| Processors.AfterMaxDash | tm2py/tools.py:38 | a remainder is found only in text that starts with "MAX" |
| OmxIndex.ZoneIds | tm2py/tools.py:260 | strictly increasing, holding exactly the origin and destination ids |
| OmxIndex.IncreasingUnique | tm2py/tools.py:260 | the sorted distinct list of a set of ids is unique |
| OmxIndex.ZoneMap | tm2py/tools.py:264 | each zone id maps to its position |
| OmxIndex.FlatIndexDecodes | tm2py/tools.py:267-269 | the flat index lies in [0, n·n) and decodes by / n and % n to the origin and destination positions |
| OmxIndex.FlatIndexInjective | tm2py/tools.py:267-269 | distinct (origin, destination) pairs get distinct flat indexes |
| OmxIndex.RowCellsCollide | tm2py/tools.py:267-269 | two rows get the same cell iff they have the same origin and destination |
| OmxIndex.RowCellsInMatrix | tm2py/tools.py:267-281 | every row's cell lies in the matrix |
| OmxIndex.UnaddressedCellIsZero | tm2py/tools.py:276-281 | a cell that no row addresses stays 0 |
| OmxIndex.SingleRowCell | tm2py/tools.py:277-281 | a cell that one row alone addresses holds that row's value |
| OmxIndex.FillMatrix | tm2py/tools.py:276-281 | a fresh n·n zero array in which each cell holds the value of the last row that writes it |
| OmxIndex.Matrix | tm2py/tools.py:276-281 | the filled matrix as a sequence |
| OmxIndex.BuildMatrices | tm2py/tools.py:275-281 | fails iff a requested column is missing; otherwise one filled matrix per requested name |
| OmxIndex.DfToOmx | tm2py/tools.py:257-281 | the zone mapping is ZoneIds; it fails iff a requested column is missing; otherwise each matrix holds the values addressed by the rows' flat indexes |
| Ascii.Upper | tm2py/tools.py:33 | upper-casing keeps the length and maps each character |
| Ascii.UpperIdempotent | tm2py/tools.py:33 | upper-casing twice is upper-casing once |
| Ascii.NatToStringRoundTrip | tm2py/tools.py:36-37 | a count's decimal text reads back as the count |

## Left out

- Emme platform calls such as get-network and publish-network are not modelled. A network is a value returned to the caller.
- The scenario-dimension change is not modelled.
- VDF function templates and their registration (lines 91–117 and 151–157) are not modelled.
- The projection of coordinates (`_project_coordinates`) and reading the land-use CSV file are not modelled. The land-use table enters as an already-parsed map from zone id to (POP, emp_total, ACRES).
- Logging decorators are not modelled.
- The OMX file open, mapping, create and close calls are not modelled. `DfToOmx` returns the mapping and the matrices instead of writing them.
- The sequencing inside `_create_highway_scenarios` and `_create_transit_scenarios` is not a member. Each pass is modelled, and `TimePeriods.TransitPeriodScenario` composes the preparation with the line pruning.
- `SpatialIndex.SpatialGridIndex.Insert`: a second insertion of an id (two nodes with the same `@maz_id`, lines 322-325) is kept beside the first, because the grid's own policy is not part of this model. `WithinSquare` returns a set, so that zone is summed once at line 334 if either point is in the square. `LastAt` gives the later point, as the coordinates stored at line 324 do.
- `SpatialIndex.SpatialGridIndex`: the grid implementation lives in `tm2py/core/tools.py`, which is not part of this model.
  - The index is given by its contract.
  - Queries scan the insertions.
  - On ties, `Nearest` returns one of the nearest ids without saying which.
  - A `nearest` query on an empty index is modelled as the error `EmptyIndex`.
- `TimePeriods.ListAttributes`: the platform lists attributes in an order this model does not know. The listing is any order with each attribute once. Group order follows it.
- `TimePeriods.ReduceGroup`: creating an existing attribute and deleting an absent one are modelled as errors. These are assumptions about the platform.
- `TimePeriods.NewValues`: a created attribute's default fill is not modelled. It holds an empty value sequence until values are copied in.
- `Transit.NewModeSpeed`: a created mode's default speed is not modelled. It is 0 until a speed is set.
- `Transit.AssignLineVehicles`: segments are link indexes. A line's itinerary is not otherwise modelled.
- Error paths return `Err` without the partially updated network. The source raises before publishing, so that network is discarded.
- Transit vehicle capacities and equivalences are not range-checked.
- `Processors.ParseCount`: a "MAX-" prefix followed by text `int()` refuses raises a different exception type from the source's own format error; both are the one `BadFormat` error here.
- `Processors.Truncate`: a setting given as a float is a real number here. `int()` of NaN or an infinity raises at line 43, and such values are not modelled.
- `Transit.PeriodLines`: `.upper()` at lines 260 and 266 is modelled by `Ascii.Upper`, which changes only ASCII letters. Non-ASCII period names are not case-mapped.
- `Processors.ParseNumProcessors`: only ASCII whitespace and letter case are modelled. Python's `int()` acceptance of underscores between digits and of non-ASCII digits is not modelled. `re`'s `$` is modelled as matching before one final newline.
- `LinkAttributes.FreeFlowTime`, `Transit.TransitTime` and `AreaType.Density`: arithmetic is exact real arithmetic, not IEEE doubles. The source only compares and divides, so no rounding behaviour is modelled.
- The speed lookup comment at line 380 says a zero table speed defaults to 25, but line 381 stores the 0. The model follows the code, and `LinkAttributes.ZeroAndMissingSpeedTimes` states the difference: only the time defaults.
