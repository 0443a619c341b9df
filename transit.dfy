/**
  Preparation of the transit reference network: the auto link attributes are
  copied over by link id, the configured modes and vehicles are created or
  checked, transit times are derived, lines get their vehicles and add their
  mode to the links they run on, and the walk, access and egress modes are laid
  on the links from the centroid and walk-link flags.  Each period scenario then
  keeps only the lines of its period.
*/
module Transit {
  import opened Wrappers
  import opened Network
  import opened Ascii

  datatype TransitError =
    | ModeTypeMismatch(mode: char)          // an existing mode has another assignment type
    | VehicleModeMismatch(vehicle: int)     // an existing vehicle runs another mode
    | UnknownVehicleMode(vehicle: int)      // a new vehicle's mode does not exist
    | MissingVehicle(line: string)          // a line's vehicle does not exist

  // ----- auto link attributes by "#link_id" -----

  /** The auto link a transit link takes its attributes from: the last one with that id. */
  function AutoLinkFor(auto: seq<Link>, id: int): (r: Option<Link>)
    ensures r.Some? ==> r.value in auto && r.value.linkId == id
    ensures r.None? <==> forall k :: 0 <= k < |auto| ==> auto[k].linkId != id
  {
    if auto == [] then None
    else if auto[|auto| - 1].linkId == id then Some(auto[|auto| - 1])
    else AutoLinkFor(auto[..|auto| - 1], id)
  }

  /** The lookup keeps the last auto link of each id. */
  lemma {:induction false} AutoLinkForIsLast(auto: seq<Link>, id: int, k: nat)
    requires k < |auto| && auto[k].linkId == id
    requires forall m :: k < m < |auto| ==> auto[m].linkId != id
    ensures AutoLinkFor(auto, id) == Some(auto[k])
  {
    if k < |auto| - 1 {
      AutoLinkForIsLast(auto[..|auto| - 1], id, k);
    }
  }

  /** link with the four highway attributes of auto. */
  function WithAutoAttributes(link: Link, auto: Link): Link {
    link.(areaType := auto.areaType, capclass := auto.capclass,
          freeFlowSpeed := auto.freeFlowSpeed, freeFlowTime := auto.freeFlowTime)
  }

  /** The auto links by id, a later link replacing an earlier one. */
  method BuildLinkLookup(auto: seq<Link>) returns (lookup: map<int, Link>)
    ensures forall id :: id in lookup <==> AutoLinkFor(auto, id).Some?
    ensures forall id :: id in lookup ==> lookup[id] == AutoLinkFor(auto, id).value
  {
    lookup := map[];
    for k := 0 to |auto|
      invariant forall id :: id in lookup <==> AutoLinkFor(auto[..k], id).Some?
      invariant forall id :: id in lookup ==> lookup[id] == AutoLinkFor(auto[..k], id).value
    {
      assert auto[..k + 1][..k] == auto[..k];
      lookup := lookup[auto[k].linkId := auto[k]];
    }
    assert auto[..|auto|] == auto;
  }

  /** Copies the highway attributes onto every link with an auto counterpart; other links are left alone. */
  method CopyAutoAttributes(auto: seq<Link>, links: seq<Link>) returns (out: seq<Link>)
    ensures |out| == |links|
    ensures forall k :: 0 <= k < |links| && AutoLinkFor(auto, links[k].linkId).None? ==> out[k] == links[k]
    ensures forall k :: 0 <= k < |links| && AutoLinkFor(auto, links[k].linkId).Some? ==>
      out[k] == WithAutoAttributes(links[k], AutoLinkFor(auto, links[k].linkId).value)
  {
    var lookup := BuildLinkLookup(auto);
    out := [];
    for k := 0 to |links|
      invariant |out| == k
      invariant forall q :: 0 <= q < k && AutoLinkFor(auto, links[q].linkId).None? ==> out[q] == links[q]
      invariant forall q :: 0 <= q < k && AutoLinkFor(auto, links[q].linkId).Some? ==>
        out[q] == WithAutoAttributes(links[q], AutoLinkFor(auto, links[q].linkId).value)
    {
      var link := links[k];
      if link.linkId in lookup {
        out := out + [WithAutoAttributes(link, lookup[link.linkId])];
      } else {
        out := out + [link];
      }
    }
  }

  // ----- the mode table -----

  /** How the configuration marks a mode for laying on links. */
  datatype ModeRole = WalkRole | AccessRole | EgressRole | OtherRole

  /** One row of the mode table: id, assignment type, name, role and speed (miles per hour). */
  datatype ModeSpec = ModeSpec(id: char, assignType: ModeType, name: string, role: ModeRole, speed: real)

  /** The aux-transit modes by role. */
  datatype AuxModes = AuxModes(walk: set<char>, access: set<char>, egress: set<char>)

  function AllAux(aux: AuxModes): set<char> {
    aux.walk + aux.access + aux.egress
  }

  /** The speed of a freshly created mode (the platform's default is not modelled). */
  const NewModeSpeed: real := 0.0

  /** One table row: the mode is created, or the existing one must have the row's type; then its name and aux speed are set. */
  function ApplyMode(modes: map<char, Mode>, e: ModeSpec): Result<map<char, Mode>, TransitError>
  {
    if e.id in modes && modes[e.id].modeType != e.assignType then Err(ModeTypeMismatch(e.id))
    else
      var base := if e.id in modes then modes[e.id] else Mode(e.assignType, "", NewModeSpeed);
      var named := base.(description := e.name);
      Ok(modes[e.id := if e.assignType == AuxTransit then named.(speed := e.speed) else named])
  }

  /** The table rows applied in order; the first mismatch stops them. */
  function ApplyModes(modes: map<char, Mode>, table: seq<ModeSpec>): Result<map<char, Mode>, TransitError>
  {
    if table == [] then Ok(modes)
    else
      var r := ApplyModes(modes, table[..|table| - 1]);
      if r.Err? then r else ApplyMode(r.value, table[|table| - 1])
  }

  /** The ids of the rows with a role. */
  function RoleModes(table: seq<ModeSpec>, role: ModeRole): set<char> {
    set k | 0 <= k < |table| && table[k].role == role :: table[k].id
  }

  function AuxOf(table: seq<ModeSpec>): AuxModes {
    AuxModes(RoleModes(table, WalkRole), RoleModes(table, AccessRole), RoleModes(table, EgressRole))
  }

  /** Row k names a mode that already has another type: in the network or from an earlier row. */
  ghost predicate ModeConflict(modes: map<char, Mode>, table: seq<ModeSpec>, k: int)
    requires 0 <= k < |table|
  {
    (table[k].id in modes && modes[table[k].id].modeType != table[k].assignType) ||
    exists j :: 0 <= j < k && table[j].id == table[k].id && table[j].assignType != table[k].assignType
  }

  /** The last row for a mode id. */
  function LastModeRow(table: seq<ModeSpec>, id: char): (r: Option<ModeSpec>)
    ensures r.Some? ==> r.value in table && r.value.id == id
    ensures r.None? <==> forall k :: 0 <= k < |table| ==> table[k].id != id
  {
    if table == [] then None
    else if table[|table| - 1].id == id then Some(table[|table| - 1])
    else LastModeRow(table[..|table| - 1], id)
  }

  /** The row found for a mode id is the last row with that id. */
  lemma {:induction false} LastModeRowIsLast(table: seq<ModeSpec>, id: char, k: nat)
    requires k < |table| && table[k].id == id
    requires forall m :: k < m < |table| ==> table[m].id != id
    ensures LastModeRow(table, id) == Some(table[k])
  {
    if k < |table| - 1 {
      LastModeRowIsLast(table[..|table| - 1], id, k);
    }
  }

  /** Which modes exist after the table, and their types. */
  ghost predicate ModesTyped(modes: map<char, Mode>, table: seq<ModeSpec>, r: map<char, Mode>) {
    (forall id :: id in r <==> id in modes || LastModeRow(table, id).Some?) &&
    (forall id :: id in modes ==> r[id].modeType == modes[id].modeType) &&
    (forall k :: 0 <= k < |table| ==> r[table[k].id].modeType == table[k].assignType)
  }

  /** The descriptions and speeds after the table; modes it does not name are untouched. */
  ghost predicate ModesDescribed(modes: map<char, Mode>, table: seq<ModeSpec>, r: map<char, Mode>)
    requires forall id :: id in r <==> id in modes || LastModeRow(table, id).Some?
  {
    (forall id :: id in modes && LastModeRow(table, id).None? ==> r[id] == modes[id]) &&
    (forall id :: LastModeRow(table, id).Some? ==>
      r[id].description == LastModeRow(table, id).value.name &&
      r[id].speed == (if r[id].modeType == AuxTransit then LastModeRow(table, id).value.speed
                      else if id in modes then modes[id].speed else NewModeSpeed))
  }

  /** What one successful row does. */
  lemma ApplyModeEffect(r: map<char, Mode>, e: ModeSpec)
    requires ApplyMode(r, e).Ok?
    ensures e.id in r ==> r[e.id].modeType == e.assignType
    ensures ApplyMode(r, e).value == r[e.id := Mode(e.assignType, e.name,
      if e.assignType == AuxTransit then e.speed else if e.id in r then r[e.id].speed else NewModeSpeed)]
  {
  }

  /** After a successful table every configured mode exists with its rows' type, and existing types are kept. */
  lemma {:induction false} ApplyModesTyped(modes: map<char, Mode>, table: seq<ModeSpec>)
    requires ApplyModes(modes, table).Ok?
    ensures ModesTyped(modes, table, ApplyModes(modes, table).value)
  {
    if table != [] {
      var init := table[..|table| - 1];
      ApplyModesTyped(modes, init);
      ModesTypedStep(modes, table, ApplyModes(modes, init).value, ApplyModes(modes, table).value);
    }
  }

  /** One more successful row keeps the modes typed by the longer table. */
  lemma ModesTypedStep(modes: map<char, Mode>, table: seq<ModeSpec>, r: map<char, Mode>, out: map<char, Mode>)
    requires table != []
    requires ModesTyped(modes, table[..|table| - 1], r)
    requires ApplyMode(r, table[|table| - 1]) == Ok(out)
    ensures ModesTyped(modes, table, out)
  {
    var init := table[..|table| - 1];
    var e := table[|table| - 1];
    ApplyModeEffect(r, e);
    forall id
      ensures id in out <==> id in modes || LastModeRow(table, id).Some?
    {
      LastModeRowStep(table, id);
    }
    forall k | 0 <= k < |table|
      ensures out[table[k].id].modeType == table[k].assignType
    {
      if k < |init| {
        assert init[k] == table[k];
      }
    }
  }

  /** The table fails exactly when some row conflicts with an existing mode or an earlier row. */
  lemma {:induction false} ApplyModesErr(modes: map<char, Mode>, table: seq<ModeSpec>)
    ensures ApplyModes(modes, table).Err? <==> exists k :: 0 <= k < |table| && ModeConflict(modes, table, k)
  {
    if table != [] {
      var init := table[..|table| - 1];
      ApplyModesErr(modes, init);
      ModeConflictPrefix(modes, table);
      if ApplyModes(modes, init).Ok? {
        ApplyModesTyped(modes, init);
        var r := ApplyModes(modes, init).value;
        assert ApplyModes(modes, table) == ApplyMode(r, table[|table| - 1]);
        assert !exists k :: 0 <= k < |table| - 1 && ModeConflict(modes, table, k);
        ModeConflictLast(modes, table, r);
      } else {
        var k :| 0 <= k < |init| && ModeConflict(modes, init, k);
        assert ModeConflict(modes, table, k);
      }
    }
  }

  /** Every row but the last conflicts in the whole table exactly as it does in the table without the last row. */
  lemma ModeConflictPrefix(modes: map<char, Mode>, table: seq<ModeSpec>)
    requires table != []
    ensures forall k :: 0 <= k < |table| - 1 ==> (ModeConflict(modes, table[..|table| - 1], k) <==> ModeConflict(modes, table, k))
  {
    var init := table[..|table| - 1];
    forall k | 0 <= k < |table| - 1
      ensures ModeConflict(modes, init, k) <==> ModeConflict(modes, table, k)
    {
      assert forall q :: 0 <= q <= k ==> init[q] == table[q];
    }
  }

  /** After a successful shorter table, the last row fails exactly when it conflicts. */
  lemma ModeConflictLast(modes: map<char, Mode>, table: seq<ModeSpec>, r: map<char, Mode>)
    requires table != []
    requires ModesTyped(modes, table[..|table| - 1], r)
    ensures ApplyMode(r, table[|table| - 1]).Err? <==> ModeConflict(modes, table, |table| - 1)
  {
    var init := table[..|table| - 1];
    var e := table[|table| - 1];
    var n := |table| - 1;
    if ModeConflict(modes, table, n) && !(e.id in modes && modes[e.id].modeType != e.assignType) {
      var j :| 0 <= j < n && table[j].id == e.id && table[j].assignType != e.assignType;
      assert init[j] == table[j];
    }
    if ApplyMode(r, e).Err? && e.id !in modes {
      var j := FindModeRow(init, e.id);
      assert init[j] == table[j];
      assert ModeConflict(modes, table, n);
    }
  }

  /** After a successful table each configured mode has its last row's name and, for aux transit, speed. */
  lemma {:induction false} ApplyModesValues(modes: map<char, Mode>, table: seq<ModeSpec>)
    requires ApplyModes(modes, table).Ok?
    ensures ModesTyped(modes, table, ApplyModes(modes, table).value)
    ensures ModesDescribed(modes, table, ApplyModes(modes, table).value)
  {
    ApplyModesTyped(modes, table);
    if table != [] {
      var init := table[..|table| - 1];
      ApplyModesValues(modes, init);
      ModesDescribedStep(modes, table, ApplyModes(modes, init).value, ApplyModes(modes, table).value);
    }
  }

  /** One more successful row sets its mode's name and speed and leaves the others as they were. */
  lemma ModesDescribedStep(modes: map<char, Mode>, table: seq<ModeSpec>, r: map<char, Mode>, out: map<char, Mode>)
    requires table != []
    requires ModesTyped(modes, table[..|table| - 1], r) && ModesDescribed(modes, table[..|table| - 1], r)
    requires ApplyMode(r, table[|table| - 1]) == Ok(out)
    requires ModesTyped(modes, table, out)
    ensures ModesDescribed(modes, table, out)
  {
    var e := table[|table| - 1];
    ApplyModeEffect(r, e);
    forall id | id in modes && LastModeRow(table, id).None?
      ensures out[id] == modes[id]
    {
      LastModeRowStep(table, id);
    }
    forall id | LastModeRow(table, id).Some?
      ensures out[id].description == LastModeRow(table, id).value.name
      ensures out[id].speed == (if out[id].modeType == AuxTransit then LastModeRow(table, id).value.speed
                                else if id in modes then modes[id].speed else NewModeSpeed)
    {
      LastModeRowStep(table, id);
    }
  }

  /** The last row of a longer table, in terms of its last row and the rest. */
  lemma LastModeRowStep(table: seq<ModeSpec>, id: char)
    requires table != []
    ensures LastModeRow(table, id) ==
      if table[|table| - 1].id == id then Some(table[|table| - 1]) else LastModeRow(table[..|table| - 1], id)
  {
  }

  /** The position of some row for a mode id that has one. */
  lemma FindModeRow(table: seq<ModeSpec>, id: char) returns (j: nat)
    requires LastModeRow(table, id).Some?
    ensures j < |table| && table[j].id == id
  {
    if table[|table| - 1].id == id {
      j := |table| - 1;
    } else {
      j := FindModeRow(table[..|table| - 1], id);
    }
  }

  /** Applies the mode table to the network's modes and collects the walk, access and egress modes. */
  method LoadModes(modes: map<char, Mode>, table: seq<ModeSpec>) returns (r: Result<(map<char, Mode>, AuxModes), TransitError>)
    ensures r.Err? <==> ApplyModes(modes, table).Err?
    ensures r.Err? ==> r.error == ApplyModes(modes, table).error
    ensures r.Ok? ==> r.value == (ApplyModes(modes, table).value, AuxOf(table))
  {
    var cur := modes;
    var walk, access, egress := {}, {}, {};
    for k := 0 to |table|
      invariant ApplyModes(modes, table[..k]) == Ok(cur)
      invariant AuxModes(walk, access, egress) == AuxOf(table[..k])
    {
      assert table[..k + 1][..k] == table[..k];
      var e := table[k];
      if e.id in cur && cur[e.id].modeType != e.assignType {
        ApplyModesStops(modes, table, k + 1);
        return Err(ModeTypeMismatch(e.id));
      }
      var base := if e.id in cur then cur[e.id] else Mode(e.assignType, "", NewModeSpeed);
      base := base.(description := e.name);
      if e.assignType == AuxTransit {
        base := base.(speed := e.speed);
      }
      cur := cur[e.id := base];
      RoleModesStep(table, k);
      if e.role == WalkRole {
        walk := walk + {e.id};
      }
      if e.role == AccessRole {
        access := access + {e.id};
      }
      if e.role == EgressRole {
        egress := egress + {e.id};
      }
    }
    assert table[..|table|] == table;
    return Ok((cur, AuxModes(walk, access, egress)));
  }

  lemma RoleModesStep(table: seq<ModeSpec>, k: nat)
    requires k < |table|
    ensures forall role :: (RoleModes(table[..k + 1], role) ==
      RoleModes(table[..k], role) + (if table[k].role == role then {table[k].id} else {}))
  {
    forall role
      ensures RoleModes(table[..k + 1], role) == RoleModes(table[..k], role) + (if table[k].role == role then {table[k].id} else {})
    {
      var a := table[..k + 1];
      assert a[k] == table[k];
      assert forall q :: 0 <= q < k ==> a[q] == table[..k][q];
    }
  }

  /** A failing prefix of the mode table is the table's outcome. */
  lemma {:induction false} ApplyModesStops(modes: map<char, Mode>, table: seq<ModeSpec>, i: nat)
    requires i <= |table|
    requires ApplyModes(modes, table[..i]).Err?
    ensures ApplyModes(modes, table) == ApplyModes(modes, table[..i])
  {
    if i < |table| {
      assert table[..|table| - 1][..i] == table[..i];
      ApplyModesStops(modes, table[..|table| - 1], i);
    } else {
      assert table[..i] == table;
    }
  }

  // ----- the vehicle table -----

  /** One row of the vehicle table. */
  datatype VehicleSpec = VehicleSpec(id: int, mode: char, autoEquivalent: real, seatedCapacity: int, totalCapacity: int)

  function VehicleOf(e: VehicleSpec): TransitVehicle {
    TransitVehicle(e.mode, e.autoEquivalent, e.seatedCapacity, e.totalCapacity)
  }

  /** One row: the vehicle is created on an existing mode, or the existing one must run the row's mode; then its figures are set. */
  function ApplyVehicle(vehicles: map<int, TransitVehicle>, modes: map<char, Mode>, e: VehicleSpec): Result<map<int, TransitVehicle>, TransitError>
  {
    if e.id in vehicles && vehicles[e.id].mode != e.mode then Err(VehicleModeMismatch(e.id))
    else if e.id !in vehicles && e.mode !in modes then Err(UnknownVehicleMode(e.id))
    else Ok(vehicles[e.id := VehicleOf(e)])
  }

  /** The table rows applied in order; the first failing row stops them. */
  function ApplyVehicles(vehicles: map<int, TransitVehicle>, modes: map<char, Mode>, table: seq<VehicleSpec>): Result<map<int, TransitVehicle>, TransitError>
  {
    if table == [] then Ok(vehicles)
    else
      var r := ApplyVehicles(vehicles, modes, table[..|table| - 1]);
      if r.Err? then r else ApplyVehicle(r.value, modes, table[|table| - 1])
  }

  /** The last row for a vehicle id. */
  function LastVehicleRow(table: seq<VehicleSpec>, id: int): (r: Option<VehicleSpec>)
    ensures r.Some? ==> r.value in table && r.value.id == id
    ensures r.None? <==> forall k :: 0 <= k < |table| ==> table[k].id != id
  {
    if table == [] then None
    else if table[|table| - 1].id == id then Some(table[|table| - 1])
    else LastVehicleRow(table[..|table| - 1], id)
  }

  /** The row found for a vehicle id is the last row with that id. */
  lemma {:induction false} LastVehicleRowIsLast(table: seq<VehicleSpec>, id: int, k: nat)
    requires k < |table| && table[k].id == id
    requires forall m :: k < m < |table| ==> table[m].id != id
    ensures LastVehicleRow(table, id) == Some(table[k])
  {
    if k < |table| - 1 {
      LastVehicleRowIsLast(table[..|table| - 1], id, k);
    }
  }

  /**
    Row k fails: its vehicle exists with another mode, an earlier row gave it
    another mode, or it is new and its mode does not exist.
  */
  ghost predicate VehicleConflict(vehicles: map<int, TransitVehicle>, modes: map<char, Mode>, table: seq<VehicleSpec>, k: int)
    requires 0 <= k < |table|
  {
    (table[k].id in vehicles && vehicles[table[k].id].mode != table[k].mode) ||
    (exists j :: 0 <= j < k && table[j].id == table[k].id && table[j].mode != table[k].mode) ||
    (table[k].id !in vehicles && (forall j :: 0 <= j < k ==> table[j].id != table[k].id) && table[k].mode !in modes)
  }

  /** After a successful table every configured vehicle is its last row's, and the others are untouched. */
  ghost predicate VehiclesApplied(vehicles: map<int, TransitVehicle>, table: seq<VehicleSpec>, r: map<int, TransitVehicle>) {
    (forall id :: id in r <==> id in vehicles || LastVehicleRow(table, id).Some?) &&
    (forall id :: id in vehicles && LastVehicleRow(table, id).None? ==> r[id] == vehicles[id]) &&
    (forall id :: LastVehicleRow(table, id).Some? ==> r[id] == VehicleOf(LastVehicleRow(table, id).value)) &&
    (forall k :: 0 <= k < |table| ==> r[table[k].id].mode == table[k].mode) &&
    (forall id :: id in vehicles ==> r[id].mode == vehicles[id].mode)
  }

  lemma LastVehicleRowStep(table: seq<VehicleSpec>, id: int)
    requires table != []
    ensures LastVehicleRow(table, id) ==
      if table[|table| - 1].id == id then Some(table[|table| - 1]) else LastVehicleRow(table[..|table| - 1], id)
  {
  }

  lemma FindVehicleRow(table: seq<VehicleSpec>, id: int) returns (j: nat)
    requires LastVehicleRow(table, id).Some?
    ensures j < |table| && table[j].id == id
  {
    if table[|table| - 1].id == id {
      j := |table| - 1;
    } else {
      j := FindVehicleRow(table[..|table| - 1], id);
    }
  }

  /** A successful vehicle table sets each configured vehicle from its last row and keeps every mode assignment consistent. */
  lemma {:induction false} ApplyVehiclesOk(vehicles: map<int, TransitVehicle>, modes: map<char, Mode>, table: seq<VehicleSpec>)
    requires ApplyVehicles(vehicles, modes, table).Ok?
    ensures VehiclesApplied(vehicles, table, ApplyVehicles(vehicles, modes, table).value)
  {
    if table != [] {
      var init := table[..|table| - 1];
      ApplyVehiclesOk(vehicles, modes, init);
      VehiclesAppliedStep(vehicles, modes, table, ApplyVehicles(vehicles, modes, init).value, ApplyVehicles(vehicles, modes, table).value);
    }
  }

  /** One more successful row keeps the vehicles applied by the longer table. */
  lemma VehiclesAppliedStep(vehicles: map<int, TransitVehicle>, modes: map<char, Mode>, table: seq<VehicleSpec>,
                            r: map<int, TransitVehicle>, out: map<int, TransitVehicle>)
    requires table != []
    requires VehiclesApplied(vehicles, table[..|table| - 1], r)
    requires ApplyVehicle(r, modes, table[|table| - 1]) == Ok(out)
    ensures VehiclesApplied(vehicles, table, out)
  {
    var init := table[..|table| - 1];
    var e := table[|table| - 1];
    assert out == r[e.id := VehicleOf(e)];
    forall id
      ensures id in out <==> id in vehicles || LastVehicleRow(table, id).Some?
      ensures id in vehicles && LastVehicleRow(table, id).None? ==> out[id] == vehicles[id]
      ensures LastVehicleRow(table, id).Some? ==> out[id] == VehicleOf(LastVehicleRow(table, id).value)
    {
      LastVehicleRowStep(table, id);
    }
    forall k | 0 <= k < |table|
      ensures out[table[k].id].mode == table[k].mode
    {
      if k < |init| {
        assert init[k] == table[k];
      }
    }
  }

  /** The vehicle table fails exactly when some row conflicts. */
  lemma {:induction false} ApplyVehiclesErr(vehicles: map<int, TransitVehicle>, modes: map<char, Mode>, table: seq<VehicleSpec>)
    ensures ApplyVehicles(vehicles, modes, table).Err? <==> exists k :: 0 <= k < |table| && VehicleConflict(vehicles, modes, table, k)
  {
    if table != [] {
      var init := table[..|table| - 1];
      ApplyVehiclesErr(vehicles, modes, init);
      VehicleConflictPrefix(vehicles, modes, table);
      if ApplyVehicles(vehicles, modes, init).Ok? {
        ApplyVehiclesOk(vehicles, modes, init);
        var r := ApplyVehicles(vehicles, modes, init).value;
        assert ApplyVehicles(vehicles, modes, table) == ApplyVehicle(r, modes, table[|table| - 1]);
        assert !exists k :: 0 <= k < |table| - 1 && VehicleConflict(vehicles, modes, table, k);
        VehicleConflictLast(vehicles, modes, table, r);
      } else {
        var k :| 0 <= k < |init| && VehicleConflict(vehicles, modes, init, k);
        assert VehicleConflict(vehicles, modes, table, k);
      }
    }
  }

  /** Every row but the last conflicts in the whole table exactly as it does in the table without the last row. */
  lemma VehicleConflictPrefix(vehicles: map<int, TransitVehicle>, modes: map<char, Mode>, table: seq<VehicleSpec>)
    requires table != []
    ensures forall k :: 0 <= k < |table| - 1 ==>
      (VehicleConflict(vehicles, modes, table[..|table| - 1], k) <==> VehicleConflict(vehicles, modes, table, k))
  {
    var init := table[..|table| - 1];
    forall k | 0 <= k < |table| - 1
      ensures VehicleConflict(vehicles, modes, init, k) <==> VehicleConflict(vehicles, modes, table, k)
    {
      assert forall q :: 0 <= q <= k ==> init[q] == table[q];
    }
  }

  /** Given the outcome of the earlier rows, the last row fails exactly when it conflicts. */
  lemma VehicleConflictLast(vehicles: map<int, TransitVehicle>, modes: map<char, Mode>, table: seq<VehicleSpec>, r: map<int, TransitVehicle>)
    requires table != []
    requires VehiclesApplied(vehicles, table[..|table| - 1], r)
    ensures ApplyVehicle(r, modes, table[|table| - 1]).Err? <==> VehicleConflict(vehicles, modes, table, |table| - 1)
  {
    var init := table[..|table| - 1];
    var e := table[|table| - 1];
    var n := |table| - 1;
    assert forall j :: 0 <= j < n ==> init[j] == table[j];
    if e.id in r {
      if e.id in vehicles {
        assert r[e.id].mode == vehicles[e.id].mode;
        if r[e.id].mode == e.mode {
          forall j | 0 <= j < n && table[j].id == e.id
            ensures table[j].mode == e.mode
          {
            assert r[init[j].id].mode == init[j].mode;
          }
        }
      } else {
        var j := FindVehicleRow(init, e.id);
        assert r[init[j].id].mode == init[j].mode;
        if r[e.id].mode == e.mode {
          forall q | 0 <= q < n && table[q].id == e.id
            ensures table[q].mode == e.mode
          {
            assert r[init[q].id].mode == init[q].mode;
          }
        }
      }
    } else {
      assert LastVehicleRow(init, e.id).None?;
    }
  }

  /** A failing prefix of the vehicle table is the table's outcome. */
  lemma {:induction false} ApplyVehiclesStops(vehicles: map<int, TransitVehicle>, modes: map<char, Mode>, table: seq<VehicleSpec>, i: nat)
    requires i <= |table|
    requires ApplyVehicles(vehicles, modes, table[..i]).Err?
    ensures ApplyVehicles(vehicles, modes, table) == ApplyVehicles(vehicles, modes, table[..i])
  {
    if i < |table| {
      assert table[..|table| - 1][..i] == table[..i];
      ApplyVehiclesStops(vehicles, modes, table[..|table| - 1], i);
    } else {
      assert table[..i] == table;
    }
  }

  /** Applies the vehicle table to the network's vehicles, given its modes. */
  method LoadVehicles(vehicles: map<int, TransitVehicle>, modes: map<char, Mode>, table: seq<VehicleSpec>)
    returns (r: Result<map<int, TransitVehicle>, TransitError>)
    ensures r == ApplyVehicles(vehicles, modes, table)
  {
    var cur := vehicles;
    for k := 0 to |table|
      invariant ApplyVehicles(vehicles, modes, table[..k]) == Ok(cur)
    {
      assert table[..k + 1][..k] == table[..k];
      var e := table[k];
      if e.id in cur {
        if cur[e.id].mode != e.mode {
          ApplyVehiclesStops(vehicles, modes, table, k + 1);
          return Err(VehicleModeMismatch(e.id));
        }
      } else if e.mode !in modes {
        ApplyVehiclesStops(vehicles, modes, table, k + 1);
        return Err(UnknownVehicleMode(e.id));
      }
      cur := cur[e.id := VehicleOf(e)];
    }
    assert table[..|table|] == table;
    return Ok(cur);
  }

  // ----- transit times -----

  /** Fixed-guideway speeds (miles per hour) by "#cntype". */
  function GuidewaySpeed(cntype: string): Option<real> {
    if cntype == "CRAIL" then Some(45.0)
    else if cntype == "HRAIL" then Some(40.0)
    else if cntype == "LRAIL" then Some(30.0)
    else if cntype == "FERRY" then Some(15.0)
    else None
  }

  /**
    The transit time of a link, in minutes: at the guideway speed for its
    connector type; otherwise at its free-flow speed, with 5 * 0.33 minutes per
    mile added off freeways; a link with no positive speed keeps its time.
  */
  function TransitTime(link: Link): (t: real)
    ensures GuidewaySpeed(link.cntype).Some? ==> t * GuidewaySpeed(link.cntype).value == 60.0 * link.length
    ensures GuidewaySpeed(link.cntype).None? && link.freeFlowSpeed > 0.0 && link.ft == 1 ==>
      t * link.freeFlowSpeed == 60.0 * link.length
    ensures GuidewaySpeed(link.cntype).None? && link.freeFlowSpeed > 0.0 && link.ft != 1 ==>
      (t - link.length * 5.0 * 0.33) * link.freeFlowSpeed == 60.0 * link.length
    ensures GuidewaySpeed(link.cntype).None? && link.freeFlowSpeed <= 0.0 ==> t == link.tranTime
  {
    var g := GuidewaySpeed(link.cntype);
    if g.Some? then 60.0 * link.length / g.value
    else if link.ft == 1 && link.freeFlowSpeed > 0.0 then 60.0 * link.length / link.freeFlowSpeed
    else if link.freeFlowSpeed > 0.0 then 60.0 * link.length / link.freeFlowSpeed + link.length * 5.0 * 0.33
    else link.tranTime
  }

  /** Off freeways the transit time exceeds the free-flow running time by 1.65 minutes per mile. */
  lemma ArterialPenalty(link: Link)
    requires GuidewaySpeed(link.cntype).None? && link.freeFlowSpeed > 0.0 && link.ft != 1
    ensures TransitTime(link) == TransitTime(link.(ft := 1)) + 1.65 * link.length
  {
  }

  /** Centroid connectors are shortened to 60 feet (0.01 miles). */
  const ConnectorLength: real := 0.01

  predicate TouchesCentroid(link: Link) {
    link.i.isCentroid || link.j.isCentroid
  }

  /** Sets every link's transit time, then shortens the centroid connectors; the time uses the original length. */
  method SetTransitTimes(links: seq<Link>) returns (out: seq<Link>)
    ensures |out| == |links|
    ensures forall k :: 0 <= k < |links| ==>
      out[k] == links[k].(tranTime := TransitTime(links[k]),
                          length := if TouchesCentroid(links[k]) then ConnectorLength else links[k].length)
  {
    out := [];
    for k := 0 to |links|
      invariant |out| == k
      invariant forall q :: 0 <= q < k ==>
        out[q] == links[q].(tranTime := TransitTime(links[q]),
                            length := if TouchesCentroid(links[q]) then ConnectorLength else links[q].length)
    {
      var link := links[k];
      var speed := GuidewaySpeed(link.cntype);
      if speed.None? {
        if link.ft == 1 && link.freeFlowSpeed > 0.0 {
          link := link.(tranTime := 60.0 * link.length / link.freeFlowSpeed);
        } else if link.freeFlowSpeed > 0.0 {
          link := link.(tranTime := 60.0 * link.length / link.freeFlowSpeed + link.length * 5.0 * 0.33);
        }
      } else {
        link := link.(tranTime := 60.0 * link.length / speed.value);
      }
      if link.i.isCentroid || link.j.isCentroid {
        link := link.(length := ConnectorLength);
      }
      out := out + [link];
    }
  }

  // ----- line vehicles and line modes -----

  /** Every segment of every line runs on a link of the network. */
  predicate SegmentsValid(net: Network) {
    forall k, s :: 0 <= k < |net.lines| && 0 <= s < |net.lines[k].segments| ==> net.lines[k].segments[s] < |net.links|
  }

  /** The modes of the lines that run on link i. */
  function LineModes(lines: seq<TransitLine>, vehicles: map<int, TransitVehicle>, i: nat): set<char> {
    set k | 0 <= k < |lines| && lines[k].vehicleCode in vehicles && i in lines[k].segments :: vehicles[lines[k].vehicleCode].mode
  }

  lemma LineModesStep(lines: seq<TransitLine>, vehicles: map<int, TransitVehicle>, k: nat, i: nat)
    requires k < |lines| && lines[k].vehicleCode in vehicles
    ensures LineModes(lines[..k + 1], vehicles, i) ==
      LineModes(lines[..k], vehicles, i) + (if i in lines[k].segments then {vehicles[lines[k].vehicleCode].mode} else {})
  {
    var a := lines[..k + 1];
    assert a[k] == lines[k];
    assert forall q :: 0 <= q < k ==> a[q] == lines[..k][q];
  }

  /** Adds mode m to the links the segments run on. */
  method AddModeOnSegments(links: seq<Link>, segs: seq<nat>, m: char) returns (out: seq<Link>)
    requires forall s :: 0 <= s < |segs| ==> segs[s] < |links|
    ensures |out| == |links|
    ensures forall i :: 0 <= i < |links| ==>
      out[i] == links[i].(modes := links[i].modes + (if i in segs then {m} else {}))
  {
    out := links;
    for s := 0 to |segs|
      invariant |out| == |links|
      invariant forall i :: 0 <= i < |links| ==>
        out[i] == links[i].(modes := links[i].modes + (if i in segs[..s] then {m} else {}))
    {
      assert segs[..s + 1] == segs[..s] + [segs[s]];
      out := out[segs[s] := out[segs[s]].(modes := out[segs[s]].modes + {m})];
    }
    assert segs[..|segs|] == segs;
  }

  /**
    Gives every line its vehicle and adds the vehicle's mode to the links the
    line runs on; a line whose vehicle does not exist stops the pass.
  */
  method AssignLineVehicles(net: Network) returns (r: Result<Network, TransitError>)
    requires SegmentsValid(net)
    ensures r.Err? <==> exists k :: 0 <= k < |net.lines| && net.lines[k].vehicleCode !in net.vehicles
    ensures r.Err? ==> exists k :: (0 <= k < |net.lines| && net.lines[k].vehicleCode !in net.vehicles &&
      (forall q :: 0 <= q < k ==> net.lines[q].vehicleCode in net.vehicles) && r.error == MissingVehicle(net.lines[k].id))
    ensures r.Ok? ==> r.value.nodes == net.nodes && r.value.modes == net.modes && r.value.vehicles == net.vehicles
    ensures r.Ok? ==> |r.value.links| == |net.links| && forall i :: 0 <= i < |net.links| ==>
      r.value.links[i] == net.links[i].(modes := net.links[i].modes + LineModes(net.lines, net.vehicles, i))
    ensures r.Ok? ==> |r.value.lines| == |net.lines| && forall k :: 0 <= k < |net.lines| ==>
      r.value.lines[k] == net.lines[k].(vehicle := Some(net.lines[k].vehicleCode))
  {
    var links := net.links;
    var lines: seq<TransitLine> := [];
    for k := 0 to |net.lines|
      invariant |links| == |net.links| && |lines| == k
      invariant forall q :: 0 <= q < k ==> net.lines[q].vehicleCode in net.vehicles
      invariant forall i :: 0 <= i < |net.links| ==>
        links[i] == net.links[i].(modes := net.links[i].modes + LineModes(net.lines[..k], net.vehicles, i))
      invariant forall q :: 0 <= q < k ==> lines[q] == net.lines[q].(vehicle := Some(net.lines[q].vehicleCode))
    {
      var line := net.lines[k];
      if line.vehicleCode !in net.vehicles {
        return Err(MissingVehicle(line.id));
      }
      var m := net.vehicles[line.vehicleCode].mode;
      ghost var before := links;
      links := AddModeOnSegments(links, line.segments, m);
      forall i | 0 <= i < |net.links|
        ensures links[i] == net.links[i].(modes := net.links[i].modes + LineModes(net.lines[..k + 1], net.vehicles, i))
      {
        LineModesStep(net.lines, net.vehicles, k, i);
      }
      lines := lines + [line.(vehicle := Some(line.vehicleCode))];
    }
    assert net.lines[..|net.lines|] == net.lines;
    return Ok(net.(links := links, lines := lines));
  }

  // ----- walk, access and egress modes -----

  /** The aux-transit modes a link gets: egress from a centroid, access to one, walk on walk links. */
  function ChosenAux(link: Link, aux: AuxModes): set<char> {
    if link.i.isCentroid then aux.egress
    else if link.j.isCentroid then aux.access
    else if link.walkLink != 0.0 then aux.walk
    else {}
  }

  /**
    A link's modes once the aux-transit modes are laid: its other modes are
    kept and its aux-transit modes are exactly the chosen ones.
  */
  function AuxLinkModes(link: Link, aux: AuxModes): (m: set<char>)
    ensures m - AllAux(aux) == link.modes - AllAux(aux)
    ensures m * AllAux(aux) == ChosenAux(link, aux)
  {
    (link.modes - AllAux(aux)) + ChosenAux(link, aux)
  }

  /** Lays the aux-transit modes on every link. */
  method AssignAuxModes(links: seq<Link>, aux: AuxModes) returns (out: seq<Link>)
    ensures |out| == |links|
    ensures forall k :: 0 <= k < |links| ==> out[k] == links[k].(modes := AuxLinkModes(links[k], aux))
  {
    var all := aux.walk + aux.access + aux.egress;
    out := [];
    for k := 0 to |links|
      invariant |out| == k
      invariant forall q :: 0 <= q < k ==> out[q] == links[q].(modes := AuxLinkModes(links[q], aux))
    {
      var link := links[k];
      var modes := link.modes - all;
      if link.i.isCentroid {
        modes := modes + aux.egress;
      } else if link.j.isCentroid {
        modes := modes + aux.access;
      } else if link.walkLink != 0.0 {
        modes := modes + aux.walk;
      }
      out := out + [link.(modes := modes)];
    }
  }

  // ----- lines of one period -----

  /** The lines whose period, upper-cased, is the given period's. */
  function PeriodLines(lines: seq<TransitLine>, period: string): (kept: seq<TransitLine>)
    ensures forall l :: l in kept <==> l in lines && Upper(l.timePeriod) == Upper(period)
    ensures |kept| <= |lines|
  {
    if lines == [] then []
    else
      var rest := PeriodLines(lines[..|lines| - 1], period);
      var l := lines[|lines| - 1];
      if Upper(l.timePeriod) == Upper(period) then rest + [l] else rest
  }

  /** Pruning the lines of other periods a second time changes nothing. */
  lemma {:induction false} PeriodLinesIdempotent(lines: seq<TransitLine>, period: string)
    ensures PeriodLines(PeriodLines(lines, period), period) == PeriodLines(lines, period)
  {
    if lines != [] {
      var rest := PeriodLines(lines[..|lines| - 1], period);
      var l := lines[|lines| - 1];
      PeriodLinesIdempotent(lines[..|lines| - 1], period);
      if Upper(l.timePeriod) == Upper(period) {
        assert (rest + [l])[..|rest|] == rest;
      }
    }
  }

  /** Deletes, one by one, the lines of other periods. */
  method RemoveOtherPeriodLines(lines: seq<TransitLine>, period: string) returns (kept: seq<TransitLine>)
    ensures kept == PeriodLines(lines, period)
  {
    var name := Upper(period);
    kept := [];
    for k := 0 to |lines|
      invariant kept == PeriodLines(lines[..k], period)
    {
      assert lines[..k + 1][..k] == lines[..k];
      if Upper(lines[k].timePeriod) == name {
        kept := kept + [lines[k]];
      }
    }
    assert lines[..|lines|] == lines;
  }

  // ----- the whole transit reference network -----

  /** The link with its auto counterpart's attributes, if it has one. */
  function CopiedLink(auto: seq<Link>, link: Link): Link {
    var a := AutoLinkFor(auto, link.linkId);
    if a.Some? then WithAutoAttributes(link, a.value) else link
  }

  /**
    A prepared transit link: the auto attributes copied, the transit time set
    and connectors shortened, the modes of its lines added, and its aux-transit
    modes laid from the centroid and walk-link flags.
  */
  function PreparedLink(auto: seq<Link>, link: Link, lineModes: set<char>, aux: AuxModes): (p: Link)
    ensures p.linkId == link.linkId && p.i == link.i && p.j == link.j && p.ft == link.ft && p.walkLink == link.walkLink
    ensures p.modes - AllAux(aux) == (link.modes + lineModes) - AllAux(aux)
    ensures p.modes * AllAux(aux) == ChosenAux(link, aux)
    ensures TouchesCentroid(link) ==> p.length == ConnectorLength
    ensures !TouchesCentroid(link) ==> p.length == link.length
  {
    var c := CopiedLink(auto, link);
    var t := c.(tranTime := TransitTime(c), length := if TouchesCentroid(c) then ConnectorLength else c.length);
    var m := t.(modes := t.modes + lineModes);
    m.(modes := AuxLinkModes(m, aux))
  }

  /**
    Prepares the transit reference network from the auto links and the mode and
    vehicle tables.  It fails on the first mode-type clash, then on the first
    vehicle clash, then on the first line whose vehicle is missing; otherwise
    the modes and vehicles are the tables' outcome, every line has its vehicle
    and every link is prepared.
  */
  method PrepareTransitNetwork(net: Network, auto: seq<Link>, modeTable: seq<ModeSpec>, vehicleTable: seq<VehicleSpec>)
    returns (r: Result<Network, TransitError>)
    requires SegmentsValid(net)
    ensures ApplyModes(net.modes, modeTable).Err? ==> r == Err(ApplyModes(net.modes, modeTable).error)
    ensures ApplyModes(net.modes, modeTable).Ok? ==>
      var modes := ApplyModes(net.modes, modeTable).value;
      var vehicles := ApplyVehicles(net.vehicles, modes, vehicleTable);
      (vehicles.Err? ==> r == Err(vehicles.error)) &&
      (vehicles.Ok? ==>
        (r.Err? <==> exists k :: 0 <= k < |net.lines| && net.lines[k].vehicleCode !in vehicles.value) &&
        (r.Ok? ==>
          r.value.nodes == net.nodes && r.value.modes == modes && r.value.vehicles == vehicles.value &&
          |r.value.lines| == |net.lines| &&
          (forall k :: 0 <= k < |net.lines| ==> r.value.lines[k] == net.lines[k].(vehicle := Some(net.lines[k].vehicleCode))) &&
          |r.value.links| == |net.links| &&
          forall i :: 0 <= i < |net.links| ==>
            r.value.links[i] == PreparedLink(auto, net.links[i], LineModes(net.lines, vehicles.value, i), AuxOf(modeTable))))
  {
    var copied := CopyAutoAttributes(auto, net.links);
    var loaded := LoadModes(net.modes, modeTable);
    if loaded.Err? {
      return Err(loaded.error);
    }
    var (modes, aux) := loaded.value;
    var vehicles := LoadVehicles(net.vehicles, modes, vehicleTable);
    if vehicles.Err? {
      return Err(vehicles.error);
    }
    var timed := SetTransitTimes(copied);
    var withLines := AssignLineVehicles(net.(links := timed, modes := modes, vehicles := vehicles.value));
    if withLines.Err? {
      return Err(withLines.error);
    }
    var links := AssignAuxModes(withLines.value.links, aux);
    r := Ok(withLines.value.(links := links));
    forall i | 0 <= i < |net.links|
      ensures links[i] == PreparedLink(auto, net.links[i], LineModes(net.lines, vehicles.value, i), aux)
    {
      assert copied[i] == CopiedLink(auto, net.links[i]);
    }
  }
}
