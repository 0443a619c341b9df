/**
  Area-type classification of highway links.  Every small zone (MAZ) whose
  centroid node is in the network gets a density-based area-type code computed
  over a square buffer of neighbouring zones; every link then gets the most
  urban (smallest) code of the zones nearest to its two end nodes.
*/
module AreaType {
  import opened Wrappers
  import opened SpatialIndex
  import opened Network
  import opened Sets

  /** The parsed land-use columns of one small zone: POP, emp_total, ACRES. */
  datatype LandUse = LandUse(pop: int, emp: int, acres: real)

  /** A zone's record while the classifier runs: the land use plus the two
      keys the classifier adds, its centroid coordinates and its code. */
  datatype Zone = Zone(landUse: LandUse, coords: Option<Point>, areaType: Option<int>)

  datatype AreaTypeError =
    | UnknownZone(mazId: int)   // a node names a zone missing from the land-use table
    | EmptyIndex                // a link needs a nearest zone but no zone was indexed

  const FeetPerMile: real := 5280.0

  /** Activity density: population plus 2.5 jobs per acre, 0 without acreage. */
  function Density(pop: int, emp: int, acres: real): (d: real)
    ensures acres > 0.0 ==> d * acres == pop as real + 2.5 * emp as real
    ensures acres <= 0.0 ==> d == 0.0
  {
    if acres > 0.0 then (1.0 * pop as real + 2.5 * emp as real) / acres else 0.0
  }

  /** Upper bounds (exclusive) of the density bands for codes 5, 4, 3, 2, 1. */
  const Breakpoints: seq<real> := [6.0, 30.0, 55.0, 100.0, 300.0]

  /**
    Area-type code of a density: 5 rural, 4 suburban, 3 urban, 2 urban business,
    1 CBD, 0 regional core.  The code is at least 5 - k exactly when the density
    is below the k-th breakpoint.
  */
  function AreaTypeCode(density: real): (code: int)
    ensures 0 <= code <= 5
    ensures forall k :: 0 <= k < |Breakpoints| ==> (density < Breakpoints[k] <==> code >= 5 - k)
  {
    if density < 6.0 then 5
    else if density < 30.0 then 4
    else if density < 55.0 then 3
    else if density < 100.0 then 2
    else if density < 300.0 then 1
    else 0
  }

  /** A higher density never gives a less urban (larger) code. */
  lemma AreaTypeCodeAntitone(d1: real, d2: real)
    requires d1 <= d2
    ensures AreaTypeCode(d2) <= AreaTypeCode(d1)
  {
  }

  /** More population or employment over the same positive acreage never gives a larger code. */
  lemma {:induction false} DensityAntitone(pop1: int, emp1: int, pop2: int, emp2: int, acres: real)
    requires pop1 <= pop2 && emp1 <= emp2 && acres > 0.0
    ensures Density(pop1, emp1, acres) <= Density(pop2, emp2, acres)
    ensures AreaTypeCode(Density(pop2, emp2, acres)) <= AreaTypeCode(Density(pop1, emp1, acres))
  {
    var d1, d2 := Density(pop1, emp1, acres), Density(pop2, emp2, acres);
    assert (d2 - d1) * acres == (pop2 - pop1) as real + 2.5 * (emp2 - emp1) as real;
    AreaTypeCodeAntitone(d1, d2);
  }

  /** A buffer without acreage has density 0 and is rural. */
  lemma NoAcreageIsRural(pop: int, emp: int, acres: real)
    requires acres <= 0.0
    ensures AreaTypeCode(Density(pop, emp, acres)) == 5
  {
  }

  /** Sums of the land-use columns over a buffer. */
  datatype Totals = Totals(pop: int, emp: int, acres: real)

  function Plus(t: Totals, u: LandUse): Totals {
    Totals(t.pop + u.pop, t.emp + u.emp, t.acres + u.acres)
  }

  /** Totals of the land use of the zones in ids. */
  ghost function BufferTotals(rows: map<int, LandUse>, ids: set<int>): Totals
    requires ids <= rows.Keys
    decreases ids
  {
    if ids == {} then Totals(0, 0, 0.0)
    else
      var z := Pick(ids);
      Plus(BufferTotals(rows, ids - {z}), rows[z])
  }

  /** The totals do not depend on which zone is summed last. */
  lemma {:induction false} BufferTotalsPick(rows: map<int, LandUse>, ids: set<int>, y: int)
    requires ids <= rows.Keys && y in ids
    ensures BufferTotals(rows, ids) == Plus(BufferTotals(rows, ids - {y}), rows[y])
    decreases ids
  {
    var z := Pick(ids);
    if z != y {
      var rest := ids - {z} - {y};
      assert ids - {y} - {z} == rest;
      BufferTotalsPick(rows, ids - {z}, y);
      BufferTotalsPick(rows, ids - {y}, z);
      assert BufferTotals(rows, ids - {z}) == Plus(BufferTotals(rows, rest), rows[y]);
      assert BufferTotals(rows, ids - {y}) == Plus(BufferTotals(rows, rest), rows[z]);
    }
  }

  /** Sums the land use of the zones returned by a buffer query. */
  method SumBuffer(rows: map<int, LandUse>, ids: set<int>) returns (t: Totals)
    requires ids <= rows.Keys
    ensures t == BufferTotals(rows, ids)
  {
    t := Totals(0, 0, 0.0);
    var rest := ids;
    while rest != {}
      invariant rest <= ids
      invariant BufferTotals(rows, ids) == Totals(
        t.pop + BufferTotals(rows, rest).pop,
        t.emp + BufferTotals(rows, rest).emp,
        t.acres + BufferTotals(rows, rest).acres)
      decreases rest
    {
      ghost var w := Witness(rest);
      var y :| y in rest;
      BufferTotalsPick(rows, rest, y);
      t := Plus(t, rows[y]);
      rest := rest - {y};
    }
  }

  /** Every indexed id has a land-use row. */
  ghost predicate IdsIn(es: seq<Entry>, rows: map<int, LandUse>) {
    forall k :: 0 <= k < |es| ==> es[k].id in rows
  }

  lemma SquareIdsIn(es: seq<Entry>, c: Point, r: real, rows: map<int, LandUse>)
    requires IdsIn(es, rows)
    ensures SquareIds(es, c, r) <= rows.Keys
  {
    SquareIdsExact(es, c, r);
  }

  /** The code of the square buffer of half-width buff around c. */
  ghost function BufferAreaType(rows: map<int, LandUse>, es: seq<Entry>, c: Point, buff: real): int
    requires IdsIn(es, rows)
  {
    SquareIdsIn(es, c, buff, rows);
    var t := BufferTotals(rows, SquareIds(es, c, buff));
    AreaTypeCode(Density(t.pop, t.emp, t.acres))
  }

  /** The index entries of the zone centroid nodes, in node order. */
  function ZoneEntries(nodes: seq<Node>): seq<Entry>
  {
    if nodes == [] then []
    else
      var n := nodes[|nodes| - 1];
      ZoneEntries(nodes[..|nodes| - 1]) + (if n.mazId != 0 then [Entry(n.mazId, Point(n.x, n.y))] else [])
  }

  /** Some node names a zone that has no land-use row. */
  ghost predicate HasUnknownZone(nodes: seq<Node>, rows: map<int, LandUse>) {
    exists k :: 0 <= k < |nodes| && nodes[k].mazId != 0 && nodes[k].mazId !in rows
  }

  /** The zone records after the index is built: land use plus last centroid coordinates. */
  ghost predicate Indexed(zones: map<int, Zone>, rows: map<int, LandUse>, es: seq<Entry>) {
    zones.Keys == rows.Keys &&
    forall z :: z in zones ==> zones[z] == Zone(rows[z], LastAt(es, z), None)
  }

  /** A zone with coordinates lies in its own square buffer whenever the buffer is not negative. */
  lemma ZoneInOwnBuffer(zones: map<int, Zone>, rows: map<int, LandUse>, es: seq<Entry>, z: int, buff: real)
    requires Indexed(zones, rows, es) && z in zones && zones[z].coords.Some? && buff >= 0.0
    ensures z in SquareIds(es, zones[z].coords.value, buff)
  {
    var k := LastAtWitness(es, z);
    SquareIdsExact(es, zones[z].coords.value, buff);
    assert InSquare(es[k].at, zones[z].coords.value, buff);
  }

  /**
    Builds the spatial index over the zone centroid nodes (nodes with a non-zero
    "@maz_id") and records each zone's coordinates; fails on the first node whose
    zone is missing from the land-use table.
  */
  method IndexZones(nodes: seq<Node>, rows: map<int, LandUse>)
    returns (index: SpatialGridIndex, zones: map<int, Zone>, unknown: Option<int>)
    ensures fresh(index)
    ensures unknown.None? <==> !HasUnknownZone(nodes, rows)
    ensures unknown.Some? ==> unknown.value != 0 && unknown.value !in rows
    ensures unknown.None? ==> index.entries == ZoneEntries(nodes) && IdsIn(index.entries, rows)
    ensures unknown.None? ==> Indexed(zones, rows, index.entries)
  {
    index := new SpatialGridIndex(0.5 * FeetPerMile);
    zones := map z | z in rows :: Zone(rows[z], None, None);
    var i := 0;
    while i < |nodes|
      invariant 0 <= i <= |nodes|
      invariant index.entries == ZoneEntries(nodes[..i])
      invariant !HasUnknownZone(nodes[..i], rows)
      invariant IdsIn(index.entries, rows)
      invariant Indexed(zones, rows, index.entries)
    {
      var n := nodes[i];
      assert nodes[..i + 1][..i] == nodes[..i];
      if n.mazId != 0 {
        if n.mazId !in rows {
          assert nodes[..i + 1][i] == n;
          assert HasUnknownZone(nodes, rows) by {
            assert nodes[i].mazId != 0 && nodes[i].mazId !in rows;
          }
          return index, zones, Some(n.mazId);
        }
        zones := zones[n.mazId := zones[n.mazId].(coords := Some(Point(n.x, n.y)))];
        index.Insert(n.mazId, n.x, n.y);
      }
      i := i + 1;
      assert !HasUnknownZone(nodes[..i], rows) by {
        forall k | 0 <= k < i && nodes[..i][k].mazId != 0
          ensures nodes[..i][k].mazId in rows
        {
          if k < i - 1 {
            assert nodes[..i][k] == nodes[..i - 1][k];
          }
        }
      }
    }
    assert nodes[..i] == nodes;
    unknown := None;
  }

  /** The code a zone ends with: its buffer's code when it has coordinates. */
  ghost function Classified(rows: map<int, LandUse>, es: seq<Entry>, buff: real, zone: Zone): Zone
    requires IdsIn(es, rows)
  {
    if zone.coords.Some? then zone.(areaType := Some(BufferAreaType(rows, es, zone.coords.value, buff)))
    else zone
  }

  /**
    Gives every zone with coordinates the area-type code of the square buffer
    around it; zones without coordinates are skipped and keep no code.
  */
  method ClassifyZones(index: SpatialGridIndex, rows: map<int, LandUse>, zones: map<int, Zone>, buff: real)
    returns (classified: map<int, Zone>)
    requires IdsIn(index.entries, rows)
    ensures classified.Keys == zones.Keys
    ensures forall z :: z in zones ==> classified[z] == Classified(rows, index.entries, buff, zones[z])
  {
    classified := zones;
    var todo := zones.Keys;
    while todo != {}
      invariant todo <= zones.Keys
      invariant classified.Keys == zones.Keys
      invariant forall z :: z in zones && z !in todo ==>
        classified[z] == Classified(rows, index.entries, buff, zones[z])
      invariant forall z :: z in todo ==> classified[z] == zones[z]
      decreases todo
    {
      ghost var w := Witness(todo);
      var z :| z in todo;
      var zone := zones[z];
      if zone.coords.Some? {
        var c := zone.coords.value;
        var ids := index.WithinSquare(c.x, c.y, buff);
        assert ids <= rows.Keys by {
          forall id | id in ids ensures id in rows {
            var k :| 0 <= k < |index.entries| && index.entries[k].id == id && InSquare(index.entries[k].at, c, buff);
          }
        }
        var t := SumBuffer(rows, ids);
        classified := classified[z := zone.(areaType := Some(AreaTypeCode(Density(t.pop, t.emp, t.acres))))];
      }
      todo := todo - {z};
    }
  }

  /** The smaller (more urban) of two codes. */
  function MinAreaType(a: int, b: int): (m: int)
    ensures m <= a && m <= b
    ensures m == a || m == b
  {
    if a <= b then a else b
  }

  function EndPoint(n: Node): Point {
    Point(n.x, n.y)
  }

  /** A classified zone with a code. */
  ghost predicate HasCode(zones: map<int, Zone>, z: int) {
    z in zones && zones[z].areaType.Some?
  }

  /**
    at is the smaller code of a zone nearest to the link's i-node and a zone
    nearest to its j-node.
  */
  ghost predicate LinkAreaTypeOk(es: seq<Entry>, zones: map<int, Zone>, link: Link, at: int) {
    exists a, b ::
      IsNearest(es, a, EndPoint(link.i)) && IsNearest(es, b, EndPoint(link.j)) &&
      HasCode(zones, a) && HasCode(zones, b) &&
      at == MinAreaType(zones[a].areaType.value, zones[b].areaType.value)
  }

  /** Every indexed zone has a code. */
  ghost predicate AllIndexedCoded(es: seq<Entry>, zones: map<int, Zone>) {
    forall k :: 0 <= k < |es| ==> HasCode(zones, es[k].id)
  }

  /**
    Sets each link's area type to the smaller code of the zones nearest its two
    end nodes; nothing else on the link changes.
  */
  method ClassifyLinks(index: SpatialGridIndex, zones: map<int, Zone>, links: seq<Link>)
    returns (r: Result<seq<Link>, AreaTypeError>)
    requires AllIndexedCoded(index.entries, zones)
    ensures r.Err? <==> index.entries == [] && links != []
    ensures r.Err? ==> r.error == EmptyIndex
    ensures r.Ok? ==> |r.value| == |links|
    ensures r.Ok? ==> forall k :: 0 <= k < |links| ==>
      r.value[k] == links[k].(areaType := r.value[k].areaType) &&
      LinkAreaTypeOk(index.entries, zones, links[k], r.value[k].areaType)
  {
    var out := links;
    var k := 0;
    while k < |links|
      invariant 0 <= k <= |links| && |out| == |links|
      invariant forall m :: k <= m < |links| ==> out[m] == links[m]
      invariant k > 0 ==> index.entries != []
      invariant forall m :: 0 <= m < k ==>
        out[m] == links[m].(areaType := out[m].areaType) &&
        LinkAreaTypeOk(index.entries, zones, links[m], out[m].areaType)
    {
      var link := links[k];
      var a := index.Nearest(link.i.x, link.i.y);
      var b := index.Nearest(link.j.x, link.j.y);
      if a.None? || b.None? {
        return Err(EmptyIndex);
      }
      ghost var ka :| 0 <= ka < |index.entries| && index.entries[ka].id == a.value && ClosestAt(index.entries, ka, EndPoint(link.i));
      ghost var kb :| 0 <= kb < |index.entries| && index.entries[kb].id == b.value && ClosestAt(index.entries, kb, EndPoint(link.j));
      assert HasCode(zones, index.entries[ka].id) && HasCode(zones, index.entries[kb].id);
      var at := MinAreaType(zones[a.value].areaType.value, zones[b.value].areaType.value);
      out := out[k := link.(areaType := at)];
      k := k + 1;
    }
    r := Ok(out);
  }

  /** The zone records as the classifier leaves them. */
  ghost function ClassifiedZones(rows: map<int, LandUse>, es: seq<Entry>, buff: real): map<int, Zone>
    requires IdsIn(es, rows)
  {
    map z | z in rows :: Classified(rows, es, buff, Zone(rows[z], LastAt(es, z), None))
  }

  /**
    The area-type pass over a network: index the zone centroids, classify every
    zone with coordinates over a square buffer of half-width 5280 * miles feet,
    then classify every link.  Only the links' area types change.
  */
  method SetAreaType(net: Network, rows: map<int, LandUse>, buffMiles: real)
    returns (r: Result<Network, AreaTypeError>)
    ensures r.Err? <==> HasUnknownZone(net.nodes, rows) || (ZoneEntries(net.nodes) == [] && net.links != [])
    ensures r.Ok? ==> IdsIn(ZoneEntries(net.nodes), rows)
    ensures r.Ok? ==> r.value == net.(links := r.value.links) && |r.value.links| == |net.links|
    ensures r.Ok? ==> forall k :: 0 <= k < |net.links| ==>
      r.value.links[k] == net.links[k].(areaType := r.value.links[k].areaType) &&
      LinkAreaTypeOk(ZoneEntries(net.nodes),
                     ClassifiedZones(rows, ZoneEntries(net.nodes), FeetPerMile * buffMiles),
                     net.links[k], r.value.links[k].areaType)
  {
    var buff := FeetPerMile * buffMiles;
    var index, zones, unknown := IndexZones(net.nodes, rows);
    if unknown.Some? {
      return Err(UnknownZone(unknown.value));
    }
    var es := index.entries;
    var classified := ClassifyZones(index, rows, zones, buff);
    assert classified == ClassifiedZones(rows, es, buff);
    assert AllIndexedCoded(es, classified) by {
      forall k | 0 <= k < |es| ensures HasCode(classified, es[k].id) {
        LastAtInserted(es, k);
      }
    }
    var links := ClassifyLinks(index, classified, net.links);
    if links.Err? {
      return Err(links.error);
    }
    r := Ok(net.(links := links.value));
  }

  /** A link's code is a code of one of its end zones and no larger than either. */
  lemma LinkAreaTypeBounds(es: seq<Entry>, zones: map<int, Zone>, link: Link, at: int)
    requires LinkAreaTypeOk(es, zones, link, at)
    requires forall z :: z in zones && zones[z].areaType.Some? ==> 0 <= zones[z].areaType.value <= 5
    ensures 0 <= at <= 5
    ensures exists a, b ::
      (IsNearest(es, a, EndPoint(link.i)) && IsNearest(es, b, EndPoint(link.j)) &&
       HasCode(zones, a) && HasCode(zones, b) &&
       at <= zones[a].areaType.value && at <= zones[b].areaType.value &&
       (at == zones[a].areaType.value || at == zones[b].areaType.value))
  {
  }
}
