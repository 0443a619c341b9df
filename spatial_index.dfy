/**
  The spatial index over small-zone (MAZ) centroid nodes that the area-type
  classifier builds.  The grid implementation belongs to a helper module that is
  not part of this model, so the index is modelled by its contract only: the
  points inserted so far, a square range query and a nearest-point query.
*/
module SpatialIndex {
  import opened Wrappers

  /** A point of the projected coordinate system (feet). */
  datatype Point = Point(x: real, y: real)

  /** One insertion: an id placed at a point. */
  datatype Entry = Entry(id: int, at: Point)

  function Abs(v: real): (r: real)
    ensures r >= 0.0 && (r == v || r == -v)
  {
    if v < 0.0 then -v else v
  }

  /** Squared Euclidean distance; it orders points exactly as the distance does. */
  function SqDist(p: Point, q: Point): real {
    (p.x - q.x) * (p.x - q.x) + (p.y - q.y) * (p.y - q.y)
  }

  /** p lies in the axis-aligned square of half-width r centred on c (borders included). */
  predicate InSquare(p: Point, c: Point, r: real) {
    Abs(p.x - c.x) <= r && Abs(p.y - c.y) <= r
  }

  /** The ids of the entries inside the square, by recursion on the insertion sequence. */
  ghost function SquareIds(es: seq<Entry>, c: Point, r: real): set<int>
  {
    if es == [] then {}
    else
      var last := es[|es| - 1];
      SquareIds(es[..|es| - 1], c, r) + (if InSquare(last.at, c, r) then {last.id} else {})
  }

  /** id was inserted at some point in the square. */
  ghost predicate InsertedInSquare(es: seq<Entry>, id: int, c: Point, r: real) {
    exists k :: 0 <= k < |es| && es[k].id == id && InSquare(es[k].at, c, r)
  }

  /** The square query answers exactly the ids inserted at a point inside the square. */
  lemma {:induction false} SquareIdsExact(es: seq<Entry>, c: Point, r: real)
    ensures forall id :: id in SquareIds(es, c, r) <==> InsertedInSquare(es, id, c, r)
  {
    if es != [] {
      var init := es[..|es| - 1];
      SquareIdsExact(init, c, r);
      forall id ensures id in SquareIds(es, c, r) <==> InsertedInSquare(es, id, c, r) {
        if InsertedInSquare(init, id, c, r) {
          var k :| 0 <= k < |init| && init[k].id == id && InSquare(init[k].at, c, r);
          assert es[k] == init[k];
        }
        if InsertedInSquare(es, id, c, r) {
          var k :| 0 <= k < |es| && es[k].id == id && InSquare(es[k].at, c, r);
          if k < |init| {
            assert init[k] == es[k];
          }
        }
      }
    }
  }

  /** The entry at index k is at least as close to q as every other entry. */
  ghost predicate ClosestAt(es: seq<Entry>, k: int, q: Point)
    requires 0 <= k < |es|
  {
    forall j :: 0 <= j < |es| ==> SqDist(es[k].at, q) <= SqDist(es[j].at, q)
  }

  /** id is the id of an entry at minimum Euclidean distance from q. */
  ghost predicate IsNearest(es: seq<Entry>, id: int, q: Point) {
    exists k :: 0 <= k < |es| && es[k].id == id && ClosestAt(es, k, q)
  }

  /** The point at which id was inserted last (the coordinates a caller keeps for it). */
  function LastAt(es: seq<Entry>, id: int): Option<Point>
  {
    if es == [] then None
    else if es[|es| - 1].id == id then Some(es[|es| - 1].at)
    else LastAt(es[..|es| - 1], id)
  }

  /** Every inserted id has a last insertion point. */
  lemma {:induction false} LastAtInserted(es: seq<Entry>, k: int)
    requires 0 <= k < |es|
    ensures LastAt(es, es[k].id).Some?
  {
    if es[|es| - 1].id != es[k].id {
      LastAtInserted(es[..|es| - 1], k);
    }
  }

  /** The recorded point of an id is the point of one of its insertions. */
  lemma {:induction false} LastAtWitness(es: seq<Entry>, id: int) returns (k: nat)
    requires LastAt(es, id).Some?
    ensures k < |es| && es[k].id == id && es[k].at == LastAt(es, id).value
  {
    if es[|es| - 1].id == id {
      k := |es| - 1;
    } else {
      k := LastAtWitness(es[..|es| - 1], id);
    }
  }

  class SpatialGridIndex {
    /** Width of one grid cell; it only tunes the unmodelled grid. */
    const cellSize: real
    /** Every insertion, in order. */
    var entries: seq<Entry>

    constructor (size: real)
      ensures cellSize == size && entries == []
    {
      cellSize := size;
      entries := [];
    }

    /** Adds id at (x, y). */
    method Insert(id: int, x: real, y: real)
      modifies this
      ensures entries == old(entries) + [Entry(id, Point(x, y))]
    {
      entries := entries + [Entry(id, Point(x, y))];
    }

    /** The ids inserted inside the square of half-width r centred on (x, y). */
    method WithinSquare(x: real, y: real, r: real) returns (ids: set<int>)
      ensures ids == SquareIds(entries, Point(x, y), r)
      ensures forall id :: id in ids <==> InsertedInSquare(entries, id, Point(x, y), r)
    {
      ids := {};
      var k := 0;
      while k < |entries|
        invariant 0 <= k <= |entries|
        invariant ids == SquareIds(entries[..k], Point(x, y), r)
      {
        assert entries[..k + 1][..k] == entries[..k];
        if InSquare(entries[k].at, Point(x, y), r) {
          ids := ids + {entries[k].id};
        }
        k := k + 1;
      }
      assert entries[..k] == entries;
      SquareIdsExact(entries, Point(x, y), r);
    }

    /** An id at minimum Euclidean distance from (x, y); None when nothing was inserted. */
    method Nearest(x: real, y: real) returns (r: Option<int>)
      ensures r.None? <==> entries == []
      ensures r.Some? ==> IsNearest(entries, r.value, Point(x, y))
    {
      if entries == [] {
        return None;
      }
      var q := Point(x, y);
      var best := 0;
      var k := 1;
      while k < |entries|
        invariant 1 <= k <= |entries|
        invariant 0 <= best < k
        invariant forall j :: 0 <= j < k ==> SqDist(entries[best].at, q) <= SqDist(entries[j].at, q)
      {
        if SqDist(entries[k].at, q) < SqDist(entries[best].at, q) {
          best := k;
        }
        k := k + 1;
      }
      assert ClosestAt(entries, best, q);
      r := Some(entries[best].id);
    }
  }
}
