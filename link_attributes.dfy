/**
  Derivation of link attributes from the area type: the capacity class
  (capclass) and, through the configured capclass lookup table, the free-flow
  speed and free-flow time.
*/
module LinkAttributes {
  import opened Wrappers
  import opened Network

  /**
    Capacity class: -1 for an unclassified area type, otherwise the area type in
    the tens and the facility type in the units.  For a facility type 0..9 the
    two are read back by / 10 and % 10.
  */
  function Capclass(areaType: int, ft: int): (c: int)
    ensures areaType < 0 ==> c == -1
    ensures areaType >= 0 && 0 <= ft < 10 ==> c >= 0 && c / 10 == areaType && c % 10 == ft
  {
    if areaType < 0 then -1 else 10 * areaType + ft
  }

  /** Two links with classified area types and one-digit facility types share a
      capclass only when both their area types and facility types agree. */
  lemma {:induction false} CapclassInjective(a1: int, f1: int, a2: int, f2: int)
    requires a1 >= 0 && a2 >= 0 && 0 <= f1 < 10 && 0 <= f2 < 10
    requires Capclass(a1, f1) == Capclass(a2, f2)
    ensures a1 == a2 && f1 == f2
  {
    var c := Capclass(a1, f1);
    assert a1 == c / 10 && f1 == c % 10;
    assert a2 == c / 10 && f2 == c % 10;
  }

  /** Sets "@capclass" on every link from its area type and "@ft"; nothing else changes. */
  method SetCapclass(links: seq<Link>) returns (out: seq<Link>)
    ensures |out| == |links|
    ensures forall k :: 0 <= k < |links| ==>
      out[k] == links[k].(capclass := Capclass(links[k].areaType, links[k].ft))
  {
    out := links;
    var k := 0;
    while k < |links|
      invariant 0 <= k <= |links| && |out| == |links|
      invariant forall m :: 0 <= m < k ==> out[m] == links[m].(capclass := Capclass(links[m].areaType, links[m].ft))
      invariant forall m :: k <= m < |links| ==> out[m] == links[m]
    {
      var link := out[k];
      if link.areaType < 0 {
        out := out[k := link.(capclass := -1)];
      } else {
        out := out[k := link.(capclass := 10 * link.areaType + link.ft)];
      }
      k := k + 1;
    }
  }

  /** One row of the capclass lookup table; the speed may be absent (None). */
  datatype CapclassRow = CapclassRow(capclass: int, freeFlowSpeed: Option<real>)

  /** The speed the last row with this capclass and a speed gives, if any. */
  function LastSpeed(rows: seq<CapclassRow>, c: int): Option<real>
  {
    if rows == [] then None
    else
      var row := rows[|rows| - 1];
      if row.capclass == c && row.freeFlowSpeed.Some? then row.freeFlowSpeed
      else LastSpeed(rows[..|rows| - 1], c)
  }

  /**
    LastSpeed(rows, c) is Some(v) exactly when some row k gives c the speed v and
    no later row gives c a speed.
  */
  lemma {:induction false} LastSpeedIsLastRow(rows: seq<CapclassRow>, c: int, v: real)
    ensures LastSpeed(rows, c) == Some(v) <==>
      exists k :: 0 <= k < |rows| && rows[k] == CapclassRow(c, Some(v)) &&
        forall m :: k < m < |rows| ==> !(rows[m].capclass == c && rows[m].freeFlowSpeed.Some?)
  {
    if rows != [] {
      var init := rows[..|rows| - 1];
      var n := |rows| - 1;
      LastSpeedIsLastRow(init, c, v);
      var row := rows[n];
      if row.capclass == c && row.freeFlowSpeed.Some? {
        if row.freeFlowSpeed == Some(v) {
          assert rows[n] == CapclassRow(c, Some(v));
        } else {
          forall k | 0 <= k < |rows| && rows[k] == CapclassRow(c, Some(v))
            ensures exists m :: k < m < |rows| && rows[m].capclass == c && rows[m].freeFlowSpeed.Some?
          {
            assert k < n;
          }
        }
      } else {
        if LastSpeed(init, c) == Some(v) {
          var k :| 0 <= k < |init| && init[k] == CapclassRow(c, Some(v)) &&
            forall m :: k < m < |init| ==> !(init[m].capclass == c && init[m].freeFlowSpeed.Some?);
          assert rows[k] == init[k];
          assert forall m :: k < m < |rows| ==> !(rows[m].capclass == c && rows[m].freeFlowSpeed.Some?) by {
            forall m | k < m < |rows| ensures !(rows[m].capclass == c && rows[m].freeFlowSpeed.Some?) {
              if m < n { assert rows[m] == init[m]; }
            }
          }
        } else {
          forall k | 0 <= k < |rows| && rows[k] == CapclassRow(c, Some(v))
            ensures exists m :: k < m < |rows| && rows[m].capclass == c && rows[m].freeFlowSpeed.Some?
          {
            assert k < n;
            assert init[k] == rows[k];
            var m :| k < m < |init| && init[m].capclass == c && init[m].freeFlowSpeed.Some?;
            assert rows[m] == init[m];
          }
        }
      }
    }
  }

  /**
    The free-flow speed map built from the lookup table: rows without a speed
    are skipped and a later row overwrites an earlier one with the same capclass.
  */
  method BuildSpeedMap(rows: seq<CapclassRow>) returns (speeds: map<int, real>)
    ensures forall c :: c in speeds <==> LastSpeed(rows, c).Some?
    ensures forall c :: c in speeds ==> LastSpeed(rows, c) == Some(speeds[c])
  {
    speeds := map[];
    var k := 0;
    while k < |rows|
      invariant 0 <= k <= |rows|
      invariant forall c :: c in speeds <==> LastSpeed(rows[..k], c).Some?
      invariant forall c :: c in speeds ==> LastSpeed(rows[..k], c) == Some(speeds[c])
    {
      assert rows[..k + 1][..k] == rows[..k];
      var row := rows[k];
      if row.freeFlowSpeed.Some? {
        speeds := speeds[row.capclass := row.freeFlowSpeed.value];
      }
      k := k + 1;
    }
    assert rows[..k] == rows;
  }

  const DefaultSpeed: real := 25.0

  /** "@free_flow_speed": the table's speed for the capclass, stored as is even
      when it is 0, or 25 mph when the capclass is not in the table. */
  function FreeFlowSpeed(speeds: map<int, real>, capclass: int): (s: real)
  {
    if capclass in speeds then speeds[capclass] else DefaultSpeed
  }

  /**
    "@free_flow_time" in minutes: 60 * length / speed, where a zero speed is
    replaced by 25 mph; the time times the divisor used gives back 60 * length.
  */
  function FreeFlowTime(length: real, speed: real): (t: real)
    ensures speed != 0.0 ==> t * speed == 60.0 * length
    ensures speed == 0.0 ==> t * DefaultSpeed == 60.0 * length
  {
    var s := if speed != 0.0 then speed else DefaultSpeed;
    60.0 * length / s
  }

  /** The speed and time a link gets from the speed map. */
  function WithSpeed(speeds: map<int, real>, link: Link): Link {
    var s := FreeFlowSpeed(speeds, link.capclass);
    link.(freeFlowSpeed := s, freeFlowTime := FreeFlowTime(link.length, s))
  }

  /**
    The speed pass: builds the speed map from the lookup table, then sets each
    link's free-flow speed and time from its capclass; nothing else changes.
  */
  method SetSpeed(rows: seq<CapclassRow>, links: seq<Link>) returns (out: seq<Link>)
    ensures |out| == |links|
    ensures forall k :: 0 <= k < |links| ==>
      out[k] == links[k].(freeFlowSpeed := out[k].freeFlowSpeed, freeFlowTime := out[k].freeFlowTime)
    ensures forall k :: 0 <= k < |links| ==>
      (LastSpeed(rows, links[k].capclass).Some? ==> out[k].freeFlowSpeed == LastSpeed(rows, links[k].capclass).value) &&
      (LastSpeed(rows, links[k].capclass).None? ==> out[k].freeFlowSpeed == DefaultSpeed)
    ensures forall k :: 0 <= k < |links| ==>
      out[k].freeFlowTime == FreeFlowTime(links[k].length, out[k].freeFlowSpeed)
  {
    var speeds := BuildSpeedMap(rows);
    out := links;
    var k := 0;
    while k < |links|
      invariant 0 <= k <= |links| && |out| == |links|
      invariant forall m :: 0 <= m < k ==> out[m] == WithSpeed(speeds, links[m])
      invariant forall m :: k <= m < |links| ==> out[m] == links[m]
    {
      var link := out[k];
      var s := FreeFlowSpeed(speeds, link.capclass);
      out := out[k := link.(freeFlowSpeed := s, freeFlowTime := FreeFlowTime(link.length, s))];
      k := k + 1;
    }
  }

  /** A capclass missing from the table and one whose row gives speed 0 both get
      a free-flow time at 25 mph; only the missing one stores 25 as its speed. */
  lemma ZeroAndMissingSpeedTimes(speeds: map<int, real>, c: int, length: real)
    requires c !in speeds || speeds[c] == 0.0
    ensures FreeFlowTime(length, FreeFlowSpeed(speeds, c)) * DefaultSpeed == 60.0 * length
    ensures FreeFlowSpeed(speeds, c) == (if c in speeds then 0.0 else DefaultSpeed)
  {
  }
}
