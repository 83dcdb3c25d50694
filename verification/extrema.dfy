/**
 * The historical high/low reduction of `get_historical_data`.
 *
 * The readings kept are the numeric, non-zero ones: `array_filter` without a
 * callback drops the nulls standing for empty strings and also every 0.0.
 * The timestamp of an extreme comes from a forward scan that overwrites on
 * every match, so the last sample in series order carrying that value wins.
 */
module Extrema {
  import opened Base
  import opened UsgsTypes

  /** A reading survives the filter: it is a number other than zero. */
  predicate Kept(x: Reading) {
    x.Num? && x.r != 0.0
  }

  /** The surviving values of the samples, in series order. */
  function Retained(samples: seq<Sample>): (r: seq<real>)
    ensures |r| <= |samples|
    ensures forall k :: 0 <= k < |r| ==> r[k] != 0.0
  {
    if |samples| == 0 then []
    else
      var rest := Retained(samples[..|samples| - 1]);
      var last := samples[|samples| - 1].value;
      if Kept(last) then rest + [last.r] else rest
  }

  /** `v` is a retained value iff some sample carries it and it is not zero. */
  lemma {:induction false} RetainedMembers(samples: seq<Sample>, v: real)
    ensures v in Retained(samples) <==>
              v != 0.0 && exists i :: 0 <= i < |samples| && samples[i].value == Num(v)
    decreases |samples|
  {
    if |samples| > 0 {
      var init := samples[..|samples| - 1];
      RetainedMembers(init, v);
      if exists i :: 0 <= i < |samples| && samples[i].value == Num(v) {
        var i :| 0 <= i < |samples| && samples[i].value == Num(v);
        if i < |samples| - 1 {
          assert init[i] == samples[i];
        }
      }
      if exists i :: 0 <= i < |init| && init[i].value == Num(v) {
        var i :| 0 <= i < |init| && init[i].value == Num(v);
        assert samples[i] == init[i];
      }
    }
  }

  /** Appending a gap or a zero reading changes nothing that is retained. */
  lemma IgnoredReadings(samples: seq<Sample>, t: string)
    ensures Retained(samples + [Sample(Empty, t)]) == Retained(samples)
    ensures Retained(samples + [Sample(Num(0.0), t)]) == Retained(samples)
  {
    assert (samples + [Sample(Empty, t)])[..|samples|] == samples;
    assert (samples + [Sample(Num(0.0), t)])[..|samples|] == samples;
  }

  /** PHP `max()` over a non-empty list. */
  function MaxOf(xs: seq<real>): (m: real)
    requires |xs| > 0
    ensures m in xs
    ensures forall k :: 0 <= k < |xs| ==> xs[k] <= m
  {
    if |xs| == 1 then xs[0]
    else
      var rest := MaxOf(xs[..|xs| - 1]);
      assert forall k :: 0 <= k < |xs| - 1 ==> xs[..|xs| - 1][k] == xs[k];
      if xs[|xs| - 1] > rest then xs[|xs| - 1] else rest
  }

  /** PHP `min()` over a non-empty list. */
  function MinOf(xs: seq<real>): (m: real)
    requires |xs| > 0
    ensures m in xs
    ensures forall k :: 0 <= k < |xs| ==> m <= xs[k]
  {
    if |xs| == 1 then xs[0]
    else
      var rest := MinOf(xs[..|xs| - 1]);
      assert forall k :: 0 <= k < |xs| - 1 ==> xs[..|xs| - 1][k] == xs[k];
      if xs[|xs| - 1] < rest then xs[|xs| - 1] else rest
  }

  /** Index of the last sample whose value equals `v` (`$value['value'] == $high`). */
  function LastIndexOf(samples: seq<Sample>, v: real): (r: Option<nat>)
    ensures r.Some? ==> r.value < |samples| && samples[r.value].value == Num(v)
    ensures r.Some? ==> forall j :: r.value < j < |samples| ==> samples[j].value != Num(v)
    ensures r.None? ==> forall j :: 0 <= j < |samples| ==> samples[j].value != Num(v)
  {
    if |samples| == 0 then None
    else if samples[|samples| - 1].value == Num(v) then Some(|samples| - 1)
    else
      var r := LastIndexOf(samples[..|samples| - 1], v);
      assert forall j :: 0 <= j < |samples| - 1 ==> samples[..|samples| - 1][j] == samples[j];
      r
  }

  /** The `dateTime` of the last sample carrying `v`, or null when none does. */
  function LastTimeOf(samples: seq<Sample>, v: real): Option<string> {
    match LastIndexOf(samples, v)
    case Some(i) => Some(samples[i].dateTime)
    case None => None
  }

  /** `t` is the timestamp of the last sample in series order whose value is `v`. */
  ghost predicate IsLastTimeOf(samples: seq<Sample>, v: real, t: string) {
    exists i :: 0 <= i < |samples| && samples[i].value == Num(v) && samples[i].dateTime == t &&
      forall j :: i < j < |samples| ==> samples[j].value != Num(v)
  }

  /**
   * The timestamp scan of the source: walk the samples front to back and
   * overwrite the high and low timestamps on every match.
   */
  method ScanExtremeTimes(samples: seq<Sample>, high: real, low: real)
    returns (highAt: Option<string>, lowAt: Option<string>)
    ensures highAt == LastTimeOf(samples, high)
    ensures lowAt == LastTimeOf(samples, low)
  {
    highAt, lowAt := None, None;
    var i := 0;
    while i < |samples|
      invariant 0 <= i <= |samples|
      invariant highAt == LastTimeOf(samples[..i], high)
      invariant lowAt == LastTimeOf(samples[..i], low)
    {
      var prefix := samples[..i + 1];
      assert prefix[..i] == samples[..i];
      if samples[i].value == Num(high) {
        highAt := Some(samples[i].dateTime);
      }
      if samples[i].value == Num(low) {
        lowAt := Some(samples[i].dateTime);
      }
      i := i + 1;
    }
    assert samples[..|samples|] == samples;
  }

  /**
   * The high/low block for one series: all-null when nothing is retained,
   * otherwise max, min, their last timestamps and the series unit.
   */
  function SeriesExtremes(samples: seq<Sample>, unit: string): (e: Extremes)
    ensures e.NoExtremes? <==> |Retained(samples)| == 0
  {
    var kept := Retained(samples);
    if |kept| == 0 then NoExtremes
    else
      var high := MaxOf(kept);
      var low := MinOf(kept);
      Extremes(high, LastTimeOf(samples, high), low, LastTimeOf(samples, low), unit)
  }

  /** Everything the source promises about one series' high/low block. */
  lemma {:induction false} SeriesExtremesContract(samples: seq<Sample>, unit: string)
    ensures var e := SeriesExtremes(samples, unit);
      e.Extremes? ==>
        && e.high in Retained(samples) && e.low in Retained(samples)
        && (forall x :: x in Retained(samples) ==> e.low <= x <= e.high)
        && e.highAt.Some? && IsLastTimeOf(samples, e.high, e.highAt.value)
        && e.lowAt.Some? && IsLastTimeOf(samples, e.low, e.lowAt.value)
        && e.unit == unit
  {
    var e := SeriesExtremes(samples, unit);
    if e.Extremes? {
      var kept := Retained(samples);
      RetainedMembers(samples, e.high);
      RetainedMembers(samples, e.low);
      var hi := LastIndexOf(samples, e.high);
      var lo := LastIndexOf(samples, e.low);
      assert hi.Some? && lo.Some?;
      assert IsLastTimeOf(samples, e.high, samples[hi.value].dateTime);
      assert IsLastTimeOf(samples, e.low, samples[lo.value].dateTime);
    }
  }

  /** A series of gaps and zeros yields the all-null block. */
  lemma {:induction false} NothingRetainedMeansNull(samples: seq<Sample>, unit: string)
    requires forall i :: 0 <= i < |samples| ==> !Kept(samples[i].value)
    ensures Retained(samples) == []
    ensures SeriesExtremes(samples, unit) == NoExtremes
    decreases |samples|
  {
    if |samples| > 0 {
      var init := samples[..|samples| - 1];
      assert forall i :: 0 <= i < |init| ==> init[i] == samples[i];
      NothingRetainedMeansNull(init, unit);
    }
  }

  /**
   * Readings 10, gap, 25, 25 at t1..t4: high 25 is stamped t4 (the last
   * match, not the first), low 10 is stamped t1, and the gap is ignored.
   */
  lemma LastMatchWinsExample()
    ensures var samples := [Sample(Num(10.0), "t1"), Sample(Empty, "t2"),
                            Sample(Num(25.0), "t3"), Sample(Num(25.0), "t4")];
      SeriesExtremes(samples, "ft3/s") == Extremes(25.0, Some("t4"), 10.0, Some("t1"), "ft3/s")
  {
    var samples := [Sample(Num(10.0), "t1"), Sample(Empty, "t2"),
                    Sample(Num(25.0), "t3"), Sample(Num(25.0), "t4")];
    assert samples[..3][..2] == samples[..2];
    assert samples[..2][..1] == samples[..1];
    assert samples[..1][..0] == [];
    assert Retained(samples[..1]) == [10.0];
    assert Retained(samples[..2]) == [10.0];
    assert Retained(samples[..3]) == [10.0, 25.0];
    assert Retained(samples) == [10.0, 25.0, 25.0];
    assert MaxOf([10.0, 25.0]) == 25.0;
    assert MinOf([10.0, 25.0]) == 10.0;
    assert LastIndexOf(samples, 25.0) == Some(3);
    assert samples[..3][..2][..1] == samples[..1];
    assert LastIndexOf(samples[..1], 10.0) == Some(0);
  }
}
