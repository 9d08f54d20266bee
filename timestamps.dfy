/** Timestamp-reset detection (first pass of the indexer) and the 64-bit
    "adjusted" timestamp it makes possible (second pass). */
module Timestamps {
  import opened Common

  /** A packet whose timestamp exceeds one million has the first
      timestamp lowered by this much to serve as the pre/post-reset
      baseline. */
  const BaselineSlack: int := 1000 * 1000
  /** A drop larger than this below the previous timestamp is a reset,
      not reordering. */
  const ResetGap: int := 2 * 1000 * 1000 * 1000

  /** `first_ts`, `last_ts` and `reset` of the first pass. `lastTs == 0`
      doubles as "no packet seen yet". */
  datatype TsState = TsState(firstTs: U32, lastTs: U32, reset: U32)

  const TsInit: TsState := TsState(0, 0, 0)

  predicate NonDecreasing(s: seq<int>)
  {
    forall i, j :: 0 <= i < j < |s| ==> s[i] <= s[j]
  }

  function Baseline(ts: U32): U32
  {
    if ts > BaselineSlack then ts - BaselineSlack else ts
  }

  /** One observed RTP timestamp. */
  function TrackTs(st: TsState, ts: U32): (r: TsState)
    ensures r.lastTs == ts
    ensures r.reset == st.reset || r.reset == ts
    ensures st.lastTs != 0 ==> r.firstTs == st.firstTs
    ensures st.lastTs == 0 ==> r.reset == st.reset && r.firstTs <= ts
    ensures st.lastTs == 0 ==> r.firstTs == Baseline(ts)
    ensures st.lastTs != 0 && ts < st.lastTs && st.lastTs - ts > ResetGap ==> r.reset == ts
    ensures st.lastTs != 0 && ts >= st.lastTs && ts < st.reset ==> r.reset == ts
    ensures (&& !(st.lastTs != 0 && ts < st.lastTs && st.lastTs - ts > ResetGap)
             && !(st.lastTs != 0 && ts >= st.lastTs && ts < st.reset))
            ==> r.reset == st.reset
  {
    if st.lastTs == 0 then
      TsState(Baseline(ts), ts, st.reset)
    else if ts < st.lastTs then
      if st.lastTs - ts > ResetGap then TsState(st.firstTs, ts, ts)
      else TsState(st.firstTs, ts, st.reset)
    else if ts < st.reset then
      TsState(st.firstTs, ts, ts)
    else
      TsState(st.firstTs, ts, st.reset)
  }

  /** The tracking state after observing `tss` in order. */
  function TrackAll(st: TsState, tss: seq<U32>): TsState
    decreases |tss|
  {
    if |tss| == 0 then st
    else TrackTs(TrackAll(st, tss[..|tss| - 1]), tss[|tss| - 1])
  }

  /** The 64-bit timestamp a descriptor is ordered by: packets at or
      below the baseline are taken to come after the 32-bit wrap, once a
      reset has been seen. */
  function Adjust(raw: U32, firstTs: U32, reset: U32): (r: int)
    ensures r % TWO32 == raw && 0 <= r < 2 * TWO32
    ensures r == raw <==> reset == 0 || raw > firstTs
  {
    if reset == 0 then raw
    else if raw > firstTs then raw
    else TWO32 + raw
  }

  function AdjustAll(tss: seq<U32>, st: TsState): (r: seq<int>)
    ensures |r| == |tss|
  {
    seq(|tss|, i requires 0 <= i < |tss| => Adjust(tss[i], st.firstTs, st.reset))
  }

  /** Any value that is post-reset is ordered after any value that is
      pre-reset, and within either class the raw order is kept. */
  lemma {:induction false} AdjustOrder(a: U32, b: U32, firstTs: U32, reset: U32)
    requires reset != 0
    ensures a > firstTs && b <= firstTs ==> Adjust(a, firstTs, reset) < Adjust(b, firstTs, reset)
    ensures (a > firstTs) == (b > firstTs) ==>
              Adjust(b, firstTs, reset) - Adjust(a, firstTs, reset) == b - a
  {
  }

  lemma {:induction false} TrackAppend(st: TsState, a: seq<U32>, b: seq<U32>)
    ensures TrackAll(st, a + b) == TrackAll(TrackAll(st, a), b)
    decreases |b|
  {
    if |b| == 0 {
      assert a + b == a;
    } else {
      assert (a + b)[..|a + b| - 1] == a + b[..|b| - 1];
      TrackAppend(st, a, b[..|b| - 1]);
    }
  }

  /** A rising run of non-zero timestamps fixes the baseline from its
      first value and detects no reset. */
  lemma {:induction false} TrackRising(xs: seq<U32>)
    requires |xs| > 0 && NonDecreasing(xs)
    requires forall i :: 0 <= i < |xs| ==> xs[i] > 0
    ensures TrackAll(TsInit, xs) == TsState(Baseline(xs[0]), xs[|xs| - 1], 0)
    decreases |xs|
  {
    if |xs| > 1 {
      var init := xs[..|xs| - 1];
      assert NonDecreasing(init);
      TrackRising(init);
    }
  }

  /** After a drop of more than the reset gap, a rising run of non-zero
      timestamps records its first value as the reset point. */
  lemma {:induction false} TrackAfterWrap(st: TsState, ys: seq<U32>)
    requires st.lastTs > 0 && st.reset == 0
    requires |ys| > 0 && NonDecreasing(ys)
    requires forall j :: 0 <= j < |ys| ==> ys[j] > 0
    requires st.lastTs - ys[0] > ResetGap
    ensures TrackAll(st, ys) == TsState(st.firstTs, ys[|ys| - 1], ys[0])
    decreases |ys|
  {
    if |ys| > 1 {
      var init := ys[..|ys| - 1];
      assert NonDecreasing(init);
      TrackAfterWrap(st, init);
    }
  }

  /** A recording whose timestamps rise, wrap once past 2^32 and rise
      again below the baseline: the reset is found at the first wrapped
      value, wrapped values are lifted by exactly 2^32, and the adjusted
      sequence never goes backwards. */
  lemma {:induction false} SingleWrapIsMonotone(xs: seq<U32>, ys: seq<U32>)
    requires |xs| > 0 && |ys| > 0
    requires NonDecreasing(xs) && NonDecreasing(ys)
    requires forall i :: 0 <= i < |xs| ==> xs[i] > 0
    requires forall j :: 0 <= j < |ys| ==> ys[j] > 0
    requires xs[0] > BaselineSlack
    requires xs[|xs| - 1] - ys[0] > ResetGap
    requires ys[|ys| - 1] <= xs[0] - BaselineSlack
    ensures var st := TrackAll(TsInit, xs + ys);
            && st.reset == ys[0]
            && (forall i :: 0 <= i < |xs| ==> Adjust(xs[i], st.firstTs, st.reset) == xs[i])
            && (forall j :: 0 <= j < |ys| ==> Adjust(ys[j], st.firstTs, st.reset) == ys[j] + TWO32)
            && NonDecreasing(AdjustAll(xs + ys, st))
  {
    TrackAppend(TsInit, xs, ys);
    TrackRising(xs);
    var mid := TrackAll(TsInit, xs);
    TrackAfterWrap(mid, ys);
    var st := TrackAll(TsInit, xs + ys);
    assert st == TsState(xs[0] - BaselineSlack, ys[|ys| - 1], ys[0]);
    var all := AdjustAll(xs + ys, st);
    forall i | 0 <= i < |xs| ensures all[i] == xs[i] {
      assert xs[i] >= xs[0];
    }
    forall j | 0 <= j < |ys| ensures all[|xs| + j] == ys[j] + TWO32 {
      assert ys[j] <= ys[|ys| - 1];
    }
    forall i, j | 0 <= i < j < |all| ensures all[i] <= all[j] {
      if j < |xs| {
      } else if i >= |xs| {
        assert ys[i - |xs|] <= ys[j - |xs|];
      }
    }
  }

  /** A single wrap: 4294966000, 4294966800, 500, 1300 adjust past 2^32. */
  lemma {:induction false} WrapExample()
    ensures var st := TrackAll(TsInit, [4294966000, 4294966800, 500, 1300]);
            st.reset == 500 &&
            AdjustAll([4294966000, 4294966800, 500, 1300], st) ==
              [4294966000, 4294966800, TWO32 + 500, TWO32 + 1300]
  {
    SingleWrapIsMonotone([4294966000, 4294966800], [500, 1300]);
    assert [4294966000, 4294966800] + [500, 1300] == [4294966000, 4294966800, 500, 1300];
  }
}
