/** The IOPS counter, kind -> second -> count, and the running figures `printIOPs` keeps
    over it. */
module Iops {
  import opened JavaInt

  /** `iops`: for each kind of operation, the number of operations done in each second. */
  type Buckets = map<string, map<int, nat>>

  /** The count in bucket `(kind, second)`, zero where there is no bucket. */
  function Count(m: Buckets, kind: string, second: int): nat {
    if kind in m && second in m[kind] then m[kind][second] else 0
  }

  /** `addIOP(kind)` at clock second `second`: the kind's inner map is created when it is
      missing, and the bucket is created at 1 or incremented. */
  function Bump(m: Buckets, kind: string, second: int): Buckets
  {
    var stats := if kind in m then m[kind] else map[];
    m[kind := stats[second := if second in stats then stats[second] + 1 else 1]]
  }

  /** `addIOP` adds the kind and the second when they are missing, adds one to that
      bucket and leaves every other bucket as it was. */
  lemma BumpEffect(m: Buckets, kind: string, second: int)
    ensures Bump(m, kind, second).Keys == m.Keys + {kind}
    ensures Bump(m, kind, second)[kind].Keys == (if kind in m then m[kind].Keys else {}) + {second}
    ensures forall k, s :: Count(Bump(m, kind, second), k, s) ==
                           Count(m, k, s) + (if k == kind && s == second then 1 else 0)
    ensures forall k | k in m && k != kind :: Bump(m, kind, second)[k] == m[k]
    ensures kind in m ==> forall s | s in m[kind] && s != second ::
                            Bump(m, kind, second)[kind][s] == m[kind][s]
  {
  }

  /** The number of the first `n` operations of a loop that fall in clock second `s`,
      `clock(i)` being the second of the `i`-th. */
  function Hits(clock: nat -> int, n: nat, s: int): (h: nat)
    ensures h <= n
  {
    if n == 0 then 0 else Hits(clock, n - 1, s) + (if clock(n - 1) == s then 1 else 0)
  }

  /** One `addIOP(kind)` for each of the first `n` operations of a loop, in order. */
  function BumpTicks(m: Buckets, kind: string, clock: nat -> int, n: nat): Buckets {
    if n == 0 then m else Bump(BumpTicks(m, kind, clock, n - 1), kind, clock(n - 1))
  }

  /** After a loop of `n` operations, each bucket of that kind has grown by the number of
      operations done in its second, and every other kind is as it was. */
  lemma {:induction false} BumpTicksCount(m: Buckets, kind: string, clock: nat -> int, n: nat, k: string, s: int)
    ensures Count(BumpTicks(m, kind, clock, n), k, s) ==
              Count(m, k, s) + (if k == kind then Hits(clock, n, s) else 0)
  {
    if n > 0 {
      BumpTicksCount(m, kind, clock, n - 1, k, s);
      BumpEffect(BumpTicks(m, kind, clock, n - 1), kind, clock(n - 1));
    }
  }

  /** A loop whose operations all fall in one second adds them all to that bucket. */
  lemma {:induction false} HitsSameSecond(clock: nat -> int, n: nat, s: int)
    requires forall i: nat | i < n :: clock(i) == s
    ensures Hits(clock, n, s) == n
  {
    if n > 0 {
      HitsSameSecond(clock, n - 1, s);
    }
  }

  /** `min`, `max`, `count` and `sum` of `printIOPs`. */
  datatype Tally = Tally(min: int, max: int, count: nat, sum: int)

  /** The values the four variables are declared with, once, before the loop over kinds. */
  const START: Tally := Tally(INT_MAX, INT_MIN, 0, 0)

  /** One bucket value: a zero value leaves the figures alone, and a non-zero one is
      counted, summed and ends up between the minimum and the maximum. */
  function Step(t: Tally, value: nat): (u: Tally)
    ensures Covers(t, u)
    ensures value == 0 ==> u == t
    ensures value != 0 ==> u.count == t.count + 1 && u.min <= value <= u.max
  {
    if value != 0 then
      Tally(if t.min <= value then t.min else value,
            if t.max >= value then t.max else value,
            t.count + 1, t.sum + value)
    else t
  }

  /** `u` is at least as far along as `t`: more counted, more summed, a lower minimum and a
      higher maximum. */
  predicate Covers(t: Tally, u: Tally) {
    t.count <= u.count && t.sum <= u.sum && u.min <= t.min && t.max <= u.max
  }

  function NonZeroCount(values: seq<nat>): nat {
    if values == [] then 0
    else NonZeroCount(values[..|values| - 1]) + (if values[|values| - 1] != 0 then 1 else 0)
  }

  function Sum(values: seq<nat>): nat {
    if values == [] then 0 else Sum(values[..|values| - 1]) + values[|values| - 1]
  }

  /** The figures after the bucket values `values`, visited in order from `t`; they only
      ever move forward. */
  function Feed(t: Tally, values: seq<nat>): (u: Tally)
    ensures Covers(t, u)
  {
    if values == [] then t
    else Step(Feed(t, values[..|values| - 1]), values[|values| - 1])
  }

  /** The count and the sum grow by those of the non-zero values. */
  lemma {:induction false} FeedTotals(t: Tally, values: seq<nat>)
    ensures Feed(t, values).count == t.count + NonZeroCount(values)
    ensures Feed(t, values).sum == t.sum + Sum(values)
  {
    if values != [] {
      FeedTotals(t, values[..|values| - 1]);
    }
  }

  /** Every non-zero value lies between the minimum and the maximum. */
  lemma {:induction false} FeedBounds(t: Tally, values: seq<nat>)
    ensures forall i | 0 <= i < |values| && values[i] != 0 ::
              Feed(t, values).min <= values[i] <= Feed(t, values).max
  {
    if values != [] {
      var init := values[..|values| - 1];
      FeedBounds(t, init);
      var before, after := Feed(t, init), Feed(t, values);
      assert Covers(before, after);
      forall i | 0 <= i < |values| && values[i] != 0
        ensures after.min <= values[i] <= after.max
      {
        if i < |init| {
          assert values[i] == init[i];
        }
      }
    }
  }

  /** The minimum and the maximum are each the starting one or a non-zero value. */
  lemma {:induction false} FeedExtremes(t: Tally, values: seq<nat>)
    ensures Feed(t, values).min == t.min || Feed(t, values).min in NonZero(values)
    ensures Feed(t, values).max == t.max || Feed(t, values).max in NonZero(values)
  {
    if values != [] {
      var init, last := values[..|values| - 1], values[|values| - 1];
      FeedExtremes(t, init);
      if last != 0 {
        assert NonZero(values) == NonZero(init) + [last];
      } else {
        assert NonZero(values) == NonZero(init) + [];
        assert NonZero(init) + [] == NonZero(init);
      }
    }
  }

  /** Once something is counted, the minimum is at most the maximum, and feeding keeps it so. */
  lemma {:induction false} FeedOrdered(t: Tally, values: seq<nat>)
    requires t.count > 0 ==> t.min <= t.max
    ensures Feed(t, values).count > 0 ==> Feed(t, values).min <= Feed(t, values).max
  {
    if values != [] {
      FeedOrdered(t, values[..|values| - 1]);
    }
  }

  /** What the figures mean: the count and the sum are those of the non-zero values, every
      non-zero value lies between the minimum and the maximum, each of which is either the
      starting one or one of the non-zero values, and the figures only ever move forward. */
  lemma {:induction false} FeedFigures(t: Tally, values: seq<nat>)
    ensures Covers(t, Feed(t, values))
    ensures Feed(t, values).count == t.count + NonZeroCount(values)
    ensures Feed(t, values).sum == t.sum + Sum(values)
    ensures forall i | 0 <= i < |values| && values[i] != 0 ::
              Feed(t, values).min <= values[i] <= Feed(t, values).max
    ensures Feed(t, values).min == t.min || Feed(t, values).min in NonZero(values)
    ensures Feed(t, values).max == t.max || Feed(t, values).max in NonZero(values)
    ensures (t.count > 0 ==> t.min <= t.max) ==> (Feed(t, values).count > 0 ==> Feed(t, values).min <= Feed(t, values).max)
  {
    FeedTotals(t, values);
    FeedBounds(t, values);
    FeedExtremes(t, values);
    if t.count > 0 ==> t.min <= t.max {
      FeedOrdered(t, values);
    }
  }

  /** Feeding from the declared values: the count and sum are those of the non-zero
      values, and once something is counted the minimum is at most the maximum. */
  lemma FeedFromStart(values: seq<nat>)
    ensures Feed(START, values).count == NonZeroCount(values)
    ensures Feed(START, values).sum == Sum(values)
    ensures Feed(START, values).count > 0 ==> Feed(START, values).min <= Feed(START, values).max
  {
    FeedTotals(START, values);
    FeedOrdered(START, values);
  }

  function NonZero(values: seq<nat>): (r: seq<nat>)
    ensures forall i | 0 <= i < |r| :: r[i] != 0
  {
    if values == [] then []
    else NonZero(values[..|values| - 1]) + (if values[|values| - 1] != 0 then [values[|values| - 1]] else [])
  }

  /** Zero buckets never change the figures: feeding only the non-zero values gives the
      same result. */
  lemma {:induction false} FeedSkipsZeros(t: Tally, values: seq<nat>)
    ensures Feed(t, values) == Feed(t, NonZero(values))
  {
    if values != [] {
      var init, last := values[..|values| - 1], values[|values| - 1];
      FeedSkipsZeros(t, init);
      if last != 0 {
        var nz := NonZero(init) + [last];
        assert NonZero(values) == nz;
        assert nz[..|nz| - 1] == NonZero(init);
      } else {
        assert NonZero(values) == NonZero(init) + [];
        assert NonZero(init) + [] == NonZero(init);
        assert Feed(t, values) == Feed(t, init);
      }
    }
  }

  /** Feeding two runs of values one after the other is feeding them joined. */
  lemma {:induction false} FeedAppend(t: Tally, xs: seq<nat>, ys: seq<nat>)
    ensures Feed(t, xs + ys) == Feed(Feed(t, xs), ys)
  {
    if ys == [] {
      assert xs + ys == xs;
    } else {
      FeedAppend(t, xs, ys[..|ys| - 1]);
      assert (xs + ys)[..|xs + ys| - 1] == xs + ys[..|ys| - 1];
    }
  }

  /** One more bucket value, as in the inner loop of `printIOPs`. */
  lemma FeedNext(t: Tally, values: seq<nat>, value: nat)
    ensures Feed(t, values + [value]) == Step(Feed(t, values), value)
  {
    assert (values + [value])[..|values|] == values;
  }

  /** Whether every second of `seconds` has a bucket in `stats`. */
  predicate Bucketed(stats: map<int, nat>, seconds: seq<int>) {
    forall i | 0 <= i < |seconds| :: seconds[i] in stats
  }

  /** The values of the first `n` buckets `seconds` of one kind's map, in that order. */
  function Values(stats: map<int, nat>, seconds: seq<int>, n: nat): (values: seq<nat>)
    requires Bucketed(stats, seconds) && n <= |seconds|
    ensures |values| == n
  {
    if n == 0 then []
    else Values(stats, seconds, n - 1) + [stats[seconds[n - 1]]]
  }

  /** Whether `seconds[i]` lists the buckets of `kinds[i]` for every `i`. */
  predicate Visits(m: Buckets, kinds: seq<string>, seconds: seq<seq<int>>) {
    && |kinds| == |seconds|
    && forall i | 0 <= i < |kinds| :: kinds[i] in m && Bucketed(m[kinds[i]], seconds[i])
  }

  /** All the bucket values the nested loops of `printIOPs` visit over the first `n` kinds,
      kind after kind. */
  function Flatten(m: Buckets, kinds: seq<string>, seconds: seq<seq<int>>, n: nat): seq<nat>
    requires Visits(m, kinds, seconds) && n <= |kinds|
  {
    if n == 0 then []
    else Flatten(m, kinds, seconds, n - 1) + Values(m[kinds[n - 1]], seconds[n - 1], |seconds[n - 1]|)
  }

  /** The values visited over the first `a` kinds come first among those over the first `b`. */
  lemma {:induction false} FlattenPrefix(m: Buckets, kinds: seq<string>, seconds: seq<seq<int>>, a: nat, b: nat)
    requires Visits(m, kinds, seconds) && a <= b <= |kinds|
    ensures Flatten(m, kinds, seconds, a) <= Flatten(m, kinds, seconds, b)
  {
    if a < b {
      FlattenPrefix(m, kinds, seconds, a, b - 1);
    }
  }

  /** The line `printIOPs` prints for the kind `kinds[i]`: the figures over every bucket of
      the kinds visited so far, since the four variables are never reset. */
  function ReportLine(m: Buckets, kinds: seq<string>, seconds: seq<seq<int>>, i: nat): (line: Tally)
    requires Visits(m, kinds, seconds) && i < |kinds|
    ensures line.count == NonZeroCount(Flatten(m, kinds, seconds, i + 1))
    ensures line.sum == Sum(Flatten(m, kinds, seconds, i + 1))
  {
    var values := Flatten(m, kinds, seconds, i + 1);
    FeedTotals(START, values);
    Feed(START, values)
  }

  /** The figures printed for a kind are those of all the kinds up to it: the lines only
      ever move forward, and the count and sum of each are over every non-zero bucket
      visited so far. */
  lemma ReportCumulative(m: Buckets, kinds: seq<string>, seconds: seq<seq<int>>, i: nat, j: nat)
    requires Visits(m, kinds, seconds) && i <= j < |kinds|
    ensures Covers(ReportLine(m, kinds, seconds, i), ReportLine(m, kinds, seconds, j))
    ensures ReportLine(m, kinds, seconds, j).count == NonZeroCount(Flatten(m, kinds, seconds, j + 1))
    ensures ReportLine(m, kinds, seconds, j).sum == Sum(Flatten(m, kinds, seconds, j + 1))
    ensures ReportLine(m, kinds, seconds, j).count > 0 ==>
              ReportLine(m, kinds, seconds, j).min <= ReportLine(m, kinds, seconds, j).max
  {
    FlattenPrefix(m, kinds, seconds, i + 1, j + 1);
    var first := Flatten(m, kinds, seconds, i + 1);
    var all := Flatten(m, kinds, seconds, j + 1);
    var rest := all[|first|..];
    assert all == first + rest;
    FeedAppend(START, first, rest);
    FeedFigures(Feed(START, first), rest);
    FeedFromStart(all);
  }

  /** The figures over bucket values 5, 3, 0 and 7: the zero is skipped. */
  lemma FeedExample()
    ensures Feed(START, [5, 3, 0, 7]) == Tally(3, 7, 3, 15)
  {
    var vs: seq<nat> := [5, 3, 0, 7];
    assert vs[..3] == [5, 3, 0];
    assert vs[..3][..2] == [5, 3];
    assert vs[..3][..2][..1] == [5];
    assert vs[..3][..2][..1][..0] == [];
    assert Feed(START, [5]) == Tally(5, 5, 1, 5);
    assert Feed(START, [5, 3]) == Tally(3, 5, 2, 8);
    assert Feed(START, [5, 3, 0]) == Tally(3, 5, 2, 8);
  }
}
