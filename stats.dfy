/** The per-worker statistics map: its keys `operation + "-" + threadId`, and the grouping
    of `printStats` by the text before the first `-`. */
module Stats {
  import opened JavaText
  import opened Throughput

  /** The key `calcMBsec` stores a worker's figure under. */
  function Key(operation: string, threadId: nat): (key: string)
    ensures WellFormedKey(key, operation)
  {
    var id := DecimalText(threadId);
    var key := operation + "-" + id;
    assert key[|operation| + 1..] == id;
    key
  }

  /** `key` is `operation`, a `-`, then the non-empty decimal text of a thread id. */
  predicate WellFormedKey(key: string, operation: string) {
    && |operation| + 1 < |key|
    && key[..|operation|] == operation
    && key[|operation|] == '-'
    && IsDigits(key[|operation| + 1..])
  }

  /** Every entry is filed under a key made from its own operation. */
  predicate StatsWellFormed(stats: map<string, Calculator>) {
    forall k | k in stats :: WellFormedKey(k, stats[k].operation)
  }

  /** `split("-")[0]` does not throw: the key does not end in `-`. */
  predicate CanGroup(key: string) {
    |key| > 0 && key[|key| - 1] != '-'
  }

  /** A key made by `Key` can be grouped. */
  lemma WellFormedCanGroup(key: string, operation: string)
    requires WellFormedKey(key, operation)
    ensures CanGroup(key)
  {
    var id := key[|operation| + 1..];
    assert key[|key| - 1] == id[|id| - 1];
  }

  /** The total a key is added to in `printStats`: the text before its first `-`, which is
      `key.split("-")[0]` (see `GroupIsSplit`). */
  function GroupOf(key: string): (group: string)
    ensures '-' !in group && |group| <= |key| && group == key[..|group|]
    ensures |group| < |key| ==> key[|group|] == '-'
  {
    Before(key, '-')
  }

  /** For a key that can be grouped, `key.split("-")[0]` exists and is `GroupOf(key)`. */
  lemma GroupIsSplit(key: string)
    requires CanGroup(key)
    ensures |JavaSplit(key, '-')| > 0 && JavaSplit(key, '-')[0] == GroupOf(key)
  {
    JavaSplitFirst(key, '-');
  }

  /** Every key of a well-formed map can be grouped, by `split("-")[0]`. */
  lemma SplitEntry(stats: map<string, Calculator>, key: string)
    requires StatsWellFormed(stats) && key in stats
    ensures |JavaSplit(key, '-')| > 0 && JavaSplit(key, '-')[0] == GroupOf(key)
  {
    WellFormedCanGroup(key, stats[key].operation);
    GroupIsSplit(key);
  }

  /** A key made from an operation without `-` is grouped under that operation. */
  lemma GroupOfKey(key: string, operation: string)
    requires WellFormedKey(key, operation) && '-' !in operation
    ensures GroupOf(key) == operation
  {
    var id := key[|operation| + 1..];
    assert key == operation + "-" + id;
    BeforeAt(operation, '-', id);
  }

  /** For operations without `-`, a key names one operation and one worker. */
  lemma KeyInjective(op1: string, id1: nat, op2: string, id2: nat)
    requires '-' !in op1 && '-' !in op2
    requires Key(op1, id1) == Key(op2, id2)
    ensures op1 == op2 && id1 == id2
  {
    GroupOfKey(Key(op1, id1), op1);
    GroupOfKey(Key(op2, id2), op2);
    var key := Key(op1, id1);
    assert key[|op1| + 1..] == DecimalText(id1);
    assert key[|op2| + 1..] == DecimalText(id2);
    DecimalRoundTrip(id1);
    DecimalRoundTrip(id2);
  }

  /** Whether every key of `order` is in `stats`. */
  predicate Listed(stats: map<string, Calculator>, order: seq<string>) {
    forall i | 0 <= i < |order| :: order[i] in stats
  }

  /** The sum of the figures of the keys of `group` among the first `n` keys of `order`. */
  function GroupTotal(stats: map<string, Calculator>, order: seq<string>, n: nat, group: string): (total: Throughput)
    requires Listed(stats, order) && n <= |order|
  {
    if n == 0 then Rate(0.0)
    else
      var key := order[n - 1];
      var total := GroupTotal(stats, order, n - 1, group);
      if GroupOf(key) == group then Plus(total, stats[key].mbPerSec) else total
  }

  /** The sum of the figures recorded for `operation` among the first `n` keys of `order`,
      over all workers. */
  function OperationTotal(stats: map<string, Calculator>, order: seq<string>, n: nat, operation: string): (total: Throughput)
    requires Listed(stats, order) && n <= |order|
  {
    if n == 0 then Rate(0.0)
    else
      var key := order[n - 1];
      var total := OperationTotal(stats, order, n - 1, operation);
      if stats[key].operation == operation then Plus(total, stats[key].mbPerSec) else total
  }

  /** When no operation name holds a `-`, the total of a group is exactly the total of the
      operation of that name. */
  lemma {:induction false} GroupByOperation(stats: map<string, Calculator>, order: seq<string>, n: nat, operation: string)
    requires StatsWellFormed(stats)
    requires forall k | k in stats :: '-' !in stats[k].operation
    requires Listed(stats, order) && n <= |order|
    ensures GroupTotal(stats, order, n, operation) == OperationTotal(stats, order, n, operation)
  {
    if n > 0 {
      var key := order[n - 1];
      GroupByOperation(stats, order, n - 1, operation);
      GroupOfKey(key, stats[key].operation);
      assert GroupOf(key) == operation <==> stats[key].operation == operation;
    }
  }

  /** When no operation name holds a `-`, the groups are the operation names. */
  lemma GroupsAreOperations(stats: map<string, Calculator>)
    requires StatsWellFormed(stats)
    requires forall k | k in stats :: '-' !in stats[k].operation
    ensures forall k | k in stats :: CanGroup(k) && GroupOf(k) == stats[k].operation
  {
    forall k | k in stats
      ensures CanGroup(k) && GroupOf(k) == stats[k].operation
    {
      WellFormedCanGroup(k, stats[k].operation);
      GroupOfKey(k, stats[k].operation);
    }
  }

  /** The map `printStats` builds over the first `n` keys of `order`: each key's figure is
      put under its group when the group is new, and added to the group's total otherwise. */
  function Totals(stats: map<string, Calculator>, order: seq<string>, n: nat): (totals: map<string, Throughput>)
    requires Listed(stats, order) && n <= |order|
  {
    if n == 0 then map[]
    else
      var key := order[n - 1];
      var totals := Totals(stats, order, n - 1);
      var group := GroupOf(key);
      if group in totals then totals[group := Plus(totals[group], stats[key].mbPerSec)]
      else totals[group := stats[key].mbPerSec]
  }

  /** One more key: its figure is put under its group when the group is new, and added to
      the group's total otherwise. */
  lemma TotalsStep(stats: map<string, Calculator>, order: seq<string>, i: nat, group: string)
    requires Listed(stats, order) && i < |order| && group == GroupOf(order[i])
    ensures var totals := Totals(stats, order, i);
            var figure := stats[order[i]].mbPerSec;
            Totals(stats, order, i + 1) ==
              if group in totals then totals[group := Plus(totals[group], figure)] else totals[group := figure]
  {
  }

  /** There are at most as many totals as visited keys. */
  lemma {:induction false} TotalsSize(stats: map<string, Calculator>, order: seq<string>, n: nat)
    requires Listed(stats, order) && n <= |order|
    ensures |Totals(stats, order, n)| <= n
  {
    if n > 0 {
      TotalsSize(stats, order, n - 1);
    }
  }

  /** The totals hold one entry per group of a visited key. */
  lemma {:induction false} TotalsKeys(stats: map<string, Calculator>, order: seq<string>, n: nat, group: string)
    requires Listed(stats, order) && n <= |order|
    ensures group in Totals(stats, order, n) <==> exists i | 0 <= i < n :: GroupOf(order[i]) == group
  {
    if n > 0 {
      TotalsKeys(stats, order, n - 1, group);
    }
  }

  /** The entry of a group is the sum of the figures of its keys; a group without an entry
      has nothing to sum. */
  lemma {:induction false} TotalsValues(stats: map<string, Calculator>, order: seq<string>, n: nat, group: string)
    requires Listed(stats, order) && n <= |order|
    ensures group in Totals(stats, order, n) ==> Totals(stats, order, n)[group] == GroupTotal(stats, order, n, group)
    ensures group !in Totals(stats, order, n) ==> GroupTotal(stats, order, n, group) == Rate(0.0)
  {
    if n > 0 {
      TotalsValues(stats, order, n - 1, group);
    }
  }
}
