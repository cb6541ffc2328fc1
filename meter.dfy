/** `IOMeter`: the configuration, the statistics map and the IOPS counter it updates in
    place, the loops each worker runs, and the two reports printed at exit. */
module Meter {
  import opened Wrappers
  import opened JavaInt
  import opened JavaUtil
  import opened JavaText
  import opened Configuration
  import opened Throughput
  import opened Iops
  import opened Stats

  /** The number of blocks of `block` bytes that the creation loop appends to reach `size`
      bytes: the size rounded up to whole blocks. */
  function BlocksFor(size: int, block: int): (n: nat)
    requires block > 0
    ensures size <= 0 ==> n == 0
    ensures size > 0 ==> n * block - block < size <= n * block
  {
    if size <= 0 then 0
    else
      var n := (size + block - 1) / block;
      assert n * block - block == (n - 1) * block;
      n
  }

  /** A product with a positive factor is positive only if the other factor is. */
  lemma PositiveFactor(x: int, c: int)
    requires c > 0 && x * c > 0
    ensures x > 0
  {
  }

  /** While the file is shorter than `size`, more blocks remain to be appended. */
  lemma BlocksRemain(blocks: nat, size: int, block: int)
    requires block > 0 && blocks * block < size
    ensures blocks < BlocksFor(size, block)
  {
    var n := BlocksFor(size, block);
    assert (n - blocks) * block == n * block - blocks * block;
    PositiveFactor(n - blocks, block);
  }

  /** Once the file has reached `size`, every block has been appended. */
  lemma BlocksDone(blocks: nat, size: int, block: int)
    requires block > 0 && size > 0 && blocks <= BlocksFor(size, block) && size <= blocks * block
    ensures blocks == BlocksFor(size, block)
  {
    var n := BlocksFor(size, block);
    assert (blocks - n + 1) * block == blocks * block - (n * block - block);
    PositiveFactor(blocks - n + 1, block);
  }

  /** Where `(long) (random.nextDouble() * availablePoints)` can land: the product lies in
      `[0, points)` for a positive `points` and in `(points, 0]` otherwise, and the cast
      truncates toward zero. */
  predicate SlotInRange(slot: int, points: int)
    ensures SlotInRange(slot, points) && slot < 0 ==> points < 0
  {
    if points > 0 then 0 <= slot < points
    else if points == 0 then slot == 0
    else points < slot <= 0
  }

  /** A slot the random-read loop seeks to: one the draw can land on, at a seek point
      `seek` accepts. */
  predicate Seekable(slot: int, points: int) {
    0 <= slot && SlotInRange(slot, points)
  }

  /** Only a negative slot count lets a negative slot be chosen. */
  lemma SlotSign(slot: int, points: int)
    requires SlotInRange(slot, points)
    ensures slot < 0 ==> points < 0
  {
  }

  /** `raf.seek(seekPoint)` throws for a negative seek point, which is a negative slot. */
  lemma NegativeSeek(slot: int, bufferSize: int)
    requires bufferSize > 0
    ensures slot * bufferSize < 0 <==> slot < 0
  {
    if slot < 0 {
      assert (-slot) * bufferSize > 0;
    } else {
      assert slot * bufferSize >= 0;
    }
  }

  /** A slot below `points` starts a whole buffer below `points` buffers. */
  lemma SlotBelow(slot: int, points: int, bufferSize: int)
    requires bufferSize > 0 && 0 <= slot < points
    ensures 0 <= slot * bufferSize
    ensures slot * bufferSize + bufferSize <= points * bufferSize
  {
    var spare := points - 1 - slot;
    assert spare * bufferSize >= 0;
    assert points * bufferSize == slot * bufferSize + bufferSize + spare * bufferSize;
  }

  /** A seek to a slot, followed by a read of one buffer, stays inside the file and leaves
      two buffers to spare before its end. */
  lemma SeekWithinFile(slot: int, fileSize: int, bufferSize: int)
    requires bufferSize > 0 && fileSize >= 0
    requires AvailablePoints(fileSize, bufferSize) > 0
    requires SlotInRange(slot, AvailablePoints(fileSize, bufferSize))
    ensures 0 <= slot * bufferSize
    ensures slot * bufferSize + bufferSize <= fileSize - 2 * bufferSize
  {
    SlotBelow(slot, AvailablePoints(fileSize, bufferSize), bufferSize);
  }

  /** The default file size scaled by any argument, 2^51 bytes, with the default buffer:
      the quotient 2^39 narrows to 0, so there are -2 slots, the fewest seeks are done,
      and every draw is 0 or -1, the first -1 making `raf.seek` throw. */
  lemma ScaledDefaultSlots()
    ensures AvailablePoints(ScaleMegabytes(DEFAULT_FILESIZE), DEFAULT_BUFSIZE) == -2
    ensures SeeksToTry(-2) == MIN_SEEKS
    ensures forall slot :: SlotInRange(slot, -2) <==> slot == 0 || slot == -1
    ensures forall slot :: SlotInRange(slot, -2) ==> (Seekable(slot, -2) <==> slot == 0)
  {
    assert ScaleMegabytes(DEFAULT_FILESIZE) == 0x8_0000_0000_0000;
    assert TruncDiv(0x8_0000_0000_0000, DEFAULT_BUFSIZE) == 0x80_0000_0000;
    assert Wrap32(0x80_0000_0000) == 0;
  }

  /** The byte count the random-read test reports: `1000 * bufferSize` in `int`
      arithmetic, whatever the number of seeks. */
  function RandomReadBytes(bufferSize: int): (bytes: int)
    ensures IsInt(bytes)
    ensures 0 <= bufferSize <= 2147483 ==> bytes == 1000 * bufferSize
  {
    Wrap32(1000 * bufferSize)
  }

  /** Since at least 5000 seeks are done, the reported byte count is always below the
      bytes a completed random-read test reads, for every `int` buffer size. */
  lemma RandomReadBytesUnderstated(bufferSize: int, points: int)
    requires 0 < bufferSize && IsInt(bufferSize) && IsInt(points)
    ensures RandomReadBytes(bufferSize) < SeeksToTry(points) * bufferSize
  {
    var seeks := SeeksToTry(points);
    if bufferSize <= 2147483 {
      var extra := seeks - 1000;
      assert extra > 0;
      assert extra * bufferSize > 0;
      assert seeks * bufferSize == 1000 * bufferSize + extra * bufferSize;
    } else {
      var spare := seeks - MIN_SEEKS;
      assert spare * bufferSize >= 0;
      assert seeks * bufferSize == MIN_SEEKS * bufferSize + spare * bufferSize;
      assert RandomReadBytes(bufferSize) <= INT_MAX < MIN_SEEKS * bufferSize;
    }
  }

  /** Above 2147483 bytes `1000 * bufferSize` overflows: up to 4294967 bytes it wraps once,
      to a negative byte count, and with it a negative throughput figure. */
  lemma RandomReadBytesWraps(bufferSize: int)
    requires 2147483 < bufferSize <= 4294967
    ensures RandomReadBytes(bufferSize) == 1000 * bufferSize - 0x1_0000_0000
    ensures RandomReadBytes(bufferSize) < 0
  {
    var x := 1000 * bufferSize;
    assert 0x1_0000_0000 <= x - INT_MIN < 2 * 0x1_0000_0000;
    assert (x - INT_MIN) % 0x1_0000_0000 == x - INT_MIN - 0x1_0000_0000;
  }

  /** One line of the IOPS report: the kind and the figures printed with it. */
  datatype IopsLine = IopsLine(kind: string, tally: Tally)

  /** The inner loop of `printIOPs` over the buckets `seconds` of one kind, carrying the
      four figures `min`, `max`, `count` and `sum` from `figures`. */
  method TallyBuckets(stats: map<int, nat>, seconds: seq<int>, figures: Tally) returns (r: Tally)
    requires Bucketed(stats, seconds)
    ensures r == Feed(figures, Values(stats, seconds, |seconds|))
  {
    var min, max, count, sum := figures.min, figures.max, figures.count, figures.sum;
    for j := 0 to |seconds|
      invariant Tally(min, max, count, sum) == Feed(figures, Values(stats, seconds, j))
    {
      ghost var prev := Tally(min, max, count, sum);
      var value := stats[seconds[j]];
      if value != 0 {
        min := if min <= value then min else value;
        max := if max >= value then max else value;
        count := count + 1;
        sum := sum + value;
      }
      assert Tally(min, max, count, sum) == Step(prev, value);
      assert Values(stats, seconds, j + 1) == Values(stats, seconds, j) + [value];
      FeedNext(figures, Values(stats, seconds, j), value);
    }
    return Tally(min, max, count, sum);
  }

  class IOMeter {
    const threads: int
    const fileSize: int
    const bufferSize: int
    const availablePoints: int
    const seeksToTry: int

    /** Per-worker throughput, keyed `operation + "-" + threadId`. */
    var statsMap: map<string, Calculator>
    /** The IOPS counter. */
    var iops: Buckets

    /** The buffer size the constructor accepted, and the fewest seeks it settles on. */
    ghost predicate Sized() {
      bufferSize > 0 && MIN_SEEKS <= seeksToTry
    }

    /** The counts the constructor derived from the sizes. */
    ghost predicate DerivedCounts()
      requires Sized()
    {
      && availablePoints == AvailablePoints(fileSize, bufferSize)
      && seeksToTry == SeeksToTry(availablePoints)
    }

    /** The accepted sizes with the counts derived from them, and every figure filed under a
        key made from its own operation. */
    ghost predicate Valid()
      reads this`statsMap
    {
      Sized() && DerivedCounts() && StatsWellFormed(statsMap)
    }

    /** `new IOMeter(threads, fileSize, bufferSize)`, for sizes the constructor does not
        throw on (see `Configure`). */
    constructor (threads: int, fileSize: int, bufferSize: int)
      requires Configure(fileSize, bufferSize).Success?
      ensures Valid()
      ensures this.threads == threads && this.fileSize == fileSize && this.bufferSize == bufferSize
      ensures availablePoints == AvailablePoints(fileSize, bufferSize)
      ensures seeksToTry == SeeksToTry(availablePoints)
      ensures statsMap == map[] && iops == map[]
    {
      this.threads := threads;
      this.fileSize := fileSize;
      this.bufferSize := bufferSize;
      var points := AvailablePoints(fileSize, bufferSize);
      availablePoints := points;
      seeksToTry := SeeksToTry(points);
      statsMap := map[];
      iops := map[];
    }

    /** `addIOP(ofWhichType)`, with the clock's current second passed in. */
    method AddIOP(ofWhichType: string, second: int)
      modifies this`iops
      ensures iops == Bump(old(iops), ofWhichType, second)
    {
      var stats: map<int, nat>;
      if ofWhichType !in iops {
        stats := map[];
        iops := iops[ofWhichType := stats];
      } else {
        stats := iops[ofWhichType];
      }
      if second !in stats {
        stats := stats[second := 1];
      } else {
        stats := stats[second := stats[second] + 1];
      }
      iops := iops[ofWhichType := stats];
    }

    /** The `addIOP` of the `n`-th operation of a loop that started from the counter `base`. */
    method AddTick(kind: string, clock: nat -> int, n: nat, ghost base: Buckets)
      requires iops == BumpTicks(base, kind, clock, n)
      modifies this`iops
      ensures iops == BumpTicks(base, kind, clock, n + 1)
    {
      AddIOP(kind, clock(n));
    }

    /** `calcMBsec(operation, start, end, bytes)` on the thread `threadId`. */
    method CalcMBsec(operation: string, threadId: nat, start: int, end: int, bytes: int)
      requires Valid()
      modifies this`statsMap
      ensures Valid()
      ensures statsMap == old(statsMap)[Key(operation, threadId) := Calculate(operation, start, end, bytes)]
    {
      statsMap := statsMap[Key(operation, threadId) := Calculate(operation, start, end, bytes)];
    }

    /** The loop of `createFileForTest`: appends buffer-sized blocks until the file holds
        `fileSize` bytes, one "Write" operation per block. `failAt` is the index of the
        write that throws, if one does. `clock(i)` is the clock second of the `i`-th write. */
    method WriteBlocks(clock: nat -> int, failAt: Option<nat>) returns (blocks: nat, fileSizeNow: int)
      requires Sized()
      modifies this`iops
      ensures blocks == if failAt.Some? && failAt.value < BlocksFor(fileSize, bufferSize)
                        then failAt.value else BlocksFor(fileSize, bufferSize)
      ensures fileSizeNow == blocks * bufferSize
      ensures failAt.None? && fileSize > 0 ==> fileSize <= fileSizeNow < fileSize + bufferSize
      ensures iops == BumpTicks(old(iops), "Write", clock, blocks)
    {
      ghost var total := BlocksFor(fileSize, bufferSize);
      fileSizeNow := 0;
      blocks := 0;
      while fileSizeNow < fileSize
        invariant fileSizeNow == blocks * bufferSize
        invariant blocks <= total
        invariant failAt.Some? ==> blocks <= failAt.value
        invariant iops == BumpTicks(old(iops), "Write", clock, blocks)
        decreases fileSize - fileSizeNow
      {
        if failAt == Some(blocks) {
          break;
        }
        BlocksRemain(blocks, fileSize, bufferSize);
        AddTick("Write", clock, blocks, old(iops));
        assert (blocks + 1) * bufferSize == blocks * bufferSize + bufferSize;
        fileSizeNow := fileSizeNow + bufferSize;
        blocks := blocks + 1;
      }
      if fileSizeNow >= fileSize && fileSize > 0 {
        BlocksDone(blocks, fileSize, bufferSize);
      }
    }

    /** `createFileForTest`: the blocks of `WriteBlocks`, then the figure for the whole
        file size, recorded whether or not a write threw. `start` and `end` are the clock
        readings around the phase. */
    method CreateFileForTest(threadId: nat, start: int, end: int, clock: nat -> int, failAt: Option<nat>)
      returns (blocks: nat, fileSizeNow: int)
      requires Valid()
      modifies this`iops, this`statsMap
      ensures Valid()
      ensures blocks == if failAt.Some? && failAt.value < BlocksFor(fileSize, bufferSize)
                        then failAt.value else BlocksFor(fileSize, bufferSize)
      ensures fileSizeNow == blocks * bufferSize
      ensures failAt.None? && fileSize > 0 ==> fileSize <= fileSizeNow < fileSize + bufferSize
      ensures iops == BumpTicks(old(iops), "Write", clock, blocks)
      ensures statsMap == old(statsMap)[Key("WRITE", threadId) := Calculate("WRITE", start, end, fileSize)]
    {
      blocks, fileSizeNow := WriteBlocks(clock, failAt);
      CalcMBsec("WRITE", threadId, start, end, fileSize);
    }

    /** The loop of `doSequentialReadTest`: reads buffer-sized chunks until `read` returns
        -1, one "Read Sequential" operation per chunk. `results` are the values `read`
        returns, in order; when they run out before a -1, the next read threw. */
    method ReadChunks(clock: nat -> int, results: seq<int>) returns (chunks: nat)
      modifies this`iops
      ensures chunks <= |results|
      ensures -1 !in results[..chunks]
      ensures chunks < |results| ==> results[chunks] == -1
      ensures iops == BumpTicks(old(iops), "Read Sequential", clock, chunks)
    {
      chunks := 0;
      while chunks < |results| && results[chunks] != -1
        invariant chunks <= |results|
        invariant -1 !in results[..chunks]
        invariant iops == BumpTicks(old(iops), "Read Sequential", clock, chunks)
      {
        AddTick("Read Sequential", clock, chunks, old(iops));
        chunks := chunks + 1;
      }
    }

    /** `doSequentialReadTest`: the chunks of `ReadChunks`, then the figure for the whole
        file size. */
    method DoSequentialReadTest(threadId: nat, start: int, end: int, clock: nat -> int, results: seq<int>)
      returns (chunks: nat)
      requires Valid()
      modifies this`iops, this`statsMap
      ensures Valid()
      ensures chunks <= |results|
      ensures -1 !in results[..chunks]
      ensures chunks < |results| ==> results[chunks] == -1
      ensures iops == BumpTicks(old(iops), "Read Sequential", clock, chunks)
      ensures statsMap == old(statsMap)[Key("READ", threadId) := Calculate("READ", start, end, fileSize)]
    {
      chunks := ReadChunks(clock, results);
      CalcMBsec("READ", threadId, start, end, fileSize);
    }

    /** One draw of the random-read loop: a slot `(long) (random.nextDouble() * availablePoints)`
        and its seek point `slot * bufferSize`, negative exactly for a negative slot, which
        only a negative slot count allows. */
    method DrawSeekPoint() returns (slot: int, seekPoint: int)
      requires Sized()
      ensures SlotInRange(slot, availablePoints) && seekPoint == slot * bufferSize
      ensures seekPoint < 0 <==> slot < 0
      ensures seekPoint < 0 ==> availablePoints < 0
    {
      assert SlotInRange(0, availablePoints);
      slot :| SlotInRange(slot, availablePoints);
      seekPoint := slot * bufferSize;
      NegativeSeek(slot, bufferSize);
      SlotSign(slot, availablePoints);
    }

    /** The loop of `doRandomReadTest`: `seeksToTry` seeks, each to a random slot and
        followed by a read of one buffer and one "Read Random" operation. The slot is
        chosen freely within what `nextDouble()` allows; a negative seek point, or the
        failure at index `failAt`, throws and ends the loop. `slots` are the slots read
        from, the seek points being `slot * bufferSize`. */
    method SeekAndRead(clock: nat -> int, failAt: Option<nat>) returns (slots: seq<int>)
      requires Sized()
      modifies this`iops
      ensures |slots| <= seeksToTry
      ensures failAt.None? && availablePoints >= 0 ==> |slots| == seeksToTry
      ensures |slots| < seeksToTry ==> failAt == Some(|slots|) || availablePoints < 0
      ensures forall i | 0 <= i < |slots| :: Seekable(slots[i], availablePoints)
      ensures iops == BumpTicks(old(iops), "Read Random", clock, |slots|)
    {
      slots := [];
      var i := 0;
      while i < seeksToTry
        invariant 0 <= i <= seeksToTry && |slots| == i
        invariant failAt.Some? ==> i <= failAt.value
        invariant forall j | 0 <= j < i :: Seekable(slots[j], availablePoints)
        invariant iops == BumpTicks(old(iops), "Read Random", clock, i)
      {
        var slot, seekPoint := DrawSeekPoint();
        if seekPoint < 0 || failAt == Some(i) {
          break;
        }
        assert Seekable(slot, availablePoints);
        slots := slots + [slot];
        AddTick("Read Random", clock, i, old(iops));
        i := i + 1;
      }
    }

    /** For a positive slot count, every slot the random-read loop reads from starts inside
        the file, and the buffer read there ends two buffers short of its end. */
    lemma SlotsWithinFile(slots: seq<int>)
      requires Sized() && DerivedCounts() && fileSize >= 0 && availablePoints > 0
      requires forall i | 0 <= i < |slots| :: Seekable(slots[i], availablePoints)
      ensures forall i | 0 <= i < |slots| ::
                0 <= slots[i] * bufferSize && slots[i] * bufferSize + bufferSize <= fileSize - 2 * bufferSize
    {
      forall i | 0 <= i < |slots|
        ensures 0 <= slots[i] * bufferSize && slots[i] * bufferSize + bufferSize <= fileSize - 2 * bufferSize
      {
        SeekWithinFile(slots[i], fileSize, bufferSize);
      }
    }

    /** `doRandomReadTest`: the seeks of `SeekAndRead`, then a figure for `1000 * bufferSize`
        bytes, whatever the number of seeks. */
    method DoRandomReadTest(threadId: nat, start: int, end: int, clock: nat -> int, failAt: Option<nat>)
      returns (slots: seq<int>)
      requires Valid()
      modifies this`iops, this`statsMap
      ensures Valid()
      ensures |slots| <= seeksToTry
      ensures failAt.None? && availablePoints >= 0 ==> |slots| == seeksToTry
      ensures |slots| < seeksToTry ==> failAt == Some(|slots|) || availablePoints < 0
      ensures forall i | 0 <= i < |slots| :: Seekable(slots[i], availablePoints)
      ensures iops == BumpTicks(old(iops), "Read Random", clock, |slots|)
      ensures statsMap == old(statsMap)[Key("READRANDOM", threadId) :=
                                          Calculate("READRANDOM", start, end, RandomReadBytes(bufferSize))]
    {
      slots := SeekAndRead(clock, failAt);
      CalcMBsec("READRANDOM", threadId, start, end, RandomReadBytes(bufferSize));
    }

    /** `doIOBenchmark`: when the file exists and is writable, the sequential test and then
        the random test; otherwise nothing is measured. */
    method DoIOBenchmark(threadId: nat, fileUsable: bool,
                         seqStart: int, seqEnd: int, seqClock: nat -> int, results: seq<int>,
                         rndStart: int, rndEnd: int, rndClock: nat -> int, failAt: Option<nat>)
      returns (chunks: nat, slots: seq<int>)
      requires Valid()
      modifies this`iops, this`statsMap
      ensures Valid()
      ensures !fileUsable ==> chunks == 0 && slots == [] && iops == old(iops) && statsMap == old(statsMap)
      ensures fileUsable ==>
                && iops == BumpTicks(BumpTicks(old(iops), "Read Sequential", seqClock, chunks),
                                     "Read Random", rndClock, |slots|)
                && statsMap == old(statsMap)[Key("READ", threadId) := Calculate("READ", seqStart, seqEnd, fileSize)]
                                            [Key("READRANDOM", threadId) :=
                                               Calculate("READRANDOM", rndStart, rndEnd, RandomReadBytes(bufferSize))]
      ensures fileUsable ==> chunks <= |results| && -1 !in results[..chunks]
      ensures fileUsable && chunks < |results| ==> results[chunks] == -1
      ensures |slots| <= seeksToTry
      ensures fileUsable && failAt.None? && availablePoints >= 0 ==> |slots| == seeksToTry
      ensures fileUsable && |slots| < seeksToTry ==> failAt == Some(|slots|) || availablePoints < 0
      ensures forall i | 0 <= i < |slots| :: Seekable(slots[i], availablePoints)
    {
      chunks, slots := 0, [];
      if fileUsable {
        chunks := DoSequentialReadTest(threadId, seqStart, seqEnd, seqClock, results);
        slots := DoRandomReadTest(threadId, rndStart, rndEnd, rndClock, failAt);
      }
    }

    /** `printIOPs`: one line per kind, visiting the kinds in the order `kinds` and the
        buckets of `kinds[i]` in the order `seconds[i]`. The four figures are declared once
        before the loop over kinds and never reset, so each line is a `ReportLine`. */
    method PrintIOPs(kinds: seq<string>, seconds: seq<seq<int>>) returns (report: seq<IopsLine>)
      requires Enumerates(kinds, iops.Keys)
      requires Visits(iops, kinds, seconds)
      requires forall i | 0 <= i < |kinds| :: Enumerates(seconds[i], iops[kinds[i]].Keys)
      ensures |report| == |kinds|
      ensures forall i | 0 <= i < |kinds| :: report[i] == IopsLine(kinds[i], ReportLine(iops, kinds, seconds, i))
    {
      var figures := START;
      report := [];
      for i := 0 to |kinds|
        invariant |report| == i
        invariant figures == Feed(START, Flatten(iops, kinds, seconds, i))
        invariant forall a | 0 <= a < i :: report[a] == IopsLine(kinds[a], ReportLine(iops, kinds, seconds, a))
      {
        var statType := kinds[i];
        var stats := iops[statType];
        figures := TallyBuckets(stats, seconds[i], figures);
        FeedAppend(START, Flatten(iops, kinds, seconds, i), Values(stats, seconds[i], |seconds[i]|));
        report := report + [IopsLine(statType, figures)];
      }
    }

    /** `printStats(smaps)`: sums the figures into one total per group, the group of a
        key being `key.split("-")[0]`, visiting the keys in the order `order`. */
    method PrintStats(smaps: map<string, Calculator>, order: seq<string>) returns (totals: map<string, Throughput>)
      requires StatsWellFormed(smaps)
      requires Enumerates(order, smaps.Keys)
      ensures Listed(smaps, order)
      ensures totals == Totals(smaps, order, |order|)
    {
      assert Listed(smaps, order);
      totals := map[];
      for i := 0 to |order|
        invariant totals == Totals(smaps, order, i)
      {
        var operation := order[i];
        SplitEntry(smaps, operation);
        var split := JavaSplit(operation, '-');
        var group := split[0];
        var figure := smaps[operation].mbPerSec;
        TotalsStep(smaps, order, i, group);
        if group in totals {
          totals := totals[group := Plus(totals[group], figure)];
        } else {
          totals := totals[group := figure];
        }
      }
    }
  }
}
