# iometer, modelled in Dafny

iometer is a small Java disk benchmark. It reads `--threads`, `--filesize` (in MB) and
`--buffersize` from the command line. Each worker then writes a test file block by block,
reads it back sequentially, and does a number of random buffer-sized reads at
buffer-aligned slots. Every phase records one throughput figure (MB/sec over whole
elapsed seconds) under the key `operation-threadId`. Every single write or read bumps a
per-second IOPS counter. At shutdown, the figures are summed per operation and the IOPS
counter is summarised as min, max and average over its non-empty seconds.

This project models the sequential core of `IOMeter.java`:

- **Configuration:** `configuration.dfy` covers what the constructor derives from the sizes
  (`availablePoints`, `seeksToTry`, with Java's `int` narrowing and truncating division).
  It also covers `parseArgument`'s linear search with `split("=")`, and how `main` scales
  the file size.
- **Worker loops:** `meter.dfy` holds the class `IOMeter`, whose fields `iops` and
  `statsMap` its methods update. These are the write, sequential-read and random-read
  loops of a worker, `addIOP`, `calcMBsec`, and the two report methods `printIOPs` and
  `printStats`.
- **IOPS counter:** `iops.dfy` holds the counter as a map of maps, the effect of a run of
  `addIOP` calls, and the running figures of `printIOPs`.
- **Statistics keys:** `stats.dfy` holds the `operation-threadId` keys and the grouping of
  `printStats` by `key.split("-")[0]`.
- **Throughput:** `throughput.dfy` holds the `Calculator` of one phase.
- **Java helpers:** `java_int.dfy`, `java_text.dfy` and `java_util.dfy` write out the Java
  behaviour the code relies on. That is 32- and 64-bit wrap-around, `/` truncating toward
  zero, `String.split` dropping trailing empty pieces, the decimal text of a thread id,
  and a `HashMap` key set visited once per key in some order.

The model follows the code as written:

- **IOPS figures are cumulative.** `printIOPs` declares its four accumulators once, before
  the loop over kinds, so each kind's line also covers every kind printed before it
  (`Iops.ReportLine`, `Iops.ReportCumulative`).
- **The random-read figure uses a fixed byte count.** The random-read test records
  `1000 * bufferSize` bytes in `int` arithmetic, whatever number of seeks it did. That is
  fewer bytes than a completed test reads, for every `int` buffer size
  (`Meter.RandomReadBytesUnderstated`). Above 2147483 bytes the product overflows: up to
  4294967 bytes it wraps to `1000 * bufferSize - 2^32`, a negative byte count and so a
  negative MB/sec figure (`Meter.RandomReadBytesWraps`).
- **`seconds` truncates.** `(end - start) / 1000` truncates, and a phase shorter than one
  second divides by zero seconds. The figure is then Infinity or NaN, which the model
  calls `NonFinite`.
- **Any argument scales the default file size.** As soon as any argument is given, the
  file size is multiplied by `1024 * 1024` even when `--filesize` is absent. The default
  of 2 GiB, already in bytes, then becomes 2^51 (`Configuration.ReadConfiguration`).
  With the default buffer the quotient 2^39 narrows to 0, so there are -2 slots and 5000
  seeks; every draw is 0 or -1, and the first -1 makes the seek throw and ends the random
  test (`Meter.ScaledDefaultSlots`).

## Model

Every source path below is `iometer/src/main/java/com/persado/oss/iometer/IOMeter.java`.

| member | source | states |
|---|---|---|
| Configuration.AvailablePoints | iometer/src/main/java/com/persado/oss/iometer/IOMeter.java:57 | the slot count is an `int`; it is the quotient less two whenever that fits an `int`; and a positive slot count of buffers, plus two more buffers, fits in a non-negative file size |
| Configuration.PointsBelowQuotient | iometer/src/main/java/com/persado/oss/iometer/IOMeter.java:57 | whatever the narrowing does, a positive slot count is at most the quotient less two |
| Configuration.SeeksToTry | iometer/src/main/java/com/persado/oss/iometer/IOMeter.java:58 | the seek count is at least 5000 and at least the truncated thousandth of the slots; it is one of the two; and it never exceeds 2147483 |
| Configuration.Configure | iometer/src/main/java/com/persado/oss/iometer/IOMeter.java:44-58 | the constructor succeeds exactly for a positive buffer size; it throws for a negative size (array allocation) and otherwise for a zero size (division); on success the seek count is at least 5000 and the slot count is quotient less two when that fits |
| Configuration.ArgumentValue | iometer/src/main/java/com/persado/oss/iometer/IOMeter.java:100-106 | an argument without `=` fails on the missing `nameValue[1]`, and a rejected value is a piece of the split, so it holds no `=` |
| Configuration.ArgumentValueOf | iometer/src/main/java/com/persado/oss/iometer/IOMeter.java:100-105 | for a non-empty `value` without `=`, `name=value` yields the conversion of `value` or its `NumberFormatException`; an argument without `=` fails on the missing `nameValue[1]` |
| Configuration.Lookup | iometer/src/main/java/com/persado/oss/iometer/IOMeter.java:96-112 | with no argument starting with the name, the default is returned |
| Configuration.LookupFirstMatch | iometer/src/main/java/com/persado/oss/iometer/IOMeter.java:98-103 | the first argument starting with the name decides the result, whatever follows it |
| Configuration.ParseArgument | iometer/src/main/java/com/persado/oss/iometer/IOMeter.java:96-112 | the loop returns the value of the first matching argument, or its failure, or the default |
| Configuration.ScaleMegabytes | iometer/src/main/java/com/persado/oss/iometer/IOMeter.java:86 | the result is a `long`, and equals megabytes times 2^20 whenever that does not overflow |
| Configuration.ReadConfiguration | iometer/src/main/java/com/persado/oss/iometer/IOMeter.java:76-90 | no arguments give the defaults; otherwise each setting is its lookup, the first failing lookup ends `main` with its error, and without `--filesize` the default size is scaled to 2251799813685248 |
| Throughput.Plus | iometer/src/main/java/com/persado/oss/iometer/IOMeter.java:187-188 | the sum of two figures is non-finite exactly when one of them is, and zero is its identity |
| Throughput.Calculate | iometer/src/main/java/com/persado/oss/iometer/IOMeter.java:354-361 | the stored fields are the arguments; `seconds` is the elapsed time truncated toward zero, whatever its sign; it is zero exactly for under a second either way; and exactly then the figure is non-finite |
| Throughput.CalculateRate | iometer/src/main/java/com/persado/oss/iometer/IOMeter.java:359-360 | a finite figure times the seconds is the bytes in megabytes |
| Throughput.CalculateExample | iometer/src/main/java/com/persado/oss/iometer/IOMeter.java:354-361 | 2 MiB over 2000 ms is 2 seconds at 1.0 MB/sec |
| Iops.Bump | iometer/src/main/java/com/persado/oss/iometer/IOMeter.java:380-404 | computes the counter after one `addIOP`: the kind gets an empty inner map if it has none, and its bucket for the second is created at 1 or incremented (its effect is stated by `BumpEffect`) |
| Iops.BumpEffect | iometer/src/main/java/com/persado/oss/iometer/IOMeter.java:380-404 | `addIOP` adds its kind and second when missing, adds one to that bucket, and leaves every other bucket unchanged, with every other kind's inner map and every other second of the kind kept as they were |
| Iops.Hits | iometer/src/main/java/com/persado/oss/iometer/IOMeter.java:381 | the operations of a loop that fall in one second are at most the operations done |
| Iops.BumpTicksCount | iometer/src/main/java/com/persado/oss/iometer/IOMeter.java:380-404 | after a loop of `n` operations of one kind, each of its buckets has grown by the operations done in its second, and other kinds are unchanged |
| Iops.HitsSameSecond | iometer/src/main/java/com/persado/oss/iometer/IOMeter.java:381 | a loop done within one second puts all its operations in that bucket |
| Iops.FeedFigures | iometer/src/main/java/com/persado/oss/iometer/IOMeter.java:164-174 | the running figures only move forward; count and sum grow by the non-zero values; every non-zero value lies between min and max; min and max are each a starting value or a non-zero visited value; and min <= max is kept |
| Iops.FeedTotals | iometer/src/main/java/com/persado/oss/iometer/IOMeter.java:168-173 | the count grows by the number of non-zero values and the sum by their total |
| Iops.FeedBounds | iometer/src/main/java/com/persado/oss/iometer/IOMeter.java:168-170 | every non-zero value visited lies between the minimum and the maximum |
| Iops.FeedExtremes | iometer/src/main/java/com/persado/oss/iometer/IOMeter.java:168-170 | the minimum and the maximum are each the starting one or a non-zero visited value, never a skipped zero |
| Iops.FeedOrdered | iometer/src/main/java/com/persado/oss/iometer/IOMeter.java:168-170 | once something is counted the minimum is at most the maximum, and more values keep it so |
| Iops.Step | iometer/src/main/java/com/persado/oss/iometer/IOMeter.java:168-173 | one bucket value: a zero leaves the figures unchanged; a non-zero value is counted, ends up between min and max, and the figures only move forward |
| Iops.Feed | iometer/src/main/java/com/persado/oss/iometer/IOMeter.java:164-174 | the figures after a run of bucket values visited in order; they only ever move forward from where they started |
| Iops.FeedFromStart | iometer/src/main/java/com/persado/oss/iometer/IOMeter.java:159-174 | from the declared starting values, the count and sum are those of the non-zero values, and min <= max once one is counted |
| Iops.FeedSkipsZeros | iometer/src/main/java/com/persado/oss/iometer/IOMeter.java:168 | zero buckets never change the figures |
| Iops.FeedAppend | iometer/src/main/java/com/persado/oss/iometer/IOMeter.java:164-174 | feeding two runs of buckets in turn is feeding their concatenation |
| Iops.FeedNext | iometer/src/main/java/com/persado/oss/iometer/IOMeter.java:166-173 | one more bucket is one more step of the figures |
| Iops.Values | iometer/src/main/java/com/persado/oss/iometer/IOMeter.java:166-167 | one value per visited bucket |
| Iops.FlattenPrefix | iometer/src/main/java/com/persado/oss/iometer/IOMeter.java:164-174 | the buckets visited over the first kinds are a prefix of those visited over more kinds |
| Iops.ReportLine | iometer/src/main/java/com/persado/oss/iometer/IOMeter.java:176 | the figures printed for the `i`-th kind: its count and sum are those of the non-zero buckets of every kind visited up to and including it |
| Iops.ReportCumulative | iometer/src/main/java/com/persado/oss/iometer/IOMeter.java:158-178 | a later line covers every earlier one; a line's count and sum are over every non-zero bucket of all kinds printed so far; and its min <= max once it counts anything |
| Iops.FeedExample | iometer/src/main/java/com/persado/oss/iometer/IOMeter.java:164-174 | buckets 5, 3, 0, 7 give min 3, max 7, count 3, sum 15 |
| Stats.Key | iometer/src/main/java/com/persado/oss/iometer/IOMeter.java:372 | the key is the operation, a `-` and the decimal digits of the thread id |
| Stats.WellFormedCanGroup | iometer/src/main/java/com/persado/oss/iometer/IOMeter.java:185-186 | a key made that way does not end in `-`, so `split("-")[0]` exists |
| Stats.GroupIsSplit | iometer/src/main/java/com/persado/oss/iometer/IOMeter.java:185 | for such a key, `split("-")[0]` is the text before the first `-` |
| Stats.SplitEntry | iometer/src/main/java/com/persado/oss/iometer/IOMeter.java:184-186 | every key of a well-formed statistics map has a first split piece, the text before its first `-` |
| Stats.GroupOfKey | iometer/src/main/java/com/persado/oss/iometer/IOMeter.java:372 | a key whose operation has no `-` is grouped under that operation |
| Stats.KeyInjective | iometer/src/main/java/com/persado/oss/iometer/IOMeter.java:372 | for operations without `-`, equal keys mean the same operation and the same thread |
| Stats.GroupByOperation | iometer/src/main/java/com/persado/oss/iometer/IOMeter.java:184-192 | when no operation holds a `-`, a group's sum is the sum of that operation's figures over all workers |
| Stats.GroupsAreOperations | iometer/src/main/java/com/persado/oss/iometer/IOMeter.java:185 | when no operation holds a `-`, every key can be split and its group is its operation |
| Stats.GroupOf | iometer/src/main/java/com/persado/oss/iometer/IOMeter.java:185 | the group of a key, `key.split("-")[0]`: the text before its first `-`, a prefix of the key without `-` that stops at a `-` or at the end |
| Stats.GroupTotal | iometer/src/main/java/com/persado/oss/iometer/IOMeter.java:187-190 | computes the sum of the figures of the visited keys of one group; its value is stated by `TotalsValues` |
| Stats.OperationTotal | iometer/src/main/java/com/persado/oss/iometer/IOMeter.java:187-190 | computes the sum of the figures one operation recorded over the visited keys; `GroupByOperation` equates it with the group total |
| Stats.Totals | iometer/src/main/java/com/persado/oss/iometer/IOMeter.java:184-192 | computes the map the `totals` loop builds; its keys and values are stated by `TotalsKeys` and `TotalsValues` |
| Stats.TotalsStep | iometer/src/main/java/com/persado/oss/iometer/IOMeter.java:186-191 | one more key: its figure is put under its group when the group is new, and added to the group's total otherwise |
| Stats.TotalsSize | iometer/src/main/java/com/persado/oss/iometer/IOMeter.java:184-192 | there are at most as many totals as visited keys |
| Stats.TotalsKeys | iometer/src/main/java/com/persado/oss/iometer/IOMeter.java:184-192 | the totals have an entry for a group exactly when some visited key belongs to it |
| Stats.TotalsValues | iometer/src/main/java/com/persado/oss/iometer/IOMeter.java:184-192 | each entry is the sum of the figures of its group's keys, and a group without an entry has an empty sum |
| JavaText.StartsWith | iometer/src/main/java/com/persado/oss/iometer/IOMeter.java:99 | `s.startsWith(prefix)`: when it holds, `s` is the prefix followed by the rest of `s` |
| JavaText.Split | iometer/src/main/java/com/persado/oss/iometer/IOMeter.java:100 | a split has at least one piece, and no piece holds the separator |
| JavaText.JoinSplit | iometer/src/main/java/com/persado/oss/iometer/IOMeter.java:100 | joining the pieces with the separator gives the text back |
| JavaText.SplitWithout | iometer/src/main/java/com/persado/oss/iometer/IOMeter.java:100 | a text without the separator is one piece |
| JavaText.SplitAt | iometer/src/main/java/com/persado/oss/iometer/IOMeter.java:100 | the first separator ends the first piece |
| JavaText.SplitLastPiece | iometer/src/main/java/com/persado/oss/iometer/IOMeter.java:185 | a text not ending in the separator has a non-empty last piece |
| JavaText.SplitSeparators | iometer/src/main/java/com/persado/oss/iometer/IOMeter.java:185 | a run of separators splits into empty pieces |
| JavaText.JoinEmpties | iometer/src/main/java/com/persado/oss/iometer/IOMeter.java:185 | empty pieces join into a run of separators |
| JavaText.DropTrailingEmpty | iometer/src/main/java/com/persado/oss/iometer/IOMeter.java:185 | the result is a prefix, everything dropped is empty, and the last kept piece is not |
| JavaText.SplitAllEmpty | iometer/src/main/java/com/persado/oss/iometer/IOMeter.java:185 | with trailing empties dropped, a split is empty exactly for a run of separators |
| JavaText.JavaSplit | iometer/src/main/java/com/persado/oss/iometer/IOMeter.java:100 | no piece holds the separator; a text not ending in it splits into all its pieces; and the array is empty exactly for a non-empty run of separators, where `[0]` or `[1]` throws |
| JavaText.Before | iometer/src/main/java/com/persado/oss/iometer/IOMeter.java:185 | the result is a prefix free of the separator, and it stops only at a separator or at the end |
| JavaText.SplitFirst | iometer/src/main/java/com/persado/oss/iometer/IOMeter.java:185 | the first piece of a split is the text before the first separator |
| JavaText.JavaSplitFirst | iometer/src/main/java/com/persado/oss/iometer/IOMeter.java:185 | for a text not ending in the separator, `split(c)[0]` exists and is the text before the first separator |
| JavaText.BeforeAt | iometer/src/main/java/com/persado/oss/iometer/IOMeter.java:185 | the text before a separator is cut off at that separator |
| JavaText.Digit | iometer/src/main/java/com/persado/oss/iometer/IOMeter.java:372 | a digit's character is in `'0'..'9'` and stands for that digit |
| JavaText.DecimalText | iometer/src/main/java/com/persado/oss/iometer/IOMeter.java:372 | a thread id's text is one or more decimal digits |
| JavaText.DecimalRoundTrip | iometer/src/main/java/com/persado/oss/iometer/IOMeter.java:372 | reading the digits back gives the id, so distinct ids have distinct texts |
| JavaInt.Wrap32 | iometer/src/main/java/com/persado/oss/iometer/IOMeter.java:57 | the result is an `int`, equal to the value when it fits, and congruent to it modulo 2^32 |
| JavaInt.Wrap64 | iometer/src/main/java/com/persado/oss/iometer/IOMeter.java:86 | the result is a `long`, equal to the value when it fits, and congruent to it modulo 2^64 |
| JavaInt.TruncDiv | iometer/src/main/java/com/persado/oss/iometer/IOMeter.java:359 | the quotient truncates toward zero, so the remainder has the sign of the dividend and is smaller than the divisor |
| Meter.BlocksFor | iometer/src/main/java/com/persado/oss/iometer/IOMeter.java:321-325 | the number of blocks whose total first reaches the size: the total is at least the size and one block fewer is below it; none for a non-positive size |
| Meter.BlocksRemain | iometer/src/main/java/com/persado/oss/iometer/IOMeter.java:321 | while the file is short of the size, blocks remain |
| Meter.BlocksDone | iometer/src/main/java/com/persado/oss/iometer/IOMeter.java:321 | once the file reaches the size, every block has been written |
| Meter.SlotInRange | iometer/src/main/java/com/persado/oss/iometer/IOMeter.java:259 | where `(long) (random.nextDouble() * availablePoints)` can land: `[0, points)` for a positive count, 0 for none, and `(points, 0]` for a negative count, so a negative slot needs a negative count |
| Meter.SlotSign | iometer/src/main/java/com/persado/oss/iometer/IOMeter.java:259 | a negative slot can only be drawn for a negative slot count |
| Meter.NegativeSeek | iometer/src/main/java/com/persado/oss/iometer/IOMeter.java:259-260 | the seek point is negative exactly when the slot is |
| Meter.SlotBelow | iometer/src/main/java/com/persado/oss/iometer/IOMeter.java:259 | a slot below the count starts a whole buffer below the count's buffers |
| Meter.SeekWithinFile | iometer/src/main/java/com/persado/oss/iometer/IOMeter.java:259-261 | for a non-negative file size and a positive slot count, every seek and the buffer read after it stay inside the file, two buffers short of its end |
| Meter.RandomReadBytes | iometer/src/main/java/com/persado/oss/iometer/IOMeter.java:280 | the recorded byte count is an `int`, equal to `1000 * bufferSize` when that does not overflow |
| Meter.RandomReadBytesUnderstated | iometer/src/main/java/com/persado/oss/iometer/IOMeter.java:258-280 | for every positive `int` buffer size, the recorded byte count is below the bytes a completed random test reads |
| Meter.RandomReadBytesWraps | iometer/src/main/java/com/persado/oss/iometer/IOMeter.java:280 | for a buffer of 2147484 to 4294967 bytes the recorded count wraps to `1000 * bufferSize - 2^32`, which is negative |
| Meter.ScaledDefaultSlots | iometer/src/main/java/com/persado/oss/iometer/IOMeter.java:57-58 | with the scaled default size 2^51 and the default buffer there are -2 slots, 5000 seeks, and every draw is 0 or -1, only 0 being seekable |
| Meter.TallyBuckets | iometer/src/main/java/com/persado/oss/iometer/IOMeter.java:166-174 | the inner loop leaves the four figures as the running figures over that kind's buckets, in the visiting order |
| Meter.IOMeter.constructor | iometer/src/main/java/com/persado/oss/iometer/IOMeter.java:44-58 | the sizes are stored; the slot and seek counts are those derived from them; and both maps start empty |
| Meter.IOMeter.AddIOP | iometer/src/main/java/com/persado/oss/iometer/IOMeter.java:380-404 | the counter is the old counter bumped at the kind and the second |
| Meter.IOMeter.AddTick | iometer/src/main/java/com/persado/oss/iometer/IOMeter.java:323 | one more operation of a loop is one more bump at its second |
| Meter.IOMeter.CalcMBsec | iometer/src/main/java/com/persado/oss/iometer/IOMeter.java:371-374 | the map gains or replaces exactly the entry `operation-threadId` with the new figure, and every entry stays filed under a key of its own operation |
| Meter.IOMeter.WriteBlocks | iometer/src/main/java/com/persado/oss/iometer/IOMeter.java:317-325 | the loop writes `BlocksFor(fileSize, bufferSize)` blocks, or stops at the failing write; the length written is blocks times buffer size; a full run ends at or past the size but less than a block beyond it; and one "Write" is counted per block |
| Meter.IOMeter.CreateFileForTest | iometer/src/main/java/com/persado/oss/iometer/IOMeter.java:309-342 | the loop's effects, then a WRITE figure for the whole file size, recorded even after a failed write |
| Meter.IOMeter.ReadChunks | iometer/src/main/java/com/persado/oss/iometer/IOMeter.java:293-297 | one chunk per read before the first -1; the loop stops at the -1 or where a read throws; and one "Read Sequential" is counted per chunk |
| Meter.IOMeter.DoSequentialReadTest | iometer/src/main/java/com/persado/oss/iometer/IOMeter.java:284-307 | the loop's effects, then a READ figure for the whole file size |
| Meter.IOMeter.DrawSeekPoint | iometer/src/main/java/com/persado/oss/iometer/IOMeter.java:259 | a draw lands within the slot range and its seek point is the slot times the buffer size, negative exactly for a negative slot, which needs a negative slot count |
| Meter.IOMeter.SeekAndRead | iometer/src/main/java/com/persado/oss/iometer/IOMeter.java:258-264 | at most `seeksToTry` seeks, all of them when nothing throws and the slot count is not negative; a short run means the failing read or a negative seek; every slot read is non-negative and within the draw's range; and one "Read Random" is counted per seek |
| Meter.IOMeter.SlotsWithinFile | iometer/src/main/java/com/persado/oss/iometer/IOMeter.java:258-262 | for an object built by the constructor with a non-negative file size and a positive slot count, every slot the random-read loop reads from starts inside the file, and the buffer read there ends two buffers short of its end |
| Meter.IOMeter.DoRandomReadTest | iometer/src/main/java/com/persado/oss/iometer/IOMeter.java:251-282 | the loop's effects, then a READRANDOM figure for `1000 * bufferSize` bytes, whatever the number of seeks |
| Meter.IOMeter.DoIOBenchmark | iometer/src/main/java/com/persado/oss/iometer/IOMeter.java:237-249 | an unusable file changes nothing; otherwise the sequential test, then the random test, with both figures recorded; the chunks are the reads before the first -1 or the failing read; there are at most `seeksToTry` seeks, all of them unless a read fails or the slot count is negative; and every slot read is within the draw's range |
| Meter.IOMeter.PrintIOPs | iometer/src/main/java/com/persado/oss/iometer/IOMeter.java:158-178 | one line per kind in the visiting order; each line's figures are the running figures over every bucket of every kind visited so far |
| Meter.IOMeter.PrintStats | iometer/src/main/java/com/persado/oss/iometer/IOMeter.java:180-192 | every key can be split without throwing, and the totals are those of `Totals` (one entry per group, each the group's sum, by `TotalsKeys` and `TotalsValues`) |

## Left out

- Concurrency is not modelled. That means the worker threads, the `CyclicBarrier`s, the
  thread pool, the shutdown hook, the `synchronized` blocks and the `AtomicInteger`
  counts. Each operation is modelled as one worker's sequential step, and `doBenchmark`
  and `IOThread.run` are not modelled.
- File I/O is not modelled. That covers creating, writing, reading, seeking and deleting
  files, and the `dataBlock` contents drawn from `Math.random`. A failing write or read is
  a parameter (`failAt`). So are the values `read` returns (`results`) and whether the
  file exists and is writable (`fileUsable`).
- The clock is a parameter. The start and end milliseconds of each phase are arguments,
  and so is the second of each IOP (`clock`). The `(int)` cast of that second is not
  modelled: the clock gives the second directly.
- `random.nextDouble()` is not modelled. The random slot is any value the draw can
  produce, truncated toward zero (`SlotInRange`); its distribution is not modelled.
- `Runtime.availableProcessors()` is a parameter (`processors`) of `ReadConfiguration`.
- Logging and printing are not modelled. `printIOPs` and `printStats` return the lines
  and totals they would print.
- `HashMap` iteration order is a parameter. It is a sequence listing every key once
  (`Enumerates`), or the keys `seconds[i]` of each kind.
- `double` arithmetic is exact real arithmetic. Rounding is not modelled, and
  Infinity and NaN are the single value `NonFinite`.
- Meter.IOMeter.PrintIOPs: the `average` (`sum * 1.0 / count`) is left out, because it is a
  `double` division; the line carries `sum` and `count` instead. The `int` overflow of
  `count` and `sum` is also not modelled.
- Meter.IOMeter.AddIOP: the inner maps are values, not shared objects. So the aliasing of
  `stats` between threads is not captured, and the `stats == null` re-fetch (only
  reachable under a race) is not modelled.
- Configuration.ParseArgument: the model covers `Integer` and `Long` defaults only, whose
  conversion is the parameter `parse`. For a default of any other type, a matching argument
  is still split and `nameValue[1]` is still read. But neither conversion branch is taken,
  so the loop goes on to the next argument and can end at `return defaultValue`. The model
  does not capture that case.
- Meter.IOMeter.WriteBlocks: the `long` overflow of `fileSizeNow` is not modelled. It
  cannot happen below `Long.MAX_VALUE - bufferSize`.
- `Calculator.toString` and the log of the statistics map are not modelled.
