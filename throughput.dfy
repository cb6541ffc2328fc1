/** `Calculator`: whole elapsed seconds and the MB/sec figure of one timed phase. */
module Throughput {
  import opened JavaInt

  /** A `double` MB/sec figure. Rounding is not modelled: a finite figure is an exact real.
      Dividing by zero seconds gives Infinity or NaN in Java; both are `NonFinite`, and
      adding anything to them stays non-finite. */
  datatype Throughput = Rate(mbPerSec: real) | NonFinite

  /** `double` addition on figures. */
  function Plus(a: Throughput, b: Throughput): (r: Throughput)
    ensures r.NonFinite? <==> a.NonFinite? || b.NonFinite?
    ensures a == Rate(0.0) ==> r == b
  {
    if a.Rate? && b.Rate? then Rate(a.mbPerSec + b.mbPerSec) else NonFinite
  }

  datatype Calculator = Calculator(operation: string, start: int, end: int,
                                   seconds: int, bytes: int, mbPerSec: Throughput)

  /** `new Calculator(op, st, ed, bt)`: `seconds = (end - start) / 1000` in `long`
      arithmetic, truncating toward zero, and `mbPerSec = (bytes / 1024 / 1024) / seconds`
      in `double` arithmetic. */
  function Calculate(op: string, st: int, ed: int, bt: int): (c: Calculator)
    ensures c.operation == op && c.start == st && c.end == ed && c.bytes == bt
    ensures ed - st >= 0 ==> 0 <= (ed - st) - 1000 * c.seconds < 1000
    ensures ed - st < 0 ==> -1000 < (ed - st) - 1000 * c.seconds <= 0
    ensures c.seconds == 0 <==> -1000 < ed - st < 1000
    ensures c.mbPerSec.NonFinite? <==> c.seconds == 0
  {
    var seconds := TruncDiv(ed - st, 1000);
    var megabytes := bt as real / 1024.0 / 1024.0;
    Calculator(op, st, ed, seconds, bt,
               if seconds == 0 then NonFinite else Rate(megabytes / (seconds as real)))
  }

  /** Over a whole number of seconds, the figure times the seconds is the megabytes moved. */
  lemma CalculateRate(op: string, st: int, ed: int, bt: int)
    ensures var c := Calculate(op, st, ed, bt);
            c.seconds != 0 ==> c.mbPerSec.mbPerSec * (c.seconds as real) == (bt as real) / 1048576.0
  {
  }

  /** Two megabytes over exactly two seconds is two whole seconds at one MB/sec. */
  lemma CalculateExample(t0: int)
    ensures Calculate("X", t0, t0 + 2000, 2 * 1024 * 1024).seconds == 2
    ensures Calculate("X", t0, t0 + 2000, 2 * 1024 * 1024).mbPerSec == Rate(1.0)
  {
  }
}
