/** The run configuration: the defaults and command-line lookup of `main`, and the values
    the `IOMeter` constructor derives from the file and buffer sizes. */
module Configuration {
  import opened Wrappers
  import opened JavaInt
  import opened JavaText

  const DEFAULT_BUFSIZE: int := 4 * 1024
  const DEFAULT_FILESIZE: int := 2 * 1024 * 1024 * 1024
  /** The fewest random seeks a worker ever does. */
  const MIN_SEEKS: int := 5000

  /** `(int) (fileSize / bufferSize) - 2`: the number of buffer-aligned slots a random read
      may start at, keeping two buffers of margin before the end of the file. The quotient
      is a `long`, narrowed to `int`, and the subtraction is `int` arithmetic. */
  function AvailablePoints(fileSize: int, bufferSize: int): (points: int)
    requires bufferSize > 0
    ensures IsInt(points)
    ensures INT_MIN + 2 <= TruncDiv(fileSize, bufferSize) <= INT_MAX ==>
              points == TruncDiv(fileSize, bufferSize) - 2
    ensures fileSize >= 0 && points > 0 ==> points * bufferSize + 2 * bufferSize <= fileSize
  {
    var q := TruncDiv(fileSize, bufferSize);
    var narrowed := Wrap32(q);
    var points := Wrap32(narrowed - 2);
    if fileSize >= 0 && points > 0 then
      PointsBelowQuotient(q, narrowed, points);
      assert (q - (points + 2)) * bufferSize >= 0;
      points
    else
      points
  }

  /** Whatever the narrowing does, a positive slot count never exceeds the quotient less two. */
  lemma PointsBelowQuotient(q: int, narrowed: int, points: int)
    requires q >= 0
    requires narrowed == Wrap32(q) && points == Wrap32(narrowed - 2)
    requires points > 0
    ensures points <= q - 2
  {
    var k1 := (q - narrowed) / 0x1_0000_0000;
    var k2 := (narrowed - 2 - points) / 0x1_0000_0000;
    assert q - narrowed == k1 * 0x1_0000_0000;
    assert narrowed - 2 - points == k2 * 0x1_0000_0000;
  }

  /** `Math.max(5000, availablePoints / 1000)` with `int` division. */
  function SeeksToTry(points: int): (seeks: int)
    requires IsInt(points)
    ensures MIN_SEEKS <= seeks <= 2147483
    ensures seeks >= TruncDiv(points, 1000)
    ensures seeks == MIN_SEEKS || seeks == TruncDiv(points, 1000)
  {
    var perThousand := TruncDiv(points, 1000);
    if MIN_SEEKS >= perThousand then MIN_SEEKS else perThousand
  }

  datatype Derived = Derived(availablePoints: int, seeksToTry: int)

  /** How the constructor fails: `new byte[bufferSize]` throws for a negative size, and
      the division `fileSize / bufferSize` throws for a zero one. */
  datatype Fault = NegativeArraySize | DivisionByZero

  /** What the constructor computes from the two sizes, or the exception it ends with. */
  function Configure(fileSize: int, bufferSize: int): (r: Result<Derived, Fault>)
    ensures r.Success? <==> bufferSize > 0
    ensures r == Failure(NegativeArraySize) <==> bufferSize < 0
    ensures r.Success? ==> MIN_SEEKS <= r.value.seeksToTry && IsInt(r.value.availablePoints)
    ensures r.Success? && 2 <= TruncDiv(fileSize, bufferSize) <= INT_MAX ==>
              r.value.availablePoints == TruncDiv(fileSize, bufferSize) - 2
  {
    if bufferSize < 0 then Failure(NegativeArraySize)
    else if bufferSize == 0 then Failure(DivisionByZero)
    else
      var points := AvailablePoints(fileSize, bufferSize);
      Success(Derived(points, SeeksToTry(points)))
  }

  /** The exceptions `parseArgument` lets escape: `nameValue[1]` out of bounds, and a
      value that `Integer.valueOf` or `Long.valueOf` rejects. */
  datatype ArgError = MissingValue(argument: string) | NotANumber(text: string)

  /** The value of a matching argument: the second piece of `argument.split("=")`,
      converted by `parse` (which stands for `Integer.valueOf` or `Long.valueOf`). */
  function ArgumentValue<T>(argument: string, parse: string -> Option<T>): (r: Result<T, ArgError>)
    ensures '=' !in argument ==> r == Failure(MissingValue(argument))
    ensures r.Failure? && r.error.NotANumber? ==> '=' !in r.error.text
  {
    if '=' !in argument then
      SplitWithout(argument, '=');
      Failure(MissingValue(argument))
    else
    var nameValue := JavaSplit(argument, '=');
    if |nameValue| < 2 then Failure(MissingValue(argument))
    else
      match parse(nameValue[1])
      case None => Failure(NotANumber(nameValue[1]))
      case Some(v) => Success(v)
  }

  /** For a `name` and a non-empty `value` without `=`, `--name=value` yields the
      conversion of `value`, and an argument without `=` throws for the missing second
      piece. */
  lemma ArgumentValueOf<T>(name: string, value: string, parse: string -> Option<T>)
    requires '=' !in name && '=' !in value && value != []
    ensures ArgumentValue(name + "=" + value, parse) ==
              match parse(value)
              case None => Failure(NotANumber(value))
              case Some(v) => Success(v)
    ensures ArgumentValue(name, parse) == Failure(MissingValue(name))
  {
    var argument := name + "=" + value;
    assert argument[|argument| - 1] == value[|value| - 1];
    SplitAt(name, '=', value);
    SplitWithout(value, '=');
    assert JavaSplit(argument, '=') == [name, value];
  }

  /** What `parseArgument(name, args, default)` returns: the value of the first argument
      that starts with `name`, or `default` when there is none. */
  function Lookup<T>(name: string, args: seq<string>, default: T, parse: string -> Option<T>): (r: Result<T, ArgError>)
    ensures (forall i | 0 <= i < |args| :: !StartsWith(args[i], name)) ==> r == Success(default)
  {
    if args == [] then Success(default)
    else if StartsWith(args[0], name) then ArgumentValue(args[0], parse)
    else Lookup(name, args[1..], default, parse)
  }

  /** The first argument that starts with `name` decides the lookup; later ones are ignored. */
  lemma {:induction false} LookupFirstMatch<T>(name: string, args: seq<string>, default: T, parse: string -> Option<T>, i: nat)
    requires i < |args| && StartsWith(args[i], name)
    requires forall j | 0 <= j < i :: !StartsWith(args[j], name)
    ensures Lookup(name, args, default, parse) == ArgumentValue(args[i], parse)
  {
    if i > 0 {
      LookupFirstMatch(name, args[1..], default, parse, i - 1);
    }
  }

  /** `parseArgument`: a linear search over `args` that returns at the first match. */
  method ParseArgument<T>(argumentName: string, args: seq<string>, defaultValue: T, parse: string -> Option<T>)
    returns (r: Result<T, ArgError>)
    ensures r == Lookup(argumentName, args, defaultValue, parse)
  {
    for i := 0 to |args|
      invariant Lookup(argumentName, args, defaultValue, parse) == Lookup(argumentName, args[i..], defaultValue, parse)
    {
      assert args[i..][1..] == args[i + 1..];
      if StartsWith(args[i], argumentName) {
        return ArgumentValue(args[i], parse);
      }
    }
    return Success(defaultValue);
  }

  /** `(megabytes * 1024) * 1024` in `long` arithmetic. */
  function ScaleMegabytes(megabytes: int): (bytes: int)
    ensures IsLong(bytes)
    ensures -0x800_0000_0000 <= megabytes < 0x800_0000_0000 ==> bytes == megabytes * 1048576
  {
    Wrap64(Wrap64(megabytes * 1024) * 1024)
  }

  datatype Settings = Settings(threads: int, fileSize: int, bufferSize: int)

  /** The settings `main` hands to the constructor. Without arguments they are the
      defaults; with any argument, each of the three is looked up, and the file size is
      scaled from megabytes to bytes even when `--filesize` is absent, so the default
      (already in bytes) is scaled as well. The first lookup that throws ends `main`. */
  method ReadConfiguration(args: seq<string>, processors: int,
                           parseInt: string -> Option<int>, parseLong: string -> Option<int>)
    returns (r: Result<Settings, ArgError>)
    ensures |args| == 0 ==> r == Success(Settings(processors * 2, DEFAULT_FILESIZE, DEFAULT_BUFSIZE))
    ensures |args| > 0 ==>
              var t := Lookup("--threads", args, processors * 2, parseInt);
              var b := Lookup("--buffersize", args, DEFAULT_BUFSIZE, parseInt);
              var f := Lookup("--filesize", args, DEFAULT_FILESIZE, parseLong);
              && (r.Success? <==> t.Success? && b.Success? && f.Success?)
              && (r.Success? ==> r.value == Settings(t.value, ScaleMegabytes(f.value), b.value))
              && (r.Failure? ==> r.error == if t.Failure? then t.error
                                           else if b.Failure? then b.error else f.error)
    ensures |args| > 0 && r.Success? && (forall i | 0 <= i < |args| :: !StartsWith(args[i], "--filesize")) ==>
              r.value.fileSize == 2251799813685248
  {
    var threads := processors * 2;
    var filesize := DEFAULT_FILESIZE;
    var buffersize := DEFAULT_BUFSIZE;
    if |args| > 0 {
      var t := ParseArgument("--threads", args, threads, parseInt);
      if t.Failure? {
        return Failure(t.error);
      }
      threads := t.value;
      var b := ParseArgument("--buffersize", args, buffersize, parseInt);
      if b.Failure? {
        return Failure(b.error);
      }
      buffersize := b.value;
      var f := ParseArgument("--filesize", args, filesize, parseLong);
      if f.Failure? {
        return Failure(f.error);
      }
      filesize := ScaleMegabytes(f.value);
    }
    return Success(Settings(threads, filesize, buffersize));
  }
}
