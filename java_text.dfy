/** The `java.lang.String` operations the benchmark uses on its argument and key text:
    `startsWith`, `split` with a one-character pattern, and the decimal text of a `long`. */
module JavaText {

  /** `s.startsWith(prefix)`. */
  predicate StartsWith(s: string, prefix: string)
    ensures StartsWith(s, prefix) ==> |prefix| <= |s| && s == prefix + s[|prefix|..]
  {
    |prefix| <= |s| && s[..|prefix|] == prefix
  }

  /** The pieces of `s` between the occurrences of `c`, empty pieces included; there is
      always one piece more than there are separators. */
  function Split(s: string, c: char): (parts: seq<string>)
    ensures |parts| >= 1
    ensures forall i | 0 <= i < |parts| :: c !in parts[i]
    decreases |s|
  {
    if s == [] then [[]]
    else
      var rest := Split(s[1..], c);
      if s[0] == c then [[]] + rest else [[s[0]] + rest[0]] + rest[1..]
  }

  /** Puts pieces back together with `c` between them. */
  function Join(parts: seq<string>, c: char): string
    requires |parts| >= 1
  {
    if |parts| == 1 then parts[0] else parts[0] + [c] + Join(parts[1..], c)
  }

  /** Joining the pieces of a split gives the text back. */
  lemma {:induction false} JoinSplit(s: string, c: char)
    ensures Join(Split(s, c), c) == s
  {
    if s != [] {
      var rest := Split(s[1..], c);
      JoinSplit(s[1..], c);
      if s[0] == c {
        assert ([[]] + rest)[1..] == rest;
      } else if |rest| > 1 {
        assert ([[s[0]] + rest[0]] + rest[1..])[1..] == rest[1..];
      }
    }
  }

  /** A text without the separator is a single piece. */
  lemma {:induction false} SplitWithout(s: string, c: char)
    requires c !in s
    ensures Split(s, c) == [s]
  {
    if s != [] {
      SplitWithout(s[1..], c);
      assert [s[0]] + s[1..] == s;
    }
  }

  /** The first separator ends the first piece. */
  lemma {:induction false} SplitAt(a: string, c: char, b: string)
    requires c !in a
    ensures Split(a + [c] + b, c) == [a] + Split(b, c)
  {
    if a == [] {
      assert a + [c] + b == [c] + b;
      assert ([c] + b)[1..] == b;
    } else {
      assert (a + [c] + b)[1..] == a[1..] + [c] + b;
      SplitAt(a[1..], c, b);
      assert [a[0]] + a[1..] == a;
    }
  }

  /** A text that does not end with the separator has a non-empty last piece. */
  lemma {:induction false} SplitLastPiece(s: string, c: char)
    ensures |s| > 0 && s[|s| - 1] != c ==> Split(s, c)[|Split(s, c)| - 1] != []
  {
    if |s| > 1 {
      assert s[1..][|s[1..]| - 1] == s[|s| - 1];
      SplitLastPiece(s[1..], c);
    }
  }

  /** A text made only of separators splits into empty pieces. */
  lemma {:induction false} SplitSeparators(s: string, c: char)
    requires forall i | 0 <= i < |s| :: s[i] == c
    ensures forall j | 0 <= j < |Split(s, c)| :: Split(s, c)[j] == []
  {
    if s != [] {
      SplitSeparators(s[1..], c);
    }
  }

  /** Empty pieces join into a text made only of separators. */
  lemma {:induction false} JoinEmpties(parts: seq<string>, c: char)
    requires |parts| >= 1
    requires forall j | 0 <= j < |parts| :: parts[j] == []
    ensures forall i | 0 <= i < |Join(parts, c)| :: Join(parts, c)[i] == c
  {
    if |parts| > 1 {
      JoinEmpties(parts[1..], c);
      assert Join(parts, c) == [c] + Join(parts[1..], c);
    }
  }

  /** `parts` without its trailing empty pieces. */
  function DropTrailingEmpty(parts: seq<string>): (r: seq<string>)
    ensures |r| <= |parts| && r == parts[..|r|]
    ensures forall i | |r| <= i < |parts| :: parts[i] == []
    ensures |r| > 0 ==> r[|r| - 1] != []
  {
    if |parts| == 0 || parts[|parts| - 1] != [] then parts
    else DropTrailingEmpty(parts[..|parts| - 1])
  }

  /** Without trailing empty pieces, the split of a text holding the separator is empty
      exactly when the text is made only of separators. */
  lemma SplitAllEmpty(s: string, c: char)
    requires c in s
    ensures |DropTrailingEmpty(Split(s, c))| == 0 <==> forall i | 0 <= i < |s| :: s[i] == c
  {
    var pieces := Split(s, c);
    if forall i | 0 <= i < |s| :: s[i] == c {
      SplitSeparators(s, c);
    }
    if |DropTrailingEmpty(pieces)| == 0 {
      JoinSplit(s, c);
      JoinEmpties(pieces, c);
    }
  }

  /** `s.split(c)` for a one-character pattern `c`: `[s]` when `c` does not occur, and
      otherwise the pieces between the separators with the trailing empty pieces removed.
      The array is empty exactly when `s` is a non-empty run of separators, which is when
      indexing its first element throws. */
  function JavaSplit(s: string, c: char): (parts: seq<string>)
    ensures forall i | 0 <= i < |parts| :: c !in parts[i]
    ensures |s| > 0 && s[|s| - 1] != c ==> parts == Split(s, c)
    ensures |parts| == 0 <==> (|s| > 0 && forall i | 0 <= i < |s| :: s[i] == c)
  {
    SplitLastPiece(s, c);
    if c !in s then
      SplitWithout(s, c);
      [s]
    else
      SplitAllEmpty(s, c);
      DropTrailingEmpty(Split(s, c))
  }

  /** The text of `s` before its first `c`, or all of `s` when there is none. */
  function Before(s: string, c: char): (r: string)
    ensures c !in r
    ensures |r| <= |s| && r == s[..|r|]
    ensures |r| < |s| ==> s[|r|] == c
  {
    if s == [] || s[0] == c then []
    else [s[0]] + Before(s[1..], c)
  }

  /** The first piece of a split is the text before the first separator. */
  lemma {:induction false} SplitFirst(s: string, c: char)
    ensures Split(s, c)[0] == Before(s, c)
  {
    if s != [] && s[0] != c {
      SplitFirst(s[1..], c);
    }
  }

  /** A text that does not end with the separator: `s.split(c)[0]` exists and is the text
      before the first separator. */
  lemma JavaSplitFirst(s: string, c: char)
    requires |s| > 0 && s[|s| - 1] != c
    ensures |JavaSplit(s, c)| > 0 && JavaSplit(s, c)[0] == Before(s, c)
  {
    SplitFirst(s, c);
  }

  /** Text before a separator is cut off at it. */
  lemma {:induction false} BeforeAt(a: string, c: char, b: string)
    requires c !in a
    ensures Before(a + [c] + b, c) == a
  {
    if a == [] {
      assert (a + [c] + b)[0] == c;
    } else {
      assert (a + [c] + b)[1..] == a[1..] + [c] + b;
      BeforeAt(a[1..], c, b);
      assert [a[0]] + a[1..] == a;
    }
  }

  /** The character of a decimal digit. */
  function Digit(d: int): (ch: char)
    requires 0 <= d < 10
    ensures '0' <= ch <= '9'
    ensures ch as int - '0' as int == d
  {
    ('0' as int + d) as char
  }

  predicate IsDigits(s: string) {
    forall i | 0 <= i < |s| :: '0' <= s[i] <= '9'
  }

  /** `Long.toString(n)` for a non-negative `n`: its decimal digits, most significant first. */
  function DecimalText(n: nat): (s: string)
    ensures |s| >= 1 && IsDigits(s)
  {
    if n < 10 then [Digit(n)] else DecimalText(n / 10) + [Digit(n % 10)]
  }

  /** The number a text of decimal digits stands for. */
  function DecimalValue(s: string): nat
    requires IsDigits(s)
  {
    if s == [] then 0
    else 10 * DecimalValue(s[..|s| - 1]) + (s[|s| - 1] as int - '0' as int)
  }

  /** Reading back the decimal text of a number gives the number, so distinct numbers
      have distinct texts. */
  lemma {:induction false} DecimalRoundTrip(n: nat)
    ensures DecimalValue(DecimalText(n)) == n
  {
    if n >= 10 {
      DecimalRoundTrip(n / 10);
      var s := DecimalText(n);
      assert s[..|s| - 1] == DecimalText(n / 10);
    }
  }
}
