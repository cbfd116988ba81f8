/** Shared vocabulary: Go's nil-able values, 64-bit integers, and the handful of
    functions of Go's `strings`, `fmt` and `strconv` packages that the indexer uses. */
module Util {

  /** A value that Go represents by a nil-able pointer or a comma-ok lookup. */
  datatype Option<+T> = None | Some(value: T)

  /** Go's `error`: None is nil, Some(msg) carries the error text. */
  type Error = Option<string>

  /** A value or the text of the error that prevented it. */
  datatype Result<+T> = Ok(value: T) | Err(msg: string)

  const TwoTo64: int := 0x1_0000_0000_0000_0000

  /** Go's `int64`. */
  type Int64 = x: int | -0x8000_0000_0000_0000 <= x < 0x8000_0000_0000_0000

  /** Two's-complement wrap-around of an exact integer into `int64`, as Go's
      arithmetic on `int64` does. */
  function Wrap64(x: int): (r: Int64)
    ensures -0x8000_0000_0000_0000 <= x < 0x8000_0000_0000_0000 ==> r == x
    ensures (x - r) % TwoTo64 == 0
  {
    var m := x % TwoTo64;
    if m < 0x8000_0000_0000_0000 then m else m - TwoTo64
  }

  // ---------------------------------------------------------------- orders

  /** No element of `s` appears twice. */
  predicate Distinct<T(==)>(s: seq<T>)
  {
    forall i, j :: 0 <= i < j < |s| ==> s[i] != s[j]
  }

  /** `s` lists every element of `keys` exactly once, in some order: the order in which
      Go's `range` visits a map is one such sequence, and which one is unspecified. */
  ghost predicate Enumerates<T(!new)>(s: seq<T>, keys: set<T>)
  {
    Distinct(s) && forall x :: x in s <==> x in keys
  }

  /** Visiting one more key extends a listing of the keys visited so far. */
  lemma EnumeratesVisit<T(!new)>(s: seq<T>, keys: set<T>, remaining: set<T>, k: T)
    requires remaining <= keys && k in remaining && Enumerates(s, keys - remaining)
    ensures Enumerates(s + [k], keys - (remaining - {k}))
  {
    var t := s + [k];
    forall i, j | 0 <= i < j < |t| ensures t[i] != t[j] {
      if j == |s| {
        assert t[i] == s[i] && s[i] in s;
      } else {
        assert t[i] == s[i] && t[j] == s[j];
      }
    }
  }

  // ---------------------------------------------------------------- decimal text

  function DigitChar(d: nat): (c: char)
    requires d < 10
    ensures '0' <= c <= '9'
  {
    "0123456789"[d]
  }

  /** The decimal digits of a natural number, most significant first. */
  function NatDigits(n: nat): (s: string)
    ensures |s| >= 1
    ensures forall i :: 0 <= i < |s| ==> '0' <= s[i] <= '9'
    decreases n
  {
    if n < 10 then [DigitChar(n)] else NatDigits(n / 10) + [DigitChar(n % 10)]
  }

  /** Go's `fmt.Sprintf("%d", n)`. */
  function Decimal(n: int): string
  {
    if n >= 0 then NatDigits(n) else "-" + NatDigits(-n)
  }

  lemma DigitCharInjective(d: nat, e: nat)
    requires d < 10 && e < 10 && DigitChar(d) == DigitChar(e)
    ensures d == e
  {
  }

  /** One digit exactly for the numbers below ten; above, the last digit is peeled off. */
  lemma NatDigitsShape(a: nat)
    ensures (|NatDigits(a)| == 1) == (a < 10)
    ensures a >= 10 ==> NatDigits(a)[..|NatDigits(a)| - 1] == NatDigits(a / 10)
    ensures a >= 10 ==> NatDigits(a)[|NatDigits(a)| - 1] == DigitChar(a % 10)
  {
    if a >= 10 {
      assert |NatDigits(a)| == |NatDigits(a / 10)| + 1;
    }
  }

  lemma {:induction false} NatDigitsInjective(a: nat, b: nat)
    requires NatDigits(a) == NatDigits(b)
    ensures a == b
    decreases a
  {
    NatDigitsShape(a);
    NatDigitsShape(b);
    if a < 10 {
      DigitCharInjective(a, b);
    } else {
      NatDigitsInjective(a / 10, b / 10);
      DigitCharInjective(a % 10, b % 10);
    }
  }

  /** Different numbers print differently. */
  lemma DecimalInjective(a: int, b: int)
    requires Decimal(a) == Decimal(b)
    ensures a == b
  {
    assert (Decimal(a)[0] == '-') == (a < 0);
    assert (Decimal(b)[0] == '-') == (b < 0);
    if a >= 0 {
      NatDigitsInjective(a, b);
    } else {
      assert Decimal(a)[1..] == NatDigits(-a);
      assert Decimal(b)[1..] == NatDigits(-b);
      NatDigitsInjective(-a, -b);
    }
  }

  // ---------------------------------------------------------------- strings

  /** Go's `unicode.ToLower`, restricted to ASCII letters. */
  function LowerChar(c: char): (r: char)
    ensures 'A' <= c <= 'Z' ==> r as int == c as int + 32
    ensures !('A' <= c <= 'Z') ==> r == c
  {
    if 'A' <= c <= 'Z' then (c as int + 32) as char else c
  }

  /** Go's `strings.ToLower` on ASCII text. */
  function ToLower(s: string): (r: string)
    ensures |r| == |s|
    ensures forall i :: 0 <= i < |s| ==> r[i] == LowerChar(s[i])
  {
    seq(|s|, i requires 0 <= i < |s| => LowerChar(s[i]))
  }

  /** The number of times `c` occurs in `s`. */
  function CountChar(s: string, c: char): nat
    decreases |s|
  {
    if |s| == 0 then 0 else (if s[0] == c then 1 else 0) + CountChar(s[1..], c)
  }

  /** Go's `strings.HasPrefix`. */
  predicate HasPrefix(s: string, prefix: string)
  {
    |prefix| <= |s| && s[..|prefix|] == prefix
  }

  /** `t` occurs in `s` starting at position `p`. */
  predicate OccursAt(s: string, t: string, p: int)
  {
    0 <= p && p + |t| <= |s| && s[p..p + |t|] == t
  }

  /** Go's `strings.Index`: the first position where `t` occurs in `s`, or -1. */
  function IndexOf(s: string, t: string): (r: int)
    ensures r == -1 || OccursAt(s, t, r)
    ensures r == -1 ==> forall p :: 0 <= p <= |s| - |t| ==> !OccursAt(s, t, p)
    ensures r >= 0 ==> forall p :: 0 <= p < r ==> !OccursAt(s, t, p)
    decreases |s|
  {
    if |s| < |t| then -1
    else if s[..|t|] == t then 0
    else
      var k := IndexOf(s[1..], t);
      assert !OccursAt(s, t, 0);
      forall p | 1 <= p <= |s| - |t| ensures OccursAt(s, t, p) == OccursAt(s[1..], t, p - 1) {
        assert s[1..][p - 1..p - 1 + |t|] == s[p..p + |t|];
      }
      if k < 0 then -1 else k + 1
  }

  /** Go's `strings.ReplaceAll(s, pat, rep)` for a non-empty pattern: occurrences are
      replaced left to right and never overlap. */
  function ReplaceAll(s: string, pat: string, rep: string): string
    requires |pat| > 0
    decreases |s|
  {
    if |s| < |pat| then s
    else if s[..|pat|] == pat then rep + ReplaceAll(s[|pat|..], pat, rep)
    else [s[0]] + ReplaceAll(s[1..], pat, rep)
  }

  /** Go's `strings.Split(s, string(sep))`: the pieces between separators, so "" gives [""]. */
  function Split(s: string, sep: char): (r: seq<string>)
    ensures |r| >= 1
    decreases |s|
  {
    if |s| == 0 then [""]
    else if s[0] == sep then [""] + Split(s[1..], sep)
    else
      var rest := Split(s[1..], sep);
      [[s[0]] + rest[0]] + rest[1..]
  }

  /** Go's `strings.Join`. */
  function Join(xs: seq<string>, sep: string): string
    decreases |xs|
  {
    if |xs| == 0 then ""
    else if |xs| == 1 then xs[0]
    else xs[0] + sep + Join(xs[1..], sep)
  }

  /** Joining the pieces of a split with the separator gives the text back. */
  lemma {:induction false} SplitJoin(s: string, sep: char)
    ensures Join(Split(s, sep), [sep]) == s
    decreases |s|
  {
    if |s| == 0 {
    } else if s[0] == sep {
      SplitJoin(s[1..], sep);
      assert s == [sep] + s[1..];
    } else {
      SplitJoin(s[1..], sep);
      var rest := Split(s[1..], sep);
      var r := Split(s, sep);
      assert r[1..] == rest[1..];
      if |rest| == 1 {
        assert s == [s[0]] + rest[0];
      } else {
        assert Join(rest, [sep]) == rest[0] + [sep] + Join(rest[1..], [sep]);
        assert Join(r, [sep]) == ([s[0]] + rest[0]) + [sep] + Join(rest[1..], [sep]);
        assert s == [s[0]] + s[1..];
      }
    }
  }

  /** No piece of a split holds the separator. */
  lemma {:induction false} SplitPiecesFree(s: string, sep: char)
    ensures forall i :: 0 <= i < |Split(s, sep)| ==> sep !in Split(s, sep)[i]
    decreases |s|
  {
    if |s| > 0 {
      SplitPiecesFree(s[1..], sep);
      var rest := Split(s[1..], sep);
      var r := Split(s, sep);
      if s[0] != sep {
        forall i | 0 <= i < |r| ensures sep !in r[i] {
          if i > 0 { assert r[i] == rest[i]; }
        }
      }
    }
  }

  /** Joined pieces of a split are the split's input, so Split is injective. */
  lemma SplitInjective(s: string, t: string, sep: char)
    requires Split(s, sep) == Split(t, sep)
    ensures s == t
  {
    SplitJoin(s, sep);
    SplitJoin(t, sep);
  }

  /** Splitting text whose first piece holds no separator peels that piece off. */
  lemma {:induction false} SplitAfterPiece(a: string, b: string, sep: char)
    requires sep !in a
    ensures Split(a + [sep] + b, sep) == [a] + Split(b, sep)
    decreases |a|
  {
    if |a| == 0 {
      assert a + [sep] + b == [sep] + b;
      assert ([sep] + b)[1..] == b;
    } else {
      SplitAfterPiece(a[1..], b, sep);
      assert (a + [sep] + b)[1..] == a[1..] + [sep] + b;
      assert [a[0]] + a[1..] == a;
    }
  }

  /** Joining pieces free of the separator and splitting again gives the pieces back. */
  lemma {:induction false} JoinSplit(xs: seq<string>, sep: char)
    requires |xs| >= 1
    requires forall i :: 0 <= i < |xs| ==> sep !in xs[i]
    ensures Split(Join(xs, [sep]), sep) == xs
    decreases |xs|
  {
    if |xs| == 1 {
      SplitJoin(xs[0], sep);
      SplitNoSeparator(xs[0], sep);
    } else {
      JoinSplit(xs[1..], sep);
      SplitAfterPiece(xs[0], Join(xs[1..], [sep]), sep);
      assert xs == [xs[0]] + xs[1..];
    }
  }

  /** Text without the separator is a single piece. */
  lemma {:induction false} SplitNoSeparator(s: string, sep: char)
    requires sep !in s
    ensures Split(s, sep) == [s]
    decreases |s|
  {
    if |s| > 0 {
      SplitNoSeparator(s[1..], sep);
      assert [s[0]] + s[1..] == s;
    }
  }
}
