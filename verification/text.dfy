/**
 * Character-level helpers: decimal digit strings (JavaScript's `${n}` and
 * `padStart`), the code-unit order the store uses to compare date text, and
 * `join`/`split` on a separator character.
 */
module Text {

  function Pow10(w: nat): (p: nat)
    ensures p >= 1
  {
    if w == 0 then 1 else 10 * Pow10(w - 1)
  }

  function DigitChar(d: nat): char
    requires d < 10
  {
    "0123456789"[d]
  }

  /** The last `w` decimal digits of `n`, zero-padded on the left. */
  function Digits(n: nat, w: nat): (s: string)
    ensures |s| == w
    ensures forall i :: 0 <= i < w ==> '0' <= s[i] <= '9'
  {
    if w == 0 then "" else Digits(n / 10, w - 1) + [DigitChar(n % 10)]
  }

  /** JavaScript's `${n}` for a natural number: its decimal digits, no padding. */
  function Decimal(n: nat): (s: string)
    ensures |s| >= 1
  {
    if n < 10 then [DigitChar(n)] else Decimal(n / 10) + [DigitChar(n % 10)]
  }

  /** `s.padStart(w, "0")`. */
  function PadStart(s: string, w: nat): (r: string)
    ensures |r| == if |s| >= w then |s| else w
    ensures r[|r| - |s|..] == s
    ensures forall i :: 0 <= i < |r| - |s| ==> r[i] == '0'
  {
    if |s| >= w then s else seq(w - |s|, _ => '0') + s
  }

  /** Without padding, `${n}` has exactly the digits of `Digits(n, w)` when `n` needs all `w` of them. */
  lemma {:induction false} DecimalIsDigits(n: nat, w: nat)
    requires w >= 1
    requires (if w == 1 then 0 else Pow10(w - 1)) <= n < Pow10(w)
    ensures Decimal(n) == Digits(n, w)
  {
    if w > 1 {
      DecimalIsDigits(n / 10, w - 1);
    }
  }

  /** Padding a one- or two-digit number's decimal to width two yields its two digits. */
  lemma PadDecimalTwo(n: nat)
    requires n < 100
    ensures PadStart(Decimal(n), 2) == Digits(n, 2)
  {
    if n < 10 {
      assert Decimal(n) == [DigitChar(n)];
      assert PadStart(Decimal(n), 2) == ['0'] + [DigitChar(n)];
    } else {
      DecimalIsDigits(n, 2);
    }
  }

  /** `a <= b` on strings: code-unit lexicographic order. */
  predicate LexLe(a: string, b: string)
  {
    |a| == 0 || (|b| > 0 && (a[0] < b[0] || (a[0] == b[0] && LexLe(a[1..], b[1..]))))
  }

  /** `a < b` on strings. */
  predicate LexLt(a: string, b: string)
  {
    LexLe(a, b) && a != b
  }

  /** Comparing two texts whose heads have equal length compares the heads first, then the tails. */
  lemma {:induction false} LexLeConcat(a: string, b: string, a2: string, b2: string)
    requires |a| == |a2|
    ensures LexLe(a + b, a2 + b2) <==> LexLt(a, a2) || (a == a2 && LexLe(b, b2))
  {
    if |a| > 0 {
      assert (a + b)[0] == a[0] && (a2 + b2)[0] == a2[0];
      assert (a + b)[1..] == a[1..] + b;
      assert (a2 + b2)[1..] == a2[1..] + b2;
      LexLeConcat(a[1..], b, a2[1..], b2);
      if a[0] == a2[0] {
        assert a == a2 <==> a[1..] == a2[1..] by {
          assert a == [a[0]] + a[1..];
          assert a2 == [a2[0]] + a2[1..];
        }
      }
    } else {
      assert a + b == b && a2 + b2 == b2;
    }
  }

  lemma DigitCharOrder(x: nat, y: nat)
    requires x < 10 && y < 10
    ensures DigitChar(x) <= DigitChar(y) <==> x <= y
    ensures DigitChar(x) == DigitChar(y) <==> x == y
  {
  }

  /** Zero-padded digit strings of one width are equal exactly when the numbers are. */
  lemma {:induction false} DigitsInjective(x: nat, y: nat, w: nat)
    requires x < Pow10(w) && y < Pow10(w)
    ensures Digits(x, w) == Digits(y, w) <==> x == y
  {
    if w > 0 {
      DigitsInjective(x / 10, y / 10, w - 1);
      DigitCharOrder(x % 10, y % 10);
      var dx, dy := Digits(x, w), Digits(y, w);
      if dx == dy {
        assert dx[..w - 1] == Digits(x / 10, w - 1);
        assert dy[..w - 1] == Digits(y / 10, w - 1);
        assert dx[w - 1] == DigitChar(x % 10);
        assert dy[w - 1] == DigitChar(y % 10);
      }
    }
  }

  /** Zero-padded digit strings of one width sort as the numbers they spell. */
  lemma {:induction false} DigitsOrder(x: nat, y: nat, w: nat)
    requires x < Pow10(w) && y < Pow10(w)
    ensures LexLe(Digits(x, w), Digits(y, w)) <==> x <= y
  {
    if w == 0 {
    } else {
      DigitsOrder(x / 10, y / 10, w - 1);
      DigitsInjective(x / 10, y / 10, w - 1);
      DigitCharOrder(x % 10, y % 10);
      LexLeConcat(Digits(x / 10, w - 1), [DigitChar(x % 10)], Digits(y / 10, w - 1), [DigitChar(y % 10)]);
    }
  }

  /** `xs.join([sep])`. */
  function Join(xs: seq<string>, sep: char): string
  {
    if |xs| == 0 then ""
    else if |xs| == 1 then xs[0]
    else xs[0] + [sep] + Join(xs[1..], sep)
  }

  /** `s.split(sep)`: the pieces between occurrences of `sep`; never empty. */
  function Split(s: string, sep: char): (pieces: seq<string>)
    ensures |pieces| >= 1
  {
    if |s| == 0 then [""]
    else if s[0] == sep then [""] + Split(s[1..], sep)
    else
      var rest := Split(s[1..], sep);
      [[s[0]] + rest[0]] + rest[1..]
  }

  /** A piece without the separator splits to itself, and splitting stops at the first separator. */
  lemma {:induction false} SplitAfterPiece(x: string, rest: string, sep: char)
    requires sep !in x
    ensures Split(x, sep) == [x]
    ensures Split(x + [sep] + rest, sep) == [x] + Split(rest, sep)
  {
    if |x| == 0 {
      assert x + [sep] + rest == [sep] + rest;
      assert ([sep] + rest)[1..] == rest;
    } else {
      SplitAfterPiece(x[1..], rest, sep);
      assert (x + [sep] + rest)[1..] == x[1..] + [sep] + rest;
      assert [x[0]] + x[1..] == x;
    }
  }

  /** Splitting a join gives back the pieces, provided no piece holds the separator. */
  lemma {:induction false} SplitJoin(xs: seq<string>, sep: char)
    requires |xs| >= 1
    requires forall i :: 0 <= i < |xs| ==> sep !in xs[i]
    ensures Split(Join(xs, sep), sep) == xs
  {
    if |xs| == 1 {
      SplitAfterPiece(xs[0], "", sep);
    } else {
      SplitJoin(xs[1..], sep);
      SplitAfterPiece(xs[0], Join(xs[1..], sep), sep);
      assert [xs[0]] + xs[1..] == xs;
    }
  }
}
