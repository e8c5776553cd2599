/**
 * Exact arithmetic shared by the statistics, the chart and the profile page:
 * the one-decimal rounding `Math.round(x * 10) / 10`, `Math.floor`/`Math.ceil`,
 * and sums, minima and maxima of weight lists.
 */
module Numbers {

  /** `Math.round(x * 10) / 10`. `Math.round` rounds halves toward +infinity. */
  function Round1(x: real): (r: real)
    ensures (r * 10.0).Floor as real == r * 10.0   // a whole number of tenths
    ensures x - 0.05 < r <= x + 0.05               // the nearest tenth, ties upward
  {
    ((x * 10.0 + 0.5).Floor as real) / 10.0
  }

  /** Rounding never reverses an order. */
  lemma Round1Monotone(x: real, y: real)
    requires x <= y
    ensures Round1(x) <= Round1(y)
  {
    assert (x * 10.0 + 0.5).Floor <= (y * 10.0 + 0.5).Floor;
  }

  /** A value that is already a whole number of tenths is left as it is. */
  lemma Round1OfTenths(k: int)
    ensures Round1(k as real / 10.0) == k as real / 10.0
  {
    assert (k as real / 10.0) * 10.0 + 0.5 == k as real + 0.5;
    assert (k as real + 0.5).Floor == k;
  }

  /** The rounded value is positive exactly when the value is at least 0.05. */
  lemma Round1Positive(x: real)
    ensures Round1(x) > 0.0 <==> x >= 0.05
  {
    if x >= 0.05 {
      assert x * 10.0 + 0.5 >= 1.0;
    } else {
      assert x * 10.0 + 0.5 < 1.0;
    }
  }

  /** The rounded value is negative exactly when the value is below -0.05. */
  lemma Round1Negative(x: real)
    ensures Round1(x) < 0.0 <==> x < -0.05
  {
    if x < -0.05 {
      assert x * 10.0 + 0.5 < 0.0;
    } else {
      assert x * 10.0 + 0.5 >= 0.0;
    }
  }

  /** `Math.floor`. */
  function JsFloor(x: real): (r: int)
    ensures r as real <= x < r as real + 1.0
  {
    x.Floor
  }

  /** `Math.ceil`, the least integer not below `x`. */
  function JsCeil(x: real): (r: int)
    ensures x <= r as real < x + 1.0
  {
    -((-x).Floor)
  }

  /** `ws.reduce((a, b) => a + b, 0)`: a left-to-right sum. */
  function Sum(ws: seq<real>): real
  {
    if |ws| == 0 then 0.0 else Sum(ws[..|ws| - 1]) + ws[|ws| - 1]
  }

  /** `Math.max(...ws)` for a non-empty list. */
  function Max(ws: seq<real>): (m: real)
    requires |ws| > 0
    ensures m in ws
    ensures forall i :: 0 <= i < |ws| ==> ws[i] <= m
  {
    if |ws| == 1 then ws[0]
    else
      var rest := Max(ws[..|ws| - 1]);
      assert forall i :: 0 <= i < |ws| - 1 ==> ws[..|ws| - 1][i] == ws[i];
      if ws[|ws| - 1] > rest then ws[|ws| - 1] else rest
  }

  /** `Math.min(...ws)` for a non-empty list. */
  function Min(ws: seq<real>): (m: real)
    requires |ws| > 0
    ensures m in ws
    ensures forall i :: 0 <= i < |ws| ==> m <= ws[i]
  {
    if |ws| == 1 then ws[0]
    else
      var rest := Min(ws[..|ws| - 1]);
      assert forall i :: 0 <= i < |ws| - 1 ==> ws[..|ws| - 1][i] == ws[i];
      if ws[|ws| - 1] < rest then ws[|ws| - 1] else rest
  }

  /** A sum lies between the length times any lower bound and the length times any upper bound. */
  lemma {:induction false} SumBounds(ws: seq<real>, lo: real, hi: real)
    requires forall i :: 0 <= i < |ws| ==> lo <= ws[i] <= hi
    ensures |ws| as real * lo <= Sum(ws) <= |ws| as real * hi
  {
    if |ws| > 0 {
      var init := ws[..|ws| - 1];
      assert forall i :: 0 <= i < |init| ==> init[i] == ws[i];
      SumBounds(init, lo, hi);
    }
  }

  /** The mean of a non-empty list lies between its minimum and its maximum. */
  lemma MeanBetween(ws: seq<real>)
    requires |ws| > 0
    ensures Min(ws) <= Sum(ws) / |ws| as real <= Max(ws)
  {
    MeanWithin(ws, Min(ws), Max(ws));
  }

  /** The mean of a non-empty list lies within any bounds on its elements. */
  lemma MeanWithin(ws: seq<real>, lo: real, hi: real)
    requires |ws| > 0
    requires forall i :: 0 <= i < |ws| ==> lo <= ws[i] <= hi
    ensures lo <= Sum(ws) / |ws| as real <= hi
  {
    var n, total := |ws| as real, Sum(ws);
    SumBounds(ws, lo, hi);
    DivideBounds(total, n, lo, hi);
  }

  lemma DivideBounds(s: real, n: real, lo: real, hi: real)
    requires n > 0.0
    requires n * lo <= s <= n * hi
    ensures lo <= s / n <= hi
  {
    assert lo <= s / n;
  }

  /** Sum distributes over concatenation. */
  lemma {:induction false} SumAppend(a: seq<real>, b: seq<real>)
    ensures Sum(a + b) == Sum(a) + Sum(b)
  {
    if |b| == 0 {
      assert a + b == a;
    } else {
      var b' := b[..|b| - 1];
      assert (a + b)[..|a + b| - 1] == a + b';
      SumAppend(a, b');
    }
  }
}
