/** The usage forecast: an ordinary least-squares line of usage against
    timestamp, evaluated one hour after the latest timestamp in the history.

    The fit is the closed form slope = Σ(t−t̄)(u−ū) / Σ(t−t̄)², intercept =
    ū − slope·t̄.  When every timestamp is equal (a single sample included)
    Σ(t−t̄)² is zero; the slope is then taken as 0, so the line is flat at the
    mean usage, which is what a minimum-norm least-squares solver returns. */
module UsageForecaster {

  /** One observation of one resource: when, and how much was used. */
  datatype Point = Point(time: real, usage: real)

  /** The line `intercept + slope * t`. */
  datatype Line = Line(intercept: real, slope: real) {
    function At(t: real): real { intercept + slope * t }
  }

  /** How far past the latest sample the forecast looks, in seconds. */
  const Horizon: real := 3600.0

  /* ---------------- sums ---------------- */

  function SumTime(ps: seq<Point>): real
  {
    if ps == [] then 0.0 else ps[0].time + SumTime(ps[1..])
  }

  function SumUsage(ps: seq<Point>): real
  {
    if ps == [] then 0.0 else ps[0].usage + SumUsage(ps[1..])
  }

  function MeanTime(ps: seq<Point>): real
    requires ps != []
  {
    SumTime(ps) / |ps| as real
  }

  function MeanUsage(ps: seq<Point>): real
    requires ps != []
  {
    SumUsage(ps) / |ps| as real
  }

  function Square(x: real): real
  {
    x * x
  }

  /** Σ (t − mt)²: the spread of the timestamps around `mt`. */
  function Spread(ps: seq<Point>, mt: real): real
  {
    if ps == [] then 0.0 else Square(ps[0].time - mt) + Spread(ps[1..], mt)
  }

  /** Σ (t − mt)(u − mu): how timestamps and usage vary together. */
  function CoSpread(ps: seq<Point>, mt: real, mu: real): real
  {
    if ps == [] then 0.0 else (ps[0].time - mt) * (ps[0].usage - mu) + CoSpread(ps[1..], mt, mu)
  }

  /* ---------------- the fit and the forecast ---------------- */

  predicate AllSameTime(ps: seq<Point>)
  {
    forall i | 0 <= i < |ps| :: ps[i].time == ps[0].time
  }

  function Slope(ps: seq<Point>): real
    requires ps != []
  {
    var mt := MeanTime(ps);
    var sxx := Spread(ps, mt);
    if sxx == 0.0 then 0.0 else CoSpread(ps, mt, MeanUsage(ps)) / sxx
  }

  /** The least-squares line through the points. */
  function Fit(ps: seq<Point>): Line
    requires ps != []
  {
    var b := Slope(ps);
    Line(MeanUsage(ps) - b * MeanTime(ps), b)
  }

  /** The latest timestamp. */
  function MaxTime(ps: seq<Point>): real
    requires ps != []
  {
    if |ps| == 1 then ps[0].time
    else
      var m := MaxTime(ps[1..]);
      if ps[0].time >= m then ps[0].time else m
  }

  /** `MaxTime` is the largest timestamp and is one of them. */
  lemma {:induction false} MaxTimeIsLatest(ps: seq<Point>)
    requires ps != []
    ensures forall i | 0 <= i < |ps| :: ps[i].time <= MaxTime(ps)
    ensures exists i | 0 <= i < |ps| :: ps[i].time == MaxTime(ps)
  {
    if |ps| == 1 {
      assert ps[0].time == MaxTime(ps);
    } else {
      MaxTimeIsLatest(ps[1..]);
      assert forall i | 1 <= i < |ps| :: ps[i] == ps[1..][i - 1];
      if ps[0].time < MaxTime(ps[1..]) {
        var j :| 0 <= j < |ps[1..]| && ps[1..][j].time == MaxTime(ps[1..]);
        assert ps[j + 1].time == MaxTime(ps);
      } else {
        assert ps[0].time == MaxTime(ps);
      }
    }
  }

  /** The fitted line evaluated one horizon past the latest timestamp. */
  function PredictFutureUsage(ps: seq<Point>): real
    requires ps != []
  {
    Fit(ps).At(MaxTime(ps) + Horizon)
  }

  /* ---------------- residuals ---------------- */

  function Residual(p: Point, l: Line): real
  {
    p.usage - l.At(p.time)
  }

  /** Σ (u − l(t)) */
  function ResidualSum(ps: seq<Point>, l: Line): real
  {
    if ps == [] then 0.0 else Residual(ps[0], l) + ResidualSum(ps[1..], l)
  }

  /* ---------------- real-number identities used below ---------------- */

  lemma {:induction false} SquarePositive(x: real)
    requires x != 0.0
    ensures Square(x) > 0.0
  {
    if x > 0.0 {
      calc {
        Square(x);
      ==
        x * x;
      >
        0.0;
      }
    } else {
      calc {
        Square(x);
      ==
        (-x) * (-x);
      >
        0.0;
      }
    }
  }

  lemma {:induction false} SquareNonNegative(x: real)
    ensures Square(x) >= 0.0
  {
    if x != 0.0 {
      SquarePositive(x);
    }
  }

  lemma {:induction false} MeanOfLinear(s: real, t: real, n: real, a: real, b: real, ms: real, mt: real)
    requires n > 0.0 && s == a * t + n * b && ms == s / n && mt == t / n
    ensures ms == b + a * mt
  {
    assert s / n == (a * t) / n + (n * b) / n;
  }

  lemma {:induction false} ProductOverFactor(a: real, s: real)
    requires s != 0.0
    ensures (a * s) / s == a
  {
  }

  lemma {:induction false} CancelFactor(x: real, y: real, s: real)
    requires s != 0.0 && x * s == y * s
    ensures x == y
  {
    calc {
      x;
    == { ProductOverFactor(x, s); }
      (x * s) / s;
    ==
      (y * s) / s;
    == { ProductOverFactor(y, s); }
      y;
    }
  }

  /* The single-point steps of the inductive proofs below. Each takes the
     sums before and after the step as plain numbers, so that the solver
     meets the products only here. */

  lemma {:induction false} LinearSumStep(b: real, a: real, t: real, u: real, st: real, su: real, n: real, st': real, su': real, n': real)
    requires u == b + a * t && su == a * st + n * b
    requires st' == t + st && su' == u + su && n' == n + 1.0
    ensures su' == a * st' + n' * b
  {
  }

  /* ---------------- lemmas about sums ---------------- */

  lemma {:induction false} SumTimeOfConstant(ps: seq<Point>, c: real)
    requires forall i | 0 <= i < |ps| :: ps[i].time == c
    ensures SumTime(ps) == |ps| as real * c
  {
    if ps != [] {
      SumTimeOfConstant(ps[1..], c);
    }
  }

  lemma {:induction false} SameTimeMean(ps: seq<Point>)
    requires ps != [] && AllSameTime(ps)
    ensures MeanTime(ps) == ps[0].time
  {
    SumTimeOfConstant(ps, ps[0].time);
  }

  /** Every point lies on `l`. Stated point by point from the front, so that
      the solver unfolds it only as far as a proof asks. */
  predicate OnLine(ps: seq<Point>, l: Line)
  {
    ps == [] || (ps[0].usage == l.At(ps[0].time) && OnLine(ps[1..], l))
  }

  lemma {:induction false} OnLineEveryPoint(ps: seq<Point>, l: Line)
    ensures OnLine(ps, l) <==> forall i | 0 <= i < |ps| :: ps[i].usage == l.At(ps[i].time)
  {
    if ps != [] {
      OnLineEveryPoint(ps[1..], l);
      assert forall i | 1 <= i < |ps| :: ps[i] == ps[1..][i - 1];
    }
  }

  lemma {:induction false} SumUsageOfLinear(ps: seq<Point>, l: Line)
    requires OnLine(ps, l)
    ensures SumUsage(ps) == l.slope * SumTime(ps) + |ps| as real * l.intercept
  {
    if ps != [] {
      SumUsageOfLinear(ps[1..], l);
      LinearSumStep(l.intercept, l.slope, ps[0].time, ps[0].usage,
                    SumTime(ps[1..]), SumUsage(ps[1..]), |ps[1..]| as real,
                    SumTime(ps), SumUsage(ps), |ps| as real);
    }
  }

  lemma {:induction false} SpreadOfConstant(ps: seq<Point>, c: real)
    requires forall i | 0 <= i < |ps| :: ps[i].time == c
    ensures Spread(ps, c) == 0.0
  {
    if ps != [] {
      SpreadOfConstant(ps[1..], c);
    }
  }

  lemma {:induction false} SpreadNonNegative(ps: seq<Point>, m: real)
    ensures Spread(ps, m) >= 0.0
  {
    if ps != [] {
      SquareNonNegative(ps[0].time - m);
      SpreadNonNegative(ps[1..], m);
    }
  }

  lemma {:induction false} SpreadPositive(ps: seq<Point>, m: real, i: nat)
    requires i < |ps| && ps[i].time != m
    ensures Spread(ps, m) > 0.0
  {
    if i == 0 {
      SquarePositive(ps[0].time - m);
      SpreadNonNegative(ps[1..], m);
    } else {
      SquareNonNegative(ps[0].time - m);
      assert ps[1..][i - 1] == ps[i];
      SpreadPositive(ps[1..], m, i - 1);
    }
  }

  /** The fit is degenerate (no spread in time) exactly when every timestamp is
      the same. */
  lemma {:induction false} DegenerateIffSameTime(ps: seq<Point>)
    requires ps != []
    ensures Spread(ps, MeanTime(ps)) == 0.0 <==> AllSameTime(ps)
  {
    var mt := MeanTime(ps);
    if AllSameTime(ps) {
      SameTimeMean(ps);
      SpreadOfConstant(ps, mt);
    } else {
      var i :| 0 <= i < |ps| && ps[i].time != ps[0].time;
      if ps[0].time != mt {
        SpreadPositive(ps, mt, 0);
      } else {
        SpreadPositive(ps, mt, i);
      }
    }
  }

  lemma {:induction false} CoSpreadOfConstantTime(ps: seq<Point>, mt: real, mu: real)
    requires forall i | 0 <= i < |ps| :: ps[i].time == mt
    ensures CoSpread(ps, mt, mu) == 0.0
  {
    if ps != [] {
      CoSpreadOfConstantTime(ps[1..], mt, mu);
    }
  }

  lemma {:induction false} CoSpreadOfConstantUsage(ps: seq<Point>, mt: real, c: real)
    requires forall i | 0 <= i < |ps| :: ps[i].usage == c
    ensures CoSpread(ps, mt, c) == 0.0
  {
    if ps != [] {
      CoSpreadOfConstantUsage(ps[1..], mt, c);
    }
  }

  /** Against a line, the centred product of one point is the slope times its
      squared centred time. */
  lemma {:induction false} CentredProductOnLine(p: Point, l: Line, mt: real, mu: real)
    requires p.usage == l.At(p.time) && mu == l.At(mt)
    ensures (p.time - mt) * (p.usage - mu) == l.slope * Square(p.time - mt)
  {
    assert p.usage - mu == l.slope * (p.time - mt);
  }

  /** If `c` and `s` are built from `p`, `q` and `c1`, `s1` by the same
      addition, and each part of `c` is `a` times its counterpart, so is `c`. */
  lemma {:induction false} ScaledSum(c: real, c1: real, p: real, s: real, s1: real, q: real, a: real)
    requires c == p + c1 && s == q + s1
    requires p == a * q && c1 == a * s1
    ensures c == a * s
  {
    assert a * q + a * s1 == a * (q + s1);
  }

  /** Σ a·(t − mt)²: the spread with every term scaled by `a`. */
  function ScaledSpread(ps: seq<Point>, mt: real, a: real): real
  {
    if ps == [] then 0.0 else a * Square(ps[0].time - mt) + ScaledSpread(ps[1..], mt, a)
  }

  /** Scaling every term scales the sum. */
  lemma {:induction false} ScaledSpreadIsProduct(ps: seq<Point>, mt: real, a: real)
    ensures ScaledSpread(ps, mt, a) == a * Spread(ps, mt)
  {
    if ps == [] {
      assert Spread(ps, mt) == 0.0;
    } else {
      ScaledSpreadIsProduct(ps[1..], mt, a);
      ScaledSum(ScaledSpread(ps, mt, a), ScaledSpread(ps[1..], mt, a), a * Square(ps[0].time - mt),
                Spread(ps, mt), Spread(ps[1..], mt), Square(ps[0].time - mt), a);
    }
  }

  /** Against a line, the co-spread is the spread scaled term by term by the slope. */
  lemma {:induction false} CoSpreadIsScaledSpread(ps: seq<Point>, mt: real, mu: real, l: Line)
    requires OnLine(ps, l) && mu == l.At(mt)
    ensures CoSpread(ps, mt, mu) == ScaledSpread(ps, mt, l.slope)
  {
    if ps != [] {
      CentredProductOnLine(ps[0], l, mt, mu);
      CoSpreadIsScaledSpread(ps[1..], mt, mu, l);
    }
  }

  /** Usage exactly on a line co-varies with time by the line's slope. */
  lemma {:induction false} CoSpreadOfLinearUsage(ps: seq<Point>, mt: real, mu: real, l: Line)
    requires OnLine(ps, l) && mu == l.At(mt)
    ensures CoSpread(ps, mt, mu) == l.slope * Spread(ps, mt)
  {
    CoSpreadIsScaledSpread(ps, mt, mu, l);
    ScaledSpreadIsProduct(ps, mt, l.slope);
  }

  /* ---------------- forecast exactness ---------------- */

  /** Constant usage is forecast as that constant, whatever the timestamps. */
  lemma {:induction false} ConstantUsageForecast(ps: seq<Point>, c: real)
    requires ps != []
    requires forall i | 0 <= i < |ps| :: ps[i].usage == c
    ensures PredictFutureUsage(ps) == c
  {
    var l := Line(c, 0.0);
    OnLineEveryPoint(ps, l);
    SumUsageOfLinear(ps, l);
    MeanOfLinear(SumUsage(ps), SumTime(ps), |ps| as real, 0.0, c, MeanUsage(ps), MeanTime(ps));
    assert MeanUsage(ps) == c;
    CoSpreadOfConstantUsage(ps, MeanTime(ps), c);
    assert Slope(ps) == 0.0;
  }

  /** The forecast in terms of the fitted slope and the means. */
  lemma {:induction false} FitAt(ps: seq<Point>, t: real)
    requires ps != []
    ensures Fit(ps).At(t) == (MeanUsage(ps) - Slope(ps) * MeanTime(ps)) + Slope(ps) * t
  {
  }

  /** A fit whose slope is `a` and whose line passes through the means along
      `a*t + b` is the line `a*t + b`. */
  lemma {:induction false} FitIsLine(ps: seq<Point>, a: real, b: real, t: real)
    requires ps != [] && Slope(ps) == a && MeanUsage(ps) == b + a * MeanTime(ps)
    ensures Fit(ps).At(t) == a * t + b
  {
    FitAt(ps, t);
    assert (MeanUsage(ps) - a * MeanTime(ps)) + a * t == a * t + b;
  }

  lemma {:induction false} MeanUsageOfLinear(ps: seq<Point>, l: Line)
    requires ps != [] && OnLine(ps, l)
    ensures MeanUsage(ps) == l.At(MeanTime(ps))
  {
    SumUsageOfLinear(ps, l);
    MeanOfLinear(SumUsage(ps), SumTime(ps), |ps| as real, l.slope, l.intercept, MeanUsage(ps), MeanTime(ps));
  }

  /** Points exactly on a line with at least two distinct timestamps are
      fitted with that line's slope. */
  lemma {:induction false} SlopeOfLinear(ps: seq<Point>, l: Line)
    requires ps != [] && !AllSameTime(ps) && OnLine(ps, l)
    ensures Slope(ps) == l.slope
  {
    MeanUsageOfLinear(ps, l);
    DegenerateIffSameTime(ps);
    calc {
      Slope(ps) * Spread(ps, MeanTime(ps));
    == { SlopeBalances(ps); }
      CoSpread(ps, MeanTime(ps), MeanUsage(ps));
    == { CoSpreadOfLinearUsage(ps, MeanTime(ps), MeanUsage(ps), l); }
      l.slope * Spread(ps, MeanTime(ps));
    }
    CancelFactor(Slope(ps), l.slope, Spread(ps, MeanTime(ps)));
  }

  /** Usage lying exactly on a line `l`, over at least two distinct timestamps,
      is fitted with `l` itself. */
  lemma {:induction false} LinearFitExact(ps: seq<Point>, l: Line, t: real)
    requires ps != [] && !AllSameTime(ps) && OnLine(ps, l)
    ensures Fit(ps).At(t) == l.At(t)
  {
    MeanUsageOfLinear(ps, l);
    SlopeOfLinear(ps, l);
    FitIsLine(ps, l.slope, l.intercept, t);
  }

  /** Usage lying exactly on a line `l`, over at least two distinct timestamps,
      is forecast exactly: the forecast is `l` one horizon past the latest sample. */
  lemma {:induction false} LinearForecastExact(ps: seq<Point>, l: Line)
    requires ps != [] && !AllSameTime(ps) && OnLine(ps, l)
    ensures PredictFutureUsage(ps) == l.At(MaxTime(ps) + Horizon)
  {
    LinearFitExact(ps, l, MaxTime(ps) + Horizon);
  }

  /** With every timestamp equal (one sample included) the forecast is the mean usage. */
  lemma {:induction false} DegenerateForecastIsMeanUsage(ps: seq<Point>)
    requires ps != [] && AllSameTime(ps)
    ensures PredictFutureUsage(ps) == MeanUsage(ps)
  {
    DegenerateIffSameTime(ps);
    assert Slope(ps) == 0.0;
  }

  /* ---------------- least squares ---------------- */

  lemma {:induction false} ResidualSumCentred(ps: seq<Point>, l: Line, mt: real, mu: real)
    requires l.intercept == mu - l.slope * mt
    ensures ResidualSum(ps, l) == (SumUsage(ps) - |ps| as real * mu) - l.slope * (SumTime(ps) - |ps| as real * mt)
  {
    if ps != [] {
      var rest := ps[1..];
      var n' := |rest| as real;
      var t, u, s := ps[0].time, ps[0].usage, l.slope;
      ResidualSumCentred(rest, l, mt, mu);
      calc {
        ResidualSum(ps, l);
      ==
        Residual(ps[0], l) + ResidualSum(rest, l);
      ==
        ((u - mu) - s * (t - mt)) + ((SumUsage(rest) - n' * mu) - s * (SumTime(rest) - n' * mt));
      ==
        ((u + SumUsage(rest)) - (n' + 1.0) * mu) - s * ((t + SumTime(rest)) - (n' + 1.0) * mt);
      ==
        (SumUsage(ps) - |ps| as real * mu) - s * (SumTime(ps) - |ps| as real * mt);
      }
    }
  }

  /** n times a mean gives back the sum it came from. */
  lemma {:induction false} CentredSums(ps: seq<Point>)
    requires ps != []
    ensures SumTime(ps) - |ps| as real * MeanTime(ps) == 0.0
    ensures SumUsage(ps) - |ps| as real * MeanUsage(ps) == 0.0
  {
    var n := |ps| as real;
    assert n * (SumTime(ps) / n) == SumTime(ps);
    assert n * (SumUsage(ps) / n) == SumUsage(ps);
  }

  /** The slope balances the co-spread against the spread, degenerate case included. */
  lemma {:induction false} SlopeBalances(ps: seq<Point>)
    requires ps != []
    ensures CoSpread(ps, MeanTime(ps), MeanUsage(ps)) == Slope(ps) * Spread(ps, MeanTime(ps))
  {
    if Spread(ps, MeanTime(ps)) == 0.0 {
      DegenerateIffSameTime(ps);
      SameTimeMean(ps);
      CoSpreadOfConstantTime(ps, MeanTime(ps), MeanUsage(ps));
    } else {
      var c, d := CoSpread(ps, MeanTime(ps), MeanUsage(ps)), Spread(ps, MeanTime(ps));
      assert Slope(ps) == c / d;
      assert (c / d) * d == c;
    }
  }

  /** The fitted line's residuals sum to zero. */
  lemma {:induction false} ResidualsBalance(ps: seq<Point>)
    requires ps != []
    ensures ResidualSum(ps, Fit(ps)) == 0.0
  {
    CentredSums(ps);
    ResidualSumCentred(ps, Fit(ps), MeanTime(ps), MeanUsage(ps));
    var a, z := Fit(ps).slope, SumTime(ps) - |ps| as real * MeanTime(ps);
    assert a * z == 0.0 by { assert z == 0.0; }
  }

}
