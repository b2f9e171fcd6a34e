/** What the EMA amounts to over whole runs of polls. */
module EmaLaws {
  import opened Wrappers
  import opened LossWindow

  /**
   A poll at which the EMA moved: the time since the poll before it, the instant it saw, and the
   share of the old value it kept.
   */
  datatype Move = Move(dt: int, kept: real, instant: real)

  function Init<T>(s: seq<T>): seq<T>
    requires s != []
  {
    s[..|s| - 1]
  }

  function Last<T>(s: seq<T>): T
    requires s != []
  {
    s[|s| - 1]
  }

  function MoveOf(c: Params, ps: seq<Poll>): Move
    requires c.cap >= 1 && ps != [] && Active(c, ps)
  {
    var dt := Elapsed(c, Published(c, Init(ps)), Last(ps).now);
    Move(dt, 1.0 - Alpha(c, dt), Instant(c, ps))
  }

  /** The moves of a run of polls, in order. */
  function Moves(c: Params, ps: seq<Poll>): seq<Move>
    requires c.cap >= 1
  {
    if ps == [] then []
    else Moves(c, Init(ps)) + (if Active(c, ps) then [MoveOf(c, ps)] else [])
  }

  function Blend(m: Move, e: real): real {
    Mixed(m.kept, m.instant, e)
  }

  /** The EMA after the given moves, started from e. */
  function Smooth(e: real, ms: seq<Move>): real {
    if ms == [] then e else Blend(Last(ms), Smooth(e, Init(ms)))
  }

  /** No poll happens at the zero time. */
  ghost predicate Dated(ps: seq<Poll>) {
    forall i :: 0 <= i < |ps| ==> ps[i].now != 0
  }

  /** One poll, in terms of its move. */
  lemma EmaStep(c: Params, ps: seq<Poll>)
    requires c.cap >= 1 && ps != []
    ensures Published(c, ps) == Moved(c, Published(c, Init(ps)), ps)
  {
    var v := Published(c, Init(ps));
    assert Published(c, ps) == NextView(c, v, ps);
    if Active(c, ps) {
      var m, alpha := MoveOf(c, ps), Alpha(c, Elapsed(c, v, Last(ps).now));
      assert m.kept == 1.0 - alpha && m.instant == Instant(c, ps);
    }
  }

  function Moved(c: Params, v: View, ps: seq<Poll>): View
    requires c.cap >= 1 && ps != []
  {
    var now := Last(ps).now;
    if Active(c, ps) then
      var m := MoveOf(c, ps);
      View(m.instant, if v.lastUpdate == 0 then m.instant else Blend(m, v.ema), now, now)
    else v.(lastPoll := now)
  }

  /** The EMA depends on the polls only through their moves, and the first move starts it. */
  lemma {:induction false} EmaFollowsMoves(c: Params, ps: seq<Poll>)
    requires c.cap >= 1 && Dated(ps)
    ensures Published(c, ps).lastUpdate == 0 <==> Moves(c, ps) == []
    ensures Published(c, ps).ema == StartAndSmooth(Moves(c, ps))
  {
    if ps != [] {
      EmaFollowsMoves(c, Init(ps));
      EmaStep(c, ps);
      if Active(c, ps) {
        SmoothSnoc(Moves(c, Init(ps)), MoveOf(c, ps));
      } else {
        assert Moves(c, ps) == Moves(c, Init(ps));
      }
    }
  }

  /** The dt of a move is the time since the poll before it, active or not; the first poll counts one interval. */
  lemma {:induction false} MoveTime(c: Params, ps: seq<Poll>)
    requires c.cap >= 1 && Dated(ps) && ps != [] && Active(c, ps)
    ensures MoveOf(c, ps).dt == if |ps| == 1 then c.pollInterval else Last(ps).now - Last(Init(ps)).now
  {
    if |ps| > 1 { EmaStep(c, Init(ps)); }
  }

  function StartAndSmooth(ms: seq<Move>): real {
    if ms == [] then 0.0 else Smooth(ms[0].instant, ms[1..])
  }

  lemma SmoothSnoc(ms: seq<Move>, m: Move)
    ensures StartAndSmooth(ms + [m]) == if ms == [] then m.instant else Blend(m, StartAndSmooth(ms))
  {
    if ms == [] {
      assert ([m])[1..] == [];
    } else {
      assert (ms + [m])[1..] == ms[1..] + [m];
      assert Init(ms[1..] + [m]) == ms[1..];
    }
  }

  // ---- the shape of the average ----

  /** The share that moves k, k + 1, ... keep between them. */
  function Kept(ms: seq<Move>, k: nat): real
    requires k <= |ms|
    decreases |ms| - k
  {
    if k == |ms| then 1.0 else ms[k].kept * Kept(ms, k + 1)
  }

  lemma {:induction false} KeptSnoc(ms: seq<Move>, k: nat)
    requires k < |ms|
    ensures Kept(ms, k) == Kept(Init(ms), k) * Last(ms).kept
    decreases |ms| - k
  {
    if k < |ms| - 1 {
      KeptSnoc(ms, k + 1);
      Regroup(ms[k].kept, Kept(Init(ms), k + 1), Last(ms).kept);
    } else {
      assert Kept(ms, k + 1) == 1.0;
    }
  }

  lemma Regroup(p: real, q: real, r: real)
    ensures p * (q * r) == (p * q) * r
  {}

  /** Two runs that differ only in where the EMA started differ by what all moves kept of it. */
  lemma {:induction false} StartFades(e: real, f: real, ms: seq<Move>)
    ensures Smooth(e, ms) - Smooth(f, ms) == Kept(ms, 0) * (e - f)
  {
    if ms != [] {
      StartFades(e, f, Init(ms));
      KeptSnoc(ms, 0);
      BlendContracts(Last(ms), Smooth(e, Init(ms)), Smooth(f, Init(ms)), Kept(Init(ms), 0), e - f);
    }
  }

  lemma BlendContracts(m: Move, x: real, y: real, q: real, d: real)
    requires x - y == q * d
    ensures Blend(m, x) - Blend(m, y) == (q * m.kept) * d
  {
    assert m.kept * x - m.kept * y == m.kept * (x - y);
    Regroup(m.kept, q, d);
  }

  /** The weight of move k in the EMA; the first move counts in full when it happens. */
  function Weight(ms: seq<Move>, k: nat): real
    requires k < |ms|
  {
    (if k == 0 then 1.0 else 1.0 - ms[k].kept) * Kept(ms, k + 1)
  }

  function Weights(ms: seq<Move>): (ws: seq<real>)
    ensures |ws| == |ms|
  {
    seq(|ms|, k requires 0 <= k < |ms| => Weight(ms, k))
  }

  function Instants(ms: seq<Move>): (xs: seq<real>)
    ensures |xs| == |ms|
  {
    seq(|ms|, k requires 0 <= k < |ms| => ms[k].instant)
  }

  function Sum(ws: seq<real>): real {
    if ws == [] then 0.0 else Sum(Init(ws)) + Last(ws)
  }

  function Times(x: real, y: real): real {
    x * y
  }

  function Products(ws: seq<real>, xs: seq<real>): (ps: seq<real>)
    requires |ws| == |xs|
    ensures |ps| == |ws|
  {
    seq(|ws|, k requires 0 <= k < |ws| => Times(ws[k], xs[k]))
  }

  /** The sum of the values, each times its weight. */
  function WeightedSum(ws: seq<real>, xs: seq<real>): real
    requires |ws| == |xs|
  {
    Sum(Products(ws, xs))
  }

  /** u is v times d. */
  ghost predicate ScaledBy(u: seq<real>, v: seq<real>, d: real) {
    |u| == |v| && forall k :: 0 <= k < |u| ==> u[k] == v[k] * d
  }

  /** One more move scales every earlier weight by the share it keeps. */
  lemma WeightScales(ms: seq<Move>, k: nat)
    requires k < |ms| - 1
    ensures Weight(ms, k) == Weight(Init(ms), k) * Last(ms).kept
  {
    KeptSnoc(ms, k + 1);
    Regroup(if k == 0 then 1.0 else 1.0 - ms[k].kept, Kept(Init(ms), k + 1), Last(ms).kept);
  }

  lemma WeightsScale(ms: seq<Move>)
    requires ms != []
    ensures ScaledBy(Init(Weights(ms)), Weights(Init(ms)), Last(ms).kept)
  {
    forall k | 0 <= k < |ms| - 1 ensures Init(Weights(ms))[k] == Weights(Init(ms))[k] * Last(ms).kept {
      WeightScales(ms, k);
    }
  }

  lemma {:induction false} SumScales(u: seq<real>, v: seq<real>, d: real)
    requires ScaledBy(u, v, d)
    ensures Sum(u) == Sum(v) * d
  {
    if u != [] {
      SumScales(Init(u), Init(v), d);
      Distribute(Sum(Init(v)), Last(v), d);
    }
  }

  lemma ProductsScale(u: seq<real>, v: seq<real>, xs: seq<real>, d: real)
    requires ScaledBy(u, v, d) && |v| == |xs|
    ensures ScaledBy(Products(u, xs), Products(v, xs), d)
  {
    forall k | 0 <= k < |u| ensures Products(u, xs)[k] == Products(v, xs)[k] * d {
      ScaledTerm(u[k], v[k], xs[k], d);
    }
  }

  lemma ScaledTerm(u: real, v: real, x: real, d: real)
    requires u == v * d
    ensures Times(u, x) == Times(v, x) * d
  {}

  lemma WeightedSumSnoc(ws: seq<real>, xs: seq<real>)
    requires ws != [] && |ws| == |xs|
    ensures WeightedSum(ws, xs) == WeightedSum(Init(ws), Init(xs)) + Times(Last(ws), Last(xs))
  {
    assert Init(Products(ws, xs)) == Products(Init(ws), Init(xs));
  }

  lemma Distribute(s: real, w: real, d: real)
    ensures (s + w) * d == s * d + w * d
  {}

  /** A newest value of weight 1 - d joins a sum that shrank by d. */
  lemma MixedSum(t: real, w: real, d: real, x: real, avg: real)
    requires t == avg * d && w == 1.0 - d
    ensures t + Times(w, x) == Mixed(d, x, avg)
  {}

  lemma WeightsGrow(ws: seq<real>, vs: seq<real>, d: real)
    requires ws != [] && ScaledBy(Init(ws), vs, d) && Last(ws) == 1.0 - d && Sum(vs) == 1.0
    ensures Sum(ws) == 1.0
  {
    SumScales(Init(ws), vs, d);
  }

  lemma ProductsShrink(us: seq<real>, vs: seq<real>, xs: seq<real>, d: real)
    requires ScaledBy(us, vs, d) && |vs| == |xs|
    ensures WeightedSum(us, xs) == WeightedSum(vs, xs) * d
  {
    ProductsScale(us, vs, xs, d);
    SumScales(Products(us, xs), Products(vs, xs), d);
  }

  /** An average whose weights shrink by d takes in a newest value of weight 1 - d. */
  lemma AverageGrows(ws: seq<real>, xs: seq<real>, vs: seq<real>, d: real)
    requires ws != [] && |ws| == |xs| && ScaledBy(Init(ws), vs, d) && Last(ws) == 1.0 - d
    ensures WeightedSum(ws, xs) == Mixed(d, Last(xs), WeightedSum(vs, Init(xs)))
  {
    ProductsShrink(Init(ws), vs, Init(xs), d);
    WeightedSumSnoc(ws, xs);
    MixedSum(WeightedSum(Init(ws), Init(xs)), Last(ws), d, Last(xs), WeightedSum(vs, Init(xs)));
  }

  lemma AverageOfOne(ws: seq<real>, xs: seq<real>)
    requires |ws| == |xs| == 1 && ws[0] == 1.0
    ensures Sum(ws) == 1.0 && WeightedSum(ws, xs) == xs[0]
  {
    WeightedSumSnoc(ws, xs);
    assert Init(ws) == [] && Products(Init(ws), Init(xs)) == [];
  }

  /** The EMA is the weighted sum of all instants since the first move, and the weights sum to one. */
  lemma {:induction false} EmaIsAverage(ms: seq<Move>)
    requires ms != []
    ensures StartAndSmooth(ms) == WeightedSum(Weights(ms), Instants(ms))
    ensures Sum(Weights(ms)) == 1.0
  {
    if |ms| == 1 {
      assert ms[1..] == [];
      AverageOfOne(Weights(ms), Instants(ms));
    } else {
      var before := Init(ms);
      EmaIsAverage(before);
      WeightsScale(ms);
      LastWeight(ms);
      WeightsGrow(Weights(ms), Weights(before), Last(ms).kept);
      AverageGrows(Weights(ms), Instants(ms), Weights(before), Last(ms).kept);
      assert Init(Instants(ms)) == Instants(before);
      assert ms == before + [Last(ms)];
      SmoothSnoc(before, Last(ms));
    }
  }

  lemma LastWeight(ms: seq<Move>)
    requires |ms| > 1
    ensures Weight(ms, |ms| - 1) == 1.0 - Last(ms).kept
  {
    assert Kept(ms, |ms|) == 1.0;
  }

  /** An average lies between its extremes, so it stays where the instants are. */
  lemma {:induction false} SmoothBetween(e: real, ms: seq<Move>, lo: real, hi: real)
    requires lo <= e <= hi
    requires forall k :: 0 <= k < |ms| ==> 0.0 <= ms[k].kept <= 1.0 && lo <= ms[k].instant <= hi
    ensures lo <= Smooth(e, ms) <= hi
  {
    if ms != [] {
      SmoothBetween(e, Init(ms), lo, hi);
      BlendBetween(Last(ms), Smooth(e, Init(ms)), lo, hi);
    }
  }

  lemma BlendBetween(m: Move, e: real, lo: real, hi: real)
    requires 0.0 <= m.kept <= 1.0 && lo <= m.instant <= hi && lo <= e <= hi
    ensures lo <= Blend(m, e) <= hi
  {
    NonNegative(m.kept, e - lo); NonNegative(1.0 - m.kept, m.instant - lo);
    NonNegative(m.kept, hi - e); NonNegative(1.0 - m.kept, hi - m.instant);
  }

  lemma NonNegative(x: real, y: real)
    requires x >= 0.0 && y >= 0.0
    ensures x * y >= 0.0
  {}

  // ---- with a real decay ----

  ghost predicate Splits(decay: real -> real, x: real, y: real) {
    decay(x + y) == decay(x) * decay(y)
  }

  /** The laws of e^-x that matter here. */
  ghost predicate IsDecay(decay: real -> real) {
    && decay(0.0) == 1.0
    && (forall x :: x >= 0.0 ==> 0.0 < decay(x) <= 1.0)
    && (forall x, y :: x >= 0.0 && y >= 0.0 ==> Splits(decay, x, y))
  }

  /** A configuration as it is after defaults are applied. */
  ghost predicate Sound(c: Params) {
    c.cap >= 1 && c.halfLife > 0 && IsDecay(c.decay)
  }

  /** dt in units of the half-life setting; time running backwards counts as none. */
  function Ratio(c: Params, dt: int): (r: real)
    requires c.halfLife > 0
    ensures r >= 0.0
  {
    if dt <= 0 then 0.0 else dt as real / c.halfLife as real
  }

  lemma NonPositive(x: int, d: int)
    requires d > 0 && x <= 0
    ensures x as real / d as real <= 0.0
  {}

  /** What a move keeps is the decay of its dt over the half-life setting. */
  lemma KeptIsDecay(c: Params, dt: int)
    requires Sound(c)
    ensures 1.0 - Alpha(c, dt) == c.decay(Ratio(c, dt))
    ensures 0.0 < 1.0 - Alpha(c, dt) <= 1.0
  {
    if dt <= 0 { NonPositive(dt, c.halfLife); }
  }

  /** The moves were made with this configuration. */
  ghost predicate Decays(c: Params, ms: seq<Move>)
    requires c.halfLife > 0
  {
    forall k :: 0 <= k < |ms| ==> ms[k].kept == c.decay(Ratio(c, ms[k].dt)) && 0.0 < ms[k].kept <= 1.0
  }

  lemma {:induction false} MovesDecay(c: Params, ps: seq<Poll>)
    requires Sound(c)
    ensures Decays(c, Moves(c, ps))
  {
    if ps != [] {
      MovesDecay(c, Init(ps));
      if Active(c, ps) { KeptIsDecay(c, MoveOf(c, ps).dt); }
    }
  }

  /** The time, in those units, that passes over moves k, k + 1, ... */
  function Age(c: Params, ms: seq<Move>, k: nat): (r: real)
    requires k <= |ms| && c.halfLife > 0
    ensures r >= 0.0
    decreases |ms| - k
  {
    if k == |ms| then 0.0 else Ratio(c, ms[k].dt) + Age(c, ms, k + 1)
  }

  lemma {:induction false} KeptIsDecayOfAge(c: Params, ms: seq<Move>, k: nat)
    requires Sound(c) && k <= |ms| && Decays(c, ms)
    ensures Kept(ms, k) == c.decay(Age(c, ms, k))
    decreases |ms| - k
  {
    if k < |ms| {
      KeptIsDecayOfAge(c, ms, k + 1);
      Chain(c.decay, Ratio(c, ms[k].dt), Age(c, ms, k + 1), ms[k].kept, Kept(ms, k + 1));
    }
  }

  lemma Chain(decay: real -> real, x: real, y: real, p: real, q: real)
    requires IsDecay(decay) && x >= 0.0 && y >= 0.0 && p == decay(x) && q == decay(y)
    ensures p * q == decay(x + y)
  {
    assert Splits(decay, x, y);
  }

  /** The difference made by the starting value is exactly the decay of the active time since. */
  lemma StartFadesByDecay(c: Params, e: real, f: real, ms: seq<Move>)
    requires Sound(c) && Decays(c, ms)
    ensures Smooth(e, ms) - Smooth(f, ms) == Times(c.decay(Age(c, ms, 0)), e - f)
  {
    var q := c.decay(Age(c, ms, 0));
    assert q == Kept(ms, 0) by { KeptIsDecayOfAge(c, ms, 0); }
    StartFadesBy(e, f, ms, q);
  }

  lemma StartFadesBy(e: real, f: real, ms: seq<Move>, q: real)
    requires q == Kept(ms, 0)
    ensures Smooth(e, ms) - Smooth(f, ms) == Times(q, e - f)
  {
    StartFades(e, f, ms);
  }

  /** Move k weighs its share of the average, decayed by all later active time, and never less than nothing. */
  ghost predicate DecayedShare(c: Params, ms: seq<Move>, k: nat)
    requires k < |ms| && c.halfLife > 0
  {
    && Weight(ms, k) >= 0.0
    && Weight(ms, k) == (if k == 0 then 1.0 else Alpha(c, ms[k].dt)) * c.decay(Age(c, ms, k + 1))
  }

  lemma ShareNonNegative(share: real, kept: real, w: real)
    requires share >= 0.0 && kept >= 0.0 && w == share * kept
    ensures w >= 0.0
  {}

  /** Weights are those of a convex combination, each the share of its move decayed by the time since. */
  lemma WeightsConvex(c: Params, ms: seq<Move>, k: nat)
    requires Sound(c) && Decays(c, ms) && k < |ms|
    ensures DecayedShare(c, ms, k)
  {
    var share, q := if k == 0 then 1.0 else Alpha(c, ms[k].dt), c.decay(Age(c, ms, k + 1));
    KeptIsDecayOfAge(c, ms, k + 1);
    KeptIsDecay(c, ms[k].dt);
    WeightIs(ms, k, share, q);
    ShareNonNegative(share, q, Weight(ms, k));
  }

  lemma WeightIs(ms: seq<Move>, k: nat, share: real, q: real)
    requires k < |ms| && share == (if k == 0 then 1.0 else 1.0 - ms[k].kept) && q == Kept(ms, k + 1)
    ensures Weight(ms, k) == share * q
  {}

  /**
   The closed form: after any polls the published EMA is a convex combination of the instants
   since the first move, move k weighing its share times the decay of all later active time.
   */
  lemma EmaClosedForm(c: Params, ps: seq<Poll>)
    requires Sound(c) && Dated(ps) && Moves(c, ps) != []
    ensures var ms := Moves(c, ps);
            && Published(c, ps).ema == WeightedSum(Weights(ms), Instants(ms)) && Sum(Weights(ms)) == 1.0
            && forall k :: 0 <= k < |ms| ==> DecayedShare(c, ms, k)
  {
    var ms := Moves(c, ps);
    EmaFollowsMoves(c, ps);
    EmaIsAverage(ms);
    forall k | 0 <= k < |ms| ensures DecayedShare(c, ms, k) {
      MovesDecay(c, ps);
      WeightsConvex(c, ms, k);
    }
  }

  // ---- percentages ----

  /** Every poll saw no more retransmits than segments, and no window overflows its 64-bit sum. */
  ghost predicate Plausible(c: Params, ps: seq<Poll>)
    requires c.cap >= 1
  {
    && (forall i :: 0 <= i < |ps| ==> ps[i].sample.ret <= ps[i].sample.seg)
    && Fits(c, ps)
  }

  ghost predicate Fits(c: Params, ps: seq<Poll>)
    requires c.cap >= 1
  {
    forall n :: 0 <= n <= |ps| ==> SumSeg(Window(c, ps[..n])) < U64
  }

  lemma {:induction false} SumsOrdered(s: seq<Sample>)
    requires forall i :: 0 <= i < |s| ==> s[i].ret <= s[i].seg
    ensures SumRet(s) <= SumSeg(s)
  {
    if s != [] { SumsOrdered(s[1..]); }
  }

  lemma PercentRange(r: nat, s: nat)
    requires s > 0
    ensures 0.0 <= 100.0 * r as real / s as real <= 100.0 <==> r <= s
  {
    var q := r as real / s as real;
    assert q * s as real == r as real;
    assert 100.0 * r as real / s as real == 100.0 * q;
    Scaled(q, s as real);
  }

  lemma Scaled(q: real, s: real)
    requires s > 0.0
    ensures q * s <= s <==> q <= 1.0
    ensures q * s >= 0.0 <==> q >= 0.0
  {
    if q > 1.0 { assert (q - 1.0) * s > 0.0; }
    if q <= 1.0 { assert (1.0 - q) * s >= 0.0; }
    if q >= 0.0 { assert q * s >= 0.0; }
    if q < 0.0 { assert (0.0 - q) * s > 0.0; }
  }

  /** The instant is a percentage exactly when the window's sums, as kept in 64 bits, are in order. */
  lemma InstantInRangeIff(c: Params, ps: seq<Poll>)
    requires c.cap >= 1 && Active(c, ps)
    ensures 0.0 <= Instant(c, ps) <= 100.0 <==> WinRet(c, ps) <= WinSeg(c, ps)
  {
    PercentRange(WinRet(c, ps), WinSeg(c, ps));
  }

  ghost predicate WindowOrdered(c: Params, ps: seq<Poll>)
    requires c.cap >= 1
  {
    Active(c, ps) ==> WinRet(c, ps) <= WinSeg(c, ps)
  }

  /** Every window along the run is in order. */
  ghost predicate WindowsOrdered(c: Params, ps: seq<Poll>)
    requires c.cap >= 1
  {
    forall n :: 0 <= n <= |ps| ==> WindowOrdered(c, ps[..n])
  }

  /** That is so for plausible samples. */
  lemma PlausibleOrders(c: Params, ps: seq<Poll>)
    requires c.cap >= 1 && Plausible(c, ps)
    ensures WindowsOrdered(c, ps)
  {
    forall n | 0 <= n <= |ps| ensures WindowOrdered(c, ps[..n]) {
      WindowIsTail(c, ps[..n]);
      SumsOrdered(Window(c, ps[..n]));
    }
  }

  lemma OrderedSplits(c: Params, ps: seq<Poll>)
    requires c.cap >= 1 && ps != []
    ensures WindowsOrdered(c, ps) <==> WindowsOrdered(c, Init(ps)) && WindowOrdered(c, ps)
  {
    assert ps[..|ps|] == ps;
    assert forall n :: 0 <= n <= |Init(ps)| ==> Init(ps)[..n] == ps[..n];
    if WindowsOrdered(c, ps) {
      forall n | 0 <= n <= |Init(ps)| ensures WindowOrdered(c, Init(ps)[..n]) {
        assert WindowOrdered(c, ps[..n]);
      }
    }
    if WindowsOrdered(c, Init(ps)) && WindowOrdered(c, ps) {
      forall n | 0 <= n <= |ps| ensures WindowOrdered(c, ps[..n]) {
        if n < |ps| { assert WindowOrdered(c, Init(ps)[..n]); }
      }
    }
  }

  ghost predicate Percentages(ms: seq<Move>) {
    forall k :: 0 <= k < |ms| ==> 0.0 <= ms[k].instant <= 100.0
  }

  /** All instants ever published are percentages exactly when all windows were in order. */
  lemma {:induction false} InstantsInRangeIff(c: Params, ps: seq<Poll>)
    requires c.cap >= 1
    ensures Percentages(Moves(c, ps)) <==> WindowsOrdered(c, ps)
  {
    if ps == [] {
      NothingActive(c);
    } else {
      InstantsInRangeIff(c, Init(ps));
      OrderedSplits(c, ps);
      if Active(c, ps) {
        InstantInRangeIff(c, ps);
        PercentagesSnoc(Moves(c, Init(ps)), MoveOf(c, ps));
      } else {
        assert Moves(c, ps) == Moves(c, Init(ps));
      }
    }
  }

  lemma NothingActive(c: Params)
    requires c.cap >= 1
    ensures WindowsOrdered(c, [])
  {
    forall n | 0 <= n <= 0 ensures WindowOrdered(c, ([])[..n]) {}
  }

  lemma PercentagesSnoc(ms: seq<Move>, m: Move)
    ensures Percentages(ms + [m]) <==> Percentages(ms) && 0.0 <= m.instant <= 100.0
  {
    assert (ms + [m])[|ms|] == m;
    assert forall k :: 0 <= k < |ms| ==> (ms + [m])[k] == ms[k];
  }

  /** Whatever interval holds all instants seen so far holds the EMA. */
  lemma EmaBetween(c: Params, ps: seq<Poll>, lo: real, hi: real)
    requires Sound(c) && Dated(ps) && Moves(c, ps) != []
    requires forall k :: 0 <= k < |Moves(c, ps)| ==> lo <= Moves(c, ps)[k].instant <= hi
    ensures lo <= Published(c, ps).ema <= hi
  {
    var ms := Moves(c, ps);
    EmaFollowsMoves(c, ps);
    MovesDecay(c, ps);
    SmoothBetween(ms[0].instant, ms[1..], lo, hi);
  }

  /** While every window is in order the EMA is a percentage. */
  lemma EmaIsPercentage(c: Params, ps: seq<Poll>)
    requires Sound(c) && Dated(ps) && WindowsOrdered(c, ps)
    ensures 0.0 <= Published(c, ps).ema <= 100.0
  {
    EmaFollowsMoves(c, ps);
    InstantsInRangeIff(c, ps);
    if Moves(c, ps) != [] { EmaBetween(c, ps, 0.0, 100.0); }
  }

  /** The window of two polls, in any configuration with room for both. */
  lemma WindowOfTwo(c: Params, p: Poll, q: Poll)
    requires c.cap >= 2
    ensures WinSeg(c, [p, q]) == (p.sample.seg + q.sample.seg) % U64
    ensures WinRet(c, [p, q]) == (p.sample.ret + q.sample.ret) % U64
  {
    WindowIsTail(c, [p, q]);
    var w := Window(c, [p, q]);
    assert w == [p.sample] + [q.sample];
    SumAppend([p.sample], q.sample);
    SumAppend([], p.sample);
    assert [] + [p.sample] == [p.sample];
  }

  /** An overflowing window can leave that range: two huge polls whose segments wrap to one. */
  lemma OverflowLeavesRange(c: Params) returns (ps: seq<Poll>)
    requires c.cap >= 2
    ensures Dated(ps) && |ps| == 2 && (forall i :: 0 <= i < 2 ==> ps[i].sample.ret <= ps[i].sample.seg < U64)
    ensures Published(c, ps).instant == 200.0
  {
    ps := [Poll(1, Sample(U64 - 1, 2)), Poll(2, Sample(2, 0))];
    WindowOfTwo(c, ps[0], ps[1]);
    assert WinSeg(c, ps) == 1 && WinRet(c, ps) == 2;
    assert Instant(c, ps) == 200.0;
    EmaStep(c, ps);
  }

  /** So can two polls with no overflow: a retransmit without its segment, then one of each. */
  lemma RaceLeavesRange(c: Params, ps: seq<Poll>)
    requires c.cap >= 2
    requires |ps| == 2 && ps[0].sample == Sample(0, 1) && ps[1].sample == Sample(1, 1)
    ensures Published(c, ps).instant == 200.0
  {
    assert ps == [ps[0], ps[1]];
    WindowOfTwo(c, ps[0], ps[1]);
    assert WinSeg(c, ps) == 1 && WinRet(c, ps) == 2;
    assert Instant(c, ps) == 200.0;
    EmaStep(c, ps);
  }

  // ---- quiet zones ----

  /** The last k polls had no segments. */
  ghost predicate Quiet(ps: seq<Poll>, k: nat) {
    k <= |ps| && forall i :: |ps| - k <= i < |ps| ==> ps[i].sample.seg == 0
  }

  lemma {:induction false} ZeroSum(s: seq<Sample>)
    ensures SumSeg(s) == 0 <==> forall i :: 0 <= i < |s| ==> s[i].seg == 0
  {
    if s != [] {
      ZeroSum(s[1..]);
      if SumSeg(s) == 0 {
        forall i | 0 <= i < |s| ensures s[i].seg == 0 {
          if i > 0 { assert s[i] == s[1..][i - 1]; }
        }
      }
    }
  }

  lemma QuietWindow(c: Params, ps: seq<Poll>)
    requires c.cap >= 1 && Quiet(ps, c.cap)
    ensures WinSeg(c, ps) == 0
  {
    WindowIsTail(c, ps);
    ZeroSum(Window(c, ps));
  }

  /** Everything published but the time of the last poll. */
  function Held(v: View): (real, real, int) {
    (v.instant, v.ema, v.lastUpdate)
  }

  /** Once the window has seen nothing but silence its sum is zero and the zone holds its values. */
  lemma QuietHolds(c: Params, ps: seq<Poll>)
    requires c.cap >= 1 && Quiet(ps, c.cap)
    ensures WinSeg(c, ps) == 0 && Held(Published(c, ps)) == Held(Published(c, Init(ps)))
  {
    QuietWindow(c, ps);
    EmaStep(c, ps);
  }

  /** However long the silence goes on, the values stay as they were before silence filled the window. */
  lemma {:induction false} QuietFreeze(c: Params, ps: seq<Poll>, k: nat)
    requires c.cap >= 1 && k >= c.cap && Quiet(ps, k)
    ensures WinSeg(c, ps) == 0 && Held(Published(c, ps)) == Held(Published(c, ps[..|ps| - k + c.cap - 1]))
  {
    QuietHolds(c, ps);
    var before := ps[..|ps| - k + c.cap - 1];
    if k > c.cap {
      QuietFreeze(c, Init(ps), k - 1);
      assert Init(ps)[..|Init(ps)| - (k - 1) + c.cap - 1] == before;
    } else {
      assert Init(ps) == before;
    }
  }

  /** Some poll in the window after the first n polls had a segment. */
  ghost predicate Heard(c: Params, ps: seq<Poll>, n: nat) {
    n <= |ps| && exists i :: 0 <= i < n && n - c.cap <= i && ps[i].sample.seg > 0
  }

  lemma ActiveIffHeard(c: Params, ps: seq<Poll>)
    requires c.cap >= 1 && Fits(c, ps)
    ensures Active(c, ps) <==> Heard(c, ps, |ps|)
  {
    assert ps[..|ps|] == ps;
    WindowIsTail(c, ps);
    var w := Window(c, ps);
    ZeroSum(w);
    if Active(c, ps) {
      var i :| 0 <= i < |w| && w[i].seg != 0;
      assert ps[|ps| - |w| + i].sample == w[i];
    }
    if Heard(c, ps, |ps|) {
      var i :| 0 <= i < |ps| && |ps| - c.cap <= i && ps[i].sample.seg > 0;
      assert w[i - (|ps| - |w|)] == ps[i].sample;
    }
  }

  /** LastUpdate is the time of the latest poll whose window had a segment; zero when there was none. */
  lemma {:induction false} LastUpdateIsLastHeard(c: Params, ps: seq<Poll>)
    requires c.cap >= 1 && Fits(c, ps)
    ensures || (Published(c, ps).lastUpdate == 0 && forall n :: 0 < n <= |ps| ==> !Heard(c, ps, n))
            || exists n :: 0 < n <= |ps| && Heard(c, ps, n) && Published(c, ps).lastUpdate == ps[n - 1].now &&
                           forall m :: n < m <= |ps| ==> !Heard(c, ps, m)
  {
    if ps != [] {
      assert Fits(c, Init(ps)) by {
        forall n | 0 <= n <= |Init(ps)| ensures SumSeg(Window(c, Init(ps)[..n])) < U64 {
          assert Init(ps)[..n] == ps[..n];
        }
      }
      LastUpdateIsLastHeard(c, Init(ps));
      assert forall n :: 0 <= n < |ps| ==> (Heard(c, Init(ps), n) <==> Heard(c, ps, n));
      ActiveIffHeard(c, ps);
      EmaStep(c, ps);
    }
  }
}
