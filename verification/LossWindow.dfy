/**
 The reference for one zone of the EMA store: what the published values should be, recomputed
 from the whole history of polls.
 */
module LossWindow {
  import opened Wrappers

  datatype Sample = Sample(seg: nat, ret: nat)

  /** `now` in nanoseconds; 0 is the zero time. */
  datatype Poll = Poll(now: int, sample: Sample)

  /** Intervals in nanoseconds; `decay(x)` stands for e^-x. */
  datatype Params = Params(pollInterval: int, halfLife: int, cap: nat, decay: real -> real)

  /** `instantWindowCap`: at least one slot; Go's division truncates towards zero. */
  function WindowCap(window: int, poll: int): (n: nat)
    requires poll > 0
    ensures n >= 1
    ensures n * poll <= window || n == 1
    ensures window < (n + 1) * poll
  {
    if window >= poll then DivBounds(window, poll); window / poll else 1
  }

  lemma DivBounds(x: int, d: int)
    requires d > 0 && x >= d
    ensures x / d >= 1 && (x / d) * d <= x < (x / d + 1) * d
  {}

  /** The last `cap` elements, or all of them. */
  function Tail<T>(s: seq<T>, cap: nat): seq<T> {
    if |s| <= cap then s else s[|s| - cap..]
  }

  function Samples(ps: seq<Poll>): (s: seq<Sample>)
    ensures |s| == |ps|
  {
    seq(|ps|, i requires 0 <= i < |ps| => ps[i].sample)
  }

  function SumSeg(s: seq<Sample>): nat {
    if s == [] then 0 else s[0].seg + SumSeg(s[1..])
  }

  function SumRet(s: seq<Sample>): nat {
    if s == [] then 0 else s[0].ret + SumRet(s[1..])
  }

  /** The window after one more sample: the oldest makes room once it is full. */
  function Slide(w: seq<Sample>, x: Sample, cap: nat): seq<Sample>
    requires cap >= 1
  {
    if |w| < cap then w + [x] else w[1..] + [x]
  }

  /** The window after the given polls. */
  function Window(c: Params, ps: seq<Poll>): seq<Sample>
    requires c.cap >= 1
  {
    if ps == [] then [] else Slide(Window(c, ps[..|ps| - 1]), ps[|ps| - 1].sample, c.cap)
  }

  /** Sliding keeps exactly the last min(n, cap) samples, in order. */
  lemma {:induction false} WindowIsTail(c: Params, ps: seq<Poll>)
    requires c.cap >= 1
    ensures Window(c, ps) == Tail(Samples(ps), c.cap)
  {
    if ps != [] {
      var init, x := ps[..|ps| - 1], ps[|ps| - 1].sample;
      WindowIsTail(c, init);
      assert Samples(ps) == Samples(init) + [x];
    }
  }

  /** The 64-bit window sums. */
  function WinSeg(c: Params, ps: seq<Poll>): nat
    requires c.cap >= 1
  {
    SumSeg(Window(c, ps)) % U64
  }

  function WinRet(c: Params, ps: seq<Poll>): nat
    requires c.cap >= 1
  {
    SumRet(Window(c, ps)) % U64
  }

  // ---- the window slides by one sample per poll ----

  lemma {:induction false} SumAppend(s: seq<Sample>, x: Sample)
    ensures SumSeg(s + [x]) == SumSeg(s) + x.seg
    ensures SumRet(s + [x]) == SumRet(s) + x.ret
  {
    if s == [] {
      assert s + [x] == [x];
    } else {
      SumAppend(s[1..], x);
      assert (s + [x])[1..] == s[1..] + [x];
    }
  }

  lemma SlideSums(w: seq<Sample>, x: Sample, cap: nat)
    requires cap >= 1 && |w| <= cap
    ensures |w| < cap ==> SumSeg(Slide(w, x, cap)) == SumSeg(w) + x.seg && SumRet(Slide(w, x, cap)) == SumRet(w) + x.ret
    ensures |w| == cap ==> SumSeg(Slide(w, x, cap)) == SumSeg(w) - w[0].seg + x.seg &&
                           SumRet(Slide(w, x, cap)) == SumRet(w) - w[0].ret + x.ret
  {
    SumAppend(w, x);
    if |w| == cap { SumAppend(w[1..], x); }
  }

  /** Running 64-bit sums survive eviction: borrowing and wrapping cancel out. */
  lemma RunningSum(total: nat, evicted: nat, added: nat)
    requires evicted <= total
    ensures ((total % U64 - evicted) % U64 + added) % U64 == (total - evicted + added) % U64
  {
    ModAbsorbs(total, 0 - evicted);
    ModAbsorbs(total - evicted, added);
  }

  lemma ModAbsorbs(x: int, y: int)
    ensures (x % U64 + y) % U64 == (x + y) % U64
  {}

  /** When the true sum fits, taking out an evicted sample never borrows. */
  lemma NoUnderflow(w: seq<Sample>)
    requires w != []
    ensures SumSeg(w) < U64 ==> SumSeg(w) % U64 >= w[0].seg
    ensures SumRet(w) < U64 ==> SumRet(w) % U64 >= w[0].ret
  {}

  // ---- the published values ----

  function ExpNeg(c: Params, x: real): real {
    if x <= 0.0 then 1.0 else c.decay(x)
  }

  /** `Alpha`: the weight of the newest instant after dt. */
  function Alpha(c: Params, dt: int): real {
    if c.halfLife <= 0 then 0.3 else 1.0 - ExpNeg(c, dt as real / c.halfLife as real)
  }

  datatype View = View(instant: real, ema: real, lastUpdate: int, lastPoll: int)

  predicate Active(c: Params, ps: seq<Poll>)
    requires c.cap >= 1
  {
    WinSeg(c, ps) > 0
  }

  function Instant(c: Params, ps: seq<Poll>): real
    requires c.cap >= 1 && Active(c, ps)
  {
    100.0 * WinRet(c, ps) as real / WinSeg(c, ps) as real
  }

  /** A new instant joins an average that keeps the given share of its old value. */
  function Mixed(kept: real, instant: real, e: real): real {
    (1.0 - kept) * instant + kept * e
  }

  function Elapsed(c: Params, v: View, now: int): int {
    if v.lastPoll == 0 then c.pollInterval else now - v.lastPoll
  }

  function NextView(c: Params, v: View, ps: seq<Poll>): View
    requires c.cap >= 1 && ps != []
  {
    var now := ps[|ps| - 1].now;
    if Active(c, ps) then
      var alpha, instant := Alpha(c, Elapsed(c, v, now)), Instant(c, ps);
      View(instant, if v.lastUpdate == 0 then instant else Mixed(1.0 - alpha, instant, v.ema), now, now)
    else v.(lastPoll := now)
  }

  /** What is published after the given polls. */
  function Published(c: Params, ps: seq<Poll>): View
    requires c.cap >= 1
  {
    if ps == [] then View(0.0, 0.0, 0, 0) else NextView(c, Published(c, ps[..|ps| - 1]), ps)
  }

  // ---- what the published loss means ----

  /** x is the percentage of retransmits among the segments of the samples, as far as 64-bit sums can tell. */
  ghost predicate PercentOf(x: real, w: seq<Sample>) {
    x * (SumSeg(w) % U64) as real == 100.0 * (SumRet(w) % U64) as real
  }

  lemma Quotient(x: real, r: real, s: real)
    requires s > 0.0 && x == 100.0 * r / s
    ensures x * s == 100.0 * r
  {}

  /** One poll moves the instant exactly when the window has a segment. */
  lemma InstantStep(c: Params, ps: seq<Poll>)
    requires c.cap >= 1 && ps != []
    ensures Published(c, ps).instant == if Active(c, ps) then Instant(c, ps) else Published(c, ps[..|ps| - 1]).instant
  {}

  lemma InstantIsPercent(c: Params, ps: seq<Poll>)
    requires c.cap >= 1 && Active(c, ps)
    ensures PercentOf(Instant(c, ps), Window(c, ps))
  {
    Quotient(Instant(c, ps), WinRet(c, ps) as real, WinSeg(c, ps) as real);
  }

  /**
   After any polls the published instant is exactly the percentage over the last min(n, cap)
   samples if they have a segment, and otherwise what it was before the last poll.
   */
  lemma InstantExact(c: Params, ps: seq<Poll>)
    requires c.cap >= 1 && ps != []
    ensures var w, x := Tail(Samples(ps), c.cap), Published(c, ps).instant;
            if SumSeg(w) % U64 > 0 then PercentOf(x, w) else x == Published(c, ps[..|ps| - 1]).instant
  {
    WindowIsTail(c, ps);
    assert Active(c, ps) <==> SumSeg(Tail(Samples(ps), c.cap)) % U64 > 0;
    InstantStep(c, ps);
    if Active(c, ps) { InstantIsPercent(c, ps); }
  }
}
