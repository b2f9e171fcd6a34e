/** The EMA store: a circular window with running sums per zone, updated in place on every poll. */
module EmaStore {
  import opened Wrappers
  import opened LossWindow

  /** A circular buffer, oldest sample first; until it is full it starts at slot 0. */
  function Unrolled(w: seq<Sample>, pos: nat, len: nat): seq<Sample>
    requires pos <= |w| && len <= |w|
  {
    if len < |w| then w[..len] else w[pos..] + w[..pos]
  }

  class ZoneState {
    const cfg: Params
    const window: array<Sample>
    var windowPos: nat
    var windowLen: nat
    var sumSeg: nat
    var sumRet: nat
    var instant: real
    var ema: real
    var lastUpdate: int
    var lastPoll: int
    ghost var history: seq<Poll>

    /** What the window holds. */
    ghost function Contents(): seq<Sample>
      reads this, window
      requires windowPos <= window.Length && windowLen <= window.Length
    {
      Unrolled(window[..], windowPos, windowLen)
    }

    ghost predicate Shaped()
      reads this
    {
      && window.Length == cfg.cap >= 1
      && windowLen <= cfg.cap && windowPos < cfg.cap
      && (windowLen < cfg.cap ==> windowPos == windowLen)
    }

    /** The buffer holds the last samples in order, the sums agree with it, the values with the reference. */
    ghost predicate Valid()
      reads this, window
    {
      && Shaped()
      && Contents() == Window(cfg, history)
      && sumSeg == SumSeg(Contents()) % U64 && sumRet == SumRet(Contents()) % U64
      && View(instant, ema, lastUpdate, lastPoll) == Published(cfg, history)
    }

    /** As made: no polls yet. */
    ghost predicate Blank(c: Params)
      reads this, window
    {
      Valid() && cfg == c && history == []
    }

    constructor (c: Params)
      requires c.cap >= 1
      ensures Blank(c) && fresh(window)
    {
      cfg := c;
      window := new Sample[c.cap](_ => Sample(0, 0));
      windowPos, windowLen, sumSeg, sumRet := 0, 0, 0, 0;
      instant, ema, lastUpdate, lastPoll := 0.0, 0.0, 0, 0;
      history := [];
    }

    /** Overwrite the oldest slot and step on, keeping the running 64-bit sums. */
    method Push(x: Sample)
      requires Shaped() && sumSeg == SumSeg(Contents()) % U64 && sumRet == SumRet(Contents()) % U64
      modifies this`windowPos, this`windowLen, this`sumSeg, this`sumRet, window
      ensures Shaped() && Contents() == Slide(old(Contents()), x, cfg.cap)
      ensures sumSeg == SumSeg(Contents()) % U64 && sumRet == SumRet(Contents()) % U64
    {
      ghost var w := Contents();
      SlideSums(w, x, cfg.cap);
      if windowLen == window.Length {
        var oldest := window[windowPos];
        assert oldest == w[0] && SumSeg(w) == oldest.seg + SumSeg(w[1..]) && SumRet(w) == oldest.ret + SumRet(w[1..]);
        RunningSum(SumSeg(w), oldest.seg, x.seg);
        RunningSum(SumRet(w), oldest.ret, x.ret);
        sumSeg := (sumSeg - oldest.seg) % U64;
        sumRet := (sumRet - oldest.ret) % U64;
      } else {
        ModAbsorbs(SumSeg(w), x.seg);
        ModAbsorbs(SumRet(w), x.ret);
      }
      sumSeg := (sumSeg + x.seg) % U64;
      sumRet := (sumRet + x.ret) % U64;
      Store(x);
    }

    method Store(x: Sample)
      requires Shaped()
      modifies this`windowPos, this`windowLen, window
      ensures Shaped() && Contents() == Slide(old(Contents()), x, cfg.cap)
    {
      UnrolledStep(window[..], windowPos, windowLen, x);
      StepOn(windowPos, window.Length);
      ghost var before := window[..];
      window[windowPos] := x;
      assert window[..] == before[windowPos := x];
      if windowLen < window.Length {
        windowLen := windowLen + 1;
      }
      windowPos := (windowPos + 1) % window.Length;
    }

    /** One zone's part of `EMAStore.Update`. */
    method Update(p: Poll)
      requires Valid()
      modifies this, window
      ensures Valid() && history == old(history) + [p]
      ensures var w := Tail(Samples(history), cfg.cap);
              if SumSeg(w) % U64 > 0 then PercentOf(instant, w) else instant == old(instant)
    {
      var dt := cfg.pollInterval;
      if lastPoll != 0 {
        dt := p.now - lastPoll;
      }
      ghost var ps := history + [p];
      HistoryGrows(cfg, history, p, ps);
      Push(p.sample);
      Publish(p.now, dt, ps);
      InstantExact(cfg, ps);
      history := ps;
    }

    /** The instant and the EMA move only when the window has a segment. */
    method Publish(now: int, dt: int, ghost ps: seq<Poll>)
      requires cfg.cap >= 1 && ps != [] && ps[|ps| - 1].now == now
      requires dt == Elapsed(cfg, View(instant, ema, lastUpdate, lastPoll), now)
      requires sumSeg == WinSeg(cfg, ps) && sumRet == WinRet(cfg, ps)
      modifies this`instant, this`ema, this`lastUpdate, this`lastPoll
      ensures View(instant, ema, lastUpdate, lastPoll) ==
              NextView(cfg, old(View(instant, ema, lastUpdate, lastPoll)), ps)
    {
      if sumSeg > 0 {
        instant := 100.0 * sumRet as real / sumSeg as real;
        var alpha := Alpha(cfg, dt);
        if lastUpdate == 0 {
          ema := instant;
        } else {
          assert 1.0 - (1.0 - alpha) == alpha;
          ema := alpha * instant + (1.0 - alpha) * ema;
        }
        lastUpdate := now;
      }
      lastPoll := now;
    }
  }

  lemma HistoryGrows(c: Params, history: seq<Poll>, p: Poll, ps: seq<Poll>)
    requires c.cap >= 1 && ps == history + [p]
    ensures ps[..|ps| - 1] == history
    ensures Window(c, ps) == Slide(Window(c, history), p.sample, c.cap)
    ensures Published(c, ps) == NextView(c, Published(c, history), ps)
  {
    assert ps[..|ps| - 1] == history;
  }

  /** Overwriting the slot at pos slides the window. */
  lemma UnrolledStep(w: seq<Sample>, pos: nat, len: nat, x: Sample)
    requires len <= |w| && pos < |w| && (len < |w| ==> pos == len)
    ensures var next := if pos + 1 == |w| then 0 else pos + 1;
            Unrolled(w[pos := x], next, if len < |w| then len + 1 else len) == Slide(Unrolled(w, pos, len), x, |w|)
  {
    if len < |w| {
      assert w[pos := x][..len + 1] == w[..len] + [x];
    }
  }

  lemma StepOn(pos: nat, cap: nat)
    requires pos < cap
    ensures (pos + 1) % cap == if pos + 1 == cap then 0 else pos + 1
  {}

  /** A zone missing from the counters counts as silent. */
  function Delta(counters: map<string, Sample>, zone: string): Sample {
    if zone in counters then counters[zone] else Sample(0, 0)
  }

  function FirstNames(names: seq<string>, i: nat): set<string>
    requires i <= |names|
  {
    if i == 0 then {} else FirstNames(names, i - 1) + {names[i - 1]}
  }

  lemma {:induction false} AllNames(names: seq<string>, i: nat)
    requires i <= |names|
    ensures FirstNames(names, i) == set k | 0 <= k < i :: names[k]
    ensures i == |names| ==> FirstNames(names, i) == set n | n in names
  {
    if i > 0 { AllNames(names, i - 1); }
  }

  /** One object per remote zone, none sharing state with another. */
  class Store {
    const cfg: Params
    const zones: map<string, ZoneState>

    ghost function Repr(): set<object> {
      (set z | z in zones :: zones[z] as object) + (set z | z in zones :: zones[z].window as object)
    }

    ghost predicate Valid()
      reads Repr()
    {
      Apart(zones) && forall z :: z in zones ==> zones[z].cfg == cfg && zones[z].Valid()
    }

    /** `NewEMAStore` */
    constructor (c: Params, names: seq<string>)
      requires c.cap >= 1
      ensures Valid() && cfg == c && fresh(Repr())
      ensures zones.Keys == set n | n in names
      ensures forall z :: z in zones ==> zones[z].history == []
    {
      var states := NewStates(c, names);
      cfg := c;
      zones := states;
    }

    static ghost predicate Apart(states: map<string, ZoneState>) {
      forall y, z :: y in states && z in states && y != z ==>
        states[y] != states[z] && states[y].window != states[z].window
    }

    static ghost predicate AllBlank(c: Params, states: map<string, ZoneState>)
      reads set z | z in states :: states[z]
      reads set z | z in states :: states[z].window
    {
      forall z :: z in states ==> states[z].Blank(c)
    }

    static method NewStates(c: Params, names: seq<string>) returns (states: map<string, ZoneState>)
      requires c.cap >= 1
      ensures states.Keys == set n | n in names
      ensures forall z :: z in states ==> fresh(states[z]) && fresh(states[z].window)
      ensures Apart(states) && AllBlank(c, states)
    {
      states := map[];
      for i := 0 to |names|
        invariant states.Keys == FirstNames(names, i)
        invariant forall z :: z in states ==> fresh(states[z]) && fresh(states[z].window)
        invariant Apart(states) && AllBlank(c, states)
      {
        states := AddState(c, names[i], states);
      }
      AllNames(names, |names|);
    }

    static method AddState(c: Params, name: string, states: map<string, ZoneState>) returns (more: map<string, ZoneState>)
      requires c.cap >= 1 && Apart(states) && AllBlank(c, states)
      ensures more.Keys == states.Keys + {name} && fresh(more[name]) && fresh(more[name].window)
      ensures forall z :: z in states && z != name ==> more[z] == states[z]
      ensures Apart(more) && AllBlank(c, more)
    {
      var st := new ZoneState(c);
      more := states[name := st];
    }

    /** The zones in `rest` still have the history `before`; the others already have `after`. */
    ghost predicate Progress(before: map<string, seq<Poll>>, after: map<string, seq<Poll>>, rest: set<string>)
      reads Repr()
    {
      && before.Keys == zones.Keys && after.Keys == zones.Keys
      && forall z :: z in zones ==> zones[z].history == if z in rest then before[z] else after[z]
    }

    method UpdateOne(zone: string, p: Poll)
      requires Valid() && zone in zones
      modifies Repr()
      ensures Valid()
      ensures zones[zone].history == old(zones[zone].history) + [p]
      ensures forall z :: z in zones && z != zone ==> zones[z].history == old(zones[z].history)
    {
      zones[zone].Update(p);
      forall z | z in zones && z != zone ensures zones[z].Valid() && zones[z].history == old(zones[z].history) {
        assert zones[z] != zones[zone] && zones[z].window != zones[zone].window;
      }
    }

    /** The loop body for one zone. */
    method UpdateZone(zone: string, p: Poll,
                      ghost before: map<string, seq<Poll>>, ghost after: map<string, seq<Poll>>, ghost rest: set<string>)
      requires Valid() && zone in zones && zone in rest && Progress(before, after, rest)
      requires after[zone] == before[zone] + [p]
      modifies Repr()
      ensures Valid() && Progress(before, after, rest - {zone})
    {
      assert zones[zone].history == before[zone];
      UpdateOne(zone, p);
      assert Progress(before, after, rest - {zone}) by {
        forall z | z in zones
          ensures zones[z].history == if z in rest - {zone} then before[z] else after[z]
        {
          if z == zone {
            assert zones[zone].history == before[zone] + [p];
          } else {
            assert zones[z].history == old(zones[z].history);
          }
        }
      }
    }

    /** `EMAStore.Update`: every zone, in whatever order the map yields them. */
    method Update(now: int, counters: map<string, Sample>)
      requires Valid()
      modifies Repr()
      ensures Valid()
      ensures forall z :: z in zones ==>
                zones[z].history == old(zones[z].history) +
                                    [if z in counters then Poll(now, counters[z]) else Poll(now, Sample(0, 0))]
    {
      ghost var before := map z | z in zones :: zones[z].history;
      ghost var after := map z | z in zones :: before[z] + [Poll(now, Delta(counters, z))];
      var rest := zones.Keys;
      while rest != {}
        invariant rest <= zones.Keys
        invariant Valid() && Progress(before, after, rest)
        decreases rest
      {
        var z :| z in rest;
        UpdateZone(z, Poll(now, Delta(counters, z)), before, after, rest);
        rest := rest - {z};
      }
    }
  }
}
