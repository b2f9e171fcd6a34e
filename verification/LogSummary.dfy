/** The one-line tick summary and the rule for when it is logged. */
module LogSummary {
  import opened Wrappers
  import opened Sorting

  datatype ZoneTick = ZoneTick(zone: string, segments: nat, retrans: nat, loss: real, ema: real)

  datatype Tick = Tick(tick: nat, zones: seq<ZoneTick>, tcp: nat, zoned: nat, unknown: nat)

  const HEARTBEAT: nat := 30

  /** How percentages are printed is left to the caller: any function from values to text. */
  type Percent = real -> string

  function Decimal(n: nat): (s: string)
    ensures s != ""
  {
    if n < 10 then [('0' as int + n) as char] else Decimal(n / 10) + [('0' as int + n % 10) as char]
  }

  predicate IsIdle(z: ZoneTick) {
    z.segments == 0 && z.loss == 0.0 && z.ema == 0.0
  }

  function ZoneBody(z: ZoneTick, pct: Percent): string {
    if IsIdle(z) then z.zone + "=idle" else z.zone + "=loss" + pct(z.loss) + "%/ema" + pct(z.ema) + "%"
  }

  function ZoneVolume(z: ZoneTick): string {
    z.zone + ":" + Decimal(z.segments) + "/" + Decimal(z.retrans)
  }

  function Join(parts: seq<string>): string {
    if parts == [] then "" else if |parts| == 1 then parts[0] else Join(parts[..|parts| - 1]) + " " + parts[|parts| - 1]
  }

  function Bodies(zs: seq<ZoneTick>, pct: Percent): seq<string> {
    seq(|zs|, i requires 0 <= i < |zs| => ZoneBody(zs[i], pct))
  }

  function Volumes(zs: seq<ZoneTick>): seq<string> {
    seq(|zs|, i requires 0 <= i < |zs| => ZoneVolume(zs[i]))
  }

  function Warning(tcp: nat, zoned: nat): string {
    if tcp == 0 && zoned == 0 then " warn=no-tcp"
    else if tcp > 0 && zoned == 0 then " warn=unzoned(check source_zone/subnets)"
    else ""
  }

  function Drops(unknown: nat): string {
    if unknown > 0 then " unknown_zone_drops=" + Decimal(unknown) else ""
  }

  const ByZone: ZoneTick -> string := (z: ZoneTick) => z.zone

  /** The slowly changing part, on which change detection works. */
  function Body(c: Tick, pct: Percent): string {
    Join(Bodies(Sort(c.zones, ByZone), pct)) + Warning(c.tcp, c.zoned) + Drops(c.unknown)
  }

  function Volume(c: Tick): string {
    Join(Volumes(Sort(c.zones, ByZone)))
  }

  lemma PartsSnoc(zs: seq<ZoneTick>, i: nat, pct: Percent)
    requires i < |zs|
    ensures Bodies(zs[..i + 1], pct) == Bodies(zs[..i], pct) + [ZoneBody(zs[i], pct)]
    ensures Volumes(zs[..i + 1]) == Volumes(zs[..i]) + [ZoneVolume(zs[i])]
  {}

  /** `formatTickSummary` */
  method FormatTickSummary(c: Tick, pct: Percent) returns (body: string, volume: string)
    ensures body == Body(c, pct) && volume == Volume(c)
  {
    var zs := Sort(c.zones, ByZone);
    var b: seq<string>, v: seq<string> := [], [];
    for i := 0 to |zs|
      invariant b == Bodies(zs[..i], pct) && v == Volumes(zs[..i])
    {
      PartsSnoc(zs, i, pct);
      if zs[i].segments == 0 && zs[i].loss == 0.0 && zs[i].ema == 0.0 {
        b := b + [zs[i].zone + "=idle"];
      } else {
        b := b + [zs[i].zone + "=loss" + pct(zs[i].loss) + "%/ema" + pct(zs[i].ema) + "%"];
      }
      v := v + [ZoneVolume(zs[i])];
    }
    assert zs[..|zs|] == zs;
    body := AppendFlags(Join(b), c);
    volume := Join(v);
  }

  /** The warning and the drop count at the end of the body. */
  method AppendFlags(zones: string, c: Tick) returns (body: string)
    ensures body == zones + Warning(c.tcp, c.zoned) + Drops(c.unknown)
  {
    body := zones;
    if c.tcp == 0 && c.zoned == 0 {
      body := body + " warn=no-tcp";
    } else if c.tcp > 0 && c.zoned == 0 {
      body := body + " warn=unzoned(check source_zone/subnets)";
    }
    if c.unknown > 0 {
      body := body + " unknown_zone_drops=" + Decimal(c.unknown);
    }
  }

  /** The body and the volume do not depend on the order in which distinct zones come out of the map. */
  lemma SummaryIgnoresOrder(c: Tick, d: Tick, pct: Percent)
    requires Distinct(c.zones, ByZone) && Distinct(d.zones, ByZone) && multiset(c.zones) == multiset(d.zones)
    requires c.tcp == d.tcp && c.zoned == d.zoned && c.unknown == d.unknown
    ensures Body(c, pct) == Body(d, pct) && Volume(c) == Volume(d)
  {
    SortIgnoresOrder(c.zones, d.zones, ByZone);
  }

  // ---- when a line is logged ----

  /** A logged line. */
  datatype Line = Line(tick: nat, body: string, volume: string)

  class Summary {
    var prevBody: string
    var lastEmit: nat
    var lines: seq<Line>

    ghost function View(): Log
      reads this
    {
      Log(prevBody, lastEmit, lines)
    }

    constructor ()
      ensures View() == Log("", 0, [])
    {
      prevBody, lastEmit, lines := "", 0, [];
    }

    /** `emitTickSummary`; the subtraction is 64-bit. */
    method Emit(c: Tick, pct: Percent)
      requires c.tick < U64 && lastEmit < U64
      modifies this
      ensures View() == Logged(old(View()), LineOf(c, pct))
      ensures lastEmit < U64
    {
      var body, volume := FormatTickSummary(c, pct);
      if body == prevBody && (c.tick - lastEmit) % U64 < HEARTBEAT {
        return;
      }
      prevBody := body;
      lastEmit := c.tick;
      lines := lines + [Line(c.tick, body, volume)];
    }
  }

  datatype Log = Log(prevBody: string, lastEmit: nat, lines: seq<Line>)

  predicate Emits(l: Log, x: Line) {
    !(x.body == l.prevBody && (x.tick - l.lastEmit) % U64 < HEARTBEAT)
  }

  function Logged(l: Log, x: Line): Log {
    if Emits(l, x) then Log(x.body, x.tick, l.lines + [x]) else l
  }

  /** The log after the first n ticks of a run; x[k] is what tick k + 1 would log. */
  function After(xs: seq<Line>, n: nat): Log
    requires n <= |xs|
  {
    if n == 0 then Log("", 0, []) else Logged(After(xs, n - 1), xs[n - 1])
  }

  /** What a tick would log. */
  function LineOf(c: Tick, pct: Percent): Line {
    Line(c.tick, Body(c, pct), Volume(c))
  }

  /** xs[k] is what tick k of the run would log. */
  ghost predicate LinesOf(xs: seq<Line>, ticks: seq<Tick>, pct: Percent) {
    |xs| == |ticks| && forall k :: 0 <= k < |ticks| ==> xs[k] == LineOf(ticks[k], pct)
  }

  /** Ticks numbered in 64 bits, and what they would log. */
  ghost predicate RunOf(xs: seq<Line>, ticks: seq<Tick>, pct: Percent) {
    LinesOf(xs, ticks, pct) && forall k :: 0 <= k < |ticks| ==> ticks[k].tick < U64
  }

  /** The summary is where the first n ticks take it. */
  ghost predicate Reached(s: Summary, xs: seq<Line>, n: nat)
    reads s
  {
    n <= |xs| && s.View() == After(xs, n) && s.lastEmit < U64
  }

  /** One tick of a run. */
  method LogTick(s: Summary, ticks: seq<Tick>, pct: Percent, n: nat, ghost xs: seq<Line>)
    requires RunOf(xs, ticks, pct) && n < |ticks| && Reached(s, xs, n)
    modifies s
    ensures Reached(s, xs, n + 1)
  {
    var c := ticks[n];
    assert xs[n] == LineOf(c, pct);
    s.Emit(c, pct);
  }

  /** The poll loop, as far as logging goes. */
  method LogTicks(ticks: seq<Tick>, pct: Percent, ghost xs: seq<Line>) returns (s: Summary)
    requires RunOf(xs, ticks, pct)
    ensures s.View() == After(xs, |ticks|)
  {
    s := new Summary();
    for i := 0 to |ticks|
      invariant fresh(s) && Reached(s, xs, i)
    {
      LogTick(s, ticks, pct, i, xs);
    }
  }

  /** The poll loop numbers its ticks 1, 2, 3, ... */
  ghost predicate Counted(xs: seq<Line>) {
    |xs| < U64 && forall k :: 0 <= k < |xs| ==> xs[k].tick == k + 1
  }

  /** The log l after n ticks: its last line is recent, and prevBody and lastEmit are that line's. */
  ghost predicate Tracks(xs: seq<Line>, n: nat, l: Log) {
    && l.lastEmit <= n < l.lastEmit + HEARTBEAT
    && (if l.lines == [] then l.lastEmit == 0 && l.prevBody == ""
        else l.lines[|l.lines| - 1].tick == l.lastEmit > 0 && l.lines[|l.lines| - 1].body == l.prevBody)
  }

  /** Every line is what the tick it names would log. */
  ghost predicate FromRun(xs: seq<Line>, n: nat, ls: seq<Line>) {
    n <= |xs| && forall i :: 0 <= i < |ls| ==> 1 <= ls[i].tick <= n && ls[i] == xs[ls[i].tick - 1]
  }

  /** Ticks ascend by at most 30. */
  ghost predicate Gaps(ls: seq<Line>) {
    forall i :: 0 < i < |ls| ==> ls[i - 1].tick < ls[i].tick <= ls[i - 1].tick + HEARTBEAT
  }

  ghost predicate Spaced(xs: seq<Line>, n: nat, ls: seq<Line>) {
    FromRun(xs, n, ls) && Gaps(ls)
  }

  lemma GapsAppend(ls: seq<Line>, x: Line)
    requires Gaps(ls) && (ls != [] ==> ls[|ls| - 1].tick < x.tick <= ls[|ls| - 1].tick + HEARTBEAT)
    ensures Gaps(ls + [x])
  {}

  lemma SpacedStep(xs: seq<Line>, n: nat, ls: seq<Line>)
    requires Counted(xs) && n < |xs| && Spaced(xs, n, ls)
    requires ls != [] ==> n < ls[|ls| - 1].tick + HEARTBEAT
    ensures Spaced(xs, n + 1, ls) && Spaced(xs, n + 1, ls + [xs[n]])
  {
    GapsAppend(ls, xs[n]);
  }

  lemma SmallMod(x: int)
    requires 0 <= x < U64
    ensures x % U64 == x
  {}

  lemma TracksStep(xs: seq<Line>, n: nat, l: Log)
    requires Counted(xs) && n < |xs| && Tracks(xs, n, l) && Spaced(xs, n, l.lines)
    ensures Tracks(xs, n + 1, Logged(l, xs[n])) && Spaced(xs, n + 1, Logged(l, xs[n]).lines)
  {
    SmallMod(xs[n].tick - l.lastEmit);
    SpacedStep(xs, n, l.lines);
  }

  lemma StartTracks(xs: seq<Line>)
    ensures Tracks(xs, 0, Log("", 0, [])) && Spaced(xs, 0, [])
  {}

  lemma {:induction false} AlwaysTracks(xs: seq<Line>, n: nat)
    requires Counted(xs) && n <= |xs|
    ensures Tracks(xs, n, After(xs, n)) && Spaced(xs, n, After(xs, n).lines)
  {
    if n == 0 {
      StartTracks(xs);
    } else {
      AlwaysTracks(xs, n - 1);
      var l := After(xs, n - 1);
      TracksStep(xs, n - 1, l);
      assert After(xs, n) == Logged(l, xs[n - 1]);
    }
  }

  /** After n ticks the log is spaced, its last line is less than 30 ticks old, and by tick 30 there is one. */
  lemma HeartbeatKept(xs: seq<Line>, n: nat)
    requires Counted(xs) && n <= |xs|
    ensures var ls := After(xs, n).lines;
            && Spaced(xs, n, ls)
            && (ls != [] ==> n < ls[|ls| - 1].tick + HEARTBEAT)
            && (n >= HEARTBEAT ==> ls != [])
  {
    AlwaysTracks(xs, n);
  }

  /**
   Replay: once anything is logged, the body of every tick can be read off the log; it is the
   body of the last line at or before that tick. Before that, bodies are empty.
   */
  lemma {:induction false} BodyReplayed(xs: seq<Line>, n: nat)
    requires Counted(xs) && 0 < n <= |xs|
    ensures var ls := After(xs, n).lines;
            xs[n - 1].body == if ls == [] then "" else ls[|ls| - 1].body
  {
    AlwaysTracks(xs, n - 1);
    AlwaysTracks(xs, n);
  }

  /**
   A tick is logged exactly when its body differs from that of the tick before (from the empty
   body, for the first), or when the last line is exactly 30 ticks old.
   */
  lemma LoggedIff(xs: seq<Line>, n: nat)
    requires Counted(xs) && n < |xs|
    ensures var ls, ls' := After(xs, n).lines, After(xs, n + 1).lines;
            var before := if n == 0 then "" else xs[n - 1].body;
            var last := if ls == [] then 0 else ls[|ls| - 1].tick;
            ls' == if xs[n].body != before || n + 1 == last + HEARTBEAT then ls + [xs[n]] else ls
  {
    var l := After(xs, n);
    AlwaysTracks(xs, n);
    if n > 0 { BodyReplayed(xs, n); }
    SmallMod(xs[n].tick - l.lastEmit);
    assert After(xs, n + 1) == Logged(l, xs[n]);
  }

  /** The first tick is logged exactly when its body is not empty. */
  lemma FirstTickLoggedIff(xs: seq<Line>)
    requires Counted(xs) && xs != []
    ensures After(xs, 1).lines == [xs[0]] <==> xs[0].body != ""
    ensures After(xs, 1).lines == [] <==> xs[0].body == ""
  {
    assert After(xs, 0) == Log("", 0, []);
  }

  lemma {:induction false} JoinNonEmpty(parts: seq<string>)
    requires parts != [] && forall i :: 0 <= i < |parts| ==> parts[i] != ""
    ensures Join(parts) != ""
  {}

  /** A body is empty exactly with no zones, zoned packets and no unknown drops. */
  lemma BodyEmptyIff(c: Tick, pct: Percent)
    ensures Body(c, pct) == "" <==> c.zones == [] && c.zoned > 0 && c.unknown == 0
  {
    var zs := Sort(c.zones, ByZone);
    SortElements(c.zones, ByZone);
    if zs != [] {
      JoinNonEmpty(Bodies(zs, pct));
    }
  }

  // ---- does volume ever trigger a line? ----

  /** The ticks differ at most in volume: same zones, percentages, warnings and drops. */
  ghost predicate OnlyVolumeDiffers(c: Tick, d: Tick) {
    var p, q := Sort(c.zones, ByZone), Sort(d.zones, ByZone);
    && |p| == |q|
    && (forall i :: 0 <= i < |p| ==> p[i].zone == q[i].zone && p[i].loss == q[i].loss && p[i].ema == q[i].ema)
    && Warning(c.tcp, c.zoned) == Warning(d.tcp, d.zoned) && c.unknown == d.unknown
  }

  ghost predicate SameIdle(p: seq<ZoneTick>, q: seq<ZoneTick>)
    requires |p| == |q|
  {
    forall i :: 0 <= i < |p| ==> (IsIdle(p[i]) <==> IsIdle(q[i]))
  }

  /** What precedes part k in the joined string. */
  function Lead(parts: seq<string>, k: nat): string
    requires k <= |parts|
  {
    if k == 0 then "" else Join(parts[..k]) + " "
  }

  lemma {:induction false} JoinContains(parts: seq<string>, k: nat)
    requires k < |parts|
    ensures Lead(parts, k) + parts[k] <= Join(parts)
  {
    var n := |parts| - 1;
    if k < n {
      JoinContains(parts[..n], k);
      assert parts[..n][..k] == parts[..k];
    } else {
      assert parts[..k] == parts[..n];
    }
  }

  /** A zone that is idle in one tick and not in the other makes the bodies differ. */
  lemma IdleShows(p: seq<ZoneTick>, q: seq<ZoneTick>, k: nat, pct: Percent, x: string, y: string)
    requires |p| == |q| && k < |p| && p[k].zone == q[k].zone
    requires Bodies(p[..k], pct) == Bodies(q[..k], pct)
    requires IsIdle(p[k]) && !IsIdle(q[k])
    ensures Join(Bodies(p, pct)) + x != Join(Bodies(q, pct)) + y
  {
    var a, b := Bodies(p, pct), Bodies(q, pct);
    JoinContains(a, k);
    JoinContains(b, k);
    assert a[..k] == Bodies(p[..k], pct) && b[..k] == Bodies(q[..k], pct);
    var i := |Lead(a, k)| + |p[k].zone| + 1;
    assert (Lead(a, k) + a[k])[i] == 'i';
    assert (Lead(b, k) + b[k])[i] == 'l';
    assert (Join(a) + x)[i] == 'i' && (Join(b) + y)[i] == 'l';
  }

  /** Volume alone changes the body exactly when it makes some zone go idle or wakes one. */
  lemma VolumeShowsIff(c: Tick, d: Tick, pct: Percent)
    requires OnlyVolumeDiffers(c, d)
    ensures Body(c, pct) == Body(d, pct) <==> SameIdle(Sort(c.zones, ByZone), Sort(d.zones, ByZone))
  {
    var p, q := Sort(c.zones, ByZone), Sort(d.zones, ByZone);
    var x, y := Warning(c.tcp, c.zoned) + Drops(c.unknown), Warning(d.tcp, d.zoned) + Drops(d.unknown);
    BodyParts(c, pct);
    BodyParts(d, pct);
    if SameIdle(p, q) {
      SameBodies(p, q, pct);
    } else {
      DifferenceShows(p, q, pct, x, y);
    }
  }

  lemma BodyParts(c: Tick, pct: Percent)
    ensures Body(c, pct) == Join(Bodies(Sort(c.zones, ByZone), pct)) + (Warning(c.tcp, c.zoned) + Drops(c.unknown))
  {}

  lemma SameBodies(p: seq<ZoneTick>, q: seq<ZoneTick>, pct: Percent)
    requires |p| == |q| && SameIdle(p, q)
    requires forall i :: 0 <= i < |p| ==> p[i].zone == q[i].zone && p[i].loss == q[i].loss && p[i].ema == q[i].ema
    ensures Bodies(p, pct) == Bodies(q, pct)
  {}

  lemma DifferenceShows(p: seq<ZoneTick>, q: seq<ZoneTick>, pct: Percent, x: string, y: string)
    requires |p| == |q| && !SameIdle(p, q)
    requires forall i :: 0 <= i < |p| ==> p[i].zone == q[i].zone && p[i].loss == q[i].loss && p[i].ema == q[i].ema
    ensures Join(Bodies(p, pct)) + x != Join(Bodies(q, pct)) + y
  {
    var k := FirstDifference(p, q);
    assert Bodies(p[..k], pct) == Bodies(q[..k], pct);
    if IsIdle(p[k]) { IdleShows(p, q, k, pct, x, y); } else { IdleShows(q, p, k, pct, y, x); }
  }

  lemma FirstDifference(p: seq<ZoneTick>, q: seq<ZoneTick>) returns (k: nat)
    requires |p| == |q| && !SameIdle(p, q)
    ensures k < |p| && (IsIdle(p[k]) <==> !IsIdle(q[k]))
    ensures forall i :: 0 <= i < k ==> (IsIdle(p[i]) <==> IsIdle(q[i]))
  {
    k := 0;
    while IsIdle(p[k]) <==> IsIdle(q[k])
      invariant k < |p| && forall i :: 0 <= i < k ==> (IsIdle(p[i]) <==> IsIdle(q[i]))
      decreases |p| - k
    {
      k := k + 1;
      if k == |p| { assert SameIdle(p, q); }
    }
  }

  // ---- reading the strings back ----

  /** What precedes the first c. */
  function Until(s: string, c: char): string {
    if s == [] || s[0] == c then [] else [s[0]] + Until(s[1..], c)
  }

  lemma {:induction false} UntilFinds(a: string, c: char, b: string)
    requires c !in a
    ensures Until(a + [c] + b, c) == a
  {
    if a != [] {
      UntilFinds(a[1..], c, b);
      assert (a + [c] + b)[1..] == a[1..] + [c] + b;
    } else {
      assert a + [c] + b == [c] + b;
    }
  }

  /** The number that decimal digits stand for. */
  function Value(digits: string): int {
    if digits == [] then 0 else 10 * Value(digits[..|digits| - 1]) + (digits[|digits| - 1] as int - '0' as int)
  }

  lemma {:induction false} DecimalValue(n: nat)
    ensures Value(Decimal(n)) == n
    ensures forall c :: c in Decimal(n) ==> '0' <= c <= '9'
  {
    var last := ('0' as int + n % 10) as char;
    if n < 10 {
      assert Decimal(n) == [last];
      assert Value([]) == 0 && [last][..0] == [];
    } else {
      DecimalValue(n / 10);
      assert Decimal(n) == Decimal(n / 10) + [last];
      assert (Decimal(n / 10) + [last])[..|Decimal(n / 10)|] == Decimal(n / 10);
    }
  }

  /** Segments and retransmits of a zone whose name has n characters. */
  function ReadVolume(s: string, n: nat): (int, int)
    requires n < |s|
  {
    var rest := s[n + 1..];
    var segments := Until(rest, '/');
    (Value(segments), if |segments| < |rest| then Value(rest[|segments| + 1..]) else 0)
  }

  /** The volume of a zone tells its segments from its retransmits. */
  lemma VolumeReadsBack(z: ZoneTick)
    ensures z.zone <= ZoneVolume(z) && |z.zone| < |ZoneVolume(z)|
    ensures ReadVolume(ZoneVolume(z), |z.zone|) == (z.segments, z.retrans)
  {
    var a, b := Decimal(z.segments), Decimal(z.retrans);
    DecimalValue(z.segments);
    DecimalValue(z.retrans);
    var rest := ZoneVolume(z)[|z.zone| + 1..];
    assert rest == a + ['/'] + b;
    UntilFinds(a, '/', b);
    assert rest[|a| + 1..] == b;
  }

  /** Loss and EMA as printed, or nothing for an idle zone. */
  function ReadBody(s: string, n: nat): Option<(string, string)>
    requires n <= |s|
  {
    if |s| < n + 5 || s[n..n + 5] != "=loss" then None else
    var loss := Until(s[n + 5..], '%');
    var k := n + 5 + |loss| + 5;
    if k > |s| then None else Some((loss, Until(s[k..], '%')))
  }

  /** The body of a zone tells its loss from its EMA, and is idle exactly when all three values are zero. */
  lemma BodyReadsBack(z: ZoneTick, pct: Percent)
    requires '%' !in pct(z.loss) && '%' !in pct(z.ema)
    ensures z.zone <= ZoneBody(z, pct)
    ensures ReadBody(ZoneBody(z, pct), |z.zone|) ==
              if z.segments == 0 && z.loss == 0.0 && z.ema == 0.0 then None else Some((pct(z.loss), pct(z.ema)))
  {
    var s, n := ZoneBody(z, pct), |z.zone|;
    if z.segments == 0 && z.loss == 0.0 && z.ema == 0.0 {
      assert s[n..n + 5] == "=idle";
    } else {
      BusyReadsBack(z.zone, pct(z.loss), pct(z.ema));
    }
  }

  lemma BusyReadsBack(zone: string, loss: string, ema: string)
    requires '%' !in loss && '%' !in ema
    ensures ReadBody(zone + "=loss" + loss + "%/ema" + ema + "%", |zone|) == Some((loss, ema))
  {
    var s, n := zone + "=loss" + loss + "%/ema" + ema + "%", |zone|;
    assert s[n..n + 5] == "=loss";
    assert s[n + 5..] == loss + ['%'] + ("/ema" + ema + "%");
    UntilFinds(loss, '%', "/ema" + ema + "%");
    assert s[n + 5 + |loss| + 5..] == ema + ['%'] + "";
    UntilFinds(ema, '%', "");
  }

  /** The flags at the end of the body: which warning, and how many drops. */
  lemma FlagsReadBack(tcp: nat, zoned: nat, unknown: nat)
    ensures Warning(tcp, zoned) == "" <==> zoned > 0
    ensures Warning(tcp, zoned) == " warn=no-tcp" <==> tcp == 0 && zoned == 0
    ensures Drops(unknown) == "" <==> unknown == 0
    ensures unknown > 0 ==> |Drops(unknown)| > 20 && Value(Drops(unknown)[20..]) == unknown
  {
    DecimalValue(unknown);
    assert " warn=no-tcp"[6] == 'n' && " warn=unzoned(check source_zone/subnets)"[6] == 'u';
    if unknown > 0 { assert Drops(unknown)[20..] == Decimal(unknown); }
  }

  /** Both ticks give the same warning, or none. */
  predicate SameWarning(c: Tick, d: Tick) {
    (c.zoned == 0 <==> d.zoned == 0) && (c.zoned == 0 ==> (c.tcp == 0 <==> d.tcp == 0))
  }

  lemma DropsDiffer(u: nat, v: nat)
    ensures Drops(u) == Drops(v) <==> u == v
  {
    FlagsReadBack(0, 0, u);
    FlagsReadBack(0, 0, v);
  }

  /** The letter in second place tells a warning from a drop count, the one in seventh the warnings apart. */
  lemma FlagLetters(tcp: nat, zoned: nat, unknown: nat, flags: string)
    requires flags == Warning(tcp, zoned) + Drops(unknown)
    ensures zoned == 0 ==> |flags| > 6 && flags[1] == 'w' && flags[6] == if tcp == 0 then 'n' else 'u'
    ensures zoned > 0 ==> flags == Drops(unknown) && (|flags| > 1 ==> flags[1] == 'u')
  {}

  lemma FlagsDiffer(c: Tick, d: Tick, x: string, y: string)
    requires x == Warning(c.tcp, c.zoned) + Drops(c.unknown) && y == Warning(d.tcp, d.zoned) + Drops(d.unknown)
    ensures x == y <==> SameWarning(c, d) && c.unknown == d.unknown
  {
    FlagLetters(c.tcp, c.zoned, c.unknown, x);
    FlagLetters(d.tcp, d.zoned, d.unknown, y);
    DropsDiffer(c.unknown, d.unknown);
    if x == y {
      var w := Warning(c.tcp, c.zoned);
      assert w == Warning(d.tcp, d.zoned);
      assert x[|w|..] == Drops(c.unknown) && y[|w|..] == Drops(d.unknown);
    }
  }

  /** Among ticks with the same zones, the body changes exactly with the warning and the number of drops. */
  lemma FlagsShowIff(c: Tick, d: Tick, pct: Percent)
    requires c.zones == d.zones
    ensures Body(c, pct) == Body(d, pct) <==> SameWarning(c, d) && c.unknown == d.unknown
  {
    var x, y := Warning(c.tcp, c.zoned) + Drops(c.unknown), Warning(d.tcp, d.zoned) + Drops(d.unknown);
    var zones := Join(Bodies(Sort(c.zones, ByZone), pct));
    BodyParts(c, pct);
    BodyParts(d, pct);
    FlagsDiffer(c, d, x, y);
    assert (zones + x)[|zones|..] == x && (zones + y)[|zones|..] == y;
  }
}
