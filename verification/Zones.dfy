/**
 Zone identity: names are numbered, the numbers are loaded into the prefix tables, events carry
 them, and the reader maps them back to counter slots.
 */
module Zones {
  import opened Wrappers
  import opened Sorting
  import Lpm

  /** A parsed subnet; IPv6 subnets are accepted by validation. */
  datatype Net = V4(prefix: Lpm.Prefix) | V6

  datatype Config = Config(sourceZone: string, zones: map<string, seq<Net>>)

  /** What `Validate` checks, for a config whose subnets parse. */
  ghost predicate Accepted(c: Config) {
    && c.sourceZone in c.zones
    && (forall n :: n in c.zones ==> c.zones[n] != [])
    && (exists n :: n in c.zones && n != c.sourceZone)
    && |c.zones| <= 255
  }

  /** An order in which ranging over the keys of a map may yield them. */
  ghost predicate Enumerates(order: seq<string>, keys: set<string>) {
    && (forall n :: n in order <==> n in keys)
    && (forall i, j :: 0 <= i < j < |order| ==> order[i] != order[j])
  }

  const ByName: string -> string := (n: string) => n

  /** `sort.Strings` */
  function SortNames(names: seq<string>): seq<string> {
    Sort(names, ByName)
  }

  ghost predicate Alphabetical(names: seq<string>) {
    forall i, j :: 0 <= i < j < |names| ==> Less(names[i], names[j])
  }

  lemma SortedNames(order: seq<string>, keys: set<string>)
    requires Enumerates(order, keys)
    ensures Alphabetical(SortNames(order)) && Enumerates(SortNames(order), keys) && |SortNames(order)| == |order|
  {
    SortElements(order, ByName);
    SortAscends(order, ByName);
    var s := SortNames(order);
    assert forall n :: n in s <==> n in multiset(s);
    assert forall n :: n in order <==> n in multiset(order);
    assert forall i, j :: 0 <= i < j < |s| ==> Less(ByName(s[i]), ByName(s[j]));
    forall i, j | 0 <= i < j < |s| ensures s[i] != s[j] {
      LessTrichotomy(s[i], s[j]);
    }
  }

  lemma {:induction false} EnumerationSize(order: seq<string>, keys: set<string>)
    requires Enumerates(order, keys)
    ensures |order| == |keys|
    decreases |order|
  {
    if order == [] {
      assert keys == {};
    } else {
      var rest := order[1..];
      assert Enumerates(rest, keys - {order[0]}) by {
        forall n ensures n in rest <==> n in keys - {order[0]} {
          if n in rest { var i :| 0 <= i < |rest| && rest[i] == n; assert order[i + 1] == n; }
          if n in keys - {order[0]} { var i :| 0 <= i < |order| && order[i] == n; assert rest[i - 1] == n; }
        }
      }
      EnumerationSize(rest, keys - {order[0]});
    }
  }

  // ---- numbering ----

  /** ids numbers the names 1, 2, ... in order. */
  ghost predicate Numbered(ids: map<string, nat>, names: seq<string>) {
    && (forall n :: n in ids <==> n in names)
    && (forall i :: 0 <= i < |names| ==> names[i] in ids && ids[names[i]] == i + 1)
  }

  lemma NumberedSnoc(ids: map<string, nat>, names: seq<string>, i: nat)
    requires i < |names| && Numbered(ids, names[..i])
    requires forall j, k :: 0 <= j < k < |names| ==> names[j] != names[k]
    ensures Numbered(ids[names[i] := i + 1], names[..i + 1])
  {
    assert names[..i + 1] == names[..i] + [names[i]];
    assert forall k :: 0 <= k < i ==> names[..i][k] == names[k] && names[..i + 1][k] == names[k];
  }

  /** `assignZoneIDs` */
  method AssignZoneIDs(order: seq<string>, ghost keys: set<string>) returns (r: Result<map<string, nat>>)
    requires Enumerates(order, keys)
    ensures r.Ok? <==> |keys| <= 255
    ensures r.Ok? ==> Numbered(r.value, SortNames(order))
  {
    var names := SortNames(order);
    SortedNames(order, keys);
    EnumerationSize(order, keys);
    if |names| > 255 {
      return Err("too many zones");
    }
    var ids: map<string, nat> := map[];
    for i := 0 to |names|
      invariant Numbered(ids, names[..i])
    {
      NumberedSnoc(ids, names, i);
      ids := ids[names[i] := (i + 1) % 256];
    }
    assert names[..|names|] == names;
    r := Ok(ids);
  }

  /** Ids follow the order of the names, so no two names share one. */
  lemma IdsOrdered(ids: map<string, nat>, names: seq<string>, m: string, n: string)
    requires Alphabetical(names) && Numbered(ids, names) && m in ids && n in ids
    ensures Less(m, n) <==> ids[m] < ids[n]
    ensures ids[m] == ids[n] <==> m == n
  {
    var i :| 0 <= i < |names| && names[i] == m;
    var j :| 0 <= j < |names| && names[j] == n;
    LessTrichotomy(m, n);
  }

  ghost predicate Taken(ids: map<string, nat>, k: int) {
    exists n :: n in ids && ids[n] == k
  }

  lemma IdTakenIff(ids: map<string, nat>, names: seq<string>, k: int)
    requires Numbered(ids, names)
    ensures Taken(ids, k) <==> 1 <= k <= |names|
  {
    if n :| n in ids && ids[n] == k {
      var i :| 0 <= i < |names| && names[i] == n;
    }
    if 1 <= k <= |names| { assert names[k - 1] in ids && ids[names[k - 1]] == k; }
  }

  /** The ids are exactly 1 to n, one per zone, in the order of the names, and fit in a byte. */
  lemma IdsBijective(c: Config, ids: map<string, nat>, order: seq<string>)
    requires Accepted(c) && Enumerates(order, c.zones.Keys) && Numbered(ids, SortNames(order))
    ensures ids.Keys == c.zones.Keys
    ensures forall m, n :: m in ids && n in ids ==> (Less(m, n) <==> ids[m] < ids[n]) && (ids[m] == ids[n] <==> m == n)
    ensures forall k :: Taken(ids, k) <==> 1 <= k <= |c.zones|
    ensures forall n :: n in ids ==> 0 < ids[n] < 256
  {
    SortedNames(order, c.zones.Keys);
    EnumerationSize(order, c.zones.Keys);
    assert |c.zones.Keys| == |c.zones|;
    var names := SortNames(order);
    forall m, n | m in ids && n in ids
      ensures (Less(m, n) <==> ids[m] < ids[n]) && (ids[m] == ids[n] <==> m == n)
    {
      IdsOrdered(ids, names, m, n);
    }
    forall k ensures Taken(ids, k) <==> 1 <= k <= |c.zones| {
      IdTakenIff(ids, names, k);
    }
    forall n | n in ids ensures 0 < ids[n] < 256 {
      assert Taken(ids, ids[n]);
    }
  }

  ghost predicate Injective(ids: map<string, nat>) {
    forall m, n :: m in ids && n in ids && ids[m] == ids[n] ==> m == n
  }

  lemma IdsInjective(c: Config, ids: map<string, nat>, order: seq<string>)
    requires Enumerates(order, c.zones.Keys) && Numbered(ids, SortNames(order))
    ensures Injective(ids)
  {
    SortedNames(order, c.zones.Keys);
    forall m, n | m in ids && n in ids && ids[m] == ids[n] ensures m == n {
      IdsOrdered(ids, SortNames(order), m, n);
    }
  }

  /** Two enumerations of one map yield the same numbering. */
  lemma NumberingIgnoresOrder(o: seq<string>, p: seq<string>, keys: set<string>)
    requires Enumerates(o, keys) && Enumerates(p, keys)
    ensures SortNames(o) == SortNames(p)
  {
    SortElements(o, ByName); SortElements(p, ByName);
    SameMultiset(o, p, keys);
    SortIgnoresOrder(o, p, ByName);
  }

  lemma SameMultiset(o: seq<string>, p: seq<string>, keys: set<string>)
    requires Enumerates(o, keys) && Enumerates(p, keys)
    ensures multiset(o) == multiset(p)
  {
    forall n ensures multiset(o)[n] == multiset(p)[n] {
      OnceEach(o, n);
      OnceEach(p, n);
    }
  }

  lemma {:induction false} OnceEach(o: seq<string>, n: string)
    requires forall i, j :: 0 <= i < j < |o| ==> o[i] != o[j]
    ensures multiset(o)[n] == if n in o then 1 else 0
  {
    if o != [] {
      OnceEach(o[1..], n);
      assert o == [o[0]] + o[1..];
    }
  }

  // ---- loading the destination table ----

  datatype Entry = Entry(id: nat, net: Net)

  /** One zone's subnets under one id. */
  function ZoneEntries(nets: seq<Net>, id: nat): seq<Entry> {
    seq(|nets|, i requires 0 <= i < |nets| => Entry(id, nets[i]))
  }

  function Entries(c: Config, ids: map<string, nat>, order: seq<string>): seq<Entry>
    requires forall n :: n in order ==> n in c.zones && n in ids
  {
    if order == [] then [] else
    var n := order[|order| - 1];
    Entries(c, ids, order[..|order| - 1]) + if n == c.sourceZone then [] else ZoneEntries(c.zones[n], ids[n])
  }

  /** `ZoneLPMEntries` */
  method ZoneLPMEntries(c: Config, ids: map<string, nat>, order: seq<string>) returns (entries: seq<Entry>)
    requires forall n :: n in order ==> n in c.zones && n in ids
    ensures entries == Entries(c, ids, order)
  {
    entries := [];
    for i := 0 to |order|
      invariant entries == Entries(c, ids, order[..i])
    {
      var n := order[i];
      assert order[..i + 1][..i] == order[..i];
      if n != c.sourceZone {
        var nets, before := c.zones[n], entries;
        for j := 0 to |nets|
          invariant entries == before + ZoneEntries(nets[..j], ids[n])
        {
          entries := entries + [Entry(ids[n], nets[j])];
        }
        assert nets[..|nets|] == nets;
      }
    }
    assert order[..|order|] == order;
  }

  /** `lpmKeyFromNet`: an IPv6 subnet becomes the key that matches every IPv4 address. */
  function KeyOf(net: Net): Lpm.Prefix {
    if net.V4? then net.prefix else Lpm.Prefix(0, 0)
  }

  const MAX_ENTRIES: nat := 64

  /** The table after the first k entries; a new key is refused when the table is full. */
  function Loaded(entries: seq<Entry>, k: nat): Result<Lpm.PrefixTable>
    requires k <= |entries|
  {
    if k == 0 then Ok(map[]) else
    match Loaded(entries, k - 1)
    case Err(m) => Err(m)
    case Ok(t) =>
      var p := KeyOf(entries[k - 1].net);
      if p in t || |t| < MAX_ENTRIES then Ok(t[p := entries[k - 1].id]) else Err("populate zone_lpm")
  }

  /** The loop in `Load` that fills a table. */
  method Load(entries: seq<Entry>) returns (r: Result<Lpm.PrefixTable>)
    ensures r == Loaded(entries, |entries|)
  {
    var t: Lpm.PrefixTable := map[];
    for i := 0 to |entries|
      invariant Loaded(entries, i) == Ok(t)
    {
      var p := KeyOf(entries[i].net);
      if p !in t && |t| >= MAX_ENTRIES {
        FailureSticks(entries, i + 1, |entries|);
        return Err("populate zone_lpm");
      }
      t := t[p := entries[i].id];
    }
    r := Ok(t);
  }

  lemma {:induction false} FailureSticks(entries: seq<Entry>, k: nat, n: nat)
    requires k <= n <= |entries| && Loaded(entries, k).Err?
    ensures Loaded(entries, n) == Loaded(entries, k)
  {
    if k < n { FailureSticks(entries, k, n - 1); }
  }

  function Keys(entries: seq<Entry>, k: nat): set<Lpm.Prefix>
    requires k <= |entries|
  {
    set i | 0 <= i < k :: KeyOf(entries[i].net)
  }

  lemma KeysGrow(entries: seq<Entry>, k: nat)
    requires 0 < k <= |entries|
    ensures var p, before := KeyOf(entries[k - 1].net), Keys(entries, k - 1);
            Keys(entries, k) == before + {p} && |Keys(entries, k)| == |before| + if p in before then 0 else 1
  {
    var p, before := KeyOf(entries[k - 1].net), Keys(entries, k - 1);
    assert Keys(entries, k) == before + {p};
    if p in before { assert before + {p} == before; }
  }

  /** Loading succeeds exactly when the distinct keys fit; then they are the table's keys. */
  lemma {:induction false} LoadedKeys(entries: seq<Entry>, k: nat)
    requires k <= |entries|
    ensures Loaded(entries, k).Ok? <==> |Keys(entries, k)| <= MAX_ENTRIES
    ensures Loaded(entries, k).Ok? ==> Loaded(entries, k).value.Keys == Keys(entries, k)
  {
    if k > 0 {
      LoadedKeys(entries, k - 1);
      KeysGrow(entries, k);
      if Loaded(entries, k - 1).Ok? {
        assert |Loaded(entries, k - 1).value| == |Loaded(entries, k - 1).value.Keys|;
      }
    }
  }

  /** Each key of the table maps to the id put under it last. */
  lemma {:induction false} LoadedValues(entries: seq<Entry>, k: nat, p: Lpm.Prefix)
    requires k <= |entries| && Loaded(entries, k).Ok? && p in Loaded(entries, k).value
    ensures LastPut(entries, k, p, Loaded(entries, k).value[p])
  {
    var id := Loaded(entries, k).value[p];
    if p == KeyOf(entries[k - 1].net) {
      assert PutAt(entries, k, p, id, k - 1);
    } else {
      LoadedValues(entries, k - 1, p);
      var i :| PutAt(entries, k - 1, p, id, i);
      assert PutAt(entries, k, p, id, i);
    }
  }

  ghost predicate PutAt(entries: seq<Entry>, k: nat, p: Lpm.Prefix, id: nat, i: int)
    requires k <= |entries|
  {
    0 <= i < k && KeyOf(entries[i].net) == p && entries[i].id == id &&
    forall j :: i < j < k ==> KeyOf(entries[j].net) != p
  }

  ghost predicate LastPut(entries: seq<Entry>, k: nat, p: Lpm.Prefix, id: nat)
    requires k <= |entries|
  {
    exists i :: PutAt(entries, k, p, id, i)
  }

  // ---- which zones a prefix is listed under ----

  /** Remote zone n lists a subnet with key p. */
  ghost predicate Lists(c: Config, n: string, p: Lpm.Prefix) {
    n in c.zones && n != c.sourceZone && exists i :: 0 <= i < |c.zones[n]| && KeyOf(c.zones[n][i]) == p
  }

  /** An entry comes from a remote zone of the order that lists its key, under that zone's id. */
  lemma {:induction false} EntryOrigin(c: Config, ids: map<string, nat>, order: seq<string>, i: nat)
    requires (forall n :: n in order ==> n in c.zones && n in ids) && i < |Entries(c, ids, order)|
    ensures var e := Entries(c, ids, order)[i];
            exists n :: n in order && Lists(c, n, KeyOf(e.net)) && e.id == ids[n]
  {
    var init, n := order[..|order| - 1], order[|order| - 1];
    var before := Entries(c, ids, init);
    if i < |before| {
      EntryOrigin(c, ids, init, i);
      var m :| m in init && Lists(c, m, KeyOf(before[i].net)) && before[i].id == ids[m];
      assert m in order;
    } else {
      var e := Entries(c, ids, order)[i];
      assert e == ZoneEntries(c.zones[n], ids[n])[i - |before|];
      assert KeyOf(c.zones[n][i - |before|]) == KeyOf(e.net);
    }
  }

  /** And every listed prefix of a remote zone in the order has an entry. */
  lemma {:induction false} ListedHasEntry(c: Config, ids: map<string, nat>, order: seq<string>, n: string, p: Lpm.Prefix)
    returns (i: nat)
    requires (forall m :: m in order ==> m in c.zones && m in ids) && n in order && Lists(c, n, p)
    ensures var es := Entries(c, ids, order); i < |es| && KeyOf(es[i].net) == p && es[i].id == ids[n]
  {
    var init, last := order[..|order| - 1], order[|order| - 1];
    if last == n {
      var j :| 0 <= j < |c.zones[n]| && KeyOf(c.zones[n][j]) == p;
      i := |Entries(c, ids, init)| + j;
      assert Entries(c, ids, order)[i] == ZoneEntries(c.zones[n], ids[n])[j];
    } else {
      assert n in init;
      i := ListedHasEntry(c, ids, init, n, p);
    }
  }

  /** The table that `Load` builds when the zones map is ranged in the given order. */
  function TableFor(c: Config, ids: map<string, nat>, order: seq<string>): Result<Lpm.PrefixTable>
    requires forall n :: n in order ==> n in c.zones && n in ids
  {
    Loaded(Entries(c, ids, order), |Entries(c, ids, order)|)
  }

  /** A prefix in the table is listed under some remote zone, whose id the table gives. */
  lemma TableOrigin(c: Config, ids: map<string, nat>, order: seq<string>, p: Lpm.Prefix)
    requires (forall n :: n in order ==> n in c.zones && n in ids)
    requires TableFor(c, ids, order).Ok? && p in TableFor(c, ids, order).value
    ensures exists n :: n in order && Lists(c, n, p) && TableFor(c, ids, order).value[p] == ids[n]
  {
    var es := Entries(c, ids, order);
    LoadedValues(es, |es|, p);
    var i :| PutAt(es, |es|, p, TableFor(c, ids, order).value[p], i);
    EntryOrigin(c, ids, order, i);
  }

  lemma TableHolds(c: Config, ids: map<string, nat>, order: seq<string>, n: string, p: Lpm.Prefix)
    requires (forall m :: m in order ==> m in c.zones && m in ids) && n in order && Lists(c, n, p)
    requires TableFor(c, ids, order).Ok?
    ensures p in TableFor(c, ids, order).value
  {
    var es := Entries(c, ids, order);
    var i := ListedHasEntry(c, ids, order, n, p);
    LoadedKeys(es, |es|);
    assert KeyOf(es[i].net) in Keys(es, |es|);
  }

  // ---- does the order of the map matter? ----

  /** No prefix is listed under two remote zones. */
  ghost predicate Unambiguous(c: Config) {
    forall m, n, p :: Lists(c, m, p) && Lists(c, n, p) ==> m == n
  }

  lemma SameKeys(c: Config, ids: map<string, nat>, o: seq<string>, q: seq<string>)
    requires ids.Keys == c.zones.Keys && Enumerates(o, c.zones.Keys) && Enumerates(q, c.zones.Keys)
    ensures var es, fs := Entries(c, ids, o), Entries(c, ids, q); Keys(es, |es|) <= Keys(fs, |fs|)
  {
    var es, fs := Entries(c, ids, o), Entries(c, ids, q);
    forall p | p in Keys(es, |es|) ensures p in Keys(fs, |fs|) {
      var i: nat :| i < |es| && KeyOf(es[i].net) == p;
      EntryOrigin(c, ids, o, i);
      var n :| n in o && Lists(c, n, p);
      var j := ListedHasEntry(c, ids, q, n, p);
    }
  }

  /** With no prefix under two remote zones the order is immaterial, to success and to the table. */
  lemma OrderIrrelevant(c: Config, ids: map<string, nat>, o: seq<string>, q: seq<string>)
    requires ids.Keys == c.zones.Keys && Enumerates(o, c.zones.Keys) && Enumerates(q, c.zones.Keys)
    ensures TableFor(c, ids, o).Ok? <==> TableFor(c, ids, q).Ok?
    ensures Unambiguous(c) && TableFor(c, ids, o).Ok? ==> TableFor(c, ids, o) == TableFor(c, ids, q)
  {
    var es, fs := Entries(c, ids, o), Entries(c, ids, q);
    SameKeys(c, ids, o, q);
    SameKeys(c, ids, q, o);
    assert Keys(es, |es|) == Keys(fs, |fs|);
    LoadedKeys(es, |es|);
    LoadedKeys(fs, |fs|);
    if Unambiguous(c) && TableFor(c, ids, o).Ok? {
      var t, u := TableFor(c, ids, o).value, TableFor(c, ids, q).value;
      forall p | p in t ensures t[p] == u[p] {
        assert p in u.Keys;
        TableOrigin(c, ids, o, p);
        TableOrigin(c, ids, q, p);
      }
      assert t == u;
    }
  }

  /** The entries of the zone that comes last come last, under its id. */
  lemma LastZoneEntries(c: Config, ids: map<string, nat>, order: seq<string>, p: Lpm.Prefix) returns (k: nat)
    requires (forall m :: m in order ==> m in c.zones && m in ids) && order != []
    requires Lists(c, order[|order| - 1], p)
    ensures var es := Entries(c, ids, order);
            && k < |es| && KeyOf(es[k].net) == p
            && forall i :: k <= i < |es| ==> es[i].id == ids[order[|order| - 1]]
  {
    var init, n := order[..|order| - 1], order[|order| - 1];
    var before, last := Entries(c, ids, init), ZoneEntries(c.zones[n], ids[n]);
    assert Entries(c, ids, order) == before + last;
    var j :| 0 <= j < |c.zones[n]| && KeyOf(c.zones[n][j]) == p;
    k := |before| + j;
  }

  /** So that zone wins the prefixes it lists. */
  lemma LastZoneWins(c: Config, ids: map<string, nat>, order: seq<string>, p: Lpm.Prefix)
    requires (forall m :: m in order ==> m in c.zones && m in ids) && order != []
    requires Lists(c, order[|order| - 1], p) && TableFor(c, ids, order).Ok?
    ensures p in TableFor(c, ids, order).value && TableFor(c, ids, order).value[p] == ids[order[|order| - 1]]
  {
    var es := Entries(c, ids, order);
    var k := LastZoneEntries(c, ids, order, p);
    TableHolds(c, ids, order, order[|order| - 1], p);
    LoadedValues(es, |es|, p);
    var i :| PutAt(es, |es|, p, TableFor(c, ids, order).value[p], i);
    assert i >= k;
  }

  lemma MovedLast(o: seq<string>, keys: set<string>, n: string) returns (q: seq<string>)
    requires Enumerates(o, keys) && n in keys
    ensures Enumerates(q, keys) && q != [] && q[|q| - 1] == n
  {
    var i :| 0 <= i < |o| && o[i] == n;
    q := o[..i] + o[i + 1..] + [n];
    forall m ensures m in q <==> m in keys {
      if m in o {
        var j :| 0 <= j < |o| && o[j] == m;
        assert j < i ==> q[j] == m;
        assert j > i ==> q[j - 1] == m;
        assert j == i ==> q[|q| - 1] == m;
      }
    }
  }

  /**
   The table is the same for every order of the map exactly when no prefix is listed under two
   remote zones.
   */
  lemma OrderIrrelevantIff(c: Config, ids: map<string, nat>, o: seq<string>)
    requires ids.Keys == c.zones.Keys && Enumerates(o, c.zones.Keys) && TableFor(c, ids, o).Ok?
    requires Injective(ids)
    ensures (forall q :: Enumerates(q, c.zones.Keys) ==> TableFor(c, ids, q) == TableFor(c, ids, o)) <==> Unambiguous(c)
  {
    forall q | Enumerates(q, c.zones.Keys) && Unambiguous(c) ensures TableFor(c, ids, q) == TableFor(c, ids, o) {
      OrderIrrelevant(c, ids, o, q);
    }
    if m, n, p :| Lists(c, m, p) && Lists(c, n, p) && m != n {
      var x := MovedLast(o, c.zones.Keys, m);
      var y := MovedLast(o, c.zones.Keys, n);
      OrderIrrelevant(c, ids, o, x);
      OrderIrrelevant(c, ids, o, y);
      LastZoneWins(c, ids, x, p);
      LastZoneWins(c, ids, y, p);
      assert TableFor(c, ids, x) != TableFor(c, ids, y);
    }
  }

  // ---- back from ids to slots ----

  datatype Resolved = Resolved(name: string, id: nat, source: string)

  function Remote(order: seq<string>, source: string): seq<string> {
    if order == [] then [] else
    Remote(order[..|order| - 1], source) + if order[|order| - 1] == source then [] else [order[|order| - 1]]
  }

  lemma {:induction false} RemoteEnumerates(order: seq<string>, keys: set<string>, source: string)
    requires Enumerates(order, keys)
    ensures Enumerates(Remote(order, source), keys - {source})
    decreases |order|
  {
    if order != [] {
      var init, last := order[..|order| - 1], order[|order| - 1];
      assert order == init + [last] && last !in init;
      assert Enumerates(init, keys - {last}) by {
        assert forall n :: n in order <==> n in init || n == last;
      }
      RemoteEnumerates(init, keys - {last}, source);
      assert last !in Remote(init, source);
    }
  }

  /** One slot per remote zone, in the order of the names, each with its zone's id. */
  ghost predicate Resolves(c: Config, ids: map<string, nat>, zs: seq<Resolved>) {
    && (forall i :: 0 <= i < |zs| ==> zs[i].name in ids && zs[i] == Resolved(zs[i].name, ids[zs[i].name], c.sourceZone))
    && (forall i, j :: 0 <= i < j < |zs| ==> Less(zs[i].name, zs[j].name))
    && (forall n :: n in c.zones && n != c.sourceZone <==> exists i :: 0 <= i < |zs| && zs[i].name == n)
  }

  method RemoteNames(c: Config, order: seq<string>) returns (names: seq<string>)
    requires Enumerates(order, c.zones.Keys)
    ensures Alphabetical(names) && Enumerates(names, c.zones.Keys - {c.sourceZone})
  {
    names := [];
    for i := 0 to |order|
      invariant names == Remote(order[..i], c.sourceZone)
    {
      assert order[..i + 1][..i] == order[..i];
      if order[i] != c.sourceZone {
        names := names + [order[i]];
      }
    }
    assert order[..|order|] == order;
    RemoteEnumerates(order, c.zones.Keys, c.sourceZone);
    SortedNames(names, c.zones.Keys - {c.sourceZone});
    names := SortNames(names);
  }

  /** `RemoteZones` */
  method RemoteZones(c: Config, ids: map<string, nat>, order: seq<string>) returns (zs: seq<Resolved>)
    requires ids.Keys == c.zones.Keys && Enumerates(order, c.zones.Keys)
    ensures Resolves(c, ids, zs)
  {
    var names := RemoteNames(c, order);
    forall k | 0 <= k < |names| ensures names[k] in c.zones.Keys - {c.sourceZone} {
      assert names[k] in names;
    }
    zs := [];
    for i := 0 to |names|
      invariant |zs| == i && forall k :: 0 <= k < i ==> zs[k] == Resolved(names[k], ids[names[k]], c.sourceZone)
    {
      zs := zs + [Resolved(names[i], ids[names[i]], c.sourceZone)];
    }
    forall n ensures n in c.zones && n != c.sourceZone <==> exists i :: 0 <= i < |zs| && zs[i].name == n {
      if n in c.zones && n != c.sourceZone {
        assert n in c.zones.Keys - {c.sourceZone};
        assert n in names;
        var i :| 0 <= i < |names| && names[i] == n;
        assert zs[i].name == n;
      }
      if i :| 0 <= i < |zs| && zs[i].name == n {
        assert names[i] == n && names[i] in c.zones.Keys - {c.sourceZone};
      }
    }
  }

  /** Every slot is found under its zone's id; when ids repeat the last slot wins. */
  ghost predicate Indexes(index: map<nat, nat>, zs: seq<Resolved>) {
    && (forall i :: 0 <= i < |zs| ==> zs[i].id in index)
    && (forall id :: id in index ==> index[id] < |zs| && zs[index[id]].id == id &&
                                     forall j :: index[id] < j < |zs| ==> zs[j].id != id)
  }

  /** `buildZoneIndex` */
  method BuildZoneIndex(zs: seq<Resolved>) returns (index: map<nat, nat>)
    ensures Indexes(index, zs)
  {
    index := map[];
    for i := 0 to |zs|
      invariant forall k :: 0 <= k < i ==> zs[k].id in index
      invariant forall id :: id in index ==> index[id] < i && zs[index[id]].id == id &&
                                             forall j :: index[id] < j < i ==> zs[j].id != id
    {
      index := index[zs[i].id := i];
    }
  }

  /** Zone n has an IPv4 subnet with exactly this prefix, or an IPv6 subnet, which stands for the empty prefix. */
  ghost predicate HasSubnet(c: Config, n: string, p: Lpm.Prefix) {
    && n in c.zones
    && ((exists i :: 0 <= i < |c.zones[n]| && c.zones[n][i] == Net.V4(p)) || (HasV6(c, n) && p == Lpm.Prefix(0, 0)))
  }

  ghost predicate HasV6(c: Config, n: string) {
    n in c.zones && exists i :: 0 <= i < |c.zones[n]| && c.zones[n][i] == V6
  }

  lemma ListsSubnet(c: Config, n: string, p: Lpm.Prefix)
    requires Lists(c, n, p)
    ensures HasSubnet(c, n, p)
  {
    var k :| 0 <= k < |c.zones[n]| && KeyOf(c.zones[n][k]) == p;
    if c.zones[n][k].V4? { assert c.zones[n][k] == Net.V4(p); }
  }

  /**
   The round trip: the id found for an address leads to a slot of a remote zone that lists the
   very subnet that matched, the longest in the table to contain the address.
   */
  lemma RoundTrip(c: Config, ids: map<string, nat>, order: seq<string>, zs: seq<Resolved>, index: map<nat, nat>, a: nat)
    requires ids.Keys == c.zones.Keys && Enumerates(order, c.zones.Keys)
    requires Injective(ids)
    requires Resolves(c, ids, zs) && Indexes(index, zs) && TableFor(c, ids, order).Ok?
    requires Lpm.Lookup(TableFor(c, ids, order).value, a).Some?
    ensures var t := TableFor(c, ids, order).value;
            var id := Lpm.Lookup(t, a).value;
            && id in index && index[id] < |zs|
            && exists p :: Lpm.Longest(t, a, p) && HasSubnet(c, zs[index[id]].name, p)
  {
    var t := TableFor(c, ids, order).value;
    Lpm.LookupExact(t, a);
    var p :| Lpm.Longest(t, a, p) && t[p] == Lpm.Lookup(t, a).value;
    TableOrigin(c, ids, order, p);
    var n :| n in order && Lists(c, n, p) && t[p] == ids[n];
    SlotOf(c, ids, zs, index, n);
    ListsSubnet(c, n, p);
  }

  /** A remote zone's id leads to the slot that bears its name. */
  lemma SlotOf(c: Config, ids: map<string, nat>, zs: seq<Resolved>, index: map<nat, nat>, n: string)
    requires n in c.zones && n != c.sourceZone && n in ids
    requires Injective(ids)
    requires Resolves(c, ids, zs) && Indexes(index, zs)
    ensures ids[n] in index && index[ids[n]] < |zs| && zs[index[ids[n]]].name == n
  {
    var i :| 0 <= i < |zs| && zs[i].name == n;
    assert zs[i].id == ids[n];
  }

  // ---- which addresses are zoned at all ----

  /** One of zone n's IPv4 subnets contains the address. */
  ghost predicate Covers(c: Config, n: string, a: nat) {
    n in c.zones && exists i :: 0 <= i < |c.zones[n]| && c.zones[n][i].V4? && Lpm.Contains(c.zones[n][i].prefix, a)
  }

  /** Zone n takes the address for its own: one of its IPv4 subnets contains it, or it has an IPv6 subnet. */
  ghost predicate Claims(c: Config, n: string, a: nat) {
    HasV6(c, n) || Covers(c, n, a)
  }

  /** Some subnet's key contains the address. */
  ghost predicate KeyContains(nets: seq<Net>, a: nat) {
    exists i :: 0 <= i < |nets| && Lpm.Contains(KeyOf(nets[i]), a)
  }

  lemma ClaimsIff(c: Config, n: string, a: nat)
    requires n in c.zones && a < Lpm.ADDR
    ensures Claims(c, n, a) <==> KeyContains(c.zones[n], a)
  {
    var nets := c.zones[n];
    Lpm.DefaultContainsAll(a);
    if i :| 0 <= i < |nets| && nets[i] == V6 {
      assert Lpm.Contains(KeyOf(nets[i]), a);
    }
    if i :| 0 <= i < |nets| && nets[i].V4? && Lpm.Contains(nets[i].prefix, a) {
      assert Lpm.Contains(KeyOf(nets[i]), a);
    }
    if i :| 0 <= i < |nets| && Lpm.Contains(KeyOf(nets[i]), a) {
      if nets[i].V4? { assert nets[i].V4? && Lpm.Contains(nets[i].prefix, a); }
    }
  }

  /** A destination is zoned exactly when some remote zone has it in an IPv4 subnet, or has an IPv6 subnet. */
  lemma DestinationZonedIff(c: Config, ids: map<string, nat>, order: seq<string>, a: nat)
    requires ids.Keys == c.zones.Keys && Enumerates(order, c.zones.Keys) && TableFor(c, ids, order).Ok?
    requires a < Lpm.ADDR
    ensures Lpm.Lookup(TableFor(c, ids, order).value, a).Some? <==> exists n :: n != c.sourceZone && Claims(c, n, a)
  {
    var t := TableFor(c, ids, order).value;
    Lpm.LookupExact(t, a);
    if Lpm.Lookup(t, a).Some? {
      var p :| Lpm.Longest(t, a, p);
      TableOrigin(c, ids, order, p);
      var n :| n in order && Lists(c, n, p);
      assert KeyContains(c.zones[n], a);
      ClaimsIff(c, n, a);
    }
    if n :| n != c.sourceZone && Claims(c, n, a) {
      ClaimsIff(c, n, a);
      var i :| 0 <= i < |c.zones[n]| && Lpm.Contains(KeyOf(c.zones[n][i]), a);
      TableHolds(c, ids, order, n, KeyOf(c.zones[n][i]));
    }
  }

  /** `SourceZoneLPMEntries` */
  method SourceZoneLPMEntries(c: Config, ids: map<string, nat>) returns (r: Result<seq<Entry>>)
    ensures r.Ok? <==> c.sourceZone in c.zones && c.sourceZone in ids
    ensures r.Ok? ==> r.value == ZoneEntries(c.zones[c.sourceZone], ids[c.sourceZone])
  {
    if c.sourceZone !in c.zones || c.sourceZone !in ids {
      return Err("source_zone not found");
    }
    var nets, entries := c.zones[c.sourceZone], [];
    for j := 0 to |nets|
      invariant entries == ZoneEntries(nets[..j], ids[c.sourceZone])
    {
      entries := entries + [Entry(ids[c.sourceZone], nets[j])];
    }
    assert nets[..|nets|] == nets;
    r := Ok(entries);
  }

  /** A source is accepted exactly when the source zone has it in an IPv4 subnet, or has an IPv6 subnet. */
  lemma SourceZonedIff(c: Config, id: nat, a: nat)
    requires c.sourceZone in c.zones && a < Lpm.ADDR
    requires var es := ZoneEntries(c.zones[c.sourceZone], id); Loaded(es, |es|).Ok?
    ensures var es := ZoneEntries(c.zones[c.sourceZone], id);
            Lpm.Lookup(Loaded(es, |es|).value, a).Some? <==> Claims(c, c.sourceZone, a)
  {
    var nets := c.zones[c.sourceZone];
    var es := ZoneEntries(nets, id);
    var t := Loaded(es, |es|).value;
    LoadedKeys(es, |es|);
    Lpm.LookupExact(t, a);
    ClaimsIff(c, c.sourceZone, a);
    if Lpm.Lookup(t, a).Some? {
      var p :| Lpm.Longest(t, a, p);
      assert p in Keys(es, |es|);
      var i :| 0 <= i < |es| && KeyOf(es[i].net) == p;
      assert Lpm.Contains(KeyOf(nets[i]), a);
    }
    if KeyContains(nets, a) {
      var i :| 0 <= i < |nets| && Lpm.Contains(KeyOf(nets[i]), a);
      assert KeyOf(es[i].net) in Keys(es, |es|);
    }
  }

  /** So an IPv6 subnet of a remote zone zones every IPv4 address, and one of the source zone accepts every source. */
  lemma V6CatchesAll(c: Config, ids: map<string, nat>, order: seq<string>, n: string, a: nat)
    requires ids.Keys == c.zones.Keys && Enumerates(order, c.zones.Keys) && c.sourceZone in c.zones
    requires HasV6(c, n) && a < Lpm.ADDR
    ensures n != c.sourceZone && TableFor(c, ids, order).Ok? ==> Lpm.Lookup(TableFor(c, ids, order).value, a).Some?
    ensures var es := ZoneEntries(c.zones[c.sourceZone], ids[c.sourceZone]);
            n == c.sourceZone && Loaded(es, |es|).Ok? ==> Lpm.Lookup(Loaded(es, |es|).value, a).Some?
  {
    var es := ZoneEntries(c.zones[c.sourceZone], ids[c.sourceZone]);
    if n != c.sourceZone && TableFor(c, ids, order).Ok? {
      assert Claims(c, n, a);
      DestinationZonedIff(c, ids, order, a);
    }
    if n == c.sourceZone && Loaded(es, |es|).Ok? { SourceZonedIff(c, ids[c.sourceZone], a); }
  }

  // ---- does a config fit? ----

  /** The distinct keys that the remote zones' subnets have. */
  ghost function RemoteKeys(c: Config): set<Lpm.Prefix> {
    set n, i | n in c.zones && n != c.sourceZone && 0 <= i < |c.zones[n]| :: KeyOf(c.zones[n][i])
  }

  ghost function SourceKeys(c: Config): set<Lpm.Prefix>
    requires c.sourceZone in c.zones
  {
    set i | 0 <= i < |c.zones[c.sourceZone]| :: KeyOf(c.zones[c.sourceZone][i])
  }

  /** The destination table loads exactly when its distinct keys fit, whatever the order. */
  lemma DestinationFitsIff(c: Config, ids: map<string, nat>, order: seq<string>)
    requires ids.Keys == c.zones.Keys && Enumerates(order, c.zones.Keys)
    ensures TableFor(c, ids, order).Ok? <==> |RemoteKeys(c)| <= MAX_ENTRIES
  {
    var es := Entries(c, ids, order);
    LoadedKeys(es, |es|);
    forall p ensures p in Keys(es, |es|) <==> p in RemoteKeys(c) {
      if p in Keys(es, |es|) {
        var i: nat :| i < |es| && KeyOf(es[i].net) == p;
        EntryOrigin(c, ids, order, i);
      }
      if p in RemoteKeys(c) {
        var n, i :| n in c.zones && n != c.sourceZone && 0 <= i < |c.zones[n]| && KeyOf(c.zones[n][i]) == p;
        var k := ListedHasEntry(c, ids, order, n, p);
      }
    }
    assert Keys(es, |es|) == RemoteKeys(c);
  }

  /** So does the source table. */
  lemma SourceFitsIff(c: Config, id: nat)
    requires c.sourceZone in c.zones
    ensures var es := ZoneEntries(c.zones[c.sourceZone], id);
            Loaded(es, |es|).Ok? <==> |SourceKeys(c)| <= MAX_ENTRIES
  {
    var es := ZoneEntries(c.zones[c.sourceZone], id);
    LoadedKeys(es, |es|);
    forall p ensures p in Keys(es, |es|) <==> p in SourceKeys(c) {
      if p in Keys(es, |es|) {
        var i :| 0 <= i < |es| && KeyOf(es[i].net) == p;
        assert KeyOf(c.zones[c.sourceZone][i]) == p;
      }
      if p in SourceKeys(c) {
        var i :| 0 <= i < |c.zones[c.sourceZone]| && KeyOf(c.zones[c.sourceZone][i]) == p;
        assert KeyOf(es[i].net) == p;
      }
    }
    assert Keys(es, |es|) == SourceKeys(c);
  }
}
