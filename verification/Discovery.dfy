/** The cache of nearby servers (application/discovery.rs): what it lists is a view of what was heard,
    whenever expiry ran. */
module Discovery {
  import opened Common
  import opened Sorting

  datatype NearbyServer = NearbyServer(name: string, address: string, printers: seq<string>, version: Option<string>)

  datatype Entry = Entry(server: NearbyServer, expires: int)

  /** What a browser reports, and when. */
  datatype Event =
    | Advertised(server: NearbyServer, lifetime: nat, at: int)
    | Withdrawn(gone: string, at: int)

  // ---------------------------------------------------------------- order

  /** Text order by scalar value. */
  function CompareText(a: string, b: string): int {
    if a == "" && b == "" then 0
    else if a == "" then -1
    else if b == "" then 1
    else if a[0] < b[0] then -1
    else if a[0] > b[0] then 1
    else CompareText(a[1..], b[1..])
  }

  lemma {:induction false} TextOrder(a: string, b: string)
    ensures CompareText(a, b) == 0 <==> a == b
    ensures CompareText(a, b) > 0 <==> CompareText(b, a) < 0
    decreases |a|
  {
    if a != "" && b != "" {
      TextOrder(a[1..], b[1..]);
      assert a == [a[0]] + a[1..] && b == [b[0]] + b[1..];
    }
  }

  /** Which text is before which: where they first differ, the smaller character, or the shorter text. */
  lemma {:induction false} TextOrderExactly(a: string, b: string)
    ensures CompareText(a, b) < 0
            <==> exists i :: 0 <= i <= |a| && i < |b| && a[..i] == b[..i] && (i == |a| || a[i] < b[i])
    decreases |a|
  {
    if a != "" && b != "" && a[0] == b[0] {
      TextOrderExactly(a[1..], b[1..]);
      if i :| 0 <= i <= |a[1..]| && i < |b[1..]| && a[1..][..i] == b[1..][..i] && (i == |a[1..]| || a[1..][i] < b[1..][i]) {
        OneMoreAgrees(a, b, i);
        assert i + 1 == |a| || a[i + 1] < b[i + 1];
      }
      if i :| 0 <= i <= |a| && i < |b| && a[..i] == b[..i] && (i == |a| || a[i] < b[i]) {
        assert i > 0;
        OneMoreAgrees(a, b, i - 1);
        assert i - 1 == |a[1..]| || a[1..][i - 1] < b[1..][i - 1];
      }
    } else if a != "" && b != "" {
      assert a[..0] == b[..0];
      forall i | 0 < i <= |a| && i < |b| ensures a[..i] != b[..i] {
        assert a[..i][0] != b[..i][0];
      }
    } else {
      assert a[..0] == b[..0];
    }
  }

  lemma OneMoreAgrees(a: string, b: string, i: nat)
    requires a != "" && b != "" && a[0] == b[0] && i + 1 <= |a| && i + 1 <= |b|
    ensures a[1..][..i] == b[1..][..i] <==> a[..i + 1] == b[..i + 1]
  {
    assert a[..i + 1] == [a[0]] + a[1..][..i] && b[..i + 1] == [b[0]] + b[1..][..i];
  }

  lemma {:induction false} TextChains(a: string, b: string, c: string)
    requires CompareText(a, b) <= 0 && CompareText(b, c) <= 0
    ensures CompareText(a, c) <= 0
    ensures CompareText(a, b) < 0 || CompareText(b, c) < 0 ==> CompareText(a, c) < 0
    decreases |a|
  {
    if a != "" && b != "" && c != "" && a[0] == b[0] && b[0] == c[0] {
      TextChains(a[1..], b[1..], c[1..]);
    }
  }

  /** By label, then by address. */
  function ByLabel(a: NearbyServer, b: NearbyServer): int {
    var names := CompareText(a.name, b.name);
    if names != 0 then names else CompareText(a.address, b.address)
  }

  /** Servers are listed by label, and those with one label by address. */
  lemma ByLabelExactly(a: NearbyServer, b: NearbyServer)
    ensures ByLabel(a, b) < 0
            <==> CompareText(a.name, b.name) < 0 || (a.name == b.name && CompareText(a.address, b.address) < 0)
  {
    TextOrder(a.name, b.name);
  }

  lemma ByLabelChains(a: NearbyServer, b: NearbyServer, c: NearbyServer)
    requires ByLabel(a, b) <= 0 && ByLabel(b, c) <= 0
    ensures ByLabel(a, c) <= 0
  {
    TextOrder(a.name, b.name);
    TextOrder(b.name, c.name);
    TextOrder(a.name, c.name);
    TextChains(a.name, b.name, c.name);
    if a.name == b.name && b.name == c.name {
      TextChains(a.address, b.address, c.address);
    }
  }

  lemma ByLabelIsConsistent()
    ensures Consistent(ByLabel)
  {
    forall a, b ensures ByLabel(a, b) > 0 ==> ByLabel(b, a) <= 0 {
      TextOrder(a.name, b.name);
      TextOrder(b.name, a.name);
      TextOrder(a.address, b.address);
    }
    forall a, b, c | ByLabel(a, b) <= 0 && ByLabel(b, c) <= 0 ensures ByLabel(a, c) <= 0 {
      ByLabelChains(a, b, c);
    }
  }

  /** Strictly by label and then by address, so each address is listed once per label. */
  ghost predicate Listed(servers: seq<NearbyServer>) {
    forall i, j :: 0 <= i < j < |servers| ==> ByLabel(servers[i], servers[j]) < 0
  }

  /** A list in this order is determined by what is in it, so the list does not jump. */
  lemma {:induction false} ListingIsUnique(xs: seq<NearbyServer>, ys: seq<NearbyServer>)
    requires Listed(xs) && Listed(ys) && forall s :: s in xs <==> s in ys
    ensures xs == ys
    decreases |xs|
  {
    assert xs != [] ==> xs[0] in ys;
    assert ys != [] ==> ys[0] in xs;
    if xs != [] {
      SameFirst(xs, ys);
      TailMembers(xs);
      TailMembers(ys);
      ListingIsUnique(xs[1..], ys[1..]);
      assert xs == [xs[0]] + xs[1..] && ys == [ys[0]] + ys[1..];
    }
  }

  lemma SameFirst(xs: seq<NearbyServer>, ys: seq<NearbyServer>)
    requires Listed(xs) && Listed(ys) && xs != [] && ys != [] && forall s :: s in xs <==> s in ys
    ensures xs[0] == ys[0]
  {
    assert xs[0] in ys && ys[0] in xs;
    var i :| 0 <= i < |ys| && ys[i] == xs[0];
    var j :| 0 <= j < |xs| && xs[j] == ys[0];
    if i > 0 && j > 0 {
      TextOrder(xs[0].name, ys[0].name);
      TextOrder(ys[0].name, xs[0].name);
      TextOrder(xs[0].address, ys[0].address);
    }
  }

  lemma TailMembers(xs: seq<NearbyServer>)
    requires Listed(xs) && xs != []
    ensures Listed(xs[1..]) && forall s :: s in xs[1..] <==> s in xs && s != xs[0]
  {
    TextOrder(xs[0].name, xs[0].name);
    TextOrder(xs[0].address, xs[0].address);
    assert xs == [xs[0]] + xs[1..];
    forall s | s in xs[1..] ensures s != xs[0] {
      var i :| 0 <= i < |xs[1..]| && xs[1..][i] == s;
      assert ByLabel(xs[0], xs[i + 1]) < 0;
    }
  }

  // ---------------------------------------------------------------- what was heard

  function AddressOf(e: Event): string {
    match e
    case Advertised(server, _, _) => server.address
    case Withdrawn(gone, _) => gone
  }

  /** The last event about an address. */
  function Latest(history: seq<Event>, address: string): Option<Event> {
    if history == [] then None
    else
      var last := history[|history| - 1];
      if AddressOf(last) == address then Some(last) else Latest(history[..|history| - 1], address)
  }

  function Min(a: nat, b: nat): nat {
    if a <= b then a else b
  }

  /** The moment an event's announcement runs out; a goodbye announces nothing. */
  function ValidUntil(e: Event, max: nat): Option<int> {
    if e.Withdrawn? || e.lifetime == 0 then None else Some(e.at + Min(e.lifetime, max))
  }

  /** The server is visible: the last thing heard about its address announced exactly it, and that is
      not over yet. */
  ghost predicate Visible(history: seq<Event>, max: nat, server: NearbyServer, now: int) {
    var last := Latest(history, server.address);
    && last.Some? && last.value.Advertised? && last.value.server == server
    && var until := ValidUntil(last.value, max);
       until.Some? && now < until.value
  }

  /** The servers a user sees at a time. */
  ghost predicate IsView(servers: seq<NearbyServer>, history: seq<Event>, max: nat, now: int) {
    Listed(servers) && forall s :: s in servers <==> Visible(history, max, s, now)
  }

  lemma {:induction false} LatestIsAbout(history: seq<Event>, address: string)
    ensures Latest(history, address).Some? ==> Latest(history, address).value in history
                                               && AddressOf(Latest(history, address).value) == address
    decreases |history|
  {
    if history != [] {
      LatestIsAbout(history[..|history| - 1], address);
      assert history == history[..|history| - 1] + [history[|history| - 1]];
    }
  }

  /** There is one view for every history and time. */
  lemma ViewIsUnique(xs: seq<NearbyServer>, ys: seq<NearbyServer>, history: seq<Event>, max: nat, now: int)
    requires IsView(xs, history, max, now) && IsView(ys, history, max, now)
    ensures xs == ys
  {
    ListingIsUnique(xs, ys);
  }

  /** One more event changes what is visible at its own address only, and a goodbye, in either form,
      removes the address. */
  lemma EventConcernsItsAddress(history: seq<Event>, e: Event, max: nat, s: NearbyServer, now: int)
    ensures AddressOf(e) != s.address ==> (Visible(history + [e], max, s, now) <==> Visible(history, max, s, now))
    ensures AddressOf(e) == s.address ==>
              (Visible(history + [e], max, s, now)
               <==> e.Advertised? && e.server == s && e.lifetime > 0 && now < e.at + e.lifetime && now < e.at + max)
  {
    assert (history + [e])[..|history|] == history;
  }

  // ---------------------------------------------------------------- the cache

  /** The entry the last event about an address leaves behind, until a sweep drops it. */
  ghost predicate Explains(history: seq<Event>, max: nat, address: string, entry: Entry) {
    var last := Latest(history, address);
    && last.Some? && last.value.Advertised? && last.value.server == entry.server && last.value.lifetime > 0
    && entry.expires == last.value.at + Min(last.value.lifetime, max)
  }

  /** Nothing about the address is valid at the time any more. */
  ghost predicate Over(history: seq<Event>, max: nat, address: string, now: int) {
    var last := Latest(history, address);
    last.Some? ==> var until := ValidUntil(last.value, max); until.Some? ==> until.value <= now
  }

  ghost predicate Refines(entries: map<string, Entry>, history: seq<Event>, max: nat, now: int) {
    && (forall a :: a in entries ==> Explains(history, max, a, entries[a]))
    && (forall a :: a !in entries ==> Over(history, max, a, now))
  }

  function Expired(entries: map<string, Entry>, now: int): map<string, Entry> {
    map a | a in entries && entries[a].expires > now :: entries[a]
  }

  lemma ExpiryRefines(entries: map<string, Entry>, history: seq<Event>, max: nat, before: int, now: int)
    requires Refines(entries, history, max, before) && before <= now
    ensures Refines(Expired(entries, now), history, max, now)
  {
  }

  /** After an expiry, what is cached is what is visible. */
  lemma CachedIsVisible(entries: map<string, Entry>, history: seq<Event>, max: nat, now: int, s: NearbyServer)
    requires Refines(entries, history, max, now)
    ensures (exists a :: a in Expired(entries, now) && Expired(entries, now)[a].server == s) <==> Visible(history, max, s, now)
  {
    var kept := Expired(entries, now);
    if a :| a in kept && kept[a].server == s {
      LatestIsAbout(history, a);
    }
    if Visible(history, max, s, now) {
      assert s.address in kept;
    }
  }

  lemma EventRefines(entries: map<string, Entry>, history: seq<Event>, max: nat, before: int, e: Event)
    requires Refines(entries, history, max, before) && before <= e.at
    ensures Refines(if e.Advertised? && e.lifetime > 0
                    then entries[e.server.address := Entry(e.server, e.at + Min(e.lifetime, max))]
                    else entries - {AddressOf(e)},
                    history + [e], max, e.at)
  {
    assert (history + [e])[..|history|] == history;
  }

  /** The list of everything cached. */
  ghost predicate Shows(servers: seq<NearbyServer>, entries: map<string, Entry>) {
    Listed(servers) && forall s :: s in servers <==> exists a :: a in entries && entries[a].server == s
  }

  /** A list of everything cached misses nothing that is visible. */
  lemma ShowsAllVisible(servers: seq<NearbyServer>, entries: map<string, Entry>, history: seq<Event>, max: nat, now: int)
    requires Shows(servers, entries) && Refines(entries, history, max, now)
    ensures forall s :: Visible(history, max, s, now) ==> s in servers
  {
    forall s | Visible(history, max, s, now) ensures s in servers {
      assert s.address in entries && entries[s.address].server == s;
    }
  }

  /** No list is published twice in a row. */
  ghost predicate NoRepeats(log: seq<seq<NearbyServer>>) {
    forall i :: 0 <= i < |log| - 1 ==> log[i] != log[i + 1]
  }

  class Cache {
    var entries: map<string, Entry>
    /** What the watch channel holds. */
    var published: seq<NearbyServer>
    const maxLifetime: nat

    ghost var history: seq<Event>
    ghost var clock: int
    /** Every list the channel ever held. */
    ghost var log: seq<seq<NearbyServer>>

    ghost predicate Valid()
      reads this
    {
      && Refines(entries, history, maxLifetime, clock)
      && log != [] && log[|log| - 1] == published && NoRepeats(log)
    }

    constructor (maxLifetime: nat, now: int)
      ensures Valid() && history == [] && clock == now && published == [] && this.maxLifetime == maxLifetime
    {
      this.maxLifetime := maxLifetime;
      entries, published := map[], [];
      history, clock, log := [], now, [[]];
    }

    /** The entries by label, then by address. */
    method Snapshot() returns (servers: seq<NearbyServer>)
      requires Valid()
      ensures Shows(servers, entries)
    {
      var collected: seq<NearbyServer> := [];
      var rest := entries;
      while rest != map[]
        invariant forall a :: a in rest ==> a in entries && rest[a] == entries[a]
        invariant forall a :: a in entries && a !in rest ==> entries[a].server in collected
        invariant forall s :: s in collected ==> s.address in entries && s.address !in rest && entries[s.address].server == s
        invariant forall i, j :: 0 <= i < j < |collected| ==> collected[i].address != collected[j].address
        decreases |rest|
      {
        var a :| a in rest;
        LatestIsAbout(history, a);
        collected := collected + [rest[a].server];
        rest := rest - {a};
      }
      servers := Sort(collected, ByLabel);
      SortedByLabel(collected);
      assert forall s :: s in servers <==> s in collected;
      forall s | exists a :: a in entries && entries[a].server == s ensures s in servers {
        var a :| a in entries && entries[a].server == s;
        assert a !in rest;
      }
    }

    /** Publishes the list unless it is what the channel already holds. */
    method Publish(servers: seq<NearbyServer>)
      requires Valid()
      modifies this`published, this`log
      ensures Valid() && published == servers
      ensures log == if servers == old(published) then old(log) else old(log) + [servers]
    {
      if published == servers {
        return;
      }
      published := servers;
      log := log + [servers];
    }

    /** The servers a user sees now. */
    method NearbyServers(now: int) returns (servers: seq<NearbyServer>)
      requires Valid() && clock <= now
      modifies this`entries, this`clock
      ensures Valid() && clock == now && published == old(published)
      ensures IsView(servers, history, maxLifetime, now)
    {
      Expire(now);
      servers := Snapshot();
      NowVisible();
    }

    method Expire(now: int)
      requires Valid() && clock <= now
      modifies this`entries, this`clock
      ensures Valid() && clock == now
      ensures entries == Expired(old(entries), now) && entries == Expired(entries, now)
    {
      ExpiryRefines(entries, history, maxLifetime, clock, now);
      entries := Expired(entries, now);
      clock := now;
    }

    lemma NowVisible()
      requires Valid() && entries == Expired(entries, clock)
      ensures forall s :: (exists a :: a in entries && entries[a].server == s) <==> Visible(history, maxLifetime, s, clock)
    {
      forall s ensures (exists a :: a in entries && entries[a].server == s) <==> Visible(history, maxLifetime, s, clock) {
        CachedIsVisible(entries, history, maxLifetime, clock, s);
      }
    }

    /** A sweep publishes exactly what is visible now. */
    method Prune(now: int)
      requires Valid() && clock <= now
      modifies this
      ensures Valid() && clock == now && history == old(history)
      ensures IsView(published, history, maxLifetime, now)
      ensures log == if published == old(published) then old(log) else old(log) + [published]
    {
      Expire(now);
      var servers := Snapshot();
      NowVisible();
      Publish(servers);
    }

    /** An advertisement replaces what was known about its address; without lifetime it is a goodbye. */
    method Advertise(server: NearbyServer, lifetime: nat, now: int)
      requires Valid() && clock <= now
      modifies this
      ensures Valid() && clock == now && history == old(history) + [Advertised(server, lifetime, now)]
      ensures entries == if lifetime == 0 then old(entries) - {server.address}
                         else old(entries)[server.address := Entry(server, now + Min(lifetime, maxLifetime))]
      ensures Shows(published, entries) && forall s :: Visible(history, maxLifetime, s, now) ==> s in published
      ensures log == if published == old(published) then old(log) else old(log) + [published]
    {
      EventRefines(entries, history, maxLifetime, clock, Advertised(server, lifetime, now));
      history := history + [Advertised(server, lifetime, now)];
      clock := now;
      if lifetime == 0 {
        entries := entries - {server.address};
      } else {
        entries := entries[server.address := Entry(server, now + Min(lifetime, maxLifetime))];
      }
      var servers := Snapshot();
      ShowsAllVisible(servers, entries, history, maxLifetime, now);
      Publish(servers);
    }

    /** A goodbye, or a browser that saw the advertisement stop. */
    method Withdraw(address: string, now: int)
      requires Valid() && clock <= now
      modifies this
      ensures Valid() && clock == now && history == old(history) + [Withdrawn(address, now)]
      ensures entries == old(entries) - {address}
      ensures Shows(published, entries) && forall s :: Visible(history, maxLifetime, s, now) ==> s in published
      ensures log == if published == old(published) then old(log) else old(log) + [published]
    {
      EventRefines(entries, history, maxLifetime, clock, Withdrawn(address, now));
      history := history + [Withdrawn(address, now)];
      clock := now;
      entries := entries - {address};
      var servers := Snapshot();
      ShowsAllVisible(servers, entries, history, maxLifetime, now);
      Publish(servers);
    }
  }

  function Address(s: NearbyServer): string {
    s.address
  }

  /** Sorting servers with distinct addresses gives a strict order. */
  lemma SortedByLabel(xs: seq<NearbyServer>)
    requires forall i, j :: 0 <= i < j < |xs| ==> xs[i].address != xs[j].address
    ensures Listed(Sort(xs, ByLabel)) && forall s :: s in Sort(xs, ByLabel) <==> s in xs
  {
    var sorted := Sort(xs, ByLabel);
    ByLabelIsConsistent();
    SortOrders(xs, ByLabel);
    SortMembers(xs, ByLabel);
    assert DistinctBy(xs, Address);
    SortDistinct(xs, ByLabel, Address);
    forall i, j | 0 <= i < j < |sorted| ensures ByLabel(sorted[i], sorted[j]) < 0 {
      assert Address(sorted[i]) != Address(sorted[j]);
      TextOrder(sorted[i].address, sorted[j].address);
      assert ByLabel(sorted[i], sorted[j]) <= 0;
    }
  }
}
