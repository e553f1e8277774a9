/** The peer selector: a keyed store of peers from several sources, refreshed per
    source, listed in one order, and selected under per-class quotas. */
module PeerStore {
  import opened Messages
  import opened Ordering
  import opened LedgerPeers

  // ---------------------------------------------------------------- the keyed store

  /** Derives a missing address; a peer with neither address nor host has none. */
  function Addressed(p: Peer): Option<Peer> {
    if p.address != "" then Some(p)
    else if p.host == "" then None
    else Some(NewPeer(p.host, p.port, p))
  }

  /** A peer is skipped only without address and host; one with an address is kept
      as it is; any other gets the address of its host and port, and nothing else. */
  lemma AddressedExactly(p: Peer)
    ensures Addressed(p) == None <==> p.address == "" && p.host == ""
    ensures p.address != "" ==> Addressed(p) == Some(p)
    ensures p.address == "" && p.host != "" ==>
              var q := Addressed(p).value;
              q == p.(address := q.address) && q.address == if p.port == 0 then p.host else Bracketed(p.host) + ":" + Decimal(p.port)
  {
    if p.port > 0 {
      AddressIdentifies(p.host, p.port, p.host, p.port, p, p);
    }
  }

  function Key(p: Peer): string {
    p.source + "/" + p.address
  }

  function Add(store: map<string, Peer>, p: Peer): map<string, Peer> {
    match Addressed(p)
    case None => store
    case Some(q) => store[Key(q) := q]
  }

  function AddAll(store: map<string, Peer>, ps: seq<Peer>): map<string, Peer> {
    if ps == [] then store else Add(AddAll(store, ps[..|ps| - 1]), ps[|ps| - 1])
  }

  function Drop(store: map<string, Peer>, sources: set<string>): map<string, Peer> {
    map k | k in store && store[k].source !in sources :: store[k]
  }

  /** Replaces everything known from `sources`. */
  function Refresh(store: map<string, Peer>, sources: set<string>, ps: seq<Peer>): map<string, Peer> {
    AddAll(Drop(store, sources), ps)
  }

  /** Every entry sits under its own key. */
  ghost predicate WellKept(store: map<string, Peer>) {
    forall k :: k in store ==> k == Key(store[k])
  }

  lemma {:induction false} AddAllKeeps(store: map<string, Peer>, ps: seq<Peer>)
    requires WellKept(store)
    ensures WellKept(AddAll(store, ps))
  {
    if ps != [] {
      AddAllKeeps(store, ps[..|ps| - 1]);
    }
  }

  /** The last peer of `ps` that is stored under `k`. */
  function LastUnder(ps: seq<Peer>, k: string): Option<Peer> {
    if ps == [] then None
    else
      var q := Addressed(ps[|ps| - 1]);
      if q.Some? && Key(q.value) == k then q else LastUnder(ps[..|ps| - 1], k)
  }

  /** Adding peers is last-wins per key, and touches no other key. */
  lemma {:induction false} AddAllIsLastWins(store: map<string, Peer>, ps: seq<Peer>, k: string)
    ensures var r := AddAll(store, ps);
            match LastUnder(ps, k)
            case Some(q) => k in r && r[k] == q
            case None => (k in r <==> k in store) && (k in store ==> r[k] == store[k])
  {
    if ps != [] {
      AddAllIsLastWins(store, ps[..|ps| - 1], k);
    }
  }

  predicate SlashFree(source: string) {
    '/' !in source
  }

  function FirstSlash(s: string): nat {
    if s == [] || s[0] == '/' then 0 else 1 + FirstSlash(s[1..])
  }

  lemma {:induction false} FirstSlashEndsSource(source: string, address: string)
    requires SlashFree(source)
    ensures FirstSlash(source + "/" + address) == |source|
  {
    var k := source + "/" + address;
    if source != [] {
      assert k[0] == source[0] && k[1..] == source[1..] + "/" + address;
      FirstSlashEndsSource(source[1..], address);
    }
  }

  /** With slash-free sources the key determines source and address. */
  lemma KeyInjective(p: Peer, q: Peer)
    requires SlashFree(p.source) && SlashFree(q.source) && Key(p) == Key(q)
    ensures p.source == q.source && p.address == q.address
  {
    FirstSlashEndsSource(p.source, p.address);
    FirstSlashEndsSource(q.source, q.address);
    var k, n := Key(p), |p.source|;
    assert k[..n] == p.source && k[..n] == q.source;
    assert k[n + 1..] == p.address && k[n + 1..] == q.address;
  }

  lemma {:induction false} LastUnderComesFrom(ps: seq<Peer>, k: string)
    ensures var q := LastUnder(ps, k);
            q.Some? ==> Key(q.value) == k && exists p :: p in ps && q.value.source == p.source
  {
    if ps != [] {
      LastUnderComesFrom(ps[..|ps| - 1], k);
      assert ps[|ps| - 1] in ps;
    }
  }

  /** A refresh, key by key: what is stored under the refreshed sources is exactly
      the last-wins image of the new peers, and every other source is untouched. */
  lemma RefreshIsPerSource(store: map<string, Peer>, sources: set<string>, ps: seq<Peer>, k: string)
    requires WellKept(store)
    requires forall p :: p in ps ==> p.source in sources
    requires forall s :: s in sources ==> SlashFree(s)
    requires forall j :: j in store ==> SlashFree(store[j].source)
    ensures WellKept(Refresh(store, sources, ps))
    ensures var r := Refresh(store, sources, ps);
            var q := LastUnder(ps, k);
            && (k in r && r[k].source in sources <==> q.Some?)
            && (q.Some? ==> r[k] == q.value)
            && (k in r && r[k].source !in sources <==> k in store && store[k].source !in sources)
            && (k in r && r[k].source !in sources ==> r[k] == store[k])
  {
    AddAllKeeps(Drop(store, sources), ps);
    AddAllIsLastWins(Drop(store, sources), ps, k);
    LastUnderComesFrom(ps, k);
    var q := LastUnder(ps, k);
    if q.Some? && k in store {
      KeyInjective(q.value, store[k]);
    }
  }

  /** What a ledger discovery makes of a snapshot: both lists, `all` first. */
  function Discovered(snapshot: seq<LedgerPeer>): seq<Peer> {
    StableSort(AllLess, AllPeers(snapshot)) + WithSource(PeersOf(snapshot, SelectedKeys(snapshot)), BIG_LEDGER)
  }

  lemma DiscoveredSources(snapshot: seq<LedgerPeer>)
    ensures forall p :: p in Discovered(snapshot) ==> p.source in {LEDGER, BIG_LEDGER}
  {
    var all := StableSort(AllLess, AllPeers(snapshot));
    var big := WithSource(PeersOf(snapshot, SelectedKeys(snapshot)), BIG_LEDGER);
    BigContainedInAll(snapshot, all, big);
    AllPeersAreLedger(snapshot);
    forall p | p in all ensures p.source == LEDGER {
      assert p in multiset(all);
    }
  }

  /** A ledger discovery leaves the peers of every other source as they were, and
      makes the two ledger sources exactly the image of the new snapshot. */
  lemma DiscoveryIsPerSource(store: map<string, Peer>, snapshot: seq<LedgerPeer>, k: string)
    requires WellKept(store) && forall j :: j in store ==> SlashFree(store[j].source)
    ensures var r := Refresh(store, {LEDGER, BIG_LEDGER}, Discovered(snapshot));
            var q := LastUnder(Discovered(snapshot), k);
            && (k in r && r[k].source in {LEDGER, BIG_LEDGER} <==> q.Some?)
            && (q.Some? ==> r[k] == q.value)
            && (k in r && r[k].source !in {LEDGER, BIG_LEDGER} <==> k in store && store[k].source !in {LEDGER, BIG_LEDGER})
            && (k in r && r[k].source !in {LEDGER, BIG_LEDGER} ==> r[k] == store[k])
  {
    DiscoveredSources(snapshot);
    RefreshIsPerSource(store, {LEDGER, BIG_LEDGER}, Discovered(snapshot), k);
  }

  lemma {:induction false} LastUnderFinds(ps: seq<Peer>, p: Peer)
    requires p in ps && p.address != ""
    ensures var q := LastUnder(ps, Key(p)); q.Some? && Key(q.value) == Key(p)
  {
    if p != ps[|ps| - 1] {
      LastUnderFinds(ps[..|ps| - 1], p);
    }
  }

  /** Both lists of a snapshot reach the store: every relay of every entry as a
      ledger peer, and every relay of an entry whose pool was selected as a
      big-ledger peer too. */
  lemma DiscoveryStoresBoth(store: map<string, Peer>, snapshot: seq<LedgerPeer>, i: nat, p: Peer)
    requires WellKept(store) && (forall j :: j in store ==> SlashFree(store[j].source))
    requires i < |snapshot| && RelayOf(snapshot[i], p)
    ensures var r := Refresh(store, {LEDGER, BIG_LEDGER}, Discovered(snapshot));
            && "ledger/" + p.address in r && r["ledger/" + p.address].source == "ledger"
            && (EntrySelected(snapshot, i) ==>
                  "big-ledger/" + p.address in r && r["big-ledger/" + p.address].source == "big-ledger")
  {
    StoresLedger(store, snapshot, i, p);
    if EntrySelected(snapshot, i) {
      StoresBig(store, snapshot, i, p);
    }
  }

  lemma StoresLedger(store: map<string, Peer>, snapshot: seq<LedgerPeer>, i: nat, p: Peer)
    requires WellKept(store) && (forall j :: j in store ==> SlashFree(store[j].source))
    requires i < |snapshot| && RelayOf(snapshot[i], p)
    ensures var r := Refresh(store, {LEDGER, BIG_LEDGER}, Discovered(snapshot));
            "ledger/" + p.address in r && r["ledger/" + p.address].source == "ledger"
  {
    RelayHasAddress(snapshot[i], p);
    InAllPeers(snapshot, i, p);
    LedgerKey(p);
    StoredFromDiscovery(store, snapshot, p, "ledger/" + p.address);
  }

  lemma StoresBig(store: map<string, Peer>, snapshot: seq<LedgerPeer>, i: nat, p: Peer)
    requires WellKept(store) && (forall j :: j in store ==> SlashFree(store[j].source))
    requires i < |snapshot| && RelayOf(snapshot[i], p) && EntrySelected(snapshot, i)
    ensures var r := Refresh(store, {LEDGER, BIG_LEDGER}, Discovered(snapshot));
            "big-ledger/" + p.address in r && r["big-ledger/" + p.address].source == "big-ledger"
  {
    RelayHasAddress(snapshot[i], p);
    InBigList(snapshot, i, p);
    BigKey(p);
    StoredFromDiscovery(store, snapshot, p.(source := BIG_LEDGER), "big-ledger/" + p.address);
  }

  lemma LedgerKey(p: Peer)
    requires p.source == "ledger"
    ensures Key(p) == "ledger/" + p.address && SlashFree(p.source)
  {
    assert "ledger" + "/" == "ledger/";
  }

  lemma BigKey(p: Peer)
    ensures Key(p.(source := BIG_LEDGER)) == "big-ledger/" + p.address && SlashFree(BIG_LEDGER)
  {
    assert "big-ledger" + "/" == "big-ledger/";
  }

  lemma RelayHasAddress(lp: LedgerPeer, p: Peer)
    requires RelayOf(lp, p)
    ensures p.address != "" && p.source == "ledger"
  {
    var r :| r in lp.relays && p in RelayPeers(lp, r);
    RelayPeersShape(lp, r);
  }

  lemma InAllPeers(snapshot: seq<LedgerPeer>, i: nat, p: Peer)
    requires i < |snapshot| && RelayOf(snapshot[i], p)
    ensures p in Discovered(snapshot)
  {
    EntryPeersMember(snapshot[i], p);
    FlatMember(ExpandEntry(), snapshot, p);
    assert snapshot[i] in snapshot && p in ExpandEntry()(snapshot[i]);
    StableSortPermutes(AllLess, AllPeers(snapshot));
    SameMembers(AllPeers(snapshot), StableSort(AllLess, AllPeers(snapshot)));
  }

  lemma InBigList(snapshot: seq<LedgerPeer>, i: nat, p: Peer)
    requires i < |snapshot| && RelayOf(snapshot[i], p) && EntrySelected(snapshot, i)
    ensures p.(source := BIG_LEDGER) in Discovered(snapshot)
  {
    BigExactly(snapshot, p);
    var ps := PeersOf(snapshot, SelectedKeys(snapshot));
    var j :| 0 <= j < |ps| && ps[j] == p;
    assert WithSource(ps, BIG_LEDGER)[j] == p.(source := BIG_LEDGER);
  }

  lemma StoredFromDiscovery(store: map<string, Peer>, snapshot: seq<LedgerPeer>, p: Peer, key: string)
    requires WellKept(store) && (forall j :: j in store ==> SlashFree(store[j].source))
    requires p in Discovered(snapshot) && p.address != "" && SlashFree(p.source) && key == Key(p)
    ensures var r := Refresh(store, {LEDGER, BIG_LEDGER}, Discovered(snapshot)); key in r && r[key].source == p.source
  {
    LastUnderFinds(Discovered(snapshot), p);
    DiscoveryIsPerSource(store, snapshot, Key(p));
    KeyInjective(LastUnder(Discovered(snapshot), Key(p)).value, p);
  }

  /** Slash-freedom is needed: a source with a slash can be overwritten by a
      refresh of another source. */
  lemma SlashInSourceCollides()
    ensures exists a: Peer, b: Peer ::
              a.source != b.source && Key(a) == Key(b) &&
              Refresh(map[Key(a) := a], {b.source}, [b]) == map[Key(a) := b]
  {
    var a := Peer("c", "", 0, "ledger/b", "", 0);
    var b := Peer("b/c", "", 0, "ledger", "", 0);
    assert Key(a) == "ledger/b/c" == Key(b);
    var r := Refresh(map[Key(a) := a], {b.source}, [b]);
    assert [b][..0] == [];
    assert AddAll(Drop(map[Key(a) := a], {b.source}), []) == Drop(map[Key(a) := a], {b.source});
    assert r == map[Key(a) := b];
  }

  // ---------------------------------------------------------------- listing

  predicate PeerLess(a: Peer, b: Peer) {
    if a.source == b.source then Before(a.address, b.address) else Before(a.source, b.source)
  }

  lemma PeerLessTransitive(a: Peer, b: Peer, c: Peer)
    requires PeerLess(a, b) && PeerLess(b, c)
    ensures PeerLess(a, c)
  {
    if a.source == b.source {
      if b.source == c.source {
        BeforeTransitive(a.address, b.address, c.address);
      }
    } else if b.source != c.source {
      BeforeTransitive(a.source, b.source, c.source);
      BeforeIrreflexive(a.source);
      if a.source == c.source {
        BeforeTransitive(a.source, b.source, a.source);
      }
    }
  }

  lemma PeerLessIrreflexive(a: Peer)
    ensures !PeerLess(a, a)
  {
    BeforeIrreflexive(a.address);
  }

  lemma PeerLessTotal(a: Peer, b: Peer)
    ensures PeerLess(a, b) || PeerLess(b, a) || (a.source == b.source && a.address == b.address)
  {
    BeforeTotal(a.source, b.source);
    BeforeTotal(a.address, b.address);
  }

  lemma PeerLessAsymmetric(a: Peer, b: Peer)
    requires PeerLess(a, b)
    ensures !PeerLess(b, a)
  {
    if PeerLess(b, a) {
      PeerLessTransitive(a, b, a);
      PeerLessIrreflexive(a);
    }
  }

  lemma PeerLessIsWeak()
    ensures StrictWeak(PeerLess)
  {
    forall a, b | PeerLess(a, b) ensures !PeerLess(b, a) {
      PeerLessAsymmetric(a, b);
    }
    forall a, b, c | !PeerLess(b, a) && !PeerLess(c, b) ensures !PeerLess(c, a) {
      PeerNotLessTransitive(a, b, c);
    }
  }

  lemma PeerNotLessTransitive(a: Peer, b: Peer, c: Peer)
    requires !PeerLess(b, a) && !PeerLess(c, b)
    ensures !PeerLess(c, a)
  {
    PeerLessTotal(a, b);
    PeerLessTotal(b, c);
    if PeerLess(a, b) && PeerLess(b, c) {
      PeerLessTransitive(a, b, c);
      PeerLessAsymmetric(a, c);
    } else if PeerLess(a, b) {
      PeerLessAsymmetric(a, b);
    } else if PeerLess(b, c) {
      PeerLessAsymmetric(b, c);
    } else {
      PeerLessIrreflexive(a);
    }
  }

  ghost predicate StrictlySorted(s: seq<Peer>) {
    forall i, j :: 0 <= i < j < |s| ==> PeerLess(s[i], s[j])
  }

  /** By source and then by address. */
  lemma OrderOfListing(s: seq<Peer>)
    ensures StrictlySorted(s) <==>
              forall i, j :: 0 <= i < j < |s| ==>
                Before(s[i].source, s[j].source) || (s[i].source == s[j].source && Before(s[i].address, s[j].address))
  {
    forall i, j | 0 <= i < j < |s|
      ensures PeerLess(s[i], s[j]) <==>
                Before(s[i].source, s[j].source) || (s[i].source == s[j].source && Before(s[i].address, s[j].address))
    {
      BeforeIrreflexive(s[i].source);
    }
  }

  /** `s` lists exactly the stored peers, in strictly ascending order. */
  ghost predicate IsListing(s: seq<Peer>, store: map<string, Peer>) {
    StrictlySorted(s) && forall p :: p in s <==> p in store.Values
  }

  lemma FirstIsLeast(a: seq<Peer>, b: seq<Peer>)
    requires StrictlySorted(a) && StrictlySorted(b) && a != [] && b != []
    requires forall p :: p in a <==> p in b
    ensures a[0] == b[0]
  {
    assert a[0] in b && b[0] in a;
    var i :| 0 <= i < |b| && b[i] == a[0];
    var j :| 0 <= j < |a| && a[j] == b[0];
    if i > 0 && j > 0 {
      PeerLessAsymmetric(a[0], b[0]);
    }
  }

  lemma SameEmptiness(a: seq<Peer>, b: seq<Peer>)
    requires forall p :: p in a <==> p in b
    ensures a == [] <==> b == []
  {
    assert a != [] ==> a[0] in a;
    assert b != [] ==> b[0] in b;
  }

  /** There is only one listing: whatever order the map is iterated in, sorting
      gives the same sequence. */
  lemma {:induction false} ListingUnique(a: seq<Peer>, b: seq<Peer>)
    requires StrictlySorted(a) && StrictlySorted(b)
    requires forall p :: p in a <==> p in b
    ensures a == b
  {
    SameEmptiness(a, b);
    if a != [] {
      FirstIsLeast(a, b);
      forall p | p in a[1..] || p in b[1..] ensures p in a[1..] && p in b[1..] {
        TailMember(a, p);
        TailMember(b, p);
      }
      ListingUnique(a[1..], b[1..]);
      assert a == [a[0]] + a[1..] && b == [b[0]] + b[1..];
    }
  }

  lemma TailMember(s: seq<Peer>, p: Peer)
    requires StrictlySorted(s) && s != []
    ensures p in s[1..] <==> p in s && p != s[0]
  {
    PeerLessIrreflexive(s[0]);
    if p in s && p != s[0] {
      var i :| 0 <= i < |s| && s[i] == p;
      assert s[1..][i - 1] == p;
    }
    if p in s[1..] {
      var i :| 0 <= i < |s| - 1 && s[1..][i] == p;
      assert s[i + 1] == p && PeerLess(s[0], s[i + 1]);
    }
  }

  /** Sorting distinct stored peers sorts them strictly. */
  lemma SortListing(store: map<string, Peer>, values: seq<Peer>)
    requires WellKept(store)
    requires forall p :: p in values <==> p in store.Values
    requires forall i, j :: 0 <= i < j < |values| ==> values[i] != values[j]
    ensures IsListing(StableSort(PeerLess, values), store)
  {
    var s := StableSort(PeerLess, values);
    StableSortPermutes(PeerLess, values);
    PeerLessIsWeak();
    StableSortSorts(PeerLess, values);
    SameMembers(values, s);
    NoRepeats(values, s);
    SortedIsStrict(store, s);
  }

  lemma SameMembers(a: seq<Peer>, b: seq<Peer>)
    requires multiset(a) == multiset(b)
    ensures forall p :: p in b <==> p in a
  {
    forall p ensures p in b <==> p in a {
      assert p in b <==> p in multiset(b);
      assert p in a <==> p in multiset(a);
    }
  }

  lemma SortedIsStrict(store: map<string, Peer>, s: seq<Peer>)
    requires WellKept(store) && Sorted(PeerLess, s)
    requires forall i, j :: 0 <= i < j < |s| ==> s[i] != s[j]
    requires forall i :: 0 <= i < |s| ==> s[i] in store.Values
    ensures StrictlySorted(s)
  {
    forall i, j | 0 <= i < j < |s| ensures PeerLess(s[i], s[j]) {
      PeerLessTotal(s[i], s[j]);
      StoredApart(store, s[i], s[j]);
    }
  }

  lemma StoredApart(store: map<string, Peer>, p: Peer, q: Peer)
    requires WellKept(store) && p in store.Values && q in store.Values && p != q
    ensures p.source != q.source || p.address != q.address
  {
    var j :| j in store && store[j] == p;
    var k :| k in store && store[k] == q;
  }

  lemma NoRepeats(a: seq<Peer>, b: seq<Peer>)
    requires multiset(a) == multiset(b)
    requires forall i, j :: 0 <= i < j < |a| ==> a[i] != a[j]
    ensures forall i, j :: 0 <= i < j < |b| ==> b[i] != b[j]
  {
    forall p ensures multiset(a)[p] <= 1 {
      CountOnce(a, p);
    }
    forall i, j | 0 <= i < j < |b| ensures b[i] != b[j] {
      if b[i] == b[j] {
        CountTwice(b, i, j);
      }
    }
  }

  lemma CountTwice(b: seq<Peer>, i: nat, j: nat)
    requires i < j < |b| && b[i] == b[j]
    ensures multiset(b)[b[i]] >= 2
  {
    assert b == b[..i] + [b[i]] + b[i + 1..j] + [b[j]] + b[j + 1..];
  }

  lemma {:induction false} CountOnce(a: seq<Peer>, p: Peer)
    requires forall i, j :: 0 <= i < j < |a| ==> a[i] != a[j]
    ensures multiset(a)[p] <= 1
  {
    if a != [] {
      var n := |a| - 1;
      CountOnce(a[..n], p);
      assert a == a[..n] + [a[n]];
      if p == a[n] {
        assert p !in a[..n];
      }
    }
  }

  // ---------------------------------------------------------------- quota selection

  /** Non-positive quotas are unlimited. */
  datatype SelectionConfig = SelectionConfig(topology: int, peerSharing: int, ledger: int, bigLedger: int)

  const CLASS_TOPOLOGY := "topology"

  /** The quota class of a source, and the quota that applies to it. An unknown
      source forms a class of its own name, without quota. */
  function QuotaFor(source: string, cfg: SelectionConfig): (string, int) {
    if source in {TOPOLOGY_LOCAL_ROOT, TOPOLOGY_PUBLIC, TOPOLOGY_BOOTSTRAP, STATIC} then (CLASS_TOPOLOGY, cfg.topology)
    else if source == PEER_SHARING then (PEER_SHARING, cfg.peerSharing)
    else if source == LEDGER then (LEDGER, cfg.ledger)
    else if source == BIG_LEDGER then (BIG_LEDGER, cfg.bigLedger)
    else (source, 0)
  }

  /** The quota of a class; sources of the class have this quota or none. */
  function ClassQuota(class_: string, cfg: SelectionConfig): int {
    if class_ == CLASS_TOPOLOGY then cfg.topology
    else if class_ == PEER_SHARING then cfg.peerSharing
    else if class_ == LEDGER then cfg.ledger
    else if class_ == BIG_LEDGER then cfg.bigLedger
    else 0
  }

  function Class(p: Peer, cfg: SelectionConfig): string {
    QuotaFor(p.source, cfg).0
  }

  /** How many of `ps` belong to the class. */
  function InClass(cfg: SelectionConfig, ps: seq<Peer>, class_: string): nat {
    if ps == [] then 0
    else InClass(cfg, ps[..|ps| - 1], class_) + if Class(ps[|ps| - 1], cfg) == class_ then 1 else 0
  }

  /** The rank rule: no quota, or fewer than quota earlier peers of the class. */
  predicate Eligible(cfg: SelectionConfig, ps: seq<Peer>, i: nat)
    requires i < |ps|
  {
    var (class_, quota) := QuotaFor(ps[i].source, cfg);
    quota <= 0 || InClass(cfg, ps[..i], class_) < quota
  }

  /** How many of the first `i` peers are eligible. */
  function EligibleBefore(cfg: SelectionConfig, ps: seq<Peer>, i: nat): nat
    requires i <= |ps|
  {
    if i == 0 then 0 else EligibleBefore(cfg, ps, i - 1) + if Eligible(cfg, ps, i - 1) then 1 else 0
  }

  /** A peer is chosen when it is eligible and fewer than n eligible ones precede it. */
  predicate IsChosen(cfg: SelectionConfig, ps: seq<Peer>, n: int, i: nat)
    requires i < |ps|
  {
    Eligible(cfg, ps, i) && (n <= 0 || EligibleBefore(cfg, ps, i) < n)
  }

  /** The chosen ones among the first `i`, in order. */
  function Chosen(cfg: SelectionConfig, ps: seq<Peer>, n: int, i: nat): seq<Peer>
    requires i <= |ps|
  {
    if i == 0 then []
    else Chosen(cfg, ps, n, i - 1) + if IsChosen(cfg, ps, n, i - 1) then [ps[i - 1]] else []
  }

  lemma {:induction false} ChosenCount(cfg: SelectionConfig, ps: seq<Peer>, n: int, i: nat)
    requires i <= |ps|
    ensures |Chosen(cfg, ps, n, i)| == if 0 < n <= EligibleBefore(cfg, ps, i) then n else EligibleBefore(cfg, ps, i)
  {
    if i > 0 {
      ChosenCount(cfg, ps, n, i - 1);
    }
  }

  /** Once n are chosen, no later peer is. */
  lemma {:induction false} ChosenSettles(cfg: SelectionConfig, ps: seq<Peer>, n: int, i: nat, j: nat)
    requires i <= j <= |ps| && 0 < n <= EligibleBefore(cfg, ps, i)
    ensures Chosen(cfg, ps, n, j) == Chosen(cfg, ps, n, i) && n <= EligibleBefore(cfg, ps, j)
    decreases j
  {
    if i < j {
      ChosenSettles(cfg, ps, n, i, j - 1);
      assert !IsChosen(cfg, ps, n, j - 1);
      assert Chosen(cfg, ps, n, j) == Chosen(cfg, ps, n, j - 1);
    }
  }

  /** Selecting fewer selects a prefix: Select(n) of Select(m) for 0 < n <= m, and
      of the unlimited selection. */
  lemma {:induction false} SelectionIsPrefix(cfg: SelectionConfig, ps: seq<Peer>, n: int, m: int, i: nat)
    requires i <= |ps| && 0 < n && (n <= m || m <= 0)
    ensures Chosen(cfg, ps, n, i) <= Chosen(cfg, ps, m, i)
  {
    if i > 0 {
      SelectionIsPrefix(cfg, ps, n, m, i - 1);
      ChosenCount(cfg, ps, n, i - 1);
      ChosenCount(cfg, ps, m, i - 1);
    }
  }

  /** What a running counter knows: it falls short of the true count only once
      the class quota is used up. */
  ghost predicate CountRight(cfg: SelectionConfig, counts: map<string, nat>, ps: seq<Peer>, c: string) {
    var k := Count(counts, c);
    k <= InClass(cfg, ps, c) && (k == InClass(cfg, ps, c) || 0 < ClassQuota(c, cfg) <= k)
  }

  ghost predicate CountsRight(cfg: SelectionConfig, counts: map<string, nat>, ps: seq<Peer>) {
    forall c: string {:trigger CountRight(cfg, counts, ps, c)} :: CountRight(cfg, counts, ps, c)
  }

  function Count(counts: map<string, nat>, c: string): nat {
    if c in counts then counts[c] else 0
  }

  lemma CountDecides(cfg: SelectionConfig, counts: map<string, nat>, ps: seq<Peer>, i: nat)
    requires i < |ps| && CountsRight(cfg, counts, ps[..i])
    ensures var (c, quota) := QuotaFor(ps[i].source, cfg);
            Eligible(cfg, ps, i) <==> !(quota > 0 && Count(counts, c) >= quota)
  {
    var (c, quota) := QuotaFor(ps[i].source, cfg);
    assert quota > 0 ==> quota == ClassQuota(c, cfg);
    assert CountRight(cfg, counts, ps[..i], c);
  }

  lemma CountsAdvance(cfg: SelectionConfig, counts: map<string, nat>, ps: seq<Peer>, i: nat)
    requires i < |ps| && CountsRight(cfg, counts, ps[..i])
    ensures var c := Class(ps[i], cfg);
            var counts' := if Eligible(cfg, ps, i) then counts[c := Count(counts, c) + 1] else counts;
            CountsRight(cfg, counts', ps[..i + 1])
  {
    var (c, quota) := QuotaFor(ps[i].source, cfg);
    var counts' := if Eligible(cfg, ps, i) then counts[c := Count(counts, c) + 1] else counts;
    assert ps[..i + 1][..i] == ps[..i];
    assert quota > 0 ==> quota == ClassQuota(c, cfg);
    forall d: string {:trigger CountRight(cfg, counts', ps[..i + 1], d)}
      ensures CountRight(cfg, counts', ps[..i + 1], d)
    {
      assert CountRight(cfg, counts, ps[..i], d);
    }
  }

  // ---------------------------------------------------------------- what the quotas mean

  /** The peers from some sources, in order. */
  function OfSources(ps: seq<Peer>, sources: set<string>): seq<Peer> {
    if ps == [] then []
    else OfSources(ps[..|ps| - 1], sources) + if ps[|ps| - 1].source in sources then [ps[|ps| - 1]] else []
  }

  /** The first `quota` of them; all of them when the quota is not positive. */
  function FirstOf(ps: seq<Peer>, quota: int): seq<Peer> {
    if 0 < quota < |ps| then ps[..quota] else ps
  }

  lemma OfSourcesSnoc(ps: seq<Peer>, p: Peer, sources: set<string>)
    ensures OfSources(ps + [p], sources) == OfSources(ps, sources) + if p.source in sources then [p] else []
  {
    assert (ps + [p])[..|ps|] == ps;
  }

  lemma ChosenSnoc(cfg: SelectionConfig, ps: seq<Peer>, n: int, i: nat, sources: set<string>)
    requires i < |ps|
    ensures OfSources(Chosen(cfg, ps, n, i + 1), sources) == OfSources(Chosen(cfg, ps, n, i), sources) +
              if IsChosen(cfg, ps, n, i) && ps[i].source in sources then [ps[i]] else []
    ensures OfSources(ps[..i + 1], sources) == OfSources(ps[..i], sources) + if ps[i].source in sources then [ps[i]] else []
  {
    var chosen := Chosen(cfg, ps, n, i);
    assert chosen + [] == chosen;
    OfSourcesSnoc(chosen, ps[i], sources);
    assert ps[..i + 1] == ps[..i] + [ps[i]];
    OfSourcesSnoc(ps[..i], ps[i], sources);
  }

  /** Sources that share a class share its quota. */
  lemma {:induction false} QuotaBounds(cfg: SelectionConfig, ps: seq<Peer>, n: int, i: nat,
                                       sources: set<string>, class_: string, quota: int)
    requires i <= |ps| && quota > 0 && forall s :: s in sources ==> QuotaFor(s, cfg) == (class_, quota)
    ensures var taken := |OfSources(Chosen(cfg, ps, n, i), sources)|;
            taken <= quota && taken <= InClass(cfg, ps[..i], class_)
  {
    if i > 0 {
      QuotaBounds(cfg, ps, n, i - 1, sources, class_, quota);
      assert ps[..i][..i - 1] == ps[..i - 1];
      ChosenSnoc(cfg, ps, n, i - 1, sources);
    }
  }

  lemma {:induction false} UnlimitedTakesAll(cfg: SelectionConfig, ps: seq<Peer>, n: int, i: nat, sources: set<string>)
    requires i <= |ps| && n <= 0 && forall s :: s in sources ==> QuotaFor(s, cfg).1 <= 0
    ensures OfSources(Chosen(cfg, ps, n, i), sources) == OfSources(ps[..i], sources)
  {
    if i > 0 {
      UnlimitedTakesAll(cfg, ps, n, i - 1, sources);
      ChosenSnoc(cfg, ps, n, i - 1, sources);
    }
  }

  lemma {:induction false} ClassIsSources(cfg: SelectionConfig, ps: seq<Peer>, sources: set<string>, class_: string)
    requires forall p :: p in ps ==> (Class(p, cfg) == class_ <==> p.source in sources)
    ensures InClass(cfg, ps, class_) == |OfSources(ps, sources)|
  {
    if ps != [] {
      ClassIsSources(cfg, ps[..|ps| - 1], sources, class_);
      assert ps[|ps| - 1] in ps;
    }
  }

  /** A class of its own is filled from the front. */
  lemma {:induction false} QuotaFills(cfg: SelectionConfig, ps: seq<Peer>, n: int, i: nat,
                                      sources: set<string>, class_: string, quota: int)
    requires i <= |ps| && n <= 0 && quota > 0 && forall s :: s in sources ==> QuotaFor(s, cfg) == (class_, quota)
    requires forall p :: p in ps ==> (Class(p, cfg) == class_ <==> p.source in sources)
    ensures OfSources(Chosen(cfg, ps, n, i), sources) == FirstOf(OfSources(ps[..i], sources), quota)
  {
    if i > 0 {
      QuotaFills(cfg, ps, n, i - 1, sources, class_, quota);
      ClassIsSources(cfg, ps[..i - 1], sources, class_);
      ChosenSnoc(cfg, ps, n, i - 1, sources);
      FirstOfSnoc(OfSources(ps[..i - 1], sources), ps[i - 1], quota);
    }
  }

  lemma FirstOfSnoc(ps: seq<Peer>, p: Peer, quota: int)
    requires quota > 0
    ensures FirstOf(ps + [p], quota) == FirstOf(ps, quota) + if |ps| < quota then [p] else []
  {
  }

  lemma ClassFilled(cfg: SelectionConfig, ps: seq<Peer>, n: int, sources: set<string>, class_: string, quota: int)
    requires n <= 0 && forall s :: s in sources ==> QuotaFor(s, cfg) == (class_, quota)
    requires quota <= 0 || forall p :: p in ps ==> (Class(p, cfg) == class_ <==> p.source in sources)
    ensures OfSources(Chosen(cfg, ps, n, |ps|), sources) == FirstOf(OfSources(ps, sources), quota)
  {
    assert ps[..|ps|] == ps;
    if quota <= 0 {
      UnlimitedTakesAll(cfg, ps, n, |ps|, sources);
    } else {
      QuotaFills(cfg, ps, n, |ps|, sources, class_, quota);
    }
  }

  /** No quota is exceeded. */
  ghost predicate WithinQuotas(cfg: SelectionConfig, selected: seq<Peer>) {
    && (cfg.ledger > 0 ==> |OfSources(selected, {"ledger"})| <= cfg.ledger)
    && (cfg.bigLedger > 0 ==> |OfSources(selected, {"big-ledger"})| <= cfg.bigLedger)
    && (cfg.peerSharing > 0 ==> |OfSources(selected, {"peer-sharing"})| <= cfg.peerSharing)
    && (cfg.topology > 0 ==> |OfSources(selected, TopologySources())| <= cfg.topology)
  }

  function TopologySources(): set<string> {
    {"topology-local-root", "topology-public-root", "topology-bootstrap", "static"}
  }

  lemma ChosenWithinQuotas(cfg: SelectionConfig, ps: seq<Peer>, n: int)
    ensures WithinQuotas(cfg, Chosen(cfg, ps, n, |ps|))
    ensures n > 0 ==> |Chosen(cfg, ps, n, |ps|)| <= n
  {
    ChosenCount(cfg, ps, n, |ps|);
    if cfg.ledger > 0 {
      QuotaBounds(cfg, ps, n, |ps|, {"ledger"}, LEDGER, cfg.ledger);
    }
    if cfg.bigLedger > 0 {
      QuotaBounds(cfg, ps, n, |ps|, {"big-ledger"}, BIG_LEDGER, cfg.bigLedger);
    }
    if cfg.peerSharing > 0 {
      QuotaBounds(cfg, ps, n, |ps|, {"peer-sharing"}, PEER_SHARING, cfg.peerSharing);
    }
    if cfg.topology > 0 {
      QuotaBounds(cfg, ps, n, |ps|, TopologySources(), CLASS_TOPOLOGY, cfg.topology);
    }
  }

  /** Without an overall limit every quota is used up from the front of the listing,
      and sources without a quota are selected entirely. An unknown source called
      "topology" is no exception, but its peers count for the topology quota. */
  ghost predicate QuotasFilled(cfg: SelectionConfig, listing: seq<Peer>, selected: seq<Peer>) {
    && OfSources(selected, {"ledger"}) == FirstOf(OfSources(listing, {"ledger"}), cfg.ledger)
    && OfSources(selected, {"big-ledger"}) == FirstOf(OfSources(listing, {"big-ledger"}), cfg.bigLedger)
    && OfSources(selected, {"peer-sharing"}) == FirstOf(OfSources(listing, {"peer-sharing"}), cfg.peerSharing)
    && OfSources(selected, TopologySources())
       == OfSources(FirstOf(OfSources(listing, TopologySources() + {"topology"}), cfg.topology), TopologySources())
    && (forall s :: s !in TopologySources() + {"ledger", "big-ledger", "peer-sharing"} ==>
          OfSources(selected, {s}) == OfSources(listing, {s}))
  }

  lemma ChosenFillsQuotas(cfg: SelectionConfig, ps: seq<Peer>, n: int)
    requires n <= 0
    ensures QuotasFilled(cfg, ps, Chosen(cfg, ps, n, |ps|))
  {
    NamedFilled(cfg, ps, n);
    TopologyFilled(cfg, ps, n, |ps|);
    assert ps[..|ps|] == ps;
    forall s | s !in TopologySources() + {"ledger", "big-ledger", "peer-sharing"}
      ensures OfSources(Chosen(cfg, ps, n, |ps|), {s}) == OfSources(ps, {s})
    {
      OtherFilled(cfg, ps, n, s);
    }
  }

  lemma NamedFilled(cfg: SelectionConfig, ps: seq<Peer>, n: int)
    requires n <= 0
    ensures var selected := Chosen(cfg, ps, n, |ps|);
            && OfSources(selected, {"ledger"}) == FirstOf(OfSources(ps, {"ledger"}), cfg.ledger)
            && OfSources(selected, {"big-ledger"}) == FirstOf(OfSources(ps, {"big-ledger"}), cfg.bigLedger)
            && OfSources(selected, {"peer-sharing"}) == FirstOf(OfSources(ps, {"peer-sharing"}), cfg.peerSharing)
  {
    ClassFilled(cfg, ps, n, {"ledger"}, LEDGER, cfg.ledger);
    ClassFilled(cfg, ps, n, {"big-ledger"}, BIG_LEDGER, cfg.bigLedger);
    ClassFilled(cfg, ps, n, {"peer-sharing"}, PEER_SHARING, cfg.peerSharing);
  }

  lemma OtherFilled(cfg: SelectionConfig, ps: seq<Peer>, n: int, source: string)
    requires n <= 0 && source !in TopologySources() + {"ledger", "big-ledger", "peer-sharing"}
    ensures OfSources(Chosen(cfg, ps, n, |ps|), {source}) == OfSources(ps, {source})
  {
    assert ps[..|ps|] == ps;
    UnlimitedTakesAll(cfg, ps, n, |ps|, {source});
  }

  lemma {:induction false} TopologyFilled(cfg: SelectionConfig, ps: seq<Peer>, n: int, i: nat)
    requires n <= 0 && i <= |ps|
    ensures var all := OfSources(ps[..i], TopologySources() + {"topology"});
            OfSources(Chosen(cfg, ps, n, i), TopologySources()) == OfSources(FirstOf(all, cfg.topology), TopologySources())
  {
    if i > 0 {
      TopologyFilled(cfg, ps, n, i - 1);
      ChosenSnoc(cfg, ps, n, i - 1, TopologySources());
      ChosenSnoc(cfg, ps, n, i - 1, TopologySources() + {"topology"});
      if ps[i - 1].source in TopologySources() {
        TopologyEligible(cfg, ps, i - 1);
      }
      var all, p := OfSources(ps[..i - 1], TopologySources() + {"topology"}), ps[i - 1];
      assert p.source !in TopologySources() + {"topology"} ==> all + [] == all;
      FirstOfTopology(OfSources(ps[..i - 1], TopologySources() + {"topology"}), ps[i - 1], cfg.topology);
    }
  }

  lemma TopologyEligible(cfg: SelectionConfig, ps: seq<Peer>, i: nat)
    requires i < |ps| && ps[i].source in TopologySources()
    ensures Eligible(cfg, ps, i) <==>
              cfg.topology <= 0 || |OfSources(ps[..i], TopologySources() + {"topology"})| < cfg.topology
  {
    ClassIsSources(cfg, ps[..i], TopologySources() + {"topology"}, CLASS_TOPOLOGY);
  }

  lemma FirstOfTopology(ps: seq<Peer>, p: Peer, quota: int)
    ensures var sources := TopologySources();
            OfSources(FirstOf(ps + [p], quota), sources) == OfSources(FirstOf(ps, quota), sources) +
              if p.source in sources && (quota <= 0 || |ps| < quota) then [p] else []
  {
    if quota > 0 && |ps| >= quota {
      assert FirstOf(ps + [p], quota) == FirstOf(ps, quota);
    } else {
      assert FirstOf(ps + [p], quota) == ps + [p] && FirstOf(ps, quota) == ps;
      OfSourcesSnoc(ps, p, TopologySources());
    }
  }

  /** A source that happens to be called like the topology class has no quota
      itself, yet its peers use up the quota of the topology sources. */
  lemma SourceNamedTopologyUsesQuota()
    ensures var cfg := SelectionConfig(1, 0, 0, 0);
            var a, b := Peer("x", "", 0, "topology", "", 0), Peer("x", "", 0, "topology-bootstrap", "", 0);
            PeerLess(a, b) && Chosen(cfg, [a, b], 0, 2) == [a]
  {
    var cfg := SelectionConfig(1, 0, 0, 0);
    var a, b := Peer("x", "", 0, "topology", "", 0), Peer("x", "", 0, "topology-bootstrap", "", 0);
    TopologyFirst();
    NamedTopology(cfg);
    UsedUp(cfg, a, b);
  }

  lemma TopologyFirst()
    ensures Before("topology", "topology-bootstrap") && "topology" != "topology-bootstrap"
  {
    BeforeIsLexicographic("topology", '-', "bootstrap", '-', "");
    assert "topology" + ['-'] + "bootstrap" == "topology-bootstrap";
    BeforeIrreflexive("topology");
  }

  lemma NamedTopology(cfg: SelectionConfig)
    ensures QuotaFor("topology", cfg) == ("topology", 0) && QuotaFor("topology-bootstrap", cfg) == ("topology", cfg.topology)
  {
    var t := "topology";
    assert |t| == 8 && t[0] == 't';
    assert |TOPOLOGY_LOCAL_ROOT| > 8 && |TOPOLOGY_PUBLIC| > 8 && |TOPOLOGY_BOOTSTRAP| > 8 && STATIC[0] == 's';
    assert PEER_SHARING[0] == 'p' && LEDGER[0] == 'l' && BIG_LEDGER[0] == 'b';
  }

  /** The second of two peers of one class goes when the quota is one. */
  lemma UsedUp(cfg: SelectionConfig, a: Peer, b: Peer)
    requires QuotaFor(a.source, cfg) == (QuotaFor(b.source, cfg).0, 0) && QuotaFor(b.source, cfg).1 == 1
    ensures Chosen(cfg, [a, b], 0, 2) == [a]
  {
    var ps := [a, b];
    assert ps[..1] == [a] && [a][..0] == [] && ps[..0] == [];
    assert InClass(cfg, [a], QuotaFor(b.source, cfg).0) == 1;
    assert Eligible(cfg, ps, 0) && !Eligible(cfg, ps, 1);
    assert Chosen(cfg, ps, 0, 1) == [a];
  }

  class PeerSelector {
    const cfg: SelectionConfig
    var peers: map<string, Peer>

    ghost predicate Valid()
      reads this
    {
      WellKept(peers)
    }

    constructor (cfg: SelectionConfig)
      ensures Valid() && this.cfg == cfg && peers == map[]
    {
      this.cfg := cfg;
      peers := map[];
    }

    method AddPeers(ps: seq<Peer>)
      requires Valid()
      modifies this`peers
      ensures Valid() && peers == AddAll(old(peers), ps)
    {
      for i := 0 to |ps|
        invariant peers == AddAll(old(peers), ps[..i])
      {
        assert ps[..i + 1][..i] == ps[..i];
        var p := ps[i];
        if p.address == "" {
          if p.host == "" {
            continue;
          }
          p := NewPeer(p.host, p.port, p);
        }
        peers := peers[Key(p) := p];
      }
      assert ps[..|ps|] == ps;
      AddAllKeeps(old(peers), ps);
    }

    method SetPeersForSources(sources: seq<string>, ps: seq<Peer>)
      requires Valid()
      modifies this`peers
      ensures Valid() && peers == Refresh(old(peers), (set s | s in sources), ps)
    {
      var sourceSet := set s | s in sources;
      var todo := peers.Keys;
      while todo != {}
        invariant todo <= peers.Keys <= old(peers).Keys
        invariant forall k :: k in peers ==> peers[k] == old(peers)[k]
        invariant forall k :: k in old(peers) && k !in todo ==> (k in peers <==> old(peers)[k].source !in sourceSet)
      {
        var k :| k in todo;
        if peers[k].source in sourceSet {
          peers := peers - {k};
        }
        todo := todo - {k};
      }
      assert peers == Drop(old(peers), sourceSet);
      AddPeers(ps);
    }

    /** All known peers by source and address, independent of iteration order. */
    method Peers() returns (ret: seq<Peer>)
      requires Valid()
      ensures IsListing(ret, peers)
    {
      ret := [];
      var todo := peers.Keys;
      while todo != {}
        invariant todo <= peers.Keys
        invariant forall k :: k in peers ==> (k in todo <==> peers[k] !in ret)
        invariant forall p :: p in ret ==> p in peers.Values
        invariant forall i, j :: 0 <= i < j < |ret| ==> ret[i] != ret[j]
      {
        var k :| k in todo;
        ret := ret + [peers[k]];
        todo := todo - {k};
      }
      SortListing(peers, ret);
      ret := StableSort(PeerLess, ret);
    }

    /** Exactly the peers of the listing that the rank rule chooses. */
    method Select(n: int) returns (selected: seq<Peer>)
      requires Valid()
      ensures exists listing :: IsListing(listing, peers) && selected == Chosen(cfg, listing, n, |listing|)
                && (n <= 0 ==> QuotasFilled(cfg, listing, selected))
      ensures WithinQuotas(cfg, selected) && (n > 0 ==> |selected| <= n)
    {
      var ps := Peers();
      selected := [];
      var counts: map<string, nat> := map[];
      var i := 0;
      while i < |ps|
        invariant i <= |ps| && selected == Chosen(cfg, ps, n, i) && CountsRight(cfg, counts, ps[..i])
        invariant n > 0 ==> EligibleBefore(cfg, ps, i) < n
      {
        var (c, quota) := QuotaFor(ps[i].source, cfg);
        var k := Count(counts, c);
        CountDecides(cfg, counts, ps, i);
        CountsAdvance(cfg, counts, ps, i);
        if quota > 0 && k >= quota {
          i := i + 1;
          continue;
        }
        selected := selected + [ps[i]];
        counts := counts[c := k + 1];
        i := i + 1;
        ChosenCount(cfg, ps, n, i);
        if n > 0 && |selected| >= n {
          ChosenSettles(cfg, ps, n, i, |ps|);
          break;
        }
      }
      ChosenWithinQuotas(cfg, ps, n);
      if n <= 0 {
        ChosenFillsQuotas(cfg, ps, n);
      }
    }
  }
}
