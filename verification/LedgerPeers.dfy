/** Ledger peer pools: all relays of a snapshot by descending stake, and the
    relays of the big pools, chosen greedily up to nine tenths of the stake. */
module LedgerPeers {
  import opened Arithmetic
  import opened Ordering

  const STATIC := "static"
  const TOPOLOGY_LOCAL_ROOT := "topology-local-root"
  const TOPOLOGY_PUBLIC := "topology-public-root"
  const TOPOLOGY_BOOTSTRAP := "topology-bootstrap"
  const PEER_SHARING := "peer-sharing"
  const LEDGER := "ledger"
  const BIG_LEDGER := "big-ledger"

  datatype RelayKind = Unspecified | SingleHostAddress | SingleHostName | SRV

  /** IP addresses are kept in their textual form; empty means absent. */
  datatype Relay = Relay(kind: RelayKind, hostname: string, srvName: string, port: nat, ipv4: string, ipv6: string)

  datatype LedgerPeer = LedgerPeer(poolID: string, stake: uint64, relays: seq<Relay>)

  datatype Peer = Peer(address: string, host: string, port: nat, source: string, poolID: string, stake: uint64)

  function JoinHostPort(host: string, port: string): string {
    if ':' in host then "[" + host + "]:" + port else host + ":" + port
  }

  function NewPeer(host: string, port: nat, base: Peer): Peer {
    base.(host := host, port := port, address := if port == 0 then host else JoinHostPort(host, Decimal(port)))
  }

  predicate IsSRV(r: Relay) {
    r.kind == SRV || r.srvName != "" || (r.kind == Unspecified && r.hostname != "" && r.port == 0)
  }

  function RelayPeers(lp: LedgerPeer, r: Relay): seq<Peer> {
    var base := Peer("", "", 0, LEDGER, lp.poolID, lp.stake);
    if IsSRV(r) then
      var host := if r.srvName == "" then r.hostname else r.srvName;
      if host == "" then [] else [NewPeer(host, r.port, base)]
    else
      var port := if r.port == 0 then 3001 else r.port;
      (if r.hostname != "" then [NewPeer(r.hostname, port, base)] else [])
      + (if r.ipv4 != "" then [NewPeer(r.ipv4, port, base)] else [])
      + (if r.ipv6 != "" then [NewPeer(r.ipv6, port, base)] else [])
  }

  /** The address names host and port: with a port, no two pairs share one. */
  lemma AddressIdentifies(host: string, port: nat, host': string, port': nat, base: Peer, base': Peer)
    requires port > 0 && port' > 0
    ensures NewPeer(host, port, base).address == NewPeer(host', port', base').address <==> host == host' && port == port'
    ensures NewPeer(host, port, base).address == Bracketed(host) + ":" + Decimal(port)
    ensures NewPeer(host, 0, base).address == host
  {
    var a, a' := NewPeer(host, port, base).address, NewPeer(host', port', base').address;
    assert a == Bracketed(host) + ":" + Decimal(port) && a' == Bracketed(host') + ":" + Decimal(port');
    DecimalIsDecimal(port);
    DecimalIsDecimal(port');
    if a == a' {
      LastColon(Bracketed(host), Decimal(port), Bracketed(host'), Decimal(port'));
      DecimalInjective(port, port');
      BracketsIdentify(host, host');
    }
  }

  /** The length of the part behind the last colon. */
  function Behind(s: string): nat {
    if s == [] || s[|s| - 1] == ':' then 0 else 1 + Behind(s[..|s| - 1])
  }

  lemma {:induction false} BehindIs(h: string, d: string)
    requires ':' !in d
    ensures Behind(h + ":" + d) == |d|
  {
    var s := h + ":" + d;
    if d != [] {
      var n := |d| - 1;
      assert s[|s| - 1] == d[n] && s[..|s| - 1] == h + ":" + d[..n];
      BehindIs(h, d[..n]);
    }
  }

  lemma LastColon(h: string, d: string, h': string, d': string)
    requires h + ":" + d == h' + ":" + d' && ':' !in d && ':' !in d'
    ensures h == h' && d == d'
  {
    BehindIs(h, d);
    BehindIs(h', d');
    var s, s' := h + ":" + d, h' + ":" + d';
    assert s[..|h|] == h && s'[..|h'|] == h';
    assert s[|h| + 1..] == d && s'[|h'| + 1..] == d';
  }

  function Bracketed(host: string): string {
    if ':' in host then "[" + host + "]" else host
  }

  lemma BracketsIdentify(host: string, host': string)
    requires Bracketed(host) == Bracketed(host')
    ensures host == host'
  {
    var b, b' := "[" + host + "]", "[" + host' + "]";
    assert b[1..|host| + 1] == host && b'[1..|host'| + 1] == host';
    assert ':' in host <==> ':' in Bracketed(host) by {
      assert forall i :: 0 <= i < |host| ==> b[i + 1] == host[i];
    }
    assert ':' in host' <==> ':' in Bracketed(host') by {
      assert forall i :: 0 <= i < |host'| ==> b'[i + 1] == host'[i];
    }
  }

  function Hosts(ps: seq<Peer>): (r: seq<string>)
    ensures |r| == |ps| && forall i :: 0 <= i < |r| ==> r[i] == ps[i].host
  {
    seq(|ps|, i requires 0 <= i < |ps| => ps[i].host)
  }

  function NonEmpty(hosts: seq<string>): seq<string> {
    if hosts == [] then []
    else (if hosts[0] != "" then [hosts[0]] else []) + NonEmpty(hosts[1..])
  }

  /** A relay that is an SRV record by kind, by name or by a bare hostname without
      a port gives its one name; any other gives every host it has, in order, on
      port 3001 unless it names one. Every peer carries its pool's ID and stake. */
  lemma RelayPeersShape(lp: LedgerPeer, r: Relay)
    ensures var srv := r.kind == SRV || r.srvName != "" || (r.kind == Unspecified && r.hostname != "" && r.port == 0);
            && Hosts(RelayPeers(lp, r)) ==
                 NonEmpty(if srv then [if r.srvName == "" then r.hostname else r.srvName] else [r.hostname, r.ipv4, r.ipv6])
            && forall p :: p in RelayPeers(lp, r) ==>
                 && p.source == "ledger" && p.poolID == lp.poolID && p.stake == lp.stake
                 && p.host != "" && p.address != "" && p == NewPeer(p.host, p.port, p)
                 && p.port == if srv || r.port != 0 then r.port else 3001
  {
    RelayHosts(lp, r);
    RelayFields(lp, r);
  }

  lemma NonEmptyOf(a: string, b: string, c: string)
    ensures NonEmpty([a]) == if a != "" then [a] else []
    ensures NonEmpty([a, b, c]) ==
              (if a != "" then [a] else []) + (if b != "" then [b] else []) + (if c != "" then [c] else [])
  {
    assert [a, b, c][1..] == [b, c] && [b, c][1..] == [c] && [a][1..] == [] && [c][1..] == [];
    assert NonEmpty([c]) == if c != "" then [c] else [];
    assert NonEmpty([b, c]) == (if b != "" then [b] else []) + NonEmpty([c]);
  }

  lemma RelayHosts(lp: LedgerPeer, r: Relay)
    ensures Hosts(RelayPeers(lp, r)) ==
              NonEmpty(if IsSRV(r) then [if r.srvName == "" then r.hostname else r.srvName] else [r.hostname, r.ipv4, r.ipv6])
  {
    if IsSRV(r) {
      var host := if r.srvName == "" then r.hostname else r.srvName;
      NonEmptyOf(host, "", "");
    } else {
      NonEmptyOf(r.hostname, r.ipv4, r.ipv6);
    }
  }

  lemma RelayFields(lp: LedgerPeer, r: Relay)
    ensures forall p :: p in RelayPeers(lp, r) ==>
              && p.source == "ledger" && p.poolID == lp.poolID && p.stake == lp.stake
              && p.host != "" && p.address != "" && p == NewPeer(p.host, p.port, p)
              && p.port == if IsSRV(r) || r.port != 0 then r.port else 3001
  {
  }

  /** All peers of one snapshot entry. */
  function EntryPeers(lp: LedgerPeer, relays: seq<Relay>): seq<Peer> {
    Flat(Expand(lp), relays)
  }

  function Expand(lp: LedgerPeer): Relay -> seq<Peer> {
    r => RelayPeers(lp, r)
  }

  lemma EntryPeersNext(lp: LedgerPeer, relays: seq<Relay>, j: nat)
    requires j < |relays|
    ensures EntryPeers(lp, relays[..j + 1]) == EntryPeers(lp, relays[..j]) + RelayPeers(lp, relays[j])
    ensures relays[..|relays|] == relays
  {
    assert relays[..j + 1] == relays[..j] + [relays[j]];
    EntryPeersSnoc(lp, relays[..j], relays[j]);
  }

  lemma EntryPeersSnoc(lp: LedgerPeer, relays: seq<Relay>, r: Relay)
    ensures EntryPeers(lp, relays + [r]) == EntryPeers(lp, relays) + RelayPeers(lp, r)
  {
    assert (relays + [r])[..|relays|] == relays;
  }

  /** A pool is identified by its ID or, without one, by its place in the snapshot. */
  datatype PoolName = ById(id: string) | ByIndex(index: nat)

  function PoolKey(lp: LedgerPeer, index: nat): PoolName {
    if lp.poolID != "" then ById(lp.poolID) else ByIndex(index)
  }

  /** The key as the program spells it. */
  function Text(k: PoolName): string {
    match k
    case ById(id) => "pool:" + id
    case ByIndex(index) => "idx:" + Decimal(index)
  }

  /** Different keys are spelled differently, so tables by text and by key agree. */
  lemma TextInjective(a: PoolName, b: PoolName)
    requires Text(a) == Text(b)
    ensures a == b
  {
    assert Text(a)[0] == (if a.ById? then 'p' else 'i') && Text(b)[0] == (if b.ById? then 'p' else 'i');
    if a.ById? {
      assert Text(a)[5..] == a.id && Text(b)[5..] == b.id;
    } else {
      assert Text(a)[4..] == Decimal(a.index) && Text(b)[4..] == Decimal(b.index);
      DecimalInjective(a.index, b.index);
    }
  }

  /** Two entries belong to one pool exactly if they are one entry or share an ID. */
  lemma KeyIsPool(peers: seq<LedgerPeer>, i: nat, j: nat)
    requires i < |peers| && j < |peers|
    ensures PoolKey(peers[i], i) == PoolKey(peers[j], j)
       <==> i == j || (peers[i].poolID == peers[j].poolID && peers[i].poolID != "")
  {
  }

  // ---------------------------------------------------------------- pools and their stake

  datatype Pool = Pool(key: PoolName, stake: nat)

  /** The sum of the stakes. */
  function Weight(s: seq<Pool>): nat {
    if s == [] then 0 else s[0].stake + Weight(s[1..])
  }

  lemma {:induction false} WeightConcat(a: seq<Pool>, b: seq<Pool>)
    ensures Weight(a + b) == Weight(a) + Weight(b)
  {
    if a == [] {
      assert a + b == b;
    } else {
      assert (a + b)[1..] == a[1..] + b;
      WeightConcat(a[1..], b);
    }
  }

  lemma WeightSplit(s: seq<Pool>, k: nat)
    requires k <= |s|
    ensures Weight(s) == Weight(s[..k]) + Weight(s[k..])
  {
    assert s == s[..k] + s[k..];
    WeightConcat(s[..k], s[k..]);
  }

  function IndexOf(s: seq<Pool>, key: PoolName): (i: nat)
    ensures i <= |s|
    ensures i < |s| ==> s[i].key == key
    ensures forall j :: 0 <= j < i ==> s[j].key != key
  {
    if s == [] then 0 else if s[0].key == key then 0 else 1 + IndexOf(s[1..], key)
  }

  /** Records an entry's stake: a new pool at the end, or a higher maximum. */
  function Upsert(s: seq<Pool>, key: PoolName, stake: nat): seq<Pool> {
    var i := IndexOf(s, key);
    if i == |s| then s + [Pool(key, stake)]
    else if stake > s[i].stake then s[i := Pool(key, stake)]
    else s
  }

  /** One row per snapshot entry: its pool key and its stake. */
  function Entries(peers: seq<LedgerPeer>): (r: seq<Pool>)
    ensures |r| == |peers|
    ensures forall i :: 0 <= i < |r| ==> r[i] == Pool(PoolKey(peers[i], i), peers[i].stake)
  {
    seq(|peers|, i requires 0 <= i < |peers| => Pool(PoolKey(peers[i], i), peers[i].stake))
  }

  /** The pools of some entries, each with the maximum of its stakes. */
  function Pools(entries: seq<Pool>): seq<Pool> {
    if entries == [] then []
    else
      WithEntry(Pools(entries[..|entries| - 1]), entries[|entries| - 1])
  }

  /** Entries without stake do not count. */
  function WithEntry(s: seq<Pool>, e: Pool): seq<Pool> {
    if e.stake == 0 then s else Upsert(s, e.key, e.stake)
  }

  ghost predicate DistinctKeys(s: seq<Pool>) {
    forall i, j :: 0 <= i < j < |s| ==> s[i].key != s[j].key
  }

  ghost predicate Holds(s: seq<Pool>, e: Pool) {
    exists i :: 0 <= i < |s| && s[i].key == e.key && e.stake <= s[i].stake
  }

  lemma UpsertKeepsDistinct(s: seq<Pool>, key: PoolName, stake: nat)
    requires DistinctKeys(s)
    ensures DistinctKeys(Upsert(s, key, stake))
  {
  }

  lemma UpsertHolds(s: seq<Pool>, e: Pool, e': Pool)
    requires Holds(s, e') || e' == e
    ensures Holds(Upsert(s, e.key, e.stake), e')
  {
    var s' := Upsert(s, e.key, e.stake);
    if Holds(s, e') {
      var i :| 0 <= i < |s| && s[i].key == e'.key && e'.stake <= s[i].stake;
      assert s'[i].key == e'.key && e'.stake <= s'[i].stake;
    } else {
      var i := IndexOf(s, e.key);
      assert s'[i].key == e.key && e.stake <= s'[i].stake;
    }
  }

  lemma UpsertMembers(s: seq<Pool>, e: Pool, p: Pool)
    requires p in Upsert(s, e.key, e.stake)
    ensures p in s || p == e
  {
  }

  lemma NewKeyAddsWeight(s: seq<Pool>, e: Pool)
    requires forall i :: 0 <= i < |s| ==> s[i].key != e.key
    ensures Weight(WithEntry(s, e)) == Weight(s) + e.stake
  {
    WeightConcat(s, [e]);
  }

  ghost predicate HoldsAll(s: seq<Pool>, entries: seq<Pool>) {
    forall i :: 0 <= i < |entries| && entries[i].stake > 0 ==> Holds(s, entries[i])
  }

  ghost predicate RowsFrom(s: seq<Pool>, entries: seq<Pool>) {
    forall i :: 0 <= i < |s| ==> s[i].stake > 0 && s[i] in entries
  }

  lemma WithEntryHolds(s: seq<Pool>, entries: seq<Pool>, e: Pool)
    requires HoldsAll(s, entries)
    ensures HoldsAll(WithEntry(s, e), entries + [e])
  {
    forall i | 0 <= i < |entries + [e]| && (entries + [e])[i].stake > 0
      ensures Holds(WithEntry(s, e), (entries + [e])[i])
    {
      assert i < |entries| ==> Holds(s, entries[i]);
      if e.stake > 0 {
        UpsertHolds(s, e, (entries + [e])[i]);
      }
    }
  }

  lemma WithEntryRows(s: seq<Pool>, entries: seq<Pool>, e: Pool)
    requires RowsFrom(s, entries)
    ensures RowsFrom(WithEntry(s, e), entries + [e])
  {
    var s' := WithEntry(s, e);
    forall i | 0 <= i < |s'| ensures s'[i].stake > 0 && s'[i] in entries + [e] {
      if e.stake > 0 {
        UpsertMembers(s, e, s'[i]);
      }
    }
  }

  /** The table has one row per pool; every entry with stake has a row that is at
      least as high; and every row is one of the entries. So each row is the
      maximum of its pool's stakes. */
  lemma {:induction false} PoolsAreMaxima(entries: seq<Pool>)
    ensures var s := Pools(entries); DistinctKeys(s) && HoldsAll(s, entries) && RowsFrom(s, entries)
  {
    if entries != [] {
      var n := |entries| - 1;
      PoolsAreMaxima(entries[..n]);
      AddEntry(Pools(entries[..n]), entries[..n], entries[n]);
      assert entries == entries[..n] + [entries[n]];
    }
  }

  lemma AddEntry(s: seq<Pool>, entries: seq<Pool>, e: Pool)
    requires DistinctKeys(s) && HoldsAll(s, entries) && RowsFrom(s, entries)
    ensures var s' := WithEntry(s, e);
            DistinctKeys(s') && HoldsAll(s', entries + [e]) && RowsFrom(s', entries + [e])
  {
    UpsertKeepsDistinct(s, e.key, e.stake);
    WithEntryHolds(s, entries, e);
    WithEntryRows(s, entries, e);
  }

  /** The largest stake among the entries with a pool ID. */
  ghost predicate LargestOf(peers: seq<LedgerPeer>, id: string, stake: nat) {
    && (exists i :: 0 <= i < |peers| && peers[i].poolID == id && peers[i].stake == stake)
    && (forall i :: 0 <= i < |peers| && peers[i].poolID == id ==> peers[i].stake <= stake)
  }

  /** The pool table of a snapshot, exactly: one row per pool ID with stake, holding
      the largest stake of its entries; one row per entry without ID, holding its
      own stake; and no other row. */
  lemma TableOfSnapshot(peers: seq<LedgerPeer>, id: string, index: nat, stake: nat)
    ensures DistinctKeys(Pools(Entries(peers)))
    ensures Pool(ById(id), stake) in Pools(Entries(peers)) <==> id != "" && stake > 0 && LargestOf(peers, id, stake)
    ensures Pool(ByIndex(index), stake) in Pools(Entries(peers))
       <==> index < |peers| && peers[index].poolID == "" && peers[index].stake == stake > 0
  {
    PoolsAreMaxima(Entries(peers));
    NamedRow(peers, id, stake);
    UnnamedRow(peers, index, stake);
  }

  lemma NamedRow(peers: seq<LedgerPeer>, id: string, stake: nat)
    ensures Pool(ById(id), stake) in Pools(Entries(peers)) <==> id != "" && stake > 0 && LargestOf(peers, id, stake)
  {
    PoolsAreMaxima(Entries(peers));
    if Pool(ById(id), stake) in Pools(Entries(peers)) {
      RowIsLargest(peers, Pools(Entries(peers)), id, stake);
    }
    if id != "" && stake > 0 && LargestOf(peers, id, stake) {
      LargestHasRow(peers, Pools(Entries(peers)), id, stake);
    }
  }

  lemma RowIsLargest(peers: seq<LedgerPeer>, s: seq<Pool>, id: string, stake: nat)
    requires DistinctKeys(s) && HoldsAll(s, Entries(peers)) && RowsFrom(s, Entries(peers)) && Pool(ById(id), stake) in s
    ensures id != "" && stake > 0 && LargestOf(peers, id, stake)
  {
    var entries := Entries(peers);
    var r :| 0 <= r < |s| && s[r] == Pool(ById(id), stake);
    var i :| 0 <= i < |entries| && entries[i] == s[r];
    assert peers[i].poolID == id && peers[i].stake == stake;
    forall j | 0 <= j < |peers| && peers[j].poolID == id ensures peers[j].stake <= stake {
      RowCovers(s, entries, j, r);
    }
  }

  lemma LargestHasRow(peers: seq<LedgerPeer>, s: seq<Pool>, id: string, stake: nat)
    requires HoldsAll(s, Entries(peers)) && RowsFrom(s, Entries(peers))
    requires id != "" && stake > 0 && LargestOf(peers, id, stake)
    ensures Pool(ById(id), stake) in s
  {
    var i :| 0 <= i < |peers| && peers[i].poolID == id && peers[i].stake == stake;
    var r, j := RowOf(s, Entries(peers), i);
    KeyIsPool(peers, i, j);
    assert peers[j].poolID == id;
  }

  lemma RowOf(s: seq<Pool>, entries: seq<Pool>, i: nat) returns (r: nat, j: nat)
    requires HoldsAll(s, entries) && RowsFrom(s, entries) && i < |entries| && entries[i].stake > 0
    ensures r < |s| && s[r].key == entries[i].key && entries[i].stake <= s[r].stake
    ensures j < |entries| && entries[j] == s[r]
  {
    assert Holds(s, entries[i]);
    r :| 0 <= r < |s| && s[r].key == entries[i].key && entries[i].stake <= s[r].stake;
    j :| 0 <= j < |entries| && entries[j] == s[r];
  }

  /** The row with an entry's key holds at least the entry's stake. */
  lemma RowCovers(s: seq<Pool>, entries: seq<Pool>, j: nat, r: nat)
    requires DistinctKeys(s) && HoldsAll(s, entries) && j < |entries| && r < |s| && s[r].key == entries[j].key
    ensures entries[j].stake <= s[r].stake
  {
    if entries[j].stake > 0 {
      assert Holds(s, entries[j]);
      var i :| 0 <= i < |s| && s[i].key == entries[j].key && entries[j].stake <= s[i].stake;
    }
  }

  lemma UnnamedRow(peers: seq<LedgerPeer>, index: nat, stake: nat)
    ensures Pool(ByIndex(index), stake) in Pools(Entries(peers))
       <==> index < |peers| && peers[index].poolID == "" && peers[index].stake == stake > 0
  {
    PoolsAreMaxima(Entries(peers));
    var s := Pools(Entries(peers));
    if Pool(ByIndex(index), stake) in s {
      RowWithoutID(peers, s, index, stake);
    }
    if index < |peers| && peers[index].poolID == "" && peers[index].stake == stake > 0 {
      var r, j := RowOf(s, Entries(peers), index);
      KeyIsPool(peers, index, j);
    }
  }

  lemma RowWithoutID(peers: seq<LedgerPeer>, s: seq<Pool>, index: nat, stake: nat)
    requires RowsFrom(s, Entries(peers)) && Pool(ByIndex(index), stake) in s
    ensures index < |peers| && peers[index].poolID == "" && peers[index].stake == stake > 0
  {
    var r :| 0 <= r < |s| && s[r] == Pool(ByIndex(index), stake);
    var i :| 0 <= i < |Entries(peers)| && Entries(peers)[i] == s[r];
  }

  // ---------------------------------------------------------------- greedy selection

  /** Descending stake, ties by key. */
  predicate PoolLess(a: Pool, b: Pool) {
    if a.stake == b.stake then Before(Text(a.key), Text(b.key)) else a.stake > b.stake
  }

  /** Ties: pools without ID first, by the text of their index; then by ID. */
  lemma TieOrder(a: PoolName, b: PoolName, stake: nat)
    ensures PoolLess(Pool(a, stake), Pool(b, stake)) <==>
              if a.ById? && b.ById? then Before(a.id, b.id)
              else if a.ByIndex? && b.ByIndex? then Before(Decimal(a.index), Decimal(b.index))
              else a.ByIndex?
  {
    if a.ById? && b.ById? {
      BeforeCommonPrefix("pool:", a.id, b.id);
    } else if a.ByIndex? && b.ByIndex? {
      BeforeCommonPrefix("idx:", Decimal(a.index), Decimal(b.index));
    } else {
      assert Text(a)[0] == (if a.ById? then 'p' else 'i') && Text(b)[0] == (if b.ById? then 'p' else 'i');
    }
  }

  lemma PoolLessIsWeak()
    ensures StrictWeak(PoolLess)
  {
    forall a, b | PoolLess(a, b) ensures !PoolLess(b, a) {
      if a.stake == b.stake && Before(Text(b.key), Text(a.key)) {
        BeforeTransitive(Text(a.key), Text(b.key), Text(a.key));
        BeforeIrreflexive(Text(a.key));
      }
    }
    forall a, b, c | !PoolLess(b, a) && !PoolLess(c, b) ensures !PoolLess(c, a) {
      if PoolLess(c, a) && a.stake == b.stake == c.stake {
        NotBeforeTransitive(Text(c.key), Text(b.key), Text(a.key));
      }
    }
  }

  lemma NotBeforeTransitive(c: string, b: string, a: string)
    requires !Before(b, a) && !Before(c, b)
    ensures !Before(c, a)
  {
    BeforeTotal(a, b);
    BeforeTotal(b, c);
    if a != b && b != c {
      BeforeTransitive(a, b, c);
    }
    if Before(c, a) && Before(a, c) {
      BeforeTransitive(a, c, a);
    }
    BeforeIrreflexive(a);
  }

  function Threshold(total: nat): nat {
    total - total / 10
  }

  /** How many of the pools are taken: at least one of them as long as there is
      one, then until the wrapping uint64 accumulator reaches the threshold. */
  function Greedy(s: seq<Pool>, acc: nat, threshold: nat): (k: nat)
    ensures k <= |s|
  {
    if s == [] then 0
    else
      var acc' := (acc + s[0].stake) % TWO_64;
      if acc' >= threshold then 1 else 1 + Greedy(s[1..], acc', threshold)
  }

  /** The selected pools, in descending order. */
  function Selected(pools: seq<Pool>): seq<Pool> {
    Top(StableSort(PoolLess, pools), Weight(pools) % TWO_64)
  }

  function Top(s: seq<Pool>, total: nat): seq<Pool> {
    if total == 0 then [] else s[..Greedy(s, 0, Threshold(total))]
  }

  /** Without wrap-around, the greedy prefix is the shortest one that reaches. */
  lemma {:induction false} GreedyIsShortestPrefix(s: seq<Pool>, acc: nat, threshold: nat)
    requires acc + Weight(s) < TWO_64 && acc < threshold <= acc + Weight(s)
    ensures var k := Greedy(s, acc, threshold);
            0 < k && acc + Weight(s[..k]) >= threshold && acc + Weight(s[..k - 1]) < threshold
  {
    var acc' := acc + s[0].stake;
    assert acc' % TWO_64 == acc';
    if acc' >= threshold {
      assert s[..1] == [s[0]] && s[..1][1..] == [];
    } else {
      GreedyIsShortestPrefix(s[1..], acc', threshold);
      var k := Greedy(s[1..], acc', threshold);
      PrefixWeight(s, k + 1);
      PrefixWeight(s, k);
    }
  }

  /** In any case, wrap-around included: the first non-empty prefix whose wrapped
      sum reaches the threshold, or everything. */
  lemma {:induction false} GreedyStops(s: seq<Pool>, acc: nat, threshold: nat, j: nat)
    requires 0 < j <= |s|
    ensures var k := Greedy(s, acc, threshold);
            && k > 0
            && (j < k ==> (acc + Weight(s[..j])) % TWO_64 < threshold)
            && (j == k < |s| ==> (acc + Weight(s[..j])) % TWO_64 >= threshold)
  {
    var acc' := (acc + s[0].stake) % TWO_64;
    PrefixWeight(s, j);
    if j == 1 {
      assert s[1..][..0] == [];
    } else if acc' < threshold {
      GreedyStops(s[1..], acc', threshold, j - 1);
      WrapAdds(acc + s[0].stake, Weight(s[1..][..j - 1]));
    }
  }

  /** What is selected, for every table of pools: a prefix of the pools in
      descending order, the first whose sum reaches the total less a tenth of it,
      all sums modulo 2^64; nothing when the total is zero. */
  lemma SelectedExactly(pools: seq<Pool>, j: nat)
    ensures var s, total := StableSort(PoolLess, pools), Weight(pools) % TWO_64;
            var k := |Selected(pools)|;
            && multiset(s) == multiset(pools) && Descending(s)
            && k <= |s| && Selected(pools) == s[..k] && (k == 0 <==> total == 0)
            && (0 < j < k ==> Weight(s[..j]) % TWO_64 < total - total / 10)
            && (0 < k < |s| ==> Weight(s[..k]) % TWO_64 >= total - total / 10)
  {
    var s := SortedPools(pools);
    SelectsNothingExactlyWhen(pools);
    TopStops(s, Weight(pools) % TWO_64, j);
  }

  lemma TopStops(s: seq<Pool>, total: nat, j: nat)
    ensures var k := |Top(s, total)|;
            && k <= |s| && Top(s, total) == s[..k]
            && (0 < j < k ==> Weight(s[..j]) % TWO_64 < total - total / 10)
            && (0 < k < |s| ==> Weight(s[..k]) % TWO_64 >= total - total / 10)
  {
    var k := |Top(s, total)|;
    if 0 < k {
      GreedyStops(s, 0, Threshold(total), k);
      if 0 < j < k {
        GreedyStops(s, 0, Threshold(total), j);
      }
    }
  }

  lemma PrefixWeight(s: seq<Pool>, k: nat)
    requires 0 < k <= |s|
    ensures Weight(s[..k]) == s[0].stake + Weight(s[1..][..k - 1])
  {
    assert s[..k][1..] == s[1..][..k - 1];
  }

  function Without(c: seq<Pool>, i: nat): seq<Pool>
    requires i < |c|
  {
    c[..i] + c[i + 1..]
  }

  lemma WithoutWeight(c: seq<Pool>, i: nat)
    requires i < |c|
    ensures Weight(c) == c[i].stake + Weight(Without(c, i))
  {
    WeightSplit(c, i);
    assert c[i..][1..] == c[i + 1..];
    WeightConcat(c[..i], c[i + 1..]);
  }

  lemma WithoutMultiset(c: seq<Pool>, i: nat)
    requires i < |c|
    ensures multiset(Without(c, i)) == multiset(c) - multiset{c[i]} && c[i] in multiset(c)
  {
    assert c == c[..i] + ([c[i]] + c[i + 1..]);
    assert multiset(c) == multiset(c[..i]) + multiset{c[i]} + multiset(c[i + 1..]);
  }

  function FirstAt(c: seq<Pool>, x: Pool): (i: nat)
    requires x in c
    ensures i < |c| && c[i] == x
  {
    if c[0] == x then 0 else 1 + FirstAt(c[1..], x)
  }

  ghost predicate Descending(s: seq<Pool>) {
    forall i, j :: 0 <= i < j < |s| ==> s[i].stake >= s[j].stake
  }

  lemma SortedIsDescending(s: seq<Pool>)
    requires Sorted(PoolLess, s)
    ensures Descending(s)
  {
    forall i, j | 0 <= i < j < |s| ensures s[i].stake >= s[j].stake {
      assert !PoolLess(s[j], s[i]);
    }
  }

  lemma TopStake(s: seq<Pool>, x: Pool)
    requires Descending(s) && x in multiset(s)
    ensures s != [] && x.stake <= s[0].stake
  {
    assert x in s;
  }

  /** The exchange argument: no choice of pools weighs more than the same number
      of top ones. */
  lemma {:induction false} TopIsHeaviest(s: seq<Pool>, c: seq<Pool>)
    requires Descending(s) && multiset(c) <= multiset(s)
    ensures |c| <= |s| && Weight(c) <= Weight(s[..|c|])
  {
    if c != [] {
      var i := TakeOut(s, c);
      TopStake(s, c[i]);
      WithoutWeight(c, i);
      TopIsHeaviest(s[1..], Without(c, i));
      PrefixWeight(s, |c|);
    }
  }

  /** Some element can be taken out of the choice so that the rest avoids the top. */
  lemma TakeOut(s: seq<Pool>, c: seq<Pool>) returns (i: nat)
    requires c != [] && multiset(c) <= multiset(s)
    ensures i < |c| && s != [] && c[i] in multiset(s) && multiset(Without(c, i)) <= multiset(s[1..])
  {
    assert c[0] in multiset(s);
    i := if s[0] in c then FirstAt(c, s[0]) else 0;
    WithoutMultiset(c, i);
    WithoutMultiset(s, 0);
    assert Without(s, 0) == s[1..];
  }

  lemma {:induction false} WeightOfPermutation(a: seq<Pool>, b: seq<Pool>)
    requires multiset(a) == multiset(b)
    ensures Weight(a) == Weight(b)
  {
    if a == [] {
      assert |multiset(b)| == 0;
    } else {
      assert a[0] in multiset(b);
      var i := FirstAt(b, a[0]);
      WithoutMultiset(a, 0);
      WithoutMultiset(b, i);
      WithoutWeight(b, i);
      assert Without(a, 0) == a[1..];
      WeightOfPermutation(a[1..], Without(b, i));
    }
  }

  /** Greedy selection is optimal: the selected pools are some of the pools, hold
      at least nine tenths of the total of per-pool maxima, and no choice of fewer
      pools, in any order, does. */
  lemma GreedyIsOptimal(pools: seq<Pool>, choice: seq<Pool>)
    requires 0 < Weight(pools) < TWO_64
    ensures var chosen := Selected(pools);
            && multiset(chosen) <= multiset(pools)
            && 10 * Weight(chosen) >= 9 * Weight(pools)
            && (multiset(choice) <= multiset(pools) && 10 * Weight(choice) >= 9 * Weight(pools) ==>
                  |choice| >= |chosen|)
  {
    var s := SortedPools(pools);
    SmallMod(Weight(pools));
    SelectedHoldsMost(pools);
    if multiset(choice) <= multiset(s) && 10 * Weight(choice) >= 9 * Weight(s) {
      NoFewerReach(s, choice);
    }
  }

  lemma SelectedHoldsMost(pools: seq<Pool>)
    requires 0 < Weight(pools) < TWO_64
    ensures multiset(Selected(pools)) <= multiset(pools) && 10 * Weight(Selected(pools)) >= 9 * Weight(pools)
  {
    var s := SortedPools(pools);
    SmallMod(Weight(pools));
    GreedyReaches(s);
    PrefixMultiset(s, Greedy(s, 0, Threshold(Weight(s))));
  }

  lemma SmallMod(w: nat)
    requires w < TWO_64
    ensures w % TWO_64 == w
  {
  }

  lemma PrefixMultiset(s: seq<Pool>, k: nat)
    requires k <= |s|
    ensures multiset(s[..k]) <= multiset(s)
  {
    assert s == s[..k] + s[k..];
  }

  lemma GreedyReaches(s: seq<Pool>)
    requires 0 < Weight(s) < TWO_64
    ensures var k := Greedy(s, 0, Threshold(Weight(s)));
            && 0 < k && Weight(s[..k]) >= Threshold(Weight(s)) && 10 * Weight(s[..k]) >= 9 * Weight(s)
            && Weight(s[..k - 1]) < Threshold(Weight(s))
  {
    GreedyIsShortestPrefix(s, 0, Threshold(Weight(s)));
  }

  lemma NoFewerReach(s: seq<Pool>, choice: seq<Pool>)
    requires Descending(s) && 0 < Weight(s) < TWO_64
    requires multiset(choice) <= multiset(s) && Weight(choice) >= Threshold(Weight(s))
    ensures |choice| >= Greedy(s, 0, Threshold(Weight(s)))
  {
    var k := Greedy(s, 0, Threshold(Weight(s)));
    GreedyReaches(s);
    TopIsHeaviest(s, choice);
    if |choice| < k {
      PrefixWeighsLess(s, |choice|, k - 1);
    }
  }

  lemma SortedPools(pools: seq<Pool>) returns (s: seq<Pool>)
    ensures s == StableSort(PoolLess, pools)
    ensures Descending(s) && multiset(s) == multiset(pools) && Weight(s) == Weight(pools)
  {
    s := StableSort(PoolLess, pools);
    StableSortPermutes(PoolLess, pools);
    PoolLessIsWeak();
    StableSortSorts(PoolLess, pools);
    SortedIsDescending(s);
    WeightOfPermutation(s, pools);
  }

  lemma PrefixWeighsLess(s: seq<Pool>, a: nat, b: nat)
    requires a <= b <= |s|
    ensures Weight(s[..a]) <= Weight(s[..b])
  {
    assert s[..b][..a] == s[..a];
    WeightSplit(s[..b], a);
  }

  /** The total must fit: nothing is selected exactly when the total is a
      multiple of 2^64, however much stake that is. */
  lemma SelectsNothingExactlyWhen(pools: seq<Pool>)
    ensures Selected(pools) == [] <==> Weight(pools) % TWO_64 == 0
  {
    if Weight(pools) % TWO_64 != 0 {
      var s := SortedPools(pools);
      assert s != [];
      assert Greedy(s, 0, Threshold(Weight(pools) % TWO_64)) > 0;
    }
  }

  // ---------------------------------------------------------------- the two peer lists

  predicate AllLess(a: Peer, b: Peer) {
    if a.stake == b.stake then Before(a.address, b.address) else a.stake > b.stake
  }

  lemma AllLessIsWeak()
    ensures StrictWeak(AllLess)
  {
    forall a, b | AllLess(a, b) ensures !AllLess(b, a) {
      if a.stake == b.stake && Before(b.address, a.address) {
        BeforeTransitive(a.address, b.address, a.address);
        BeforeIrreflexive(a.address);
      }
    }
    forall a, b, c | !AllLess(b, a) && !AllLess(c, b) ensures !AllLess(c, a) {
      if AllLess(c, a) && a.stake == b.stake == c.stake {
        NotBeforeTransitive(c.address, b.address, a.address);
      }
    }
  }

  /** The peers of the snapshot entries whose pool key is among `keys`. */
  function PeersOf(peers: seq<LedgerPeer>, keys: set<PoolName>): seq<Peer> {
    if peers == [] then []
    else
      var n := |peers| - 1;
      PeersOf(peers[..n], keys) + if PoolKey(peers[n], n) in keys then EntryPeers(peers[n], peers[n].relays) else []
  }

  /** The peers of all snapshot entries. */
  function AllPeers(peers: seq<LedgerPeer>): seq<Peer> {
    Flat(ExpandEntry(), peers)
  }

  function ExpandEntry(): LedgerPeer -> seq<Peer> {
    (lp: LedgerPeer) => EntryPeers(lp, lp.relays)
  }

  lemma AllPeersSnoc(peers: seq<LedgerPeer>, lp: LedgerPeer)
    ensures AllPeers(peers + [lp]) == AllPeers(peers) + EntryPeers(lp, lp.relays)
  {
    assert (peers + [lp])[..|peers|] == peers;
  }

  function WithSource(ps: seq<Peer>, source: string): (r: seq<Peer>)
    ensures |r| == |ps|
    ensures forall i :: 0 <= i < |r| ==> r[i] == ps[i].(source := source)
  {
    seq(|ps|, i requires 0 <= i < |ps| => ps[i].(source := source))
  }

  function KeySet(s: seq<Pool>): set<PoolName> {
    set p | p in s :: p.key
  }

  function SelectedKeys(peers: seq<LedgerPeer>): set<PoolName> {
    KeySet(Selected(Pools(Entries(peers))))
  }

  /** Entry `i` belongs to a selected pool. */
  ghost predicate EntrySelected(peers: seq<LedgerPeer>, i: nat)
    requires i < |peers|
  {
    exists row :: row in Selected(Pools(Entries(peers))) &&
      row.key == if peers[i].poolID != "" then ById(peers[i].poolID) else ByIndex(i)
  }

  ghost predicate RelayOf(lp: LedgerPeer, p: Peer) {
    exists r :: r in lp.relays && p in RelayPeers(lp, r)
  }

  /** Nothing is added, dropped or reordered: the peers of a snapshot are those of
      its parts, down to the peers of single relays. */
  lemma AllPeersConcat(a: seq<LedgerPeer>, b: seq<LedgerPeer>)
    ensures AllPeers(a + b) == AllPeers(a) + AllPeers(b)
  {
    FlatConcat(ExpandEntry(), a, b);
  }

  lemma AllPeersOfOne(lp: LedgerPeer, r: Relay)
    requires lp.relays == [r]
    ensures AllPeers([lp]) == RelayPeers(lp, r)
  {
    assert [lp] == [] + [lp] && [r] == [] + [r];
    AllPeersSnoc([], lp);
    EntryPeersSnoc(lp, [], r);
  }

  lemma EntryPeersConcat(lp: LedgerPeer, a: seq<Relay>, b: seq<Relay>)
    ensures EntryPeers(lp, a + b) == EntryPeers(lp, a) + EntryPeers(lp, b)
  {
    FlatConcat(Expand(lp), a, b);
  }

  lemma EntryPeersMember(lp: LedgerPeer, p: Peer)
    ensures p in EntryPeers(lp, lp.relays) <==> RelayOf(lp, p)
  {
    FlatMember(Expand(lp), lp.relays, p);
  }

  ghost predicate Contributes(lp: LedgerPeer, i: nat, keys: set<PoolName>, p: Peer) {
    PoolKey(lp, i) in keys && RelayOf(lp, p)
  }

  lemma {:induction false} PeersOfMember(peers: seq<LedgerPeer>, keys: set<PoolName>, p: Peer)
    ensures p in PeersOf(peers, keys) <==> exists i :: 0 <= i < |peers| && Contributes(peers[i], i, keys, p)
  {
    if peers != [] {
      var n := |peers| - 1;
      PeersOfMember(peers[..n], keys, p);
      PeersOfSnoc(peers, keys, p);
      SnocContributes(peers, keys, p);
    }
  }

  lemma PeersOfSnoc(peers: seq<LedgerPeer>, keys: set<PoolName>, p: Peer)
    requires peers != []
    ensures var n := |peers| - 1; p in PeersOf(peers, keys) <==> p in PeersOf(peers[..n], keys) || Contributes(peers[n], n, keys, p)
  {
    var n := |peers| - 1;
    EntryPeersMember(peers[n], p);
  }

  lemma SnocContributes(peers: seq<LedgerPeer>, keys: set<PoolName>, p: Peer)
    requires peers != []
    ensures var n := |peers| - 1;
            (exists i :: 0 <= i < |peers| && Contributes(peers[i], i, keys, p)) <==>
            (exists i :: 0 <= i < n && Contributes(peers[..n][i], i, keys, p)) || Contributes(peers[n], n, keys, p)
  {
    var n := |peers| - 1;
    assert forall i :: 0 <= i < n ==> peers[..n][i] == peers[i];
  }

  /** The big list holds exactly the relay peers of the entries whose pool was selected. */
  lemma BigExactly(peers: seq<LedgerPeer>, p: Peer)
    ensures p in PeersOf(peers, SelectedKeys(peers)) <==>
              exists i :: 0 <= i < |peers| && EntrySelected(peers, i) && RelayOf(peers[i], p)
  {
    var keys := SelectedKeys(peers);
    PeersOfMember(peers, keys, p);
    forall i | 0 <= i < |peers|
      ensures Contributes(peers[i], i, keys, p) <==> EntrySelected(peers, i) && RelayOf(peers[i], p)
    {
      SelectedByKey(peers, i);
    }
  }

  lemma SelectedByKey(peers: seq<LedgerPeer>, i: nat)
    requires i < |peers|
    ensures PoolKey(peers[i], i) in SelectedKeys(peers) <==> EntrySelected(peers, i)
  {
    var s := Selected(Pools(Entries(peers)));
    if PoolKey(peers[i], i) in SelectedKeys(peers) {
      var row :| row in s && row.key == PoolKey(peers[i], i);
      assert EntrySelected(peers, i);
    }
  }

  lemma EntryPeersAreLedger(lp: LedgerPeer, relays: seq<Relay>)
    ensures forall p :: p in EntryPeers(lp, relays) ==> p.source == LEDGER
  {
    forall p | p in EntryPeers(lp, relays) ensures p.source == LEDGER {
      FlatMember(Expand(lp), relays, p);
      var r :| r in relays && p in Expand(lp)(r);
      RelayPeersShape(lp, r);
    }
  }

  lemma {:induction false} PeersOfWithinAll(peers: seq<LedgerPeer>, keys: set<PoolName>)
    ensures multiset(PeersOf(peers, keys)) <= multiset(AllPeers(peers))
    ensures forall p :: p in PeersOf(peers, keys) ==> p.source == LEDGER
  {
    if peers != [] {
      var n := |peers| - 1;
      PeersOfWithinAll(peers[..n], keys);
      EntryPeersAreLedger(peers[n], peers[n].relays);
    }
  }

  lemma {:induction false} AllPeersAreLedger(peers: seq<LedgerPeer>)
    ensures forall p :: p in AllPeers(peers) ==> p.source == LEDGER
  {
    if peers != [] {
      AllPeersAreLedger(peers[..|peers| - 1]);
      EntryPeersAreLedger(peers[|peers| - 1], peers[|peers| - 1].relays);
    }
  }

  /** `all` is a permutation of every relay peer, by descending stake and then
      address; and `big`, with its source reset, is exactly the relay peers of the
      entries whose pool was selected, hence part of `all`. */
  lemma BigContainedInAll(peers: seq<LedgerPeer>, all: seq<Peer>, big: seq<Peer>)
    requires all == StableSort(AllLess, AllPeers(peers))
    requires big == WithSource(PeersOf(peers, SelectedKeys(peers)), BIG_LEDGER)
    ensures multiset(all) == multiset(AllPeers(peers))
    ensures forall i, j :: 0 <= i < j < |all| ==>
              all[i].stake > all[j].stake || (all[i].stake == all[j].stake && !Before(all[j].address, all[i].address))
    ensures WithSource(big, LEDGER) == PeersOf(peers, SelectedKeys(peers))
    ensures multiset(WithSource(big, LEDGER)) <= multiset(all)
    ensures forall p :: p in big ==> p.source == "big-ledger"
  {
    StableSortPermutes(AllLess, AllPeers(peers));
    AllLessIsWeak();
    StableSortSorts(AllLess, AllPeers(peers));
    forall i, j | 0 <= i < j < |all|
      ensures all[i].stake > all[j].stake || (all[i].stake == all[j].stake && !Before(all[j].address, all[i].address))
    {
      assert !AllLess(all[j], all[i]);
    }
    PeersOfWithinAll(peers, SelectedKeys(peers));
    var ps := PeersOf(peers, SelectedKeys(peers));
    forall i | 0 <= i < |ps| ensures WithSource(big, LEDGER)[i] == ps[i] {
      assert ps[i] in ps;
    }
    assert WithSource(big, LEDGER) == ps;
  }

  // ---------------------------------------------------------------- the loops

  /** The pool table as the loop keeps it: an order of keys and a map of stakes. */
  function Table(order: seq<PoolName>, stakes: map<PoolName, uint64>): (r: seq<Pool>)
    requires forall k :: k in order ==> k in stakes
    ensures |r| == |order|
    ensures forall i :: 0 <= i < |r| ==> r[i] == Pool(order[i], stakes[order[i]])
  {
    seq(|order|, i requires 0 <= i < |order| => Pool(order[i], stakes[order[i]]))
  }

  ghost predicate TableMatches(order: seq<PoolName>, stakes: map<PoolName, uint64>, table: seq<Pool>) {
    && (forall k :: k in order <==> k in stakes)
    && DistinctKeys(table) && Table(order, stakes) == table
  }

  lemma UpsertWeight(s: seq<Pool>, e: Pool)
    ensures var i := IndexOf(s, e.key);
            Weight(Upsert(s, e.key, e.stake)) ==
              if i == |s| then Weight(s) + e.stake
              else if e.stake > s[i].stake then Weight(s) + (e.stake - s[i].stake) else Weight(s)
  {
    var i := IndexOf(s, e.key);
    if i == |s| {
      WeightConcat(s, [e]);
    } else if e.stake > s[i].stake {
      var s' := s[i := Pool(e.key, e.stake)];
      WithoutWeight(s, i);
      WithoutWeight(s', i);
      assert Without(s', i) == Without(s, i);
    }
  }

  lemma WrapAdds(w: nat, d: nat)
    ensures (w % TWO_64 + d) % TWO_64 == (w + d) % TWO_64
  {
  }

  lemma TableAppends(order: seq<PoolName>, stakes: map<PoolName, uint64>, e: Pool, table: seq<Pool>)
    requires TableMatches(order, stakes, table) && e.stake < TWO_64 && e.key !in stakes
    ensures IndexOf(table, e.key) == |table|
    ensures TableMatches(order + [e.key], stakes[e.key := e.stake], table + [e])
  {
    assert forall i :: 0 <= i < |table| ==> table[i].key in order;
    assert Table(order + [e.key], stakes[e.key := e.stake]) == table + [e];
  }

  lemma TableFinds(order: seq<PoolName>, stakes: map<PoolName, uint64>, key: PoolName, table: seq<Pool>)
    requires TableMatches(order, stakes, table) && key in stakes
    ensures var at := IndexOf(table, key); at < |table| && order[at] == key && table[at] == Pool(key, stakes[key])
  {
    var k :| 0 <= k < |order| && order[k] == key;
    assert table[k].key == key;
  }

  lemma TableRaises(order: seq<PoolName>, stakes: map<PoolName, uint64>, e: Pool, table: seq<Pool>)
    requires TableMatches(order, stakes, table) && e.stake < TWO_64 && e.key in stakes
    ensures var at := IndexOf(table, e.key);
            at < |table| && table[at] == Pool(e.key, stakes[e.key])
            && TableMatches(order, stakes[e.key := e.stake], table[at := e])
  {
    TableFinds(order, stakes, e.key, table);
    var at := IndexOf(table, e.key);
    var raised := stakes[e.key := e.stake];
    forall i | 0 <= i < |order| ensures Table(order, raised)[i] == table[at := e][i] {
      assert table[i].key == order[i];
      assert i != at ==> table[i].key != table[at].key;
    }
  }

  lemma AppendsTable(order: seq<PoolName>, stakes: map<PoolName, uint64>, e: Pool, table: seq<Pool>)
    requires TableMatches(order, stakes, table) && e.stake < TWO_64 && e.key !in stakes
    ensures TableMatches(order + [e.key], stakes[e.key := e.stake], Upsert(table, e.key, e.stake))
    ensures Weight(Upsert(table, e.key, e.stake)) == Weight(table) + e.stake
  {
    TableAppends(order, stakes, e, table);
    UpsertWeight(table, e);
  }

  lemma RaisesTable(order: seq<PoolName>, stakes: map<PoolName, uint64>, e: Pool, table: seq<Pool>)
    requires TableMatches(order, stakes, table) && e.stake < TWO_64 && e.key in stakes && e.stake > stakes[e.key]
    ensures TableMatches(order, stakes[e.key := e.stake], Upsert(table, e.key, e.stake))
    ensures Weight(Upsert(table, e.key, e.stake)) == Weight(table) + (e.stake - stakes[e.key])
  {
    TableRaises(order, stakes, e, table);
    UpsertWeight(table, e);
    var at := IndexOf(table, e.key);
    assert Upsert(table, e.key, e.stake) == table[at := e];
  }

  lemma KeepsTable(order: seq<PoolName>, stakes: map<PoolName, uint64>, e: Pool, table: seq<Pool>)
    requires TableMatches(order, stakes, table) && e.key in stakes && e.stake <= stakes[e.key]
    ensures Upsert(table, e.key, e.stake) == table
  {
    TableFinds(order, stakes, e.key, table);
  }

  /** One turn of the per-pool maximum loop. */
  method Record(order: seq<PoolName>, stakes: map<PoolName, uint64>, total: uint64, e: Pool, ghost table: seq<Pool>)
      returns (order': seq<PoolName>, stakes': map<PoolName, uint64>, total': uint64)
    requires TableMatches(order, stakes, table) && total == Weight(table) % TWO_64 && 0 < e.stake < TWO_64
    ensures TableMatches(order', stakes', Upsert(table, e.key, e.stake))
    ensures total' == Weight(Upsert(table, e.key, e.stake)) % TWO_64
  {
    if e.key !in stakes {
      AppendsTable(order, stakes, e, table);
      WrapAdds(Weight(table), e.stake);
      order', stakes', total' := order + [e.key], stakes[e.key := e.stake], (total + e.stake) % TWO_64;
    } else if e.stake > stakes[e.key] {
      RaisesTable(order, stakes, e, table);
      WrapAdds(Weight(table), e.stake - stakes[e.key]);
      order', stakes', total' := order, stakes[e.key := e.stake], (total + (e.stake - stakes[e.key])) % TWO_64;
    } else {
      KeepsTable(order, stakes, e, table);
      order', stakes', total' := order, stakes, total;
    }
  }

  method PoolMaxima(peers: seq<LedgerPeer>) returns (order: seq<PoolName>, stakes: map<PoolName, uint64>, total: uint64)
    ensures TableMatches(order, stakes, Pools(Entries(peers)))
    ensures total == Weight(Pools(Entries(peers))) % TWO_64
  {
    order, stakes, total := [], map[], 0;
    ghost var entries := Entries(peers);
    for i := 0 to |peers|
      invariant TableMatches(order, stakes, Pools(entries[..i]))
      invariant total == Weight(Pools(entries[..i])) % TWO_64
    {
      assert entries[..i + 1][..i] == entries[..i];
      if peers[i].stake != 0 {
        order, stakes, total :=
          Record(order, stakes, total, Pool(PoolKey(peers[i], i), peers[i].stake), Pools(entries[..i]));
      }
    }
    assert entries[..|peers|] == entries;
  }

  method GreedyPrefix(s: seq<Pool>, threshold: uint64) returns (keys: set<PoolName>)
    ensures keys == KeySet(s[..Greedy(s, 0, threshold)])
  {
    keys := {};
    var acc: uint64 := 0;
    var i := 0;
    while i < |s|
      invariant i <= |s| && keys == KeySet(s[..i])
      invariant Greedy(s, 0, threshold) == i + Greedy(s[i..], acc, threshold)
    {
      assert s[..i + 1] == s[..i] + [s[i]] && s[i..][1..] == s[i + 1..];
      keys := keys + {s[i].key};
      acc := (acc + s[i].stake) % TWO_64;
      i := i + 1;
      if acc >= threshold {
        break;
      }
    }
  }

  method BigLedgerPeers(peers: seq<LedgerPeer>) returns (big: seq<Peer>)
    ensures big == WithSource(PeersOf(peers, SelectedKeys(peers)), BIG_LEDGER)
  {
    var order, stakes, total := PoolMaxima(peers);
    var keys := SelectKeys(Table(order, stakes), total);
    big := CollectBig(peers, keys);
  }

  method SelectKeys(pools: seq<Pool>, total: uint64) returns (keys: set<PoolName>)
    requires total == Weight(pools) % TWO_64
    ensures keys == KeySet(Selected(pools))
  {
    keys := {};
    if total != 0 {
      keys := GreedyPrefix(StableSort(PoolLess, pools), total - total / 10);
    }
  }

  lemma WithSourceConcat(a: seq<Peer>, b: seq<Peer>, source: string)
    ensures WithSource(a + b, source) == WithSource(a, source) + WithSource(b, source)
  {
  }

  method CollectBig(peers: seq<LedgerPeer>, keys: set<PoolName>) returns (big: seq<Peer>)
    ensures big == WithSource(PeersOf(peers, keys), BIG_LEDGER)
  {
    big := [];
    for i := 0 to |peers|
      invariant big == WithSource(PeersOf(peers[..i], keys), BIG_LEDGER)
    {
      assert peers[..i + 1][..i] == peers[..i];
      if PoolKey(peers[i], i) in keys {
        var marked := MarkBig(peers[i]);
        WithSourceConcat(PeersOf(peers[..i], keys), EntryPeers(peers[i], peers[i].relays), BIG_LEDGER);
        big := big + marked;
      } else {
        assert PeersOf(peers[..i + 1], keys) == PeersOf(peers[..i], keys);
      }
    }
    assert peers[..|peers|] == peers;
  }

  method MarkBig(lp: LedgerPeer) returns (marked: seq<Peer>)
    ensures marked == WithSource(EntryPeers(lp, lp.relays), BIG_LEDGER)
  {
    marked := [];
    var relays := lp.relays;
    for j := 0 to |relays|
      invariant marked == WithSource(EntryPeers(lp, relays[..j]), BIG_LEDGER)
    {
      EntryPeersNext(lp, relays, j);
      WithSourceConcat(EntryPeers(lp, relays[..j]), RelayPeers(lp, relays[j]), BIG_LEDGER);
      marked := marked + WithSource(RelayPeers(lp, relays[j]), BIG_LEDGER);
    }
    assert relays[..|relays|] == relays;
  }

  method CollectEntry(lp: LedgerPeer) returns (ps: seq<Peer>)
    ensures ps == EntryPeers(lp, lp.relays)
  {
    ps := [];
    var relays := lp.relays;
    for j := 0 to |relays|
      invariant ps == EntryPeers(lp, relays[..j])
    {
      EntryPeersNext(lp, relays, j);
      ps := ps + RelayPeers(lp, relays[j]);
    }
    assert relays[..|relays|] == relays;
  }

  method BuildLedgerPeerPools(peers: seq<LedgerPeer>) returns (all: seq<Peer>, big: seq<Peer>)
    ensures all == StableSort(AllLess, AllPeers(peers))
    ensures big == WithSource(PeersOf(peers, SelectedKeys(peers)), BIG_LEDGER)
  {
    all := [];
    for i := 0 to |peers|
      invariant all == AllPeers(peers[..i])
    {
      assert peers[..i + 1] == peers[..i] + [peers[i]];
      AllPeersSnoc(peers[..i], peers[i]);
      var ps := CollectEntry(peers[i]);
      all := all + ps;
    }
    assert peers[..|peers|] == peers;
    all := StableSort(AllLess, all);
    big := BigLedgerPeers(peers);
  }
}
