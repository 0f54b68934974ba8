/**
 The accounting of the telegram pool, on values: what the hash index, the slot
 gauge and the pending counter promise about the contents of the accounts, and
 how each kind of change keeps the promise.
 */
module PoolBooks {
  import opened Common
  import opened Sums
  import opened PoolAccount
  import opened SlotGauge
  import opened Telegrams

  // ---------- what the index promises ----------

  /** `t` is the telegram that the index knows under its hash. */
  ghost predicate Known(hash: Telegram -> Hash, index: map<Hash, Telegram>, t: Telegram) {
    hash(t) in index && index[hash(t)] == t
  }

  /** Different telegrams have different hashes. */
  ghost predicate CollisionFree(hash: Telegram -> Hash) {
    forall t: Telegram, u: Telegram :: hash(t) == hash(u) ==> t == u
  }

  ghost predicate QueuedFine(hash: Telegram -> Hash, index: map<Hash, Telegram>, inflight: set<Telegram>,
                             a: Address, m: multiset<Telegram>, t: Telegram) {
    t in m ==> t.from == a && Known(hash, index, t) && m[t] == 1 && t !in inflight
  }

  ghost predicate InflightFine(hash: Telegram -> Hash, index: map<Hash, Telegram>, floor: map<Address, nat>, t: Telegram) {
    t.from in floor && (Known(hash, index, t) || t.nonce < floor[t.from])
  }

  /**
   Every queued telegram is in the index and queued once, at its sender's
   account; one on its way is in the index too, unless its nonce is already
   used on chain.
   */
  ghost predicate IndexFine(hash: Telegram -> Hash, index: map<Hash, Telegram>, queued: map<Address, multiset<Telegram>>,
                            inflight: set<Telegram>, floor: map<Address, nat>) {
    && queued.Keys == floor.Keys
    && (forall a, t: Telegram | a in queued :: QueuedFine(hash, index, inflight, a, queued[a], t))
    && (forall t | t in inflight :: InflightFine(hash, index, floor, t))
  }

  /** Two queued telegrams with the same hash are one and the same entry of one queue. */
  lemma NoSharedHash(hash: Telegram -> Hash, index: map<Hash, Telegram>, queued: map<Address, multiset<Telegram>>,
                     inflight: set<Telegram>, floor: map<Address, nat>, a: Address, t: Telegram, b: Address, u: Telegram)
    requires IndexFine(hash, index, queued, inflight, floor)
    requires a in queued && t in queued[a] && b in queued && u in queued[b] && hash(t) == hash(u)
    ensures t == u && a == b && queued[a][t] == 1
  {
    assert QueuedFine(hash, index, inflight, a, queued[a], t);
    assert QueuedFine(hash, index, inflight, b, queued[b], u);
  }

  function Without(index: map<Hash, Telegram>, hash: Telegram -> Hash, ts: seq<Telegram>): map<Hash, Telegram> {
    map h | h in index && (forall t | t in ts :: hash(t) != h) :: index[h]
  }

  lemma WithoutKeeps(hash: Telegram -> Hash, index: map<Hash, Telegram>, ts: seq<Telegram>, t: Telegram)
    requires CollisionFree(hash) && Known(hash, index, t) && t !in ts
    ensures Known(hash, Without(index, hash, ts), t)
  {
  }

  /** Taking telegrams out of a queue and out of the index together is fine. */
  lemma RemoveFine(hash: Telegram -> Hash, index: map<Hash, Telegram>, queued: map<Address, multiset<Telegram>>,
                   inflight: set<Telegram>, floor: map<Address, nat>, a: Address, left: multiset<Telegram>, gone: seq<Telegram>)
    requires CollisionFree(hash) && IndexFine(hash, index, queued, inflight, floor)
    requires a in queued && queued[a] == left + multiset(gone)
    ensures IndexFine(hash, Without(index, hash, gone), queued[a := left], inflight, floor)
  {
    hide CollisionFree, Without;
    var index', queued' := Without(index, hash, gone), queued[a := left];
    forall b, t: Telegram | b in queued' ensures QueuedFine(hash, index', inflight, b, queued'[b], t) {
      assert QueuedFine(hash, index, inflight, b, queued[b], t);
      assert QueuedFine(hash, index, inflight, a, queued[a], t);
      assert queued[a][t] == left[t] + multiset(gone)[t];
      assert t in gone <==> t in multiset(gone);
      if t in queued'[b] {
        WithoutKeeps(hash, index, gone, t);
      }
    }
    forall t | t in inflight ensures InflightFine(hash, index', floor, t) {
      assert InflightFine(hash, index, floor, t);
      assert QueuedFine(hash, index, inflight, a, queued[a], t);
      assert t in gone <==> t in multiset(gone);
      if Known(hash, index, t) {
        WithoutKeeps(hash, index, gone, t);
      }
    }
  }

  /** Queues may lose telegrams that stay in the index. */
  lemma TakeFine(hash: Telegram -> Hash, index: map<Hash, Telegram>, queued: map<Address, multiset<Telegram>>,
                 inflight: set<Telegram>, floor: map<Address, nat>, a: Address, left: multiset<Telegram>)
    requires IndexFine(hash, index, queued, inflight, floor) && a in queued && left <= queued[a]
    ensures IndexFine(hash, index, queued[a := left], inflight, floor)
  {
    var queued' := queued[a := left];
    forall b, t: Telegram | b in queued' ensures QueuedFine(hash, index, inflight, b, queued'[b], t) {
      assert QueuedFine(hash, index, inflight, b, queued[b], t);
      assert left[t] <= queued[a][t];
    }
  }

  /** A telegram arrives at its account. */
  lemma ArriveFine(hash: Telegram -> Hash, index: map<Hash, Telegram>, queued: map<Address, multiset<Telegram>>,
                   inflight: set<Telegram>, floor: map<Address, nat>, t: Telegram)
    requires IndexFine(hash, index, queued, inflight, floor) && t in inflight && Known(hash, index, t)
    ensures t.from in queued
    ensures IndexFine(hash, index, queued[t.from := queued[t.from] + multiset{t}], inflight - {t}, floor)
  {
    assert InflightFine(hash, index, floor, t);
    var queued' := queued[t.from := queued[t.from] + multiset{t}];
    forall b, u: Telegram | b in queued' ensures QueuedFine(hash, index, inflight - {t}, b, queued'[b], u) {
      assert QueuedFine(hash, index, inflight, b, queued[b], u);
      assert QueuedFine(hash, index, inflight, b, queued[b], t);
    }
  }

  /** A telegram is turned away. */
  lemma RejectFine(hash: Telegram -> Hash, index: map<Hash, Telegram>, queued: map<Address, multiset<Telegram>>,
                   inflight: set<Telegram>, floor: map<Address, nat>, t: Telegram)
    requires CollisionFree(hash) && IndexFine(hash, index, queued, inflight, floor) && t in inflight
    ensures IndexFine(hash, Without(index, hash, [t]), queued, inflight - {t}, floor)
  {
    hide CollisionFree, Without;
    var index' := Without(index, hash, [t]);
    forall b, u: Telegram | b in queued ensures QueuedFine(hash, index', inflight - {t}, b, queued[b], u) {
      assert QueuedFine(hash, index, inflight, b, queued[b], u);
      if u in queued[b] {
        WithoutKeeps(hash, index, [t], u);
      }
    }
    forall u | u in inflight - {t} ensures InflightFine(hash, index', floor, u) {
      assert InflightFine(hash, index, floor, u);
      if Known(hash, index, u) {
        WithoutKeeps(hash, index, [t], u);
      }
    }
  }

  /** A new telegram, unknown to the index, sets out. */
  lemma SendFine(hash: Telegram -> Hash, index: map<Hash, Telegram>, queued: map<Address, multiset<Telegram>>,
                 inflight: set<Telegram>, floor: map<Address, nat>, t: Telegram)
    requires IndexFine(hash, index, queued, inflight, floor)
    requires hash(t) !in index && t.from in queued
    ensures IndexFine(hash, index[hash(t) := t], queued, inflight + {t}, floor)
  {
    var index' := index[hash(t) := t];
    forall b, u: Telegram | b in queued ensures QueuedFine(hash, index', inflight + {t}, b, queued[b], u) {
      assert QueuedFine(hash, index, inflight, b, queued[b], u);
    }
    forall u | u in inflight + {t} ensures InflightFine(hash, index', floor, u) {
      assert u != t ==> InflightFine(hash, index, floor, u);
    }
  }

  /** A new account has nothing queued. */
  lemma OpenFine(hash: Telegram -> Hash, index: map<Hash, Telegram>, queued: map<Address, multiset<Telegram>>,
                 inflight: set<Telegram>, floor: map<Address, nat>, a: Address, nonce: nat)
    requires IndexFine(hash, index, queued, inflight, floor) && a !in queued
    ensures IndexFine(hash, index, queued[a := multiset{}], inflight, floor[a := nonce])
  {
    var queued', floor' := queued[a := multiset{}], floor[a := nonce];
    forall b, u: Telegram | b in queued' ensures QueuedFine(hash, index, inflight, b, queued'[b], u) {
      assert b != a ==> QueuedFine(hash, index, inflight, b, queued[b], u);
    }
    forall u | u in inflight ensures InflightFine(hash, index, floor', u) {
      assert InflightFine(hash, index, floor, u);
    }
  }

  // ---------- the books ----------

  ghost function Queued(c: Contents): multiset<Telegram> {
    multiset(c.enqueued) + multiset(c.promoted)
  }

  ghost function QueuedMap(cs: map<Address, Contents>): map<Address, multiset<Telegram>> {
    map a | a in cs :: Queued(cs[a])
  }

  ghost function SlotMap(cs: map<Address, Contents>): map<Address, nat> {
    map a | a in cs :: Slots(Queued(cs[a]))
  }

  ghost function CountMap(cs: map<Address, Contents>): map<Address, nat> {
    map a | a in cs :: |cs[a].promoted|
  }

  /** Slots of all queued telegrams, and the number of all promoted ones. */
  ghost function TotalSlots(cs: map<Address, Contents>): nat {
    Sum(SlotMap(cs))
  }

  ghost function TotalPromoted(cs: map<Address, Contents>): nat {
    Sum(CountMap(cs))
  }

  lemma ReplaceTotals(cs: map<Address, Contents>, a: Address, c: Contents)
    ensures QueuedMap(cs[a := c]) == QueuedMap(cs)[a := Queued(c)]
    ensures TotalSlots(cs[a := c]) == TotalSlots(cs) + Slots(Queued(c)) - (if a in cs then Slots(Queued(cs[a])) else 0)
    ensures TotalPromoted(cs[a := c]) == TotalPromoted(cs) + |c.promoted| - (if a in cs then |cs[a].promoted| else 0)
  {
    hide Sum, Slots, Queued;
    assert QueuedMap(cs[a := c]) == QueuedMap(cs)[a := Queued(c)];
    SumUpdate(SlotMap(cs), a, Slots(Queued(c)));
    assert SlotMap(cs[a := c]) == SlotMap(cs)[a := Slots(Queued(c))];
    SumUpdate(CountMap(cs), a, |c.promoted|);
    assert CountMap(cs[a := c]) == CountMap(cs)[a := |c.promoted|];
  }

  /** The contents are in the nonce window and above what the chain has used. */
  ghost predicate AccountFine(c: Contents, max: nat, floor: nat) {
    InWindow(c, max) && floor <= c.next && forall t | t in Queued(c) :: t.nonce >= floor
  }

  /** All that the pool keeps. */
  datatype State = State(index: map<Hash, Telegram>, contents: map<Address, Contents>, inflight: set<Telegram>,
                         floor: map<Address, nat>, height: nat, pending: int)

  /**
   The accounting: every account is in its window, the index is in order, the
   gauge shows the slots of everything queued, and pending counts everything
   promoted.
   */
  ghost predicate Books(hash: Telegram -> Hash, max: nat, s: State) {
    && s.contents.Keys == s.floor.Keys
    && (forall a | a in s.contents :: AccountFine(s.contents[a], max, s.floor[a]))
    && IndexFine(hash, s.index, QueuedMap(s.contents), s.inflight, s.floor)
    && s.height == TotalSlots(s.contents) % U64
    && s.pending == TotalPromoted(s.contents)
  }

  lemma EmptyBooks(hash: Telegram -> Hash, max: nat)
    ensures Books(hash, max, State(map[], map[], {}, map[], 0, 0))
  {
    SumEmpty(SlotMap(map[]));
    SumEmpty(CountMap(map[]));
  }

  /** One account changes, and with it the index, the floor and the counters. */
  lemma Rebook(hash: Telegram -> Hash, max: nat, s: State, s': State, a: Address, c: Contents)
    requires Books(hash, max, s) && s'.contents == s.contents[a := c]
    requires s'.floor.Keys == s.floor.Keys + {a} && forall b | b in s.floor && b != a :: s'.floor[b] == s.floor[b]
    requires AccountFine(c, max, s'.floor[a])
    requires IndexFine(hash, s'.index, QueuedMap(s.contents)[a := Queued(c)], s'.inflight, s'.floor)
    requires s'.height == (TotalSlots(s.contents) + Slots(Queued(c)) - (if a in s.contents then Slots(Queued(s.contents[a])) else 0)) % U64
    requires s'.pending == s.pending + |c.promoted| - (if a in s.contents then |s.contents[a].promoted| else 0)
    ensures Books(hash, max, s')
  {
    hide TotalSlots, TotalPromoted, QueuedMap, Slots, Queued, IndexFine, AccountFine;
    ReplaceTotals(s.contents, a, c);
    forall b | b in s'.contents ensures AccountFine(s'.contents[b], max, s'.floor[b]) {
      assert b != a ==> AccountFine(s.contents[b], max, s.floor[b]);
    }
  }

  lemma OpenBooks(hash: Telegram -> Hash, max: nat, s: State, a: Address, nonce: nat)
    requires Books(hash, max, s) && a !in s.contents
    ensures Books(hash, max, s.(contents := s.contents[a := Contents([], [], [], nonce)], floor := s.floor[a := nonce]))
  {
    hide TotalSlots, TotalPromoted, Slots, IndexFine;
    var c := Contents([], [], [], nonce);
    assert Queued(c) == multiset{};
    SlotsEmpty(Queued(c));
    OpenFine(hash, s.index, QueuedMap(s.contents), s.inflight, s.floor, a, nonce);
    Rebook(hash, max, s, s.(contents := s.contents[a := c], floor := s.floor[a := nonce]), a, c);
  }

  lemma SendBooks(hash: Telegram -> Hash, max: nat, s: State, t: Telegram)
    requires Books(hash, max, s) && hash(t) !in s.index && t.from in s.contents
    ensures Books(hash, max, s.(index := s.index[hash(t) := t], inflight := s.inflight + {t}))
  {
    hide TotalSlots, TotalPromoted, IndexFine, AccountFine;
    SendFine(hash, s.index, QueuedMap(s.contents), s.inflight, s.floor, t);
  }

  lemma RejectBooks(hash: Telegram -> Hash, max: nat, s: State, t: Telegram)
    requires CollisionFree(hash) && Books(hash, max, s) && t in s.inflight
    ensures Books(hash, max, s.(index := Without(s.index, hash, [t]), inflight := s.inflight - {t}))
  {
    hide TotalSlots, TotalPromoted, IndexFine, AccountFine, CollisionFree, Without, QueuedMap;
    RejectFine(hash, s.index, QueuedMap(s.contents), s.inflight, s.floor, t);
  }

  /** The account of a telegram on its way is open. */
  lemma InflightHasAccount(hash: Telegram -> Hash, max: nat, s: State, t: Telegram)
    requires Books(hash, max, s) && t in s.inflight
    ensures t.from in s.contents
  {
    assert InflightFine(hash, s.index, s.floor, t);
  }

  lemma ArriveContents(was: Contents, c: Contents, t: Telegram, max: nat, floor: nat)
    requires AccountFine(was, max, floor) && InWindow(c, max) && was.next <= t.nonce
    requires c == was.(enqueued := c.enqueued) && multiset(c.enqueued) == multiset(was.enqueued) + multiset{t}
    ensures Queued(c) == Queued(was) + multiset{t} && AccountFine(c, max, floor)
  {
    hide InWindow;
    assert Queued(c) == Queued(was) + multiset{t};
  }

  /** A telegram on its way that its account accepts has not been mined. */
  lemma NotUsed(hash: Telegram -> Hash, max: nat, s: State, t: Telegram)
    requires Books(hash, max, s) && t in s.inflight && t.from in s.contents && s.contents[t.from].next <= t.nonce
    ensures Known(hash, s.index, t)
  {
    hide InWindow, QueuedMap, TotalSlots, TotalPromoted;
    assert InflightFine(hash, s.index, s.floor, t);
    assert AccountFine(s.contents[t.from], max, s.floor[t.from]);
  }

  lemma ArriveBooks(hash: Telegram -> Hash, max: nat, s: State, t: Telegram, c: Contents)
    requires Books(hash, max, s) && t in s.inflight && t.from in s.contents
    requires var was := s.contents[t.from];
             InWindow(c, max) && was.next <= t.nonce && c == was.(enqueued := c.enqueued)
             && multiset(c.enqueued) == multiset(was.enqueued) + multiset{t}
    ensures Books(hash, max, s.(contents := s.contents[t.from := c], inflight := s.inflight - {t},
                                height := Increase(s.height, SlotsFor(t))))
  {
    hide TotalSlots, TotalPromoted, Slots, SlotsFor, IndexFine, InWindow, Queued, AccountFine;
    var a := t.from;
    var was := s.contents[a];
    NotUsed(hash, max, s, t);
    ArriveFine(hash, s.index, QueuedMap(s.contents), s.inflight, s.floor, t);
    ArriveContents(was, c, t, max, s.floor[a]);
    SlotsUnion(Queued(was), multiset{t});
    SlotsOne(t);
    GaugeFollows(TotalSlots(s.contents), SlotsFor(t));
    Rebook(hash, max, s, s.(contents := s.contents[a := c], inflight := s.inflight - {t},
                            height := Increase(s.height, SlotsFor(t))), a, c);
  }

  /** Telegrams leave an account for good: out of the index, out of the gauge. */
  lemma LeaveBooks(hash: Telegram -> Hash, max: nat, s: State, a: Address, c: Contents, gone: seq<Telegram>)
    requires CollisionFree(hash) && Books(hash, max, s) && a in s.contents
    requires AccountFine(c, max, s.floor[a]) && Queued(s.contents[a]) == Queued(c) + multiset(gone)
    ensures Books(hash, max, s.(index := Without(s.index, hash, gone), contents := s.contents[a := c],
                                height := Decrease(s.height, Slots(multiset(gone))),
                                pending := s.pending + |c.promoted| - |s.contents[a].promoted|))
  {
    hide TotalPromoted, Slots, IndexFine, AccountFine, CollisionFree, Without, Queued;
    var was := s.contents[a];
    RemoveFine(hash, s.index, QueuedMap(s.contents), s.inflight, s.floor, a, Queued(c), gone);
    SlotsUnion(Queued(c), multiset(gone));
    TotalAtLeast(s.contents, a);
    GaugeFollows(TotalSlots(s.contents), Slots(multiset(gone)));
    Rebook(hash, max, s, s.(index := Without(s.index, hash, gone), contents := s.contents[a := c],
                            height := Decrease(s.height, Slots(multiset(gone))),
                            pending := s.pending + |c.promoted| - |was.promoted|), a, c);
  }

  lemma TotalAtLeast(cs: map<Address, Contents>, a: Address)
    requires a in cs
    ensures Slots(Queued(cs[a])) <= TotalSlots(cs)
  {
    hide Sum, Slots, Queued;
    SumTakeOut(SlotMap(cs), a);
  }

  /** A telegram is handed to the block builder: it stays in the index until it is mined. */
  lemma TakeBooks(hash: Telegram -> Hash, max: nat, s: State, a: Address, c: Contents, t: Telegram)
    requires Books(hash, max, s) && a in s.contents
    requires AccountFine(c, max, s.floor[a]) && Queued(s.contents[a]) == Queued(c) + multiset{t}
    requires |s.contents[a].promoted| == |c.promoted| + 1
    ensures Books(hash, max, s.(contents := s.contents[a := c], height := Decrease(s.height, SlotsFor(t)), pending := s.pending - 1))
  {
    hide TotalPromoted, Slots, SlotsFor, IndexFine, AccountFine, Queued;
    TakeFine(hash, s.index, QueuedMap(s.contents), s.inflight, s.floor, a, Queued(c));
    SlotsUnion(Queued(c), multiset{t});
    SlotsOne(t);
    TotalAtLeast(s.contents, a);
    GaugeFollows(TotalSlots(s.contents), SlotsFor(t));
    Rebook(hash, max, s, s.(contents := s.contents[a := c], height := Decrease(s.height, SlotsFor(t)), pending := s.pending - 1), a, c);
  }

  /** The chain has moved on for an account. */
  lemma RaiseFloor(hash: Telegram -> Hash, max: nat, s: State, a: Address, nonce: nat)
    requires Books(hash, max, s) && a in s.contents && nonce >= s.floor[a] && AccountFine(s.contents[a], max, nonce)
    ensures Books(hash, max, s.(floor := s.floor[a := nonce]))
  {
    hide TotalSlots, TotalPromoted, QueuedMap, AccountFine, Known;
    var floor := s.floor[a := nonce];
    forall t | t in s.inflight ensures InflightFine(hash, s.index, floor, t) {
      assert InflightFine(hash, s.index, s.floor, t);
    }
    forall b | b in s.contents ensures AccountFine(s.contents[b], max, floor[b]) {
      assert b != a ==> AccountFine(s.contents[b], max, s.floor[b]);
    }
  }

  /** Mined telegrams leave the index; none of them can still be queued. */
  lemma MinedBooks(hash: Telegram -> Hash, max: nat, s: State, mined: seq<Telegram>)
    requires CollisionFree(hash) && Books(hash, max, s)
    requires forall t | t in mined && t.from in s.floor :: t.nonce < s.floor[t.from]
    ensures Books(hash, max, s.(index := Without(s.index, hash, mined)))
  {
    hide TotalSlots, TotalPromoted, CollisionFree, Without, Known, AccountFine, QueuedMap;
    var q, index := QueuedMap(s.contents), Without(s.index, hash, mined);
    forall a, t: Telegram | a in q ensures QueuedFine(hash, index, s.inflight, a, q[a], t) {
      assert QueuedFine(hash, s.index, s.inflight, a, q[a], t);
      if t in q[a] {
        QueuedAbove(hash, max, s, a, t);
        WithoutKeeps(hash, s.index, mined, t);
      }
    }
    forall t | t in s.inflight ensures InflightFine(hash, index, s.floor, t) {
      assert InflightFine(hash, s.index, s.floor, t);
      if t !in mined && Known(hash, s.index, t) {
        WithoutKeeps(hash, s.index, mined, t);
      }
    }
  }

  lemma QueuedAbove(hash: Telegram -> Hash, max: nat, s: State, a: Address, t: Telegram)
    requires Books(hash, max, s) && a in QueuedMap(s.contents) && t in QueuedMap(s.contents)[a]
    ensures a in s.floor && t.nonce >= s.floor[a]
  {
    hide TotalSlots, TotalPromoted, IndexFine, InWindow;
    assert AccountFine(s.contents[a], max, s.floor[a]);
  }

  lemma WithoutCommutes(hash: Telegram -> Hash, index: map<Hash, Telegram>, p: seq<Telegram>, q: seq<Telegram>)
    ensures Without(Without(index, hash, p), hash, q) == Without(Without(index, hash, q), hash, p)
  {
  }

  lemma WithoutTwice(hash: Telegram -> Hash, index: map<Hash, Telegram>, p: seq<Telegram>, q: seq<Telegram>)
    ensures Without(Without(index, hash, p), hash, q) == Without(index, hash, p + q)
  {
  }

  /** A promotion, or the pruning of one, as a change of contents. */
  lemma PromoteContents(was: Contents, c: Contents, moved: seq<Telegram>, pruned: seq<Telegram>, max: nat, floor: nat)
    requires AccountFine(was, max, floor) && InWindow(c, max)
    requires c.line == was.line + moved && c.next == was.next + |moved|
    requires multiset(was.enqueued) == multiset(c.enqueued) + multiset(moved) + multiset(pruned)
    ensures AccountFine(c, max, floor) && Queued(was) == Queued(c) + multiset(pruned)
    ensures |c.promoted| == |was.promoted| + |moved|
  {
    SameSize(was.promoted, was.line);
    SameSize(c.promoted, c.line);
    PartOf(Queued(c), multiset(pruned), Queued(was));
  }

  lemma SameSize(p: seq<Telegram>, q: seq<Telegram>)
    requires multiset(p) == multiset(q)
    ensures |p| == |q|
  {
    assert |multiset(p)| == |p| && |multiset(q)| == |q|;
  }

  lemma PartOf(m: multiset<Telegram>, n: multiset<Telegram>, whole: multiset<Telegram>)
    requires whole == m + n
    ensures forall t | t in m :: t in whole
  {
  }

  /** The first of the line is handed out. */
  lemma TakeContents(was: Contents, c: Contents, t: Telegram, max: nat, floor: nat)
    requires AccountFine(was, max, floor) && InWindow(c, max)
    requires was.line == [t] + c.line && c.next == was.next && c.enqueued == was.enqueued
    ensures AccountFine(c, max, floor) && Queued(was) == Queued(c) + multiset{t}
    ensures |was.promoted| == |c.promoted| + 1
  {
    SameSize(was.promoted, was.line);
    SameSize(c.promoted, c.line);
    PartOf(Queued(c), multiset{t}, Queued(was));
  }

  /** An emptied account, rolled back to a nonce not below the floor. */
  lemma ClearContents(was: Contents, max: nat, floor: nat, nonce: nat)
    requires nonce >= floor
    ensures AccountFine(Contents([], [], [], nonce), max, floor)
    ensures Queued(was) == Queued(Contents([], [], [], nonce)) + multiset(was.promoted + was.enqueued)
  {
    assert Queued(Contents([], [], [], nonce)) == multiset{};
  }

  /** A reset prunes both queues below the nonce of the chain. */
  lemma ResetContents(was: Contents, c: Contents, p: seq<Telegram>, e: seq<Telegram>, max: nat, floor: nat, nonce: nat)
    requires AccountFine(was, max, floor) && InWindow(c, max) && c.next >= was.next && c.next >= nonce
    requires multiset(was.promoted) == multiset(c.promoted) + multiset(p)
    requires multiset(was.enqueued) == multiset(c.enqueued) + multiset(e)
    requires forall t | t in c.promoted || t in c.enqueued :: t.nonce >= nonce
    ensures AccountFine(c, max, floor) && AccountFine(c, max, nonce)
    ensures Queued(was) == Queued(c) + multiset(p + e) && |was.promoted| == |c.promoted| + |p|
  {
    hide InWindow;
    assert multiset(p + e) == multiset(p) + multiset(e);
    assert Queued(was) == Queued(c) + multiset(p + e);
    PartOf(Queued(c), multiset(p + e), Queued(was));
    assert |multiset(was.promoted)| == |was.promoted| && |multiset(c.promoted)| == |c.promoted| && |multiset(p)| == |p|;
    forall t | t in Queued(c) ensures t.nonce >= nonce {
      assert t in c.enqueued <==> t in multiset(c.enqueued);
      assert t in c.promoted <==> t in multiset(c.promoted);
    }
  }

  /** Taking the same telegrams off the gauge at once or in two goes. */
  lemma TwoDecreases(sum: nat, p: multiset<Telegram>, q: multiset<Telegram>)
    requires Slots(p + q) <= sum
    ensures Decrease(Decrease(sum % U64, Slots(p)), Slots(q)) == Decrease(sum % U64, Slots(p + q)) == (sum - Slots(p + q)) % U64
  {
    hide Slots, Decrease, Increase;
    SlotsUnion(p, q);
    GaugeFollows(sum, Slots(p));
    GaugeFollows(sum - Slots(p), Slots(q));
    GaugeFollows(sum, Slots(p + q));
  }

  lemma WithoutSame(hash: Telegram -> Hash, index: map<Hash, Telegram>, p: seq<Telegram>, q: seq<Telegram>)
    requires forall t :: t in p <==> t in q
    ensures Without(index, hash, p) == Without(index, hash, q)
  {
  }

  /** The state of a pool whose index, gauge and counter are exactly as the accounts demand. */
  ghost function Settled(index: map<Hash, Telegram>, contents: map<Address, Contents>, inflight: set<Telegram>,
                         floor: map<Address, nat>): State
  {
    State(index, contents, inflight, floor, TotalSlots(contents) % U64, TotalPromoted(contents))
  }

  ghost function Max(x: nat, y: nat): nat {
    if x < y then y else x
  }

  /** One account of a settled pool is reset. */
  lemma ResetBooks(hash: Telegram -> Hash, max: nat, index: map<Hash, Telegram>, contents: map<Address, Contents>,
                   inflight: set<Telegram>, floor: map<Address, nat>,
                   a: Address, c: Contents, p: seq<Telegram>, e: seq<Telegram>, nonce: nat)
    requires CollisionFree(hash) && Books(hash, max, Settled(index, contents, inflight, floor)) && a in contents && a in floor
    requires AccountFine(c, max, floor[a]) && AccountFine(c, max, nonce)
    requires Queued(contents[a]) == Queued(c) + multiset(p + e) && |contents[a].promoted| == |c.promoted| + |p|
    ensures Books(hash, max, Settled(Without(index, hash, p + e), contents[a := c], inflight, floor[a := Max(floor[a], nonce)]))
    ensures TotalSlots(contents) == TotalSlots(contents[a := c]) + Slots(multiset(p)) + Slots(multiset(e))
    ensures TotalPromoted(contents) == TotalPromoted(contents[a := c]) + |p|
  {
    hide TotalSlots, TotalPromoted, AccountFine, CollisionFree, Without, Queued, Slots, IndexFine, QueuedMap;
    var s := Settled(index, contents, inflight, floor);
    LeaveBooks(hash, max, s, a, c, p + e);
    var s' := Settled(Without(index, hash, p + e), contents[a := c], inflight, floor);
    assert Books(hash, max, s');
    RaiseFloor(hash, max, s', a, Max(floor[a], nonce));
    ReplaceTotals(contents, a, c);
    assert multiset(p + e) == multiset(p) + multiset(e);
    SlotsUnion(Queued(c), multiset(p + e));
    SlotsUnion(multiset(p), multiset(e));
  }

  /** What a reset to a nonce does to an account: a prefix of the line goes, and the expected nonce never falls. */
  ghost predicate ResetTo(was: Contents, c: Contents, nonce: nat) {
    && |c.line| <= |was.line| && c.line == was.line[|was.line| - |c.line|..]
    && c.next == Max(was.next, nonce)
    && forall t :: t in Queued(c) <==> t in Queued(was) && t.nonce >= nonce
  }

  lemma ResetMeans(was: Contents, c: Contents, p: seq<Telegram>, e: seq<Telegram>, nonce: nat, k: nat)
    requires k <= |was.line| && c.line == was.line[k..] && c.next == Max(was.next, nonce)
    requires Queued(was) == Queued(c) + multiset(p + e)
    requires forall t | t in Queued(c) :: t.nonce >= nonce
    requires forall t | t in p || t in e :: t.nonce < nonce
    ensures ResetTo(was, c, nonce)
  {
    forall t ensures t in Queued(c) <==> t in Queued(was) && t.nonce >= nonce {
      assert t in multiset(p + e) <==> t in p + e;
    }
  }

  /** Pruned telegrams not yet taken off the index, the gauge and the counter. */
  ghost predicate Owed(start: map<Address, Contents>, contents: map<Address, Contents>, p: seq<Telegram>, e: seq<Telegram>) {
    && TotalSlots(start) == TotalSlots(contents) + Slots(multiset(p)) + Slots(multiset(e))
    && TotalPromoted(start) == TotalPromoted(contents) + |p|
  }

  /** What pruning the queues of one account means for it and for the whole pool. */
  /** What was below a nonce is gone from both queues: `p` from the promoted ones and the first `k` of the line, `e` from the others. */
  ghost predicate Trimmed(was: Contents, c: Contents, p: seq<Telegram>, e: seq<Telegram>, nonce: nat, k: nat, max: nat) {
    && InWindow(c, max) && c.next == Max(was.next, nonce)
    && k <= |was.line| && c.line == was.line[k..]
    && multiset(was.promoted) == multiset(c.promoted) + multiset(p)
    && multiset(was.enqueued) == multiset(c.enqueued) + multiset(e)
    && (forall t | t in c.promoted || t in c.enqueued :: t.nonce >= nonce)
    && (forall t | t in p || t in e :: t.nonce < nonce)
  }

  lemma ResetPool(hash: Telegram -> Hash, max: nat, index: map<Hash, Telegram>, contents: map<Address, Contents>,
                  inflight: set<Telegram>, floor: map<Address, nat>,
                  a: Address, c: Contents, p: seq<Telegram>, e: seq<Telegram>, nonce: nat, k: nat)
    requires CollisionFree(hash) && Books(hash, max, Settled(index, contents, inflight, floor)) && a in contents && a in floor
    requires AccountFine(contents[a], max, floor[a]) && Trimmed(contents[a], c, p, e, nonce, k, max)
    ensures Books(hash, max, Settled(Without(index, hash, p + e), contents[a := c], inflight, floor[a := Max(floor[a], nonce)]))
    ensures Owed(contents, contents[a := c], p, e) && ResetTo(contents[a], c, nonce)
  {
    hide TotalSlots, TotalPromoted, CollisionFree, Without, Queued, Slots, IndexFine, QueuedMap, InWindow, Books, ResetTo;
    ResetContents(contents[a], c, p, e, max, floor[a], nonce);
    ResetMeans(contents[a], c, p, e, nonce, k);
    ResetBooks(hash, max, index, contents, inflight, floor, a, c, p, e, nonce);
  }

  /** The accounts named in `nonces` and not in `todo` are reset; the others are as they were. */
  ghost predicate ResetBut(was: map<Address, Contents>, now: map<Address, Contents>, floor: map<Address, nat>,
                           nonces: map<Address, nat>, todo: set<Address>) {
    && now.Keys == was.Keys == floor.Keys
    && (forall a | a in now && (a !in nonces || a in todo) :: now[a] == was[a])
    && (forall a | a in now && a in nonces && a !in todo :: ResetTo(was[a], now[a], nonces[a]) && floor[a] >= nonces[a])
  }

  lemma ResetNone(was: map<Address, Contents>, floor: map<Address, nat>, nonces: map<Address, nat>)
    requires was.Keys == floor.Keys
    ensures ResetBut(was, was, floor, nonces, nonces.Keys)
  {
  }

  lemma ResetSkipped(was: map<Address, Contents>, now: map<Address, Contents>, floor: map<Address, nat>,
                     nonces: map<Address, nat>, todo: set<Address>, a: Address)
    requires ResetBut(was, now, floor, nonces, todo) && a !in now
    ensures ResetBut(was, now, floor, nonces, todo - {a})
  {
    hide ResetTo;
  }

  lemma ResetOne(was: map<Address, Contents>, now: map<Address, Contents>, floor: map<Address, nat>,
                 nonces: map<Address, nat>, todo: set<Address>, a: Address, c: Contents)
    requires ResetBut(was, now, floor, nonces, todo) && a in todo && a in now && a in nonces
    requires ResetTo(now[a], c, nonces[a])
    ensures ResetBut(was, now[a := c], floor[a := Max(floor[a], nonces[a])], nonces, todo - {a})
  {
    hide ResetTo;
  }

  lemma OweNothing(start: map<Address, Contents>)
    ensures Owed(start, start, [], [])
  {
    hide TotalSlots, TotalPromoted, Slots;
    SlotsEmpty(multiset([]));
  }

  lemma OweMore(start: map<Address, Contents>, contents: map<Address, Contents>, p: seq<Telegram>, e: seq<Telegram>,
                next: map<Address, Contents>, p': seq<Telegram>, e': seq<Telegram>)
    requires Owed(start, contents, p, e) && Owed(contents, next, p', e')
    ensures Owed(start, next, p + p', e + e')
  {
    hide TotalSlots, TotalPromoted, Slots;
    SlotsUnion(multiset(p), multiset(p'));
    SlotsUnion(multiset(e), multiset(e'));
    assert multiset(p + p') == multiset(p) + multiset(p');
    assert multiset(e + e') == multiset(e) + multiset(e');
  }

  lemma PayOwed(start: map<Address, Contents>, contents: map<Address, Contents>, p: seq<Telegram>, e: seq<Telegram>, height: nat)
    requires Owed(start, contents, p, e) && height == TotalSlots(start) % U64
    ensures Decrease(Decrease(height, Slots(multiset(p))), Slots(multiset(e))) == TotalSlots(contents) % U64
  {
    hide TotalSlots, TotalPromoted, Slots, Decrease;
    SlotsUnion(multiset(p), multiset(e));
    TwoDecreases(TotalSlots(start), multiset(p), multiset(e));
  }

  lemma WithoutMore(hash: Telegram -> Hash, index: map<Hash, Telegram>, p: seq<Telegram>, e: seq<Telegram>,
                    p': seq<Telegram>, e': seq<Telegram>)
    ensures Without(Without(index, hash, p + e), hash, p' + e') == Without(index, hash, (p + p') + (e + e'))
  {
    hide Without;
    WithoutTwice(hash, index, p + e, p' + e');
    WithoutSame(hash, index, (p + e) + (p' + e'), (p + p') + (e + e'));
  }

  /** Mined telegrams went first and pruned ones last; the order does not matter. */
  lemma WithoutMined(hash: Telegram -> Hash, index: map<Hash, Telegram>, mined: seq<Telegram>, p: seq<Telegram>, e: seq<Telegram>)
    ensures Without(Without(Without(index, hash, mined), hash, p), hash, e) == Without(Without(index, hash, p + e), hash, mined)
  {
    hide Without;
    WithoutTwice(hash, Without(index, hash, mined), p, e);
    WithoutCommutes(hash, index, mined, p + e);
  }

  lemma ResetEnd(was: map<Address, Contents>, now: map<Address, Contents>, floor: map<Address, nat>,
                 nonces: map<Address, nat>, mined: seq<Telegram>)
    requires ResetBut(was, now, floor, nonces, {})
    requires forall t | t in mined :: t.from in nonces && t.nonce < nonces[t.from]
    ensures now.Keys == was.Keys
    ensures forall t | t in mined && t.from in floor :: t.nonce < floor[t.from]
    ensures forall a | a in now :: if a in nonces then ResetTo(was[a], now[a], nonces[a]) else now[a] == was[a]
  {
    hide ResetTo;
  }

  lemma WithoutNone(hash: Telegram -> Hash, index: map<Hash, Telegram>)
    ensures Without(index, hash, []) == index && Without(index, hash, [] + []) == index
  {
  }

  /** The books after everything pruned and everything mined has been taken off. */
  lemma EventBooks(hash: Telegram -> Hash, max: nat, before: map<Hash, Telegram>, mined: seq<Telegram>, s: State, s': State,
                   start: map<Address, Contents>, p: seq<Telegram>, e: seq<Telegram>)
    requires CollisionFree(hash)
    requires Books(hash, max, Settled(Without(before, hash, p + e), s.contents, s.inflight, s.floor))
    requires Owed(start, s.contents, p, e) && s.height == TotalSlots(start) % U64 && s.pending == TotalPromoted(start)
    requires s.index == Without(before, hash, mined)
    requires forall t | t in mined && t.from in s.floor :: t.nonce < s.floor[t.from]
    requires s' == s.(index := Without(Without(s.index, hash, p), hash, e), pending := s.pending - |p|,
                      height := Decrease(Decrease(s.height, Slots(multiset(p))), Slots(multiset(e))))
    ensures Books(hash, max, s')
  {
    hide TotalSlots, TotalPromoted, CollisionFree, Without, Slots, Decrease, IndexFine, AccountFine;
    MinedBooks(hash, max, Settled(Without(before, hash, p + e), s.contents, s.inflight, s.floor), mined);
    WithoutMined(hash, before, mined, p, e);
    PayOwed(start, s.contents, p, e, s.height);
  }
}
