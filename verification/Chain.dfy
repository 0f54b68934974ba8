/**
 The chain store: headers under their hashes, the canonical index from numbers
 to hashes, the stored head and the header in memory.
 */
module Chain {
  import opened Common
  import opened GasLimit

  type Hash = nat

  const ZERO_HASH: Hash := 0

  datatype Header = Header(parent: Hash, number: Word, gasLimit: Word, gasUsed: Word, rest: nat)

  /** Hashes of headers: never zero, and different for different headers. */
  ghost predicate Ideal(digest: Header -> Hash) {
    (forall h: Header :: digest(h) != ZERO_HASH) && (forall h: Header, k: Header :: digest(h) == digest(k) ==> h == k)
  }

  datatype State = State(store: map<Hash, Header>, canonical: map<Word, Hash>, headHash: Hash, headNumber: Word, current: Header)

  /** The canonical entry of a number is the hash of a stored header with that number, whose parent is the entry below. */
  ghost predicate EntryFine(c: State, n: Word)
    requires n in c.canonical
  {
    && c.canonical[n] in c.store && c.store[c.canonical[n]].number == n
    && (if n == 0 then c.store[c.canonical[n]].parent == ZERO_HASH
        else n - 1 in c.canonical && c.store[c.canonical[n]].parent == c.canonical[n - 1])
  }

  /** A stored header is filed under its hash, and it is the canonical one of its number. */
  ghost predicate StoredFine(digest: Header -> Hash, c: State, k: Hash)
    requires k in c.store
  {
    && digest(c.store[k]) == k
    && c.store[k].number in c.canonical && c.canonical[c.store[k].number] == k
  }

  /**
   One chain: the index is defined on exactly the numbers up to the head, it
   agrees with the parent links, nothing else is stored, and the stored head is
   the header in memory.
   */
  ghost predicate OneChain(digest: Header -> Hash, c: State) {
    && c.headHash == digest(c.current) && c.headNumber == c.current.number
    && (forall n: Word :: n in c.canonical <==> n <= c.current.number)
    && c.canonical[c.current.number] == c.headHash
    && (forall n: Word | n in c.canonical :: EntryFine(c, n))
    && (forall k | k in c.store :: StoredFine(digest, c, k))
  }

  function Genesis(digest: Header -> Hash, h: Header): State {
    State(map[digest(h) := h], map[h.number := digest(h)], digest(h), h.number, h)
  }

  lemma GenesisIsOneChain(digest: Header -> Hash, h: Header)
    requires h.number == 0 && h.parent == ZERO_HASH
    ensures OneChain(digest, Genesis(digest, h))
  {
  }

  /** A header whose parent is the head becomes the head; any other is only stored. */
  function WriteHeader(digest: Header -> Hash, c: State, h: Header): State {
    var stored := c.(store := c.store[digest(h) := h]);
    if h.parent == digest(c.current)
    then stored.(canonical := c.canonical[h.number := digest(h)], headHash := digest(h), headNumber := h.number, current := h)
    else stored
  }

  /** The header follows the head. */
  predicate IsNext(digest: Header -> Hash, c: State, h: Header) {
    h.parent == digest(c.current) && h.number == c.current.number + 1
  }

  /** Canonical entries of different numbers differ. */
  lemma EntriesDiffer(c: State, n: Word, m: Word)
    requires n in c.canonical && m in c.canonical && EntryFine(c, n) && EntryFine(c, m)
    ensures c.canonical[n] == c.canonical[m] <==> n == m
  {
  }

  /** A stored header is not above the head. */
  lemma StoredNumber(digest: Header -> Hash, c: State, h: Header)
    requires Ideal(digest) && OneChain(digest, c)
    ensures digest(h) in c.store ==> c.store[digest(h)] == h && h.number <= c.current.number
  {
    if digest(h) in c.store {
      assert StoredFine(digest, c, digest(h));
    }
  }

  lemma AppendEntry(c: State, c': State, n: Word, k: Hash, h: Header, next: Word)
    requires n in c.canonical && EntryFine(c, n) && n < next && k !in c.store
    requires c'.store == c.store[k := h] && c'.canonical == c.canonical[next := k]
    ensures EntryFine(c', n)
  {
  }

  lemma AppendKeeps(digest: Header -> Hash, c: State, h: Header)
    requires Ideal(digest) && OneChain(digest, c)
    requires h.parent == digest(c.current) && h.number == c.current.number + 1
    ensures OneChain(digest, WriteHeader(digest, c, h))
  {
    hide Ideal, EntryFine;
    var c' := WriteHeader(digest, c, h);
    StoredNumber(digest, c, h);
    forall n: Word | n in c'.canonical ensures EntryFine(c', n) {
      if n != h.number {
        AppendEntry(c, c', n, digest(h), h, h.number);
      } else {
        LastEntry(c', h, n);
      }
    }
    forall k | k in c'.store ensures StoredFine(digest, c', k) {
      assert k != digest(h) ==> StoredFine(digest, c, k);
    }
  }

  lemma LastEntry(c: State, h: Header, n: Word)
    requires n == h.number > 0 && n in c.canonical && c.canonical[n] in c.store && c.store[c.canonical[n]] == h
    requires n - 1 in c.canonical && h.parent == c.canonical[n - 1]
    ensures EntryFine(c, n)
  {
  }

  lemma NeverZero(digest: Header -> Hash, h: Header)
    requires Ideal(digest)
    ensures digest(h) != ZERO_HASH
  {
  }

  /** A stored header does not extend the head. */
  lemma StoredIsBelow(digest: Header -> Hash, c: State, h: Header)
    requires Ideal(digest) && OneChain(digest, c) && digest(h) in c.store
    ensures c.store[digest(h)] == h && h.parent != digest(c.current) && WriteHeader(digest, c, h) == c
  {
    hide Ideal;
    StoredNumber(digest, c, h);
    NeverZero(digest, c.current);
    assert StoredFine(digest, c, digest(h));
    assert EntryFine(c, h.number);
    if h.number > 0 {
      EntriesDiffer(c, h.number - 1, c.current.number);
    }
    assert c.store[digest(h) := h] == c.store;
  }

  /**
   Writing a header keeps the store one chain exactly when the header is there
   already or is the next one after the head.
   */
  lemma WriteKeepsIff(digest: Header -> Hash, c: State, h: Header)
    requires Ideal(digest) && OneChain(digest, c)
    ensures OneChain(digest, WriteHeader(digest, c, h)) <==> digest(h) in c.store || IsNext(digest, c, h)
  {
    hide Ideal, OneChain, WriteHeader;
    if digest(h) in c.store {
      StoredIsBelow(digest, c, h);
    } else if h.parent == digest(c.current) && h.number == c.current.number + 1 {
      AppendKeeps(digest, c, h);
    } else if OneChain(digest, WriteHeader(digest, c, h)) {
      StrayIsStored(digest, c, h);
      SuccessorIsNext(digest, c, h);
    }
  }

  lemma StrayIsStored(digest: Header -> Hash, c: State, h: Header)
    requires OneChain(digest, c) && OneChain(digest, WriteHeader(digest, c, h))
    ensures h.parent != digest(c.current) ==> digest(h) in c.store
  {
    var c' := WriteHeader(digest, c, h);
    if h.parent != digest(c.current) {
      assert StoredFine(digest, c', digest(h));
      assert EntryFine(c, h.number);
    }
  }

  lemma SuccessorIsNext(digest: Header -> Hash, c: State, h: Header)
    requires OneChain(digest, c) && OneChain(digest, WriteHeader(digest, c, h))
    ensures h.parent == digest(c.current) ==> h.number == c.current.number + 1 || digest(h) in c.store
  {
    var c' := WriteHeader(digest, c, h);
    if h.parent == digest(c.current) {
      if h.number > c.current.number {
        var next: Word := c.current.number + 1;
        assert next in c'.canonical;
      } else {
        assert c.current.number in c'.canonical;
        assert EntryFine(c, c.current.number);
        assert StoredFine(digest, c', c.headHash);
      }
    }
  }

  // ---------- verified writes ----------

  datatype ParentError = ParentNotFound | InvalidParentHash | ParentHashMismatch | InvalidBlockSequence | InvalidGasLimit

  /** The check of a header against its stored parent. */
  function ParentCheck(digest: Header -> Hash, store: map<Hash, Header>, h: Header): Option<ParentError> {
    if h.parent !in store then Some(ParentNotFound)
    else
      var parent := store[h.parent];
      if digest(parent) == ZERO_HASH then Some(InvalidParentHash)
      else if h.parent != digest(parent) then Some(ParentHashMismatch)
      else if Wrap(h.number - 1) != parent.number then Some(InvalidBlockSequence)
      else if VerifyGasLimit(h.number, h.gasUsed, h.gasLimit, parent.gasLimit) != None then Some(InvalidGasLimit)
      else None
  }

  /** What once passed the check passes it for ever: headers are only added. */
  lemma CheckLasts(digest: Header -> Hash, c: State, h: Header, next: Header)
    requires Ideal(digest) && OneChain(digest, c) && ParentCheck(digest, c.store, h) == None
    ensures ParentCheck(digest, WriteHeader(digest, c, next).store, h) == None
  {
    hide VerifyGasLimit, OneChain;
    StoredNumber(digest, c, next);
  }

  /** A checked header above the head extends the head, so a checked write never makes a fork. */
  lemma CheckedIsNext(digest: Header -> Hash, c: State, h: Header)
    requires OneChain(digest, c) && ParentCheck(digest, c.store, h) == None && h.number > c.current.number
    ensures h.parent == digest(c.current) && h.number == c.current.number + 1
  {
    hide VerifyGasLimit, Wrap, EntryFine;
    WrapSmall(h.number - 1, h.number - 1);
    assert StoredFine(digest, c, h.parent);
  }

  /** The check in plain words, for a store of one chain. */
  lemma ParentCheckPassesIff(digest: Header -> Hash, c: State, h: Header)
    requires Ideal(digest) && OneChain(digest, c)
    ensures ParentCheck(digest, c.store, h) == None
            <==> && h.parent in c.store && h.number == Wrap(c.store[h.parent].number + 1)
                 && h.gasUsed <= h.gasLimit && (h.number > 0 ==> Close(c.store[h.parent].gasLimit, h.gasLimit))
    ensures ParentCheck(digest, c.store, h) == Some(ParentNotFound) <==> h.parent !in c.store
    ensures ParentCheck(digest, c.store, h) == Some(InvalidBlockSequence)
            <==> h.parent in c.store && h.number != Wrap(c.store[h.parent].number + 1)
    ensures ParentCheck(digest, c.store, h) !in {Some(InvalidParentHash), Some(ParentHashMismatch)}
  {
    hide VerifyGasLimit, Ideal, EntryFine, Close;
    if h.parent in c.store {
      var parent := c.store[h.parent];
      assert StoredFine(digest, c, h.parent);
      NeverZero(digest, parent);
      AcceptsIff(h.number, h.gasUsed, h.gasLimit, parent.gasLimit);
      WrapSmall(h.number - 1, h.number - 1);
      WrapSmall(parent.number + 1, parent.number + 1 - U64);
      WrapSmall(parent.number + 1, parent.number + 1);
    }
  }

  // ---------- runs of checked writes ----------

  /** The canonical header covers its gas, and its limit is close to that of the one below. */
  ghost predicate GasFine(c: State, n: Word)
    requires n in c.canonical
  {
    n > 0 && c.canonical[n] in c.store && n - 1 in c.canonical && c.canonical[n - 1] in c.store ==>
      var h, below := c.store[c.canonical[n]], c.store[c.canonical[n - 1]];
      h.gasUsed <= h.gasLimit && Close(below.gasLimit, h.gasLimit)
  }

  /** The header of a number has the header below as its parent, covers its gas, and has a limit close to its parent's. */
  ghost predicate Follows(digest: Header -> Hash, c: State, n: Word) {
    && n > 0 && n in c.canonical && n - 1 in c.canonical && c.canonical[n] in c.store && c.canonical[n - 1] in c.store
    && var h, below := c.store[c.canonical[n]], c.store[c.canonical[n - 1]];
    && h.number == n && below.number == n - 1 && h.parent == digest(below)
    && h.gasUsed <= h.gasLimit && Close(below.gasLimit, h.gasLimit)
  }

  ghost predicate AllGasFine(c: State) {
    forall n: Word | n in c.canonical :: GasFine(c, n)
  }

  /** What writing a full block makes of the state: nothing, if the number is not above the head's. */
  function WriteFull(digest: Header -> Hash, c: State, h: Header): State {
    if h.number <= c.current.number then c else WriteHeader(digest, c, h)
  }

  /** Each header was checked against the state at some point before it is written. */
  datatype Write = Write(header: Header, checkedAt: nat)

  ghost predicate IsRun(digest: Header -> Hash, genesis: Header, states: seq<State>, writes: seq<Write>) {
    && |states| == |writes| + 1 && states[0] == Genesis(digest, genesis)
    && forall i | 0 <= i < |writes| ::
         && writes[i].checkedAt <= i && ParentCheck(digest, states[writes[i].checkedAt].store, writes[i].header) == None
         && states[i + 1] == WriteFull(digest, states[i], writes[i].header)
  }

  lemma AppendGas(digest: Header -> Hash, c: State, h: Header, n: Word)
    requires OneChain(digest, c) && AllGasFine(c) && IsNext(digest, c, h) && digest(h) !in c.store
    requires h.gasUsed <= h.gasLimit && digest(c.current) in c.store && Close(c.store[digest(c.current)].gasLimit, h.gasLimit)
    requires n in WriteHeader(digest, c, h).canonical
    ensures GasFine(WriteHeader(digest, c, h), n)
  {
    hide Close;
    if n != h.number {
      assert GasFine(c, n) && EntryFine(c, n);
    }
  }

  lemma WriteKeepsGas(digest: Header -> Hash, c: State, h: Header)
    requires Ideal(digest) && OneChain(digest, c) && AllGasFine(c) && ParentCheck(digest, c.store, h) == None
    ensures OneChain(digest, WriteFull(digest, c, h)) && AllGasFine(WriteFull(digest, c, h))
  {
    hide Ideal, OneChain, GasFine, WriteHeader, ParentCheck, Close, Wrap;
    if h.number > c.current.number {
      CheckedIsNext(digest, c, h);
      AppendKeeps(digest, c, h);
      StoredNumber(digest, c, h);
      ParentCheckPassesIff(digest, c, h);
      forall n: Word | n in WriteHeader(digest, c, h).canonical ensures GasFine(WriteHeader(digest, c, h), n) {
        AppendGas(digest, c, h, n);
      }
    }
  }

  /** A check passed at one point of a run is still passed later. */
  lemma {:induction false} CheckLastsTo(digest: Header -> Hash, genesis: Header, states: seq<State>, writes: seq<Write>, h: Header, j: nat, i: nat)
    requires Ideal(digest) && IsRun(digest, genesis, states, writes) && j <= i < |states|
    requires forall k | j <= k < i :: OneChain(digest, states[k])
    requires ParentCheck(digest, states[j].store, h) == None
    ensures ParentCheck(digest, states[i].store, h) == None
  {
    hide OneChain, ParentCheck, WriteHeader;
    if j < i {
      CheckLastsTo(digest, genesis, states, writes, h, j, i - 1);
      assert OneChain(digest, states[i - 1]);
      CheckLasts(digest, states[i - 1], h, writes[i - 1].header);
    }
  }

  /**
   After any number of writes of headers that were checked at any time before,
   the store is one chain from the genesis, and every header above it covers its
   gas and has a limit close to its parent's.
   */
  lemma {:induction false} RunIsOneChain(digest: Header -> Hash, genesis: Header, states: seq<State>, writes: seq<Write>, i: nat)
    requires Ideal(digest) && genesis.number == 0 && genesis.parent == ZERO_HASH
    requires IsRun(digest, genesis, states, writes) && i < |states|
    ensures OneChain(digest, states[i])
    ensures forall n: Word :: n in states[i].canonical <==> n <= states[i].current.number
    ensures forall n: Word | n in states[i].canonical && n > 0 :: Follows(digest, states[i], n)
  {
    hide Close, Ideal, ParentCheck, WriteHeader;
    RunGas(digest, genesis, states, writes, i);
    forall n: Word | n in states[i].canonical && n > 0 ensures Follows(digest, states[i], n) {
      assert EntryFine(states[i], n) && EntryFine(states[i], n - 1) && GasFine(states[i], n);
      assert StoredFine(digest, states[i], states[i].canonical[n - 1]);
    }
  }

  lemma GenesisGas(digest: Header -> Hash, genesis: Header)
    requires genesis.number == 0
    ensures AllGasFine(Genesis(digest, genesis))
  {
  }

  lemma {:induction false} RunGas(digest: Header -> Hash, genesis: Header, states: seq<State>, writes: seq<Write>, i: nat)
    requires Ideal(digest) && genesis.number == 0 && genesis.parent == ZERO_HASH
    requires IsRun(digest, genesis, states, writes) && i < |states|
    ensures forall k | 0 <= k <= i :: OneChain(digest, states[k])
    ensures AllGasFine(states[i])
  {
    hide OneChain, AllGasFine, ParentCheck, WriteFull, Ideal, Genesis;
    if i == 0 {
      GenesisIsOneChain(digest, genesis);
      GenesisGas(digest, genesis);
    } else {
      RunGas(digest, genesis, states, writes, i - 1);
      var w := writes[i - 1];
      CheckLastsTo(digest, genesis, states, writes, w.header, w.checkedAt, i - 1);
      assert OneChain(digest, states[i - 1]);
      WriteKeepsGas(digest, states[i - 1], w.header);
    }
  }

  /** The hash found some parent links below a stored header. */
  function Below(c: State, k: Hash, steps: nat): Hash
    requires k in c.store
  {
    var m := c.store[k].number;
    if steps <= m && m - steps in c.canonical then c.canonical[m - steps] else ZERO_HASH
  }

  /** The hash for number `i` as seen from a header, by counting down from the header's own number. */
  function AncestorHash(c: State, header: Header, i: Word): Hash {
    var num := Wrap(header.number - 1);
    if i == num then header.parent
    else if i > num || header.parent !in c.store then ZERO_HASH
    else Below(c, header.parent, num - i)
  }

  class Blockchain {
    const digest: Header -> Hash
    var store: map<Hash, Header>
    var canonical: map<Word, Hash>
    var headHash: Hash
    var headNumber: Word
    var current: Header
    var cache: map<Hash, Header>

    /** The headers that passed the check at some time. */
    ghost var checked: set<Header>

    ghost function Value(): State
      reads this
    {
      State(store, canonical, headHash, headNumber, current)
    }

    ghost predicate Valid()
      reads this
    {
      && Ideal(digest) && OneChain(digest, Value())
      && (forall k | k in cache :: k in store && cache[k] == store[k])
      && (forall h | h in checked :: ParentCheck(digest, store, h) == None)
    }

    constructor (digest: Header -> Hash, genesis: Header)
      requires Ideal(digest) && genesis.number == 0 && genesis.parent == ZERO_HASH
      ensures Valid() && Value() == Genesis(digest, genesis) && this.digest == digest && checked == {}
    {
      this.digest := digest;
      store := map[digest(genesis) := genesis];
      headHash, headNumber := digest(genesis), genesis.number;
      canonical := map[genesis.number := digest(genesis)];
      current, cache, checked := genesis, map[], {};
      GenesisIsOneChain(digest, genesis);
    }

    /** Adds to the cache, which may evict anything. */
    method Remember(h: Header)
      requires Valid() && digest(h) in store && store[digest(h)] == h
      modifies this`cache
      ensures Valid() && digest(h) in cache
    {
      hide OneChain, Ideal;
      var evicted: set<Hash> := *;
      cache := (cache - evicted)[digest(h) := h];
    }

    method ReadHeader(hash: Hash) returns (h: Option<Header>)
      requires Valid()
      modifies this`cache
      ensures Valid() && h == if hash in store then Some(store[hash]) else None
    {
      hide Ideal;
      if hash in cache {
        return Some(cache[hash]);
      }
      if hash !in store {
        return None;
      }
      assert StoredFine(digest, Value(), hash);
      Remember(store[hash]);
      return Some(store[hash]);
    }

    method VerifyBlockParent(h: Header) returns (err: Option<ParentError>)
      requires Valid()
      modifies this`cache, this`checked
      ensures Valid() && err == ParentCheck(digest, store, h)
      ensures checked == old(checked) + if err == None then {h} else {}
    {
      hide OneChain, Ideal, VerifyGasLimit;
      var parent := ReadHeader(h.parent);
      err := if parent == None then Some(ParentNotFound)
             else if digest(parent.value) == ZERO_HASH then Some(InvalidParentHash)
             else if h.parent != digest(parent.value) then Some(ParentHashMismatch)
             else if Wrap(h.number - 1) != parent.value.number then Some(InvalidBlockSequence)
             else if VerifyGasLimit(h.number, h.gasUsed, h.gasLimit, parent.value.gasLimit) != None then Some(InvalidGasLimit)
             else None;
      if err == None {
        checked := checked + {h};
      }
    }

    /** Stores a header, as the new head if it follows the head. */
    method WriteHeaderImpl(h: Header)
      requires Ideal(digest)
      modifies this`store, this`canonical, this`headHash, this`headNumber, this`current, this`cache
      ensures Value() == WriteHeader(digest, old(Value()), h)
      ensures forall k | k in cache :: (k == digest(h) && cache[k] == h) || (k in old(cache) && cache[k] == old(cache)[k])
      ensures h.parent != digest(old(current)) ==> digest(h) in cache
    {
      if h.parent == digest(current) {
        WriteCanonicalHeader(h);
        return;
      }
      store := store[digest(h) := h];
      var evicted: set<Hash> := *;
      cache := (cache - evicted)[digest(h) := h];
    }

    method WriteCanonicalHeader(h: Header)
      modifies this`store, this`canonical, this`headHash, this`headNumber, this`current
      ensures store == old(store)[digest(h) := h] && canonical == old(canonical)[h.number := digest(h)]
      ensures headHash == digest(h) && headNumber == h.number && current == h
    {
      store := store[digest(h) := h];
      headHash := digest(h);
      headNumber := h.number;
      canonical := canonical[h.number := digest(h)];
      current := h;
    }

    /**
     Writes a block unless it is not above the head. The store stays one chain
     exactly when the block is left out or is the next one, and a block that was
     checked at some time is one or the other.
     */
    method WriteFullBlock(h: Header)
      requires Valid()
      modifies this`store, this`canonical, this`headHash, this`headNumber, this`current, this`cache
      ensures Value() == WriteFull(digest, old(Value()), h)
      ensures Valid() <==> h.number <= old(current).number || IsNext(digest, old(Value()), h)
      ensures h in checked ==> Valid()
      ensures h in checked && h.number > old(current).number ==> current == h && h.parent == old(headHash)
      ensures h in checked && old(AllGasFine(Value())) ==> AllGasFine(Value())
    {
      hide OneChain, Ideal, VerifyGasLimit, WriteHeader, ParentCheck, AllGasFine;
      if h.number <= current.number {
        return;
      }
      ghost var c := Value();
      WriteKeepsIff(digest, c, h);
      StoredNumber(digest, c, h);
      if h in checked {
        if AllGasFine(c) {
          WriteKeepsGas(digest, c, h);
        }
        CheckedIsNext(digest, c, h);
        HeadIsHash(digest, c, h);
      }
      forall k | k in checked ensures ParentCheck(digest, WriteHeader(digest, c, h).store, k) == None {
        CheckLasts(digest, c, k, h);
      }
      StoreGrows(digest, c, h);
      WriteHeaderImpl(h);
    }

    method GetHeaderByNumber(n: Word) returns (h: Option<Header>)
      requires Valid()
      modifies this`cache
      ensures Valid() && (h == None <==> n > current.number)
      ensures h.Some? ==> h.value.number == n && n in canonical && digest(h.value) == canonical[n]
    {
      if n !in canonical {
        return None;
      }
      assert EntryFine(Value(), n);
      assert StoredFine(digest, Value(), canonical[n]);
      h := ReadHeader(canonical[n]);
    }

    /** A restart, with nothing of use in memory, finds the header that was there before. */
    method LoadHead(ghost was: Header)
      requires Ideal(digest) && OneChain(digest, Value().(current := was))
      requires forall h | h in checked :: ParentCheck(digest, store, h) == None
      modifies this`cache, this`current
      ensures Valid() && current == was
    {
      hide ParentCheck, OneChain, Ideal;
      HeadIsStored(digest, Value().(current := was));
      cache := map[];
      current := store[headHash];
    }

    lemma IsEntry(k: Hash)
      requires Valid() && k in store
      ensures store[k].number in canonical && canonical[store[k].number] == k
      ensures forall n: Word | n <= store[k].number :: n in canonical
    {
      hide Ideal, EntryFine;
      assert StoredFine(digest, Value(), k);
    }

    lemma BelowOne(k: Hash, steps: nat)
      requires Valid() && k in store
      ensures Below(Value(), k, steps) in store ==> store[Below(Value(), k, steps)].parent == Below(Value(), k, steps + 1)
    {
      hide Ideal;
      IsEntry(k);
      var m := store[k].number;
      if steps <= m {
        assert EntryFine(Value(), m - steps);
      } else {
        ZeroIsNotStored();
      }
    }

    lemma BelowEnds(k: Hash, steps: nat, more: nat)
      requires Valid() && k in store && steps <= more
      ensures Below(Value(), k, steps) !in store ==> Below(Value(), k, more) == ZERO_HASH
    {
      hide Ideal;
      IsEntry(k);
      var m := store[k].number;
      if steps <= m {
        assert EntryFine(Value(), m - steps);
      }
    }

    lemma ZeroIsNotStored()
      requires Valid()
      ensures ZERO_HASH !in store
    {
      hide EntryFine;
      if ZERO_HASH in store {
        assert StoredFine(digest, Value(), ZERO_HASH);
        NeverZero(digest, store[ZERO_HASH]);
      }
    }

    /**
     Walks parent links down from a header, counting numbers. The header need
     not belong to the chain, and its number need not fit its parent.
     */
    method GetHash(header: Header, i: Word) returns (res: Hash)
      requires Valid()
      modifies this`cache
      ensures Valid() && res == AncestorHash(Value(), header, i)
      ensures header.parent in store && store[header.parent].number == Wrap(header.number - 1) ==>
                res == if i in canonical && i <= Wrap(header.number - 1) then canonical[i] else ZERO_HASH
    {
      hide Valid, Wrap, OneChain;
      var num: Word, hash := Wrap(header.number - 1), header.parent;
      ghost var top, steps := num, 0;
      if header.parent in store {
        IsEntry(header.parent);
      }
      while true
        invariant Valid() && steps == top - num && (num < i ==> top < i)
        invariant steps == 0 ==> hash == header.parent
        invariant header.parent !in store ==> steps == 0
        invariant header.parent in store ==> hash == Below(Value(), header.parent, steps)
        decreases num
      {
        if num == i {
          return hash;
        }
        var h := ReadHeader(hash);
        if h == None {
          if header.parent in store && i < num {
            BelowEnds(header.parent, steps, top - i);
          }
          return ZERO_HASH;
        }
        hash := h.value.parent;
        if num == 0 {
          return ZERO_HASH;
        }
        if header.parent in store {
          BelowOne(header.parent, steps);
        }
        num, steps := num - 1, steps + 1;
      }
    }
  }

  lemma HeadIsStored(digest: Header -> Hash, c: State)
    requires Ideal(digest) && OneChain(digest, c)
    ensures c.headHash in c.store && c.store[c.headHash] == c.current
  {
    assert EntryFine(c, c.current.number);
    assert StoredFine(digest, c, c.headHash);
  }

  lemma HeadIsHash(digest: Header -> Hash, c: State, h: Header)
    requires OneChain(digest, c) && h.parent == digest(c.current)
    ensures c.headHash == h.parent && WriteHeader(digest, c, h).current == h
  {
  }

  lemma StoreGrows(digest: Header -> Hash, c: State, h: Header)
    ensures WriteHeader(digest, c, h).store == c.store[digest(h) := h]
  {
  }
}
