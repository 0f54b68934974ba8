/**
 The telegram pool: accounts, the hash index, the slot gauge, the pending
 counter and the telegrams on their way to an account. Every handler is one
 atomic step.
 */
module Pool {
  import opened Common
  import opened PoolAccount
  import opened PoolBooks
  import opened SlotGauge
  import opened Telegrams
  import Heap

  const MAX_DEMOTIONS := 10
  const MAX_SKIPS := 10

  const TX_MAX_SIZE := 128 * 1024

  datatype AddError =
    | OversizedData | ExtractSignature | InvalidProvider | InvalidSender
    | NonceTooLow | NonceTooHigh | RejectFuture | Overflow | CallFailed | AlreadyKnown

  /** Telegrams come from the node's own users or from other nodes. */
  datatype Origin = Local | Gossip

  datatype Response = Response(provider: Address, response: nat)

  const EDGE_CALL: Address := 0x3001

  lemma SignedStays(sender: Telegram -> Option<Address>, tele: Telegram, t: Telegram)
    requires sender(tele) == Some(t.from) && t == tele.(from := t.from, provider := t.provider, response := t.response)
    ensures SignsContent(sender) ==> Signed(sender, t)
  {
  }

  /** Nothing new is in the index. */
  ghost predicate Shrinks(was: map<Hash, Telegram>, now: map<Hash, Telegram>) {
    forall h | h in now :: h in was && now[h] == was[h]
  }

  /** The executables compare the low 64 bits of the price. */
  predicate PriceOrder(x: Telegram, y: Telegram) {
    x.gasPrice % U64 >= y.gasPrice % U64
  }

  lemma PriceOrderIsTotal()
    ensures Heap.TotalPreorder(PriceOrder)
  {
  }

  lemma DroppedNonce(c: Contents, max: nat, floor: nat, t: Telegram)
    requires AccountFine(c, max, floor) && t in Queued(c)
    ensures t.nonce >= floor
  {
  }

  /** The gauge can be lowered by both queues of an account, one after the other. */
  lemma GaugeCovers(hash: Telegram -> Hash, max: nat, s: State, a: Address, p: seq<Telegram>, e: seq<Telegram>)
    requires Books(hash, max, s) && a in s.contents && p == s.contents[a].promoted && e == s.contents[a].enqueued
    ensures Decrease(Decrease(s.height, Slots(multiset(p))), Slots(multiset(e))) == Decrease(s.height, Slots(multiset(p + e)))
  {
    hide Slots, Decrease, TotalSlots, IndexFine, TotalPromoted, AccountFine;
    assert multiset(p + e) == multiset(p) + multiset(e) == Queued(s.contents[a]);
    TotalAtLeast(s.contents, a);
    TwoDecreases(TotalSlots(s.contents), multiset(p), multiset(e));
  }

  lemma NoDecrease(height: nat)
    requires height < U64
    ensures Decrease(height, Slots(multiset([]))) == height
    ensures forall h: nat, x: nat :: Decrease(h, x) < U64
  {
    SlotsEmpty(multiset([]));
  }

  lemma WithoutIsLess(hash: Telegram -> Hash, index: map<Hash, Telegram>, ts: seq<Telegram>)
    ensures Shrinks(index, Without(index, hash, ts))
  {
  }

  /** `t` is the first of its account's line. */
  ghost predicate IsHead(contents: map<Address, Contents>, t: Telegram) {
    t.from in contents && contents[t.from].line != [] && contents[t.from].line[0] == t
  }

  /** The least nonce queued at an account. */
  ghost function LowestNonce(c: Contents): (n: nat)
    requires Queued(c) != multiset{}
    ensures exists t :: t in Queued(c) && t.nonce == n && forall u | u in Queued(c) :: n <= u.nonce
  {
    LeastOf(Queued(c))
  }

  ghost function LeastOf(m: multiset<Telegram>): (n: nat)
    requires m != multiset{}
    ensures exists t :: t in m && t.nonce == n && forall u | u in m :: n <= u.nonce
    decreases |m|
  {
    var t :| t in m;
    var rest := m - multiset{t};
    if rest == multiset{} then
      assert forall u | u in m :: u == t || u in rest;
      t.nonce
    else
      var least := LeastOf(rest);
      assert forall u | u in m :: u == t || u in rest;
      if t.nonce < least then t.nonce else least
  }

  lemma LowestIs(c: Contents, t: Telegram)
    requires t in c.promoted || t in c.enqueued
    requires forall u | u in c.promoted || u in c.enqueued :: t.nonce <= u.nonce
    ensures t in Queued(c) && t.nonce == LowestNonce(c)
  {
    assert forall u :: u in Queued(c) <==> u in c.promoted || u in c.enqueued by {
      forall u ensures u in Queued(c) <==> u in c.promoted || u in c.enqueued {
        assert u in c.promoted <==> u in multiset(c.promoted);
        assert u in c.enqueued <==> u in multiset(c.enqueued);
      }
    }
  }

  /** An account that has changed was not active, and is empty now. */
  ghost predicate OnlyIdleDropped(was: map<Address, Contents>, now: map<Address, Contents>, active: map<Address, nat>) {
    now.Keys == was.Keys
    && forall a | a in now && now[a] != was[a] :: a !in active && now[a].promoted == [] && now[a].enqueued == []
  }

  lemma NoneDropped(was: map<Address, Contents>, active: map<Address, nat>)
    ensures OnlyIdleDropped(was, was, active)
  {
  }

  lemma OneDropped(was: map<Address, Contents>, now: map<Address, Contents>, next: map<Address, Contents>, active: map<Address, nat>, a: Address)
    requires OnlyIdleDropped(was, now, active) && a in now && a in next && next == now[a := next[a]]
    requires next[a] == now[a] || (a !in active && next[a].promoted == [] && next[a].enqueued == [])
    ensures OnlyIdleDropped(was, next, active)
  {
  }

  lemma HoleContents(was: Contents, c: Contents, removed: seq<Telegram>, max: nat, floor: nat)
    requires AccountFine(was, max, floor) && InWindow(c, max) && c == was.(enqueued := []) && removed == was.enqueued
    ensures AccountFine(c, max, floor) && Queued(was) == Queued(c) + multiset(removed)
  {
    hide InWindow;
  }

  /** The accounts outside `todo` are rid of their holes. */
  ghost predicate PluggedBut(was: map<Address, Contents>, now: map<Address, Contents>, todo: set<Address>) {
    now.Keys == was.Keys && forall a | a in now :: now[a] == if a in todo then was[a] else Plugged(was[a])
  }

  lemma PluggedNone(was: map<Address, Contents>, todo: set<Address>)
    requires todo == was.Keys
    ensures PluggedBut(was, was, todo)
  {
  }

  lemma PluggedOne(was: map<Address, Contents>, now: map<Address, Contents>, next: map<Address, Contents>, todo: set<Address>, a: Address)
    requires PluggedBut(was, now, todo) && a in todo && a in now && next == now[a := Plugged(now[a])]
    ensures PluggedBut(was, next, todo - {a})
  {
    hide Plugged;
  }

  lemma PluggedAll(was: map<Address, Contents>, now: map<Address, Contents>)
    requires PluggedBut(was, now, {})
    ensures now.Keys == was.Keys && forall a | a in now :: now[a] == Plugged(was[a])
  {
  }

  /** The account has room for the telegram, and its nonce is in the window, whose end wraps at 2^64. */
  predicate Fits(c: Contents, max: nat, t: Telegram) {
    |c.enqueued| != max && c.next <= t.nonce < (c.next + max) % U64
  }

  class TelegramPool {
    const hash: Telegram -> Hash
    const signer: Signer
    const maxSlots: nat
    const maxEnqueued: nat

    var accounts: map<Address, Account>
    var index: map<Hash, Telegram>
    var height: nat
    var pending: int
    var executables: seq<Telegram>

    /** Telegrams accepted into the index whose account has not got them yet. */
    var inflight: set<Telegram>

    /** What the accounts contain, and the nonce each had on chain when last reset. */
    ghost var contents: map<Address, Contents>
    ghost var floor: map<Address, nat>

    ghost function Value(): State
      reads this
    {
      State(index, contents, inflight, floor, height, pending)
    }

    ghost predicate LinkedAt(a: Address)
      requires a in accounts
      reads this`accounts, this`contents, accounts[a]
    {
      a in contents && accounts[a].Value() == contents[a] && accounts[a].maxEnqueued == maxEnqueued
    }

    ghost predicate Shape()
      reads this`accounts, this`contents, this`executables
    {
      && CollisionFree(hash)
      && accounts.Keys == contents.Keys
      && (forall a, b | a in accounts && b in accounts && a != b :: accounts[a] != accounts[b])
      && Heap.IsHeap(PriceOrder, executables)
    }

    ghost predicate Valid()
      reads this, accounts.Values
    {
      && Shape()
      && (forall a | a in accounts :: LinkedAt(a))
      && Books(hash, maxEnqueued, Value())
    }

    /** Every telegram in the index, and so every queued one, names the sender of its signature. */
    ghost predicate AllSigned()
      reads this`index
    {
      forall h | h in index :: Signed(signer.sender, index[h])
    }

    constructor (hash: Telegram -> Hash, signer: Signer, maxSlots: nat, maxEnqueued: nat)
      requires CollisionFree(hash)
      ensures Valid() && accounts == map[] && index == map[] && inflight == {} && executables == []
      ensures this.hash == hash && this.signer == signer && this.maxSlots == maxSlots && this.maxEnqueued == maxEnqueued
    {
      this.hash, this.signer, this.maxSlots, this.maxEnqueued := hash, signer, maxSlots, maxEnqueued;
      accounts, index, height, pending, executables, inflight := map[], map[], 0, 0, [], {};
      contents, floor := map[], map[];
      EmptyBooks(hash, maxEnqueued);
    }

    /** Notes the new contents of one account; the other accounts are as they were. */
    ghost method Note(a: Address)
      requires Shape() && a in accounts && accounts[a].maxEnqueued == maxEnqueued
      requires forall b | b in accounts && b != a :: LinkedAt(b)
      modifies this`contents
      ensures Shape() && forall b | b in accounts :: LinkedAt(b)
      ensures contents == old(contents)[a := accounts[a].Value()]
    {
      contents := contents[a := accounts[a].Value()];
      forall b | b in accounts ensures LinkedAt(b) {
        assert b != a ==> old(LinkedAt(b));
      }
    }

    lemma Apart(a: Address)
      requires Shape() && a in accounts
      ensures CollisionFree(hash) && accounts.Keys == contents.Keys
      ensures forall b | b in accounts && b != a :: accounts[b] != accounts[a]
    {
    }

    lemma AccountIsFine(a: Address)
      requires Valid() && a in accounts
      ensures a in contents && a in floor && accounts[a].Value() == contents[a] && accounts[a].maxEnqueued == maxEnqueued
      ensures AccountFine(contents[a], maxEnqueued, floor[a]) && accounts[a].Valid()
    {
      assert LinkedAt(a);
    }

    predicate HighPressure()
      reads this
    {
      height > (80 * maxSlots) % U64 / 100
    }

    /** Opens the account of an address once, with the nonce of the chain. */
    method CreateAccountOnce(a: Address, stateNonce: nat)
      requires Valid()
      modifies this`accounts, this`contents, this`floor
      ensures Valid() && a in accounts
      ensures a in old(accounts) ==> accounts == old(accounts) && contents == old(contents) && floor == old(floor)
      ensures a !in old(accounts) ==>
                && accounts == old(accounts)[a := accounts[a]] && fresh(accounts[a])
                && contents == old(contents)[a := Contents([], [], [], stateNonce)]
    {
      hide Books, Shape, LinkedAt;
      KeysAgree();
      if a in accounts {
        return;
      }
      var acc := new Account(stateNonce, maxEnqueued);
      OpenBooks(hash, maxEnqueued, Value(), a, stateNonce);
      Store(a, acc);
      floor := floor[a := stateNonce];
    }

    /** Puts a new account on the map. */
    method Store(a: Address, acc: Account)
      requires Shape() && (forall b | b in accounts :: LinkedAt(b)) && acc.maxEnqueued == maxEnqueued
      requires a !in accounts && forall b | b in accounts :: accounts[b] != acc
      modifies this`accounts, this`contents
      ensures Shape() && (forall b | b in accounts :: LinkedAt(b))
      ensures accounts == old(accounts)[a := acc] && contents == old(contents)[a := acc.Value()]
    {
      hide CollisionFree, Heap.IsHeap;
      accounts := accounts[a := acc];
      contents := contents[a := acc.Value()];
      forall b | b in accounts ensures LinkedAt(b) {
        assert b != a ==> old(LinkedAt(b));
      }
    }

    /**
     The checks of a telegram by itself and against the chain, in their order;
     the sender is the one that the signature recovers to.
     */
    method ValidateTele(tele: Telegram, chain: Address -> nat) returns (err: Option<AddError>)
      requires Valid()
      ensures var from, provider := signer.sender(tele), signer.provider(tele);
              err == if tele.size > 128 * 1024 then Some(OversizedData)
                     else if from == None || (tele.provider != 0 && provider == None) then Some(ExtractSignature)
                     else if tele.provider != 0 && provider != Some(tele.provider) then Some(InvalidProvider)
                     else if tele.from != 0 && from != Some(tele.from) then Some(InvalidSender)
                     else if chain(from.value) > tele.nonce then Some(AddError.NonceTooLow)
                     else if from.value in contents && tele.nonce >= (chain(from.value) + maxEnqueued) % U64
                     then Some(AddError.NonceTooHigh) else None
    {
      hide Books, LinkedAt, CollisionFree;
      if tele.size > TX_MAX_SIZE {
        return Some(OversizedData);
      }
      var from := signer.sender(tele);
      if from == None {
        return Some(ExtractSignature);
      }
      if tele.provider != NO_ADDRESS {
        var provider := signer.provider(tele);
        if provider == None {
          return Some(ExtractSignature);
        }
        if provider.value != tele.provider {
          return Some(InvalidProvider);
        }
      }
      if tele.from != NO_ADDRESS && tele.from != from.value {
        return Some(InvalidSender);
      }
      if chain(from.value) > tele.nonce {
        return Some(AddError.NonceTooLow);
      }
      if from.value in accounts && tele.nonce >= (chain(from.value) + maxEnqueued) % U64 {
        return Some(AddError.NonceTooHigh);
      }
      return None;
    }

    /** The checks against the room in the pool: under pressure no telegram from the future, and never more than fits. */
    method CheckRoom(t: Telegram) returns (err: Option<AddError>)
      requires Valid()
      ensures err == if t.from in contents && height > (80 * maxSlots) % U64 / 100 && t.nonce > contents[t.from].next
                     then Some(RejectFuture)
                     else if (height + (t.size + 32767) / 32768) % U64 > maxSlots then Some(Overflow) else None
    {
      hide Books, InWindow, AccountFine, CollisionFree;
      KeysAgree();
      if HighPressure() && t.from in accounts {
        AccountIsFine(t.from);
        if t.nonce > accounts[t.from].nextNonce {
          return Some(RejectFuture);
        }
      }
      if (height + SlotsFor(t)) % U64 > maxSlots {
        return Some(Overflow);
      }
      return None;
    }

    /**
     Accepts a telegram into the index and sends it on to its account; `answer`
     is what the provider of an edge call replies. What enters names the sender
     of its signature.
     */
    method AddTele(origin: Origin, tele: Telegram, chain: Address -> nat, answer: Option<Response>)
      returns (err: Option<AddError>, ghost t: Telegram)
      requires Valid()
      modifies this
      ensures Valid()
      ensures err == None <==>
              && tele.size <= 128 * 1024
              && signer.sender(tele).Some? && (tele.from == 0 || signer.sender(tele) == Some(tele.from))
              && (tele.provider == 0 || signer.provider(tele) == Some(tele.provider))
              && var from := signer.sender(tele).value;
              && chain(from) <= tele.nonce
              && (from in old(contents) ==> tele.nonce < (chain(from) + maxEnqueued) % U64)
              && (from in old(contents) && old(height) > (80 * maxSlots) % U64 / 100 ==> tele.nonce <= old(contents)[from].next)
              && (old(height) + (tele.size + 32767) / 32768) % U64 <= maxSlots
              && (origin == Local && tele.to == Some(0x3001) ==> answer.Some?)
              && hash(t) !in old(index)
      ensures var from, provider := signer.sender(tele), signer.provider(tele);
              err == if tele.size > 128 * 1024 then Some(OversizedData)
                     else if from == None || (tele.provider != 0 && provider == None) then Some(ExtractSignature)
                     else if tele.provider != 0 && provider != Some(tele.provider) then Some(InvalidProvider)
                     else if tele.from != 0 && from != Some(tele.from) then Some(InvalidSender)
                     else if chain(from.value) > tele.nonce then Some(AddError.NonceTooLow)
                     else if from.value in old(contents) && tele.nonce >= (chain(from.value) + maxEnqueued) % U64
                     then Some(AddError.NonceTooHigh)
                     else if from.value in old(contents) && old(height) > (80 * maxSlots) % U64 / 100
                             && tele.nonce > old(contents)[from.value].next then Some(RejectFuture)
                     else if (old(height) + (tele.size + 32767) / 32768) % U64 > maxSlots then Some(Overflow)
                     else if origin == Local && tele.to == Some(0x3001) && answer == None then Some(CallFailed)
                     else if hash(t) in old(index) then Some(AlreadyKnown) else None
      ensures signer.sender(tele).Some? ==>
                t == if origin == Local && tele.to == Some(0x3001) && answer.Some?
                     then tele.(from := signer.sender(tele).value, provider := answer.value.provider, response := answer.value.response)
                     else tele.(from := signer.sender(tele).value)
      ensures err == None ==>
                && index == old(index)[hash(t) := t] && inflight == old(inflight) + {t} && t.from in accounts
                && contents == (if t.from in old(contents) then old(contents)
                                else old(contents)[t.from := Contents([], [], [], chain(t.from))])
                && height == old(height) && pending == old(pending)
      ensures err != None ==> Value() == old(Value()) && accounts == old(accounts)
      ensures SignsContent(signer.sender) && old(AllSigned()) ==> AllSigned()
    {
      hide Books, Shape, LinkedAt, SignsContent;
      KeysAgree();
      t := if signer.sender(tele) == None then tele
           else if origin == Local && tele.to == Some(EDGE_CALL) && answer.Some?
           then tele.(from := signer.sender(tele).value, provider := answer.value.provider, response := answer.value.response)
           else tele.(from := signer.sender(tele).value);
      err := ValidateTele(tele, chain);
      if err != None {
        return;
      }
      var entering := tele.(from := signer.sender(tele).value);
      err := CheckRoom(entering);
      if err != None {
        return;
      }
      if origin == Local && entering.to == Some(EDGE_CALL) {
        if answer == None {
          err := Some(CallFailed);
          return;
        }
        entering := entering.(provider := answer.value.provider, response := answer.value.response);
      }
      if hash(entering) in index {
        err := Some(AlreadyKnown);
        return;
      }
      SignedStays(signer.sender, tele, entering);
      Admit(entering, chain(entering.from));
    }

    method Admit(t: Telegram, stateNonce: nat)
      requires Valid() && hash(t) !in index && stateNonce <= t.nonce
      modifies this`accounts, this`contents, this`floor, this`index, this`inflight
      ensures Valid() && index == old(index)[hash(t) := t] && inflight == old(inflight) + {t} && t.from in accounts
      ensures contents == if t.from in old(accounts) then old(contents)
                          else old(contents)[t.from := Contents([], [], [], stateNonce)]
    {
      hide Books, Shape, LinkedAt;
      CreateAccountOnce(t.from, stateNonce);
      Apart(t.from);
      SendBooks(hash, maxEnqueued, Value(), t);
      index := index[hash(t) := t];
      inflight := inflight + {t};
    }

    /** Delivers a telegram to its account, which may refuse it. */
    method HandleEnqueue(t: Telegram) returns (promote: bool)
      requires Valid() && t in inflight
      modifies this`index, this`inflight, this`height, this`contents, if t.from in accounts then {accounts[t.from]} else {}
      ensures Valid() && inflight == old(inflight) - {t} && t.from in old(contents) && t.from in contents
      ensures var was := old(contents)[t.from];
              if Fits(was, maxEnqueued, t)
              then index == old(index) && contents == old(contents)[t.from := was.(enqueued := contents[t.from].enqueued)]
                   && multiset(contents[t.from].enqueued) == multiset(was.enqueued) + multiset{t}
              else index == Without(old(index), hash, [t]) && contents == old(contents)
      ensures promote <==> Fits(old(contents)[t.from], maxEnqueued, t) && t.nonce <= old(contents)[t.from].next
    {
      hide Books, InWindow, AccountFine, Shape, LinkedAt, Without, CollisionFree;
      var a := t.from;
      KeysAgree();
      InflightHasAccount(hash, maxEnqueued, Value(), t);
      Apart(a);
      ghost var s := Value();
      var accepted;
      accepted, promote := Offer(t);
      if accepted {
        Deliver(t, s);
      } else {
        TurnAway(t, s);
      }
    }

    /** Offers a telegram to its account; the rest of the books does not know yet. */
    method Offer(t: Telegram) returns (accepted: bool, promote: bool)
      requires Valid() && t.from in accounts
      modifies this`contents, accounts[t.from]
      ensures Shape() && (forall b | b in accounts :: LinkedAt(b)) && t.from in old(contents) && t.from in contents
      ensures accepted <==> Fits(old(contents)[t.from], maxEnqueued, t)
      ensures promote <==> accepted && t.nonce <= old(contents)[t.from].next
      ensures !accepted ==> contents == old(contents)
      ensures accepted ==>
                && contents == old(contents)[t.from := contents[t.from]]
                && contents[t.from] == old(contents)[t.from].(enqueued := contents[t.from].enqueued)
                && multiset(contents[t.from].enqueued) == multiset(old(contents)[t.from].enqueued) + multiset{t}
                && InWindow(contents[t.from], maxEnqueued)
    {
      hide Books, InWindow, AccountFine, Shape, LinkedAt, CollisionFree;
      var a := t.from;
      AccountIsFine(a);
      Apart(a);
      var err := accounts[a].Enqueue(t);
      Note(a);
      accepted := err == None;
      promote := accepted && t.nonce <= accounts[a].nextNonce;
    }

    method TurnAway(t: Telegram, ghost s: State)
      requires Shape() && (forall b | b in accounts :: LinkedAt(b)) && Books(hash, maxEnqueued, s)
      requires Value() == s && t in inflight && CollisionFree(hash)
      modifies this`index, this`inflight
      ensures Valid() && inflight == old(inflight) - {t} && index == Without(old(index), hash, [t])
    {
      hide Books, Shape, LinkedAt, CollisionFree;
      RejectBooks(hash, maxEnqueued, s, t);
      inflight := inflight - {t};
      Remove([t]);
    }

    method Deliver(t: Telegram, ghost s: State)
      requires Shape() && (forall b | b in accounts :: LinkedAt(b)) && Books(hash, maxEnqueued, s)
      requires t.from in s.contents && t.from in contents && Value() == s.(contents := s.contents[t.from := contents[t.from]])
      requires t in inflight && InWindow(contents[t.from], maxEnqueued) && s.contents[t.from].next <= t.nonce
      requires contents[t.from] == s.contents[t.from].(enqueued := contents[t.from].enqueued)
      requires multiset(contents[t.from].enqueued) == multiset(s.contents[t.from].enqueued) + multiset{t}
      modifies this`inflight, this`height
      ensures Valid() && inflight == old(inflight) - {t}
    {
      hide Books, Shape, LinkedAt, CollisionFree, InWindow;
      ArriveBooks(hash, maxEnqueued, s, t, contents[t.from]);
      inflight := inflight - {t};
      var slots := SlotsRequired([t]);
      SlotsOne(t);
      assert multiset([t]) == multiset{t};
      height := Increase(height, slots);
    }

    /** Takes telegrams out of the index. */
    method Remove(ts: seq<Telegram>)
      modifies this`index
      ensures index == Without(old(index), hash, ts)
    {
      for i := 0 to |ts|
        invariant index == Without(old(index), hash, ts[..i])
      {
        index := index - {hash(ts[i])};
      }
      assert ts[..|ts|] == ts;
    }

    /** Takes telegrams out of the index and off the gauge. */
    method Forget(ts: seq<Telegram>)
      modifies this`index, this`height
      ensures index == Without(old(index), hash, ts)
      ensures height == Decrease(old(height), Slots(multiset(ts)))
    {
      Remove(ts);
      var slots := SlotsRequired(ts);
      height := Decrease(height, slots);
    }

    /** Moves the telegrams of an account whose turn has come. */
    method HandlePromote(a: Address) returns (ghost moved: seq<Telegram>, ghost pruned: seq<Telegram>)
      requires Valid() && a in accounts
      modifies this`index, this`height, this`pending, this`contents, accounts[a]
      ensures Valid() && a in contents && contents == old(contents)[a := contents[a]]
      ensures a in old(contents) && contents[a].line == old(contents)[a].line + moved
      ensures IsPromotion(multiset(old(contents)[a].enqueued), old(contents)[a].next, moved)
      ensures index == Without(old(index), hash, pruned) && pending == old(pending) + |moved|
    {
      hide Books, InWindow, AccountFine, Shape, LinkedAt, Without, CollisionFree, Slots, Queued, IsPromotion, Decrease;
      AccountIsFine(a);
      Apart(a);
      ghost var s := Value();
      var m, p := accounts[a].Promote();
      moved, pruned := m, p;
      Note(a);
      PromoteContents(s.contents[a], contents[a], m, p, maxEnqueued, floor[a]);
      LeaveBooks(hash, maxEnqueued, s, a, contents[a], p);
      Forget(p);
      pending := pending + |m|;
    }

    /** Takes the head off an account's promoted queue. */
    method TakeHead(t: Telegram)
      requires Valid() && t.from in accounts && accounts[t.from].promoted != [] && accounts[t.from].promoted[0] == t
      modifies this`height, this`pending, this`contents, accounts[t.from]
      ensures Valid() && t.from in contents && contents == old(contents)[t.from := contents[t.from]]
      ensures t.from in old(contents) && old(contents)[t.from].line == [t] + contents[t.from].line
      ensures pending == old(pending) - 1
      ensures accounts[t.from].demotions == 0
    {
      hide Books, InWindow, AccountFine, Shape, LinkedAt, CollisionFree, Slots, Queued, Decrease;
      var a := t.from;
      AccountIsFine(a);
      Apart(a);
      ghost var s := Value();
      PopHead(a);
      TakeContents(s.contents[a], contents[a], t, maxEnqueued, floor[a]);
      TakeBooks(hash, maxEnqueued, s, a, contents[a], t);
      height := Decrease(height, SlotsFor(t));
      pending := pending - 1;
    }

    /** Pops an account's head; the rest of the books does not know yet. */
    method PopHead(a: Address)
      requires Valid() && a in accounts && accounts[a].promoted != []
      modifies this`contents, accounts[a]
      ensures Shape() && (forall b | b in accounts :: LinkedAt(b)) && a in old(contents) && a in contents
      ensures contents == old(contents)[a := contents[a]] && InWindow(contents[a], maxEnqueued)
      ensures old(contents)[a].line == [old(accounts[a].promoted[0])] + contents[a].line
      ensures contents[a].next == old(contents)[a].next && contents[a].enqueued == old(contents)[a].enqueued
      ensures accounts[a].demotions == 0
    {
      hide Books, InWindow, AccountFine, Shape, LinkedAt, CollisionFree;
      AccountIsFine(a);
      Apart(a);
      var acc := accounts[a];
      acc.HeadIsFirst();
      var x := acc.PopPromoted();
      acc.demotions := 0;
      Note(a);
    }

    method PushExecutable(t: Telegram)
      requires Valid()
      modifies this`executables
      ensures Valid() && multiset(executables) == multiset(old(executables)) + multiset{t}
    {
      hide Books, LinkedAt, CollisionFree, Heap.IsHeap;
      PriceOrderIsTotal();
      executables := Heap.Push(PriceOrder, executables, t);
    }

    /**
     Removes the head of an account's promoted queue once it is written to a
     block, and offers the account's next telegram.
     */
    method Pop(t: Telegram)
      requires Valid() && t.from in accounts && accounts[t.from].promoted != [] && accounts[t.from].promoted[0] == t
      modifies this`height, this`pending, this`contents, this`executables, accounts[t.from]
      ensures Valid() && t.from in contents && contents == old(contents)[t.from := contents[t.from]]
      ensures t.from in old(contents) && old(contents)[t.from].line == [t] + contents[t.from].line
      ensures pending == old(pending) - 1
      ensures var line := contents[t.from].line;
              multiset(executables) == multiset(old(executables)) + (if line == [] then multiset{} else multiset{line[0]})
      ensures accounts[t.from].demotions == 0
    {
      hide Books, InWindow, AccountFine, Shape, LinkedAt, CollisionFree;
      TakeHead(t);
      AccountIsFine(t.from);
      var acc := accounts[t.from];
      acc.EmptyTogether();
      if acc.promoted != [] {
        acc.HeadIsFirst();
        PushExecutable(acc.promoted[0]);
      }
    }

    /** Empties the account of a telegram and rolls its expected nonce back to that telegram. */
    method Drop(t: Telegram)
      requires Valid() && t.from in accounts && t in Queued(accounts[t.from].Value())
      modifies this`index, this`height, this`pending, this`contents, accounts[t.from]
      ensures Valid() && contents == old(contents)[t.from := Contents([], [], [], t.nonce)]
      ensures t.from in old(contents)
      ensures var was := old(contents)[t.from];
              index == Without(old(index), hash, was.promoted + was.enqueued) && pending == old(pending) - |was.promoted|
    {
      hide Books, InWindow, AccountFine, Shape, LinkedAt, Without, CollisionFree, Slots, Queued, Decrease;
      var a := t.from;
      AccountIsFine(a);
      Apart(a);
      ghost var s := Value();
      DroppedNonce(s.contents[a], maxEnqueued, floor[a], t);
      var p, e := accounts[a].Clear(t.nonce);
      Note(a);
      ClearContents(s.contents[a], maxEnqueued, floor[a], t.nonce);
      LeaveBooks(hash, maxEnqueued, s, a, contents[a], p + e);
      GaugeCovers(hash, maxEnqueued, s, a, p, e);
      ForgetBoth(p, e);
    }

    method ForgetBoth(p: seq<Telegram>, e: seq<Telegram>)
      modifies this`index, this`height, this`pending
      ensures index == Without(old(index), hash, p + e) && pending == old(pending) - |p|
      ensures height == Decrease(Decrease(old(height), Slots(multiset(p))), Slots(multiset(e)))
    {
      hide Without, Slots, Decrease;
      WithoutTwice(hash, index, p, e);
      Forget(p);
      pending := pending - |p|;
      Forget(e);
    }

    /** Sets the counters of an account, which the books do not mention. */
    method SetCounters(a: Address, acc: Account, demotions: nat, skips: nat)
      requires Valid() && a in accounts && accounts[a] == acc
      modifies acc`demotions, acc`skips
      ensures Valid() && acc.demotions == demotions && acc.skips == skips
    {
      hide Books, Heap.IsHeap, CollisionFree;
      acc.demotions, acc.skips := demotions, skips;
      forall b | b in accounts ensures LinkedAt(b) {
        assert old(LinkedAt(b));
      }
    }

    /** Sets an account aside after a recoverable failure; the eleventh time it is dropped. */
    method Demote(t: Telegram)
      requires Valid() && t.from in accounts && t in Queued(accounts[t.from].Value())
      modifies this`index, this`height, this`pending, this`contents, accounts[t.from]
      ensures Valid()
      ensures old(accounts[t.from].demotions) < MAX_DEMOTIONS ==>
                Value() == old(Value()) && accounts[t.from].demotions == old(accounts[t.from].demotions) + 1
      ensures old(accounts[t.from].demotions) >= MAX_DEMOTIONS ==>
                && contents == old(contents)[t.from := Contents([], [], [], t.nonce)] && accounts[t.from].demotions == 0
                && t.from in old(contents) && pending == old(pending) - |old(contents)[t.from].promoted|
      ensures Shrinks(old(index), index)
    {
      hide Books, Shape, LinkedAt, Without, Queued;
      var acc := accounts[t.from];
      if acc.demotions >= MAX_DEMOTIONS {
        KeysAgree();
        WithoutIsLess(hash, index, contents[t.from].promoted + contents[t.from].enqueued);
        Drop(t);
        SetCounters(t.from, acc, 0, acc.skips);
        return;
      }
      SetCounters(t.from, acc, acc.demotions + 1, acc.skips);
    }

    /** Drops what an account has enqueued if the expected telegram is missing. */
    method PruneHole(a: Address)
      requires Valid() && a in accounts
      modifies this`index, this`height, this`contents, accounts[a]
      ensures Valid() && a in old(contents) && contents == old(contents)[a := Plugged(old(contents)[a])]
      ensures index == if HasHole(old(contents)[a]) then Without(old(index), hash, old(contents)[a].enqueued) else old(index)
    {
      hide Books, InWindow, Shape, LinkedAt, Without, CollisionFree, Slots, Queued, Decrease, HasHole, AccountFine;
      AccountIsFine(a);
      Apart(a);
      ghost var s := Value();
      var removed := accounts[a].PruneHole();
      Note(a);
      if removed == [] {
        assert contents == s.contents;
        return;
      }
      HoleContents(s.contents[a], contents[a], removed, maxEnqueued, floor[a]);
      LeaveBooks(hash, maxEnqueued, s, a, contents[a], removed);
      Forget(removed);
    }

    method PruneHoles()
      requires Valid()
      modifies this`index, this`height, this`contents, accounts.Values
      ensures Valid() && contents.Keys == old(contents).Keys
      ensures forall a | a in contents :: contents[a] == Plugged(old(contents)[a])
      ensures Shrinks(old(index), index)
    {
      hide Valid, Without, PluggedBut;
      var todo := accounts.Keys;
      KeysAgree();
      PluggedNone(contents, todo);
      while todo != {}
        invariant Valid() && todo <= accounts.Keys && PluggedBut(old(contents), contents, todo) && Shrinks(old(index), index)
        decreases |todo|
      {
        var a :| a in todo;
        ghost var was := contents;
        WithoutIsLess(hash, index, if a in contents then contents[a].enqueued else []);
        PruneHole(a);
        PluggedOne(old(contents), was, contents, todo, a);
        todo := todo - {a};
      }
      PluggedAll(old(contents), contents);
    }

    lemma KeysAgree()
      requires Valid()
      ensures accounts.Keys == contents.Keys
    {
      hide Books, LinkedAt;
    }

    /** As valid, for the index that the accounts demand rather than the one there is. */
    ghost predicate ValidBut(demanded: map<Hash, Telegram>)
      reads this, accounts.Values
    {
      && Shape()
      && (forall a | a in accounts :: LinkedAt(a))
      && Books(hash, maxEnqueued, Settled(demanded, contents, inflight, floor))
    }

    /** Resets one account; what it pruned is yet to be taken off the index and the gauge. */
    method ResetAccount(a: Address, nonce: nat, ghost demanded: map<Hash, Telegram>)
      returns (p: seq<Telegram>, e: seq<Telegram>)
      requires ValidBut(demanded) && a in accounts
      modifies this`contents, this`floor, accounts[a]
      ensures ValidBut(Without(demanded, hash, p + e))
      ensures a in old(contents) && a in contents && contents == old(contents)[a := contents[a]]
      ensures a in old(floor) && floor == old(floor)[a := Max(old(floor)[a], nonce)]
      ensures ResetTo(old(contents)[a], contents[a], nonce) && Owed(old(contents), contents, p, e)
      ensures accounts[a].demotions == 0
    {
      hide Books, AccountFine, Shape, LinkedAt, Without, CollisionFree, ResetTo, Owed, Settled, Trimmed;
      SettledAccount(a, demanded);
      Apart(a);
      ghost var was := contents;
      ghost var k;
      p, e, k := TrimAccount(a, nonce);
      ResetPool(hash, maxEnqueued, demanded, was, inflight, floor, a, contents[a], p, e, nonce, k);
      floor := floor[a := Max(floor[a], nonce)];
    }

    /** Prunes one account; the rest of the books does not know yet. */
    method TrimAccount(a: Address, nonce: nat) returns (p: seq<Telegram>, e: seq<Telegram>, ghost k: nat)
      requires Shape() && (forall b | b in accounts :: LinkedAt(b)) && a in accounts && accounts[a].Valid()
      modifies this`contents, accounts[a]
      ensures Shape() && (forall b | b in accounts :: LinkedAt(b)) && a in old(contents) && a in contents
      ensures contents == old(contents)[a := contents[a]] && accounts[a].demotions == 0
      ensures Trimmed(old(contents)[a], contents[a], p, e, nonce, k, maxEnqueued)
    {
      hide InWindow, Shape;
      Apart(a);
      assert LinkedAt(a);
      var signal;
      p, e, signal, k := accounts[a].Reset(nonce);
      accounts[a].demotions := 0;
      forall b | b in accounts && b != a ensures LinkedAt(b) {
        assert old(LinkedAt(b));
      }
      Note(a);
    }

    lemma SettledAccount(a: Address, demanded: map<Hash, Telegram>)
      requires ValidBut(demanded) && a in accounts
      ensures a in contents && a in floor && accounts[a].Value() == contents[a] && accounts[a].maxEnqueued == maxEnqueued
      ensures AccountFine(contents[a], maxEnqueued, floor[a]) && accounts[a].Valid()
    {
      hide TotalSlots, TotalPromoted, IndexFine, CollisionFree;
      assert LinkedAt(a);
    }

    lemma KeysAgreeBut(demanded: map<Hash, Telegram>)
      requires ValidBut(demanded)
      ensures accounts.Keys == contents.Keys == floor.Keys && CollisionFree(hash)
    {
      hide LinkedAt, TotalSlots, TotalPromoted, IndexFine, CollisionFree;
    }

    /** If the books balance for the demanded index, gauge and counter are as the accounts demand. */
    lemma SettleBut(demanded: map<Hash, Telegram>)
      requires Shape() && (forall a | a in accounts :: LinkedAt(a)) && Books(hash, maxEnqueued, Value().(index := demanded))
      ensures ValidBut(demanded) && height == TotalSlots(contents) % U64 && pending == TotalPromoted(contents)
      ensures accounts.Keys == contents.Keys == floor.Keys
    {
      hide LinkedAt, TotalSlots, TotalPromoted, IndexFine, CollisionFree;
    }

    /** Resets the accounts of the map one by one. */
    method ResetEach(nonces: map<Address, nat>, ghost before: map<Hash, Telegram>)
      returns (p: seq<Telegram>, e: seq<Telegram>)
      requires ValidBut(before)
      modifies this`contents, this`floor, accounts.Values
      ensures ValidBut(Without(before, hash, p + e))
      ensures Owed(old(contents), contents, p, e) && ResetBut(old(contents), contents, floor, nonces, {})
      ensures forall a | a in nonces && a in accounts :: accounts[a].demotions == 0
    {
      hide ValidBut, Without, ResetBut, Owed, ResetTo, CollisionFree;
      p, e := [], [];
      var todo := nonces.Keys;
      KeysAgreeBut(before);
      ResetNone(contents, floor, nonces);
      OweNothing(contents);
      WithoutNone(hash, before);
      while todo != {}
        invariant todo <= nonces.Keys && ValidBut(Without(before, hash, p + e))
        invariant Owed(old(contents), contents, p, e) && ResetBut(old(contents), contents, floor, nonces, todo)
        invariant forall a | a in nonces && a in accounts && a !in todo :: accounts[a].demotions == 0
        decreases |todo|
      {
        var a :| a in todo;
        KeysAgreeBut(Without(before, hash, p + e));
        if a in accounts {
          ghost var was := contents;
          ghost var low := floor;
          var p', e' := ResetAccount(a, nonces[a], Without(before, hash, p + e));
          ResetOne(old(contents), was, low, nonces, todo, a, contents[a]);
          OweMore(old(contents), was, p, e, contents, p', e');
          WithoutMore(hash, before, p, e, p', e');
          p, e := p + p', e + e';
        } else {
          ResetSkipped(old(contents), contents, floor, nonces, todo, a);
        }
        todo := todo - {a};
      }
    }

    /** Takes pruned telegrams off the books; an empty list changes nothing. */
    method CleanUp(p: seq<Telegram>, e: seq<Telegram>)
      requires height < U64
      modifies this`index, this`height, this`pending
      ensures index == Without(Without(old(index), hash, p), hash, e) && pending == old(pending) - |p|
      ensures height == Decrease(Decrease(old(height), Slots(multiset(p))), Slots(multiset(e)))
    {
      hide Without, Slots, Decrease;
      WithoutNone(hash, index);
      NoDecrease(height);
      if |p| > 0 {
        Forget(p);
        pending := pending - |p|;
      }
      WithoutNone(hash, index);
      NoDecrease(height);
      if |e| > 0 {
        Forget(e);
      }
    }

    /** Resets accounts to the nonces of the chain, after the mined telegrams have left the index. */
    method ResetAccounts(nonces: map<Address, nat>, ghost before: map<Hash, Telegram>, ghost mined: seq<Telegram>)
      requires Shape() && (forall a | a in accounts :: LinkedAt(a)) && Books(hash, maxEnqueued, Value().(index := before))
      requires index == Without(before, hash, mined)
      requires forall t | t in mined :: t.from in nonces && t.nonce < nonces[t.from]
      modifies this`index, this`height, this`pending, this`contents, this`floor, accounts.Values
      ensures Valid() && contents.Keys == old(contents).Keys
      ensures forall a | a in contents ::
                if a in nonces then ResetTo(old(contents)[a], contents[a], nonces[a]) else contents[a] == old(contents)[a]
      ensures Shrinks(old(index), index)
      ensures forall a | a in nonces && a in accounts :: accounts[a].demotions == 0
    {
      hide ValidBut, Shape, LinkedAt, Books, Without, ResetBut, Owed, ResetTo, CollisionFree, Settled, TotalSlots, TotalPromoted, Slots, Decrease;
      SettleBut(before);
      var p, e := ResetEach(nonces, before);
      ResetEnd(old(contents), contents, floor, nonces, mined);
      Unfold(Without(before, hash, p + e));
      ghost var s := Value();
      CleanUp(p, e);
      EventBooks(hash, maxEnqueued, before, mined, s, Value(), old(contents), p, e);
      WithoutIsLess(hash, s.index, p);
      WithoutIsLess(hash, Without(s.index, hash, p), e);
    }

    lemma Unfold(demanded: map<Hash, Telegram>)
      requires ValidBut(demanded)
      ensures Shape() && (forall a | a in accounts :: LinkedAt(a)) && CollisionFree(hash)
      ensures Books(hash, maxEnqueued, Settled(demanded, contents, inflight, floor))
    {
      hide Books, LinkedAt, CollisionFree;
    }

    /** The nonces of the senders of mined telegrams, as the chain has them. */
    method LatestNonces(mined: seq<Telegram>, chain: Address -> nat) returns (nonces: map<Address, nat>)
      ensures forall a :: a in nonces <==> exists t :: t in mined && t.from == a
      ensures forall a | a in nonces :: nonces[a] == chain(a)
    {
      nonces := map[];
      for i := 0 to |mined|
        invariant forall a :: a in nonces <==> exists j :: 0 <= j < i && mined[j].from == a
        invariant forall a | a in nonces :: nonces[a] == chain(a)
      {
        if mined[i].from !in nonces {
          nonces := nonces[mined[i].from := chain(mined[i].from)];
        }
      }
    }

    /** Follows new blocks: mined telegrams leave the index, and their senders are reset. */
    method ProcessEvent(mined: seq<Telegram>, chain: Address -> nat)
      requires Valid()
      requires forall t | t in mined :: t.nonce < chain(t.from)
      modifies this`index, this`height, this`pending, this`contents, this`floor, accounts.Values
      ensures Valid() && contents.Keys == old(contents).Keys
      ensures forall t | t in mined :: hash(t) !in index
      ensures forall a | a in contents && (forall t | t in mined :: t.from != a) :: contents[a] == old(contents)[a]
      ensures forall t | t in mined && t.from in contents :: ResetTo(old(contents)[t.from], contents[t.from], chain(t.from))
      ensures Shrinks(old(index), index)
      ensures forall t | t in mined && t.from in accounts :: accounts[t.from].demotions == 0
    {
      hide Shape, LinkedAt, Books, ResetTo, CollisionFree;
      WithoutIsLess(hash, index, mined);
      ghost var before := index;
      Remove(mined);
      var nonces := LatestNonces(mined, chain);
      ResetAccounts(nonces, before, mined);
    }

    /** Counts a block without the account's telegrams; the tenth in a row drops the account. */
    method CountSkip(a: Address, active: bool)
      requires Valid() && a in accounts
      modifies this`index, this`height, this`pending, this`contents, accounts[a]
      ensures Valid() && a in old(contents) && a in contents
      ensures var was, skips := old(contents)[a], old(accounts[a].skips);
              var idle := !active && Queued(was) != multiset{};
              if idle && skips + 1 >= MAX_SKIPS
              then contents == old(contents)[a := Contents([], [], [], LowestNonce(was))] && accounts[a].skips == 0
              else contents == old(contents) && accounts[a].skips == if active then 0 else if idle then skips + 1 else skips
      ensures Shrinks(old(index), index)
    {
      hide Books, Shape, LinkedAt, Without, InWindow, CollisionFree, AccountFine;
      AccountIsFine(a);
      var acc := accounts[a];
      if active {
        SetCounters(a, acc, acc.demotions, 0);
        return;
      }
      var t := acc.LowestTelegram();
      if t == None {
        return;
      }
      LowestIs(acc.Value(), t.value);
      SenderIs(a, t.value);
      SetCounters(a, acc, acc.demotions, acc.skips + 1);
      if acc.skips < MAX_SKIPS {
        return;
      }
      WithoutIsLess(hash, index, contents[a].promoted + contents[a].enqueued);
      Drop(t.value);
      SetCounters(a, acc, acc.demotions, 0);
    }

    method UpdateSkips(active: map<Address, nat>)
      requires Valid()
      modifies this`index, this`height, this`pending, this`contents, accounts.Values
      ensures Valid() && OnlyIdleDropped(old(contents), contents, active) && Shrinks(old(index), index)
    {
      hide Valid, Without, LowestNonce, OnlyIdleDropped;
      var todo := accounts.Keys;
      NoneDropped(contents, active);
      while todo != {}
        invariant Valid() && todo <= accounts.Keys && OnlyIdleDropped(old(contents), contents, active)
        invariant Shrinks(old(index), index)
        decreases |todo|
      {
        var a :| a in todo;
        ghost var was := contents;
        CountSkip(a, a in active);
        OneDropped(old(contents), was, contents, active, a);
        todo := todo - {a};
      }
    }

    /** What an account has queued comes from its own address. */
    lemma SenderIs(a: Address, t: Telegram)
      requires Valid() && a in accounts && t in Queued(accounts[a].Value())
      ensures t.from == a
    {
      hide TotalSlots, TotalPromoted, CollisionFree, AccountFine;
      assert LinkedAt(a);
      assert QueuedFine(hash, index, inflight, a, QueuedMap(contents)[a], t);
    }

    /** Collects the head of every promoted queue. */
    method Prepare()
      requires Valid()
      modifies this`executables
      ensures Valid()
      ensures forall t :: multiset(executables)[t] == if IsHead(contents, t) then 1 else 0
    {
      hide Valid;
      ClearExecutables();
      KeysAgree();
      var todo := accounts.Keys;
      while todo != {}
        invariant Valid() && todo <= accounts.Keys == contents.Keys
        invariant forall t :: multiset(executables)[t] == if IsHead(contents, t) && t.from !in todo then 1 else 0
        decreases |todo|
      {
        var a :| a in todo;
        HeadOf(a);
        if accounts[a].promoted != [] {
          PushExecutable(accounts[a].promoted[0]);
        }
        todo := todo - {a};
      }
    }

    method ClearExecutables()
      requires Valid()
      modifies this`executables
      ensures Valid() && executables == []
    {
      hide Books, LinkedAt;
      executables := [];
    }

    lemma HeadOf(a: Address)
      requires Valid() && a in accounts
      ensures accounts[a].promoted == [] ==> forall t: Telegram | t.from == a :: !IsHead(contents, t)
      ensures accounts[a].promoted != [] ==>
                && accounts[a].promoted[0].from == a && IsHead(contents, accounts[a].promoted[0])
                && (forall t: Telegram | t.from == a && IsHead(contents, t) :: t == accounts[a].promoted[0])
    {
      hide Books, Shape, LinkedAt, InWindow;
      AccountIsFine(a);
      accounts[a].EmptyTogether();
      if accounts[a].promoted != [] {
        accounts[a].HeadIsFirst();
        assert accounts[a].promoted[0] in Queued(accounts[a].Value());
        SenderIs(a, accounts[a].promoted[0]);
      }
    }

    /** Takes the best-priced telegram off the executables. */
    method Peek() returns (t: Option<Telegram>)
      requires Valid()
      modifies this`executables
      ensures Valid() && (t == None <==> old(executables) == []) && (t == None ==> executables == [])
      ensures t.Some? ==> multiset(old(executables)) == multiset(executables) + multiset{t.value}
      ensures t.Some? ==> forall u | u in old(executables) :: t.value.gasPrice % U64 >= u.gasPrice % U64
    {
      hide Books, LinkedAt, CollisionFree, Heap.IsHeap;
      if executables == [] {
        return None;
      }
      PriceOrderIsTotal();
      var rest, x := Heap.Pop(PriceOrder, executables);
      executables := rest;
      return Some(x);
    }

    lemma PendingIsCount()
      requires Valid()
      ensures pending == TotalPromoted(contents)
    {
      hide Shape, LinkedAt, TotalSlots, TotalPromoted, IndexFine;
    }
  }
}
