/**
 How a block builder draws telegrams from the pool: it takes the best-priced
 head, tries to write it with the transition, and pops, demotes or drops it
 according to the outcome. No promotion happens meanwhile.
 */
module BlockSelection {
  import opened Common
  import opened PoolAccount
  import opened PoolBooks
  import opened Pool
  import opened Telegrams
  import opened Executor
  import opened BlockBuilding
  import opened Transitions

  function BySender(ts: seq<Telegram>, a: Address): (r: seq<Telegram>)
    ensures forall t :: t in r <==> t in ts && t.from == a
    decreases |ts|
  {
    if ts == [] then []
    else
      var n := |ts| - 1;
      assert ts == ts[..n] + [ts[n]];
      BySender(ts[..n], a) + if ts[n].from == a then [ts[n]] else []
  }

  lemma BySenderAppend(ts: seq<Telegram>, t: Telegram, a: Address)
    ensures BySender(ts + [t], a) == BySender(ts, a) + if t.from == a then [t] else []
  {
    assert (ts + [t])[..|ts|] == ts;
  }

  /** At most one executable per account, and it is the account's head. */
  ghost predicate OneEach(executables: multiset<Telegram>, contents: map<Address, Contents>) {
    forall t | t in executables :: IsHead(contents, t) && executables[t] == 1
  }

  /** What was executed for a sender is the first part of its line; the rest is still there, unless it was dropped. */
  ghost predicate SelectedFrom(was: map<Address, Contents>, now: map<Address, Contents>, executed: seq<Telegram>, a: Address) {
    var done := BySender(executed, a);
    if a in was then
      && a in now && done <= was[a].line
      && (now[a].line == [] || was[a].line == done + now[a].line)
    else done == []
  }

  ghost predicate Selected(was: map<Address, Contents>, now: map<Address, Contents>, executed: seq<Telegram>) {
    now.Keys == was.Keys && forall a :: SelectedFrom(was, now, executed, a)
  }

  lemma SelectNone(was: map<Address, Contents>)
    ensures Selected(was, was, [])
  {
    forall a ensures SelectedFrom(was, was, [], a) {
      assert BySender([], a) == [];
    }
  }

  lemma SelectOne(was: map<Address, Contents>, now: map<Address, Contents>, executed: seq<Telegram>, t: Telegram, c: Contents)
    requires Selected(was, now, executed) && t.from in now && now[t.from].line == [t] + c.line
    ensures Selected(was, now[t.from := c], executed + [t])
  {
    var next := now[t.from := c];
    forall a ensures SelectedFrom(was, next, executed + [t], a) {
      hide BySender;
      assert SelectedFrom(was, now, executed, a);
      BySenderAppend(executed, t, a);
      if a == t.from {
        var done := BySender(executed, a);
        assert done + ([t] + c.line) == (done + [t]) + c.line;
      } else {
        assert BySender(executed, a) + [] == BySender(executed, a);
      }
    }
  }

  lemma SelectDropped(was: map<Address, Contents>, now: map<Address, Contents>, executed: seq<Telegram>, a: Address, c: Contents)
    requires Selected(was, now, executed) && a in now && c.line == []
    ensures Selected(was, now[a := c], executed)
  {
    hide BySender;
    var next := now[a := c];
    forall b ensures SelectedFrom(was, next, executed, b) {
      assert SelectedFrom(was, now, executed, b);
    }
  }

  /** The executed telegrams of a sender carry consecutive nonces from the head of its line. */
  lemma SelectedAreConsecutive(was: map<Address, Contents>, now: map<Address, Contents>, executed: seq<Telegram>, a: Address, max: nat)
    requires Selected(was, now, executed) && a in was && InWindow(was[a], max)
    ensures var done := BySender(executed, a);
            |done| <= |was[a].line| && forall i | 0 <= i < |done| :: done[i] == was[a].line[i] && done[i].nonce == done[0].nonce + i
  {
    hide BySender;
    assert SelectedFrom(was, now, executed, a);
  }

  /** Heads of other accounts stay heads when one account changes. */
  lemma OneEachKept(executables: multiset<Telegram>, contents: map<Address, Contents>, a: Address, c: Contents)
    requires OneEach(executables, contents) && forall t | t in executables :: t.from != a
    ensures OneEach(executables, contents[a := c])
  {
  }

  lemma OneEachNext(executables: multiset<Telegram>, contents: map<Address, Contents>, t: Telegram)
    requires OneEach(executables, contents) && IsHead(contents, t) && forall u | u in executables :: u.from != t.from
    ensures OneEach(executables + multiset{t}, contents)
  {
  }

  lemma OneEachPeeked(executables: multiset<Telegram>, contents: map<Address, Contents>, t: Telegram, rest: multiset<Telegram>)
    requires OneEach(executables, contents) && executables == rest + multiset{t}
    ensures IsHead(contents, t) && OneEach(rest, contents) && forall u | u in rest :: u.from != t.from
  {
    assert executables[t] == rest[t] + 1;
    forall u | u in rest ensures u.from != t.from && IsHead(contents, u) && rest[u] == 1 {
      assert u in executables && t in executables && u != t;
    }
  }

  /** The heads among the telegrams come from the line that was there at the start. */
  lemma HeadIsSelected(was: map<Address, Contents>, now: map<Address, Contents>, executed: seq<Telegram>, t: Telegram)
    requires Selected(was, now, executed) && IsHead(now, t)
    ensures InLine(was, t)
  {
    hide BySender;
    assert SelectedFrom(was, now, executed, t.from);
  }

  ghost predicate InLine(contents: map<Address, Contents>, t: Telegram) {
    t.from in contents && t in contents[t.from].line
  }

  /** Tries one telegram; what the transition reports decides what the pool does with it. */
  method WriteTelegram(pool: TelegramPool, transition: Transition, gasLimit: nat, t: Telegram) returns (status: Status)
    requires pool.Valid() && transition.Valid() && IsHead(pool.contents, t)
    requires OneEach(multiset(pool.executables), pool.contents) && forall u | u in pool.executables :: u.from != t.from
    modifies pool, pool.accounts.Values, transition, transition.state
    ensures transition.Valid() && pool.Valid() && pool.accounts == old(pool.accounts) && Shrinks(old(pool.index), pool.index)
    ensures (transition.State(), status) == BuildStep(transition.e, gasLimit, old(transition.State()), t)
    ensures OneEach(multiset(pool.executables), pool.contents)
    ensures t.from in old(pool.contents) && t.from in pool.contents
    ensures pool.contents == old(pool.contents)[t.from := pool.contents[t.from]]
    ensures var before, after := old(pool.contents), pool.contents;
            var dropped := before[t.from := Contents([], [], [], t.nonce)];
            match status
            case Success => before[t.from].line == [t] + after[t.from].line
            case Fail => after == dropped
            case Skip => t.from in old(pool.accounts) &&
              after == if old(pool.accounts[t.from].demotions) < MAX_DEMOTIONS then before else dropped
            case Stop => after == before
    ensures pool.pending + |pool.executables| <= old(pool.pending + |pool.executables|)
  {
    hide pool.Valid, transition.Valid, Without, OneEach, IsHead, BuildStep;
    status := transition.WriteTransaction(gasLimit, t);
    SettleInPool(pool, t, status);
  }

  /** Pops, demotes or drops a telegram that was tried. */
  method SettleInPool(pool: TelegramPool, t: Telegram, status: Status)
    requires pool.Valid() && IsHead(pool.contents, t)
    requires OneEach(multiset(pool.executables), pool.contents) && forall u | u in pool.executables :: u.from != t.from
    modifies pool, pool.accounts.Values
    ensures pool.Valid() && pool.accounts == old(pool.accounts) && Shrinks(old(pool.index), pool.index)
    ensures OneEach(multiset(pool.executables), pool.contents)
    ensures t.from in old(pool.contents) && t.from in pool.contents
    ensures pool.contents == old(pool.contents)[t.from := pool.contents[t.from]]
    ensures var before, after := old(pool.contents), pool.contents;
            var dropped := before[t.from := Contents([], [], [], t.nonce)];
            match status
            case Success => before[t.from].line == [t] + after[t.from].line
            case Fail => after == dropped
            case Skip => t.from in old(pool.accounts) &&
              after == if old(pool.accounts[t.from].demotions) < MAX_DEMOTIONS then before else dropped
            case Stop => after == before
    ensures pool.pending + |pool.executables| <= old(pool.pending + |pool.executables|)
  {
    hide pool.Valid, Without, OneEach, IsHead;
    Ready(pool, t);
    ghost var ex, was := multiset(pool.executables), pool.contents;
    assert |ex| == |pool.executables|;
    match status {
      case Fail =>
        WithoutIsLess(pool.hash, pool.index, was[t.from].promoted + was[t.from].enqueued);
        pool.Drop(t);
      case Stop =>
      case Skip =>
        pool.Demote(t);
      case Success =>
        pool.Pop(t);
    }
    OneEachKept(ex, was, t.from, pool.contents[t.from]);
    assert |multiset(pool.executables)| == |pool.executables|;
    if status == Success && pool.contents[t.from].line != [] {
      NextHead(pool, t.from);
      OneEachNext(ex, pool.contents, pool.contents[t.from].line[0]);
    } else {
      assert multiset(pool.executables) == ex;
    }
  }

  lemma NextHead(pool: TelegramPool, a: Address)
    requires pool.Valid() && a in pool.contents && pool.contents[a].line != []
    ensures IsHead(pool.contents, pool.contents[a].line[0]) && pool.contents[a].line[0].from == a
  {
    hide pool.Valid, InWindow;
    pool.KeysAgree();
    pool.AccountIsFine(a);
    pool.accounts[a].EmptyTogether();
    pool.accounts[a].HeadIsFirst();
    pool.HeadOf(a);
  }

  lemma Ready(pool: TelegramPool, t: Telegram)
    requires pool.Valid() && IsHead(pool.contents, t)
    ensures t.from in pool.accounts && pool.accounts[t.from].promoted != [] && pool.accounts[t.from].promoted[0] == t
    ensures t in Queued(pool.accounts[t.from].Value()) && t.from in pool.contents
  {
    hide pool.Valid;
    pool.KeysAgree();
    pool.HeadOf(t.from);
    assert pool.accounts[t.from].promoted[0] in multiset(pool.accounts[t.from].promoted);
  }

  /** What waits in a line names the sender of its signature. */
  lemma LineIsAdmitted(pool: TelegramPool, e: Env, t: Telegram)
    requires pool.Valid() && pool.AllSigned() && SignsContent(e.sender) && e.sender == pool.signer.sender && InLine(pool.contents, t)
    ensures Admitted(e, t)
  {
    hide SignsContent, Signed, Admitted;
    LineIsKnown(pool, t);
    SignedIsAdmitted(e, t);
  }

  lemma LineIsKnown(pool: TelegramPool, t: Telegram)
    requires pool.Valid() && InLine(pool.contents, t)
    ensures Known(pool.hash, pool.index, t)
  {
    hide TotalSlots, TotalPromoted, CollisionFree;
    var c := pool.contents[t.from];
    assert InWindow(c, pool.maxEnqueued);
    assert t in multiset(c.line) && t in Queued(c);
    assert QueuedFine(pool.hash, pool.index, pool.inflight, t.from, QueuedMap(pool.contents)[t.from], t);
  }

  lemma BuildOneMore(e: Env, gasLimit: nat, s: TState, tried: seq<Telegram>, t: Telegram)
    ensures var (s1, executed) := Build(e, gasLimit, s, tried);
            var (s2, status) := BuildStep(e, gasLimit, s1, t);
            Build(e, gasLimit, s, tried + [t]) == (s2, if status == Success then executed + [t] else executed)
  {
    hide BuildStep;
    assert (tried + [t])[..|tried + [t]| - 1] == tried;
  }

  /**
   Draws telegrams from the pool and writes them until none is left or time is
   up. What a sender gets into the block is the first part of its line, in
   order, and a validator who replays the block arrives at the builder's state
   exactly when no telegram drawn was over the gas limit.
   */
  method WriteTelegrams(pool: TelegramPool, transition: Transition, gasLimit: nat, timeUp: nat -> bool)
    returns (executed: seq<Telegram>, ghost tried: seq<Telegram>)
    requires transition.Valid() && transition.e.sender == pool.signer.sender
    requires pool.Valid() && pool.AllSigned() && SignsContent(pool.signer.sender)
    modifies pool, pool.accounts.Values, transition, transition.state
    ensures transition.Valid() && pool.Valid() && pool.AllSigned() && Selected(old(pool.contents), pool.contents, executed)
    ensures (transition.State(), executed) == Build(transition.e, gasLimit, old(transition.State()), tried)
    ensures forall t | t in tried :: InLine(old(pool.contents), t)
    ensures timeUp(|tried|) || pool.executables == []
    ensures Process(transition.e, gasLimit, old(transition.State()), AllOnWire(executed)) == Some(transition.State())
            <==> forall t | t in tried :: !LeavesReceipt(transition.e, gasLimit, t)
  {
    hide pool.Valid, transition.Valid, Selected, OneEach, IsHead, InLine, SignsContent, Build, BuildStep, Process, LeavesReceipt, Admitted;
    var e := transition.e;
    forall t | InLine(pool.contents, t) ensures Admitted(e, t) {
      LineIsAdmitted(pool, e, t);
    }
    executed, tried := Draw(pool, transition, gasLimit, timeUp);
    BuilderAgreesIff(e, gasLimit, old(transition.State()), tried);
  }

  /** The loop of the builder. */
  method Draw(pool: TelegramPool, transition: Transition, gasLimit: nat, timeUp: nat -> bool)
    returns (executed: seq<Telegram>, ghost tried: seq<Telegram>)
    requires pool.Valid() && transition.Valid()
    modifies pool, pool.accounts.Values, transition, transition.state
    ensures transition.Valid() && pool.Valid() && Selected(old(pool.contents), pool.contents, executed) && Shrinks(old(pool.index), pool.index)
    ensures (transition.State(), executed) == Build(transition.e, gasLimit, old(transition.State()), tried)
    ensures forall t | t in tried :: InLine(old(pool.contents), t)
    ensures timeUp(|tried|) || pool.executables == []
  {
    hide pool.Valid, transition.Valid, Selected, OneEach, IsHead, InLine, Build, BuildStep;
    pool.Prepare();
    HeadsAreOneEach(multiset(pool.executables), pool.contents);
    executed := [];
    var seen := [];
    tried := seen;
    SelectNone(pool.contents);
    BuildNone(transition.e, gasLimit, transition.State());
    while !timeUp(|seen|)
      invariant transition.Valid() && pool.Valid() && pool.accounts == old(pool.accounts) && Shrinks(old(pool.index), pool.index)
      invariant Selected(old(pool.contents), pool.contents, executed)
      invariant OneEach(multiset(pool.executables), pool.contents)
      invariant (transition.State(), executed) == Build(transition.e, gasLimit, old(transition.State()), seen) && tried == seen
      invariant forall t | t in seen :: InLine(old(pool.contents), t)
      decreases pool.pending + |pool.executables|
    {
      pool.PendingIsCount();
      ghost var ex, was, s := multiset(pool.executables), pool.contents, transition.State();
      assert |ex| == |pool.executables|;
      var t := pool.Peek();
      if t == None {
        break;
      }
      OneEachPeeked(ex, pool.contents, t.value, multiset(pool.executables));
      assert |multiset(pool.executables)| == |pool.executables|;
      HeadIsSelected(old(pool.contents), was, executed, t.value);
      var status := WriteTelegram(pool, transition, gasLimit, t.value);
      NeverStops(transition.e, gasLimit, s, t.value);
      if status == Stop {
        break;
      }
      BuildOneMore(transition.e, gasLimit, old(transition.State()), seen, t.value);
      seen := seen + [t.value];
      tried := seen;
      if status == Success {
        SelectOne(old(pool.contents), was, executed, t.value, pool.contents[t.value.from]);
        executed := executed + [t.value];
      } else if pool.contents != was {
        SelectDropped(old(pool.contents), was, executed, t.value.from, pool.contents[t.value.from]);
      }
    }
  }

  lemma BuildNone(e: Env, gasLimit: nat, s: TState)
    ensures Build(e, gasLimit, s, []) == (s, [])
  {
  }

  lemma HeadsAreOneEach(executables: multiset<Telegram>, contents: map<Address, Contents>)
    requires forall t :: executables[t] == if IsHead(contents, t) then 1 else 0
    ensures OneEach(executables, contents)
  {
  }
}
