/**
 One account of the telegram pool: telegrams waiting for their turn (enqueued),
 telegrams ready for a block (promoted), and the next expected nonce between.
 */
module PoolAccount {
  import opened Common
  import opened Telegrams
  import Heap

  /** Lower nonce first; for equal nonces the higher price. */
  predicate NonceOrder(x: Telegram, y: Telegram) {
    x.nonce < y.nonce || (x.nonce == y.nonce && x.gasPrice >= y.gasPrice)
  }

  lemma NonceOrderIsTotal()
    ensures Heap.TotalPreorder(NonceOrder)
  {
  }

  ghost predicate IsQueue(q: seq<Telegram>) {
    Heap.IsHeap(NonceOrder, q)
  }

  /** The head has the lowest nonce. */
  lemma HeadIsLowest(q: seq<Telegram>)
    requires IsQueue(q)
    ensures q != [] ==> forall t | t in q :: t.nonce >= q[0].nonce
  {
    NonceOrderIsTotal();
    forall t | q != [] && t in q ensures t.nonce >= q[0].nonce {
      var i :| 0 <= i < |q| && q[i] == t;
      Heap.HeadIsLeast(NonceOrder, q, i);
    }
  }

  /** Removes the telegrams below a nonce. */
  method Prune(q0: seq<Telegram>, nonce: nat) returns (q: seq<Telegram>, pruned: seq<Telegram>)
    requires IsQueue(q0)
    ensures IsQueue(q) && multiset(q0) == multiset(q) + multiset(pruned)
    ensures forall t | t in pruned :: t.nonce < nonce
    ensures forall t | t in q :: t.nonce >= nonce
  {
    NonceOrderIsTotal();
    q, pruned := q0, [];
    while q != [] && q[0].nonce < nonce
      invariant IsQueue(q) && multiset(q0) == multiset(q) + multiset(pruned)
      invariant forall t | t in pruned :: t.nonce < nonce
      decreases |q|
    {
      var rest, x := Heap.Pop(NonceOrder, q);
      assert |multiset(q)| == |q| && |multiset(rest)| == |rest|;
      q, pruned := rest, pruned + [x];
    }
    HeadIsLowest(q);
  }

  method PopQueue(q0: seq<Telegram>) returns (q: seq<Telegram>, x: Telegram)
    requires IsQueue(q0) && q0 != []
    ensures IsQueue(q) && x == q0[0] && multiset(q0) == multiset(q) + multiset{x}
  {
    NonceOrderIsTotal();
    q, x := Heap.Pop(NonceOrder, q0);
  }

  /** Telegrams with consecutive nonces that end right below `next`. */
  ghost predicate Consecutive(line: seq<Telegram>, next: nat) {
    |line| <= next && forall i | 0 <= i < |line| :: line[i].nonce == next - |line| + i
  }

  /** `line` lists the promoted telegrams in nonce order, up to `next`. */
  ghost predicate Lined(promoted: seq<Telegram>, line: seq<Telegram>, next: nat) {
    multiset(promoted) == multiset(line) && Consecutive(line, next)
  }

  lemma CutFirst(promoted: seq<Telegram>, line: seq<Telegram>, next: nat, q: seq<Telegram>, x: Telegram)
    requires Lined(promoted, line, next) && line != [] && line[0] == x && multiset(promoted) == multiset(q) + multiset{x}
    ensures Lined(q, line[1..], next) && line == [x] + line[1..]
  {
    assert line == [x] + line[1..];
    assert multiset(line) == multiset{x} + multiset(line[1..]);
    assert multiset(q) == multiset(promoted) - multiset{x} == multiset(line[1..]);
  }

  datatype EnqueueError = MaxEnqueuedLimitReached | NonceTooLow | NonceTooHigh

  /** The expected telegrams were taken in order, each the best-priced of its nonce. */
  ghost predicate IsPromotion(enqueued: multiset<Telegram>, next: nat, promoted: seq<Telegram>) {
    && (forall i | 0 <= i < |promoted| :: promoted[i].nonce == next + i && promoted[i] in enqueued)
    && (forall i, t | 0 <= i < |promoted| && t in enqueued && t.nonce == next + i :: t.gasPrice <= promoted[i].gasPrice)
    && (forall t | t in enqueued :: t.nonce != next + |promoted|)
  }

  /** The contents of an account, with the promoted telegrams also in nonce order. */
  datatype Contents = Contents(enqueued: seq<Telegram>, promoted: seq<Telegram>, line: seq<Telegram>, next: nat)

  /**
   The nonce window: promoted nonces are the ones right below next, each once;
   enqueued nonces start at next and are bounded in range and number.
   */
  ghost predicate InWindow(c: Contents, max: nat) {
    && IsQueue(c.enqueued) && IsQueue(c.promoted)
    && Lined(c.promoted, c.line, c.next)
    && |c.enqueued| <= max
    && (forall t | t in c.enqueued :: c.next <= t.nonce < c.next + max)
  }

  /** Something is enqueued, but the expected telegram is missing. */
  ghost predicate HasHole(c: Contents) {
    c.enqueued != [] && forall t | t in c.enqueued :: t.nonce != c.next
  }

  ghost function Plugged(c: Contents): (r: Contents)
    ensures !HasHole(r) && (r == c <==> !HasHole(c))
  {
    if HasHole(c) then c.(enqueued := []) else c
  }

  class Account {
    const maxEnqueued: nat
    var enqueued: seq<Telegram>
    var promoted: seq<Telegram>
    var nextNonce: nat
    var demotions: nat
    var skips: nat

    /** The promoted telegrams in nonce order. */
    ghost var line: seq<Telegram>

    ghost function Value(): Contents
      reads this`enqueued, this`promoted, this`line, this`nextNonce
    {
      Contents(enqueued, promoted, line, nextNonce)
    }

    ghost predicate Valid()
      reads this`enqueued, this`promoted, this`line, this`nextNonce
    {
      InWindow(Value(), maxEnqueued)
    }

    constructor (nonce: nat, maxEnqueued: nat)
      ensures Valid() && enqueued == [] && promoted == [] && line == [] && nextNonce == nonce
      ensures this.maxEnqueued == maxEnqueued && demotions == 0 && skips == 0
    {
      this.maxEnqueued := maxEnqueued;
      enqueued, promoted, nextNonce, demotions, skips := [], [], nonce, 0, 0;
      line := [];
    }

    method Enqueue(t: Telegram) returns (err: Option<EnqueueError>)
      requires Valid()
      modifies this`enqueued
      ensures Valid()
      ensures err == None <==>
              |old(enqueued)| != maxEnqueued && nextNonce <= t.nonce < (nextNonce + maxEnqueued) % U64
      ensures err == Some(MaxEnqueuedLimitReached) <==> |old(enqueued)| == maxEnqueued
      ensures err == Some(NonceTooLow) <==> |old(enqueued)| != maxEnqueued && t.nonce < nextNonce
      ensures err == None ==> multiset(enqueued) == multiset(old(enqueued)) + multiset{t}
      ensures err != None ==> enqueued == old(enqueued)
    {
      if |enqueued| == maxEnqueued {
        return Some(MaxEnqueuedLimitReached);
      }
      if t.nonce < nextNonce {
        return Some(NonceTooLow);
      }
      if t.nonce >= (nextNonce + maxEnqueued) % U64 {
        return Some(NonceTooHigh);
      }
      NonceOrderIsTotal();
      var q := Heap.Push(NonceOrder, enqueued, t);
      SizeOfUnion(q, enqueued, t);
      Members(q, enqueued, t);
      enqueued := q;
      return None;
    }

    /** The head of the promoted queue is the first of the line. */
    lemma HeadIsFirst()
      requires Valid() && promoted != []
      ensures line != [] && promoted[0] == line[0]
    {
      assert |multiset(promoted)| == |promoted| && |multiset(line)| == |line|;
      assert promoted[0] in multiset(line) && line[0] in multiset(promoted);
      var i :| 0 <= i < |promoted| && promoted[i] == line[0];
      NonceOrderIsTotal();
      Heap.HeadIsLeast(NonceOrder, promoted, i);
    }

    lemma EmptyTogether()
      requires Valid()
      ensures promoted == [] <==> line == []
    {
      assert |multiset(promoted)| == |promoted| && |multiset(line)| == |line|;
    }

    /** Takes the head of the promoted queue. */
    method PopPromoted() returns (x: Telegram)
      requires Valid() && promoted != []
      modifies this`promoted, this`line
      ensures Valid() && old(line) == [x] + line
    {
      hide IsQueue, Lined;
      HeadIsFirst();
      NonceOrderIsTotal();
      var q;
      q, x := PopQueue(promoted);
      CutFirst(promoted, line, nextNonce, q, x);
      promoted, line := q, line[1..];
    }

    /** One telegram moves over; the others of its nonce or below are pruned. */
    method PromoteOne(expected: nat) returns (x: Telegram, pruned: seq<Telegram>)
      requires IsQueue(enqueued) && IsQueue(promoted) && enqueued != [] && enqueued[0].nonce == expected
      requires Lined(promoted, line, expected)
      modifies this`enqueued, this`promoted, this`line
      ensures IsQueue(enqueued) && IsQueue(promoted)
      ensures x.nonce == expected && x in old(enqueued)
      ensures forall t | t in old(enqueued) && t.nonce == expected :: t.gasPrice <= x.gasPrice
      ensures line == old(line) + [x] && Lined(promoted, line, expected + 1)
      ensures multiset(old(enqueued)) == multiset(enqueued) + multiset{x} + multiset(pruned)
      ensures forall t | t in enqueued :: t.nonce > expected
      ensures forall t | t in pruned :: t.nonce <= expected
    {
      NonceOrderIsTotal();
      var q;
      q, x := Heap.Pop(NonceOrder, enqueued);
      var p := Heap.Push(NonceOrder, promoted, x);
      promoted, line := p, line + [x];
      enqueued, pruned := Prune(q, expected + 1);
    }

    /** Moves every telegram whose turn has come. */
    method Promote() returns (moved: seq<Telegram>, pruned: seq<Telegram>)
      requires Valid()
      modifies this`enqueued, this`promoted, this`line, this`nextNonce
      ensures Valid() && line == old(line) + moved && nextNonce == old(nextNonce) + |moved|
      ensures IsPromotion(multiset(old(enqueued)), old(nextNonce), moved)
      ensures multiset(old(enqueued)) == multiset(enqueued) + multiset(moved) + multiset(pruned)
      ensures forall t | t in pruned :: t.nonce < nextNonce
    {
      hide IsQueue, Lined;
      HeadIsLowest(enqueued);
      if enqueued == [] || enqueued[0].nonce > nextNonce {
        assert line + [] == line;
        return [], [];
      }
      assert enqueued[0] in enqueued;
      var next;
      moved, pruned, next := MoveAll();
      if next > nextNonce {
        nextNonce := next;
      }
    }

    /** One step of a promotion. */
    method MoveNext(ghost was: multiset<Telegram>, ghost moved: seq<Telegram>, ghost pruned: seq<Telegram>, ghost current: nat)
      returns (x: Telegram, more: seq<Telegram>)
      requires IsQueue(enqueued) && IsQueue(promoted) && enqueued != [] && enqueued[0].nonce == current + |moved|
      requires Lined(promoted, line, current + |moved|) && Moving(was, enqueued, moved, pruned, current)
      modifies this`enqueued, this`promoted, this`line
      ensures IsQueue(enqueued) && IsQueue(promoted) && x.nonce == current + |moved|
      ensures Lined(promoted, line, x.nonce + 1) && line == old(line) + [x]
      ensures Moving(was, enqueued, moved + [x], pruned + more, current) && |enqueued| < |old(enqueued)|
    {
      hide IsQueue, Moving, Lined;
      x, more := PromoteOne(enqueued[0].nonce);
      MoveOne(was, old(enqueued), moved, pruned, current, x, enqueued, more);
    }

    /** The loop of a promotion. */
    method MoveAll() returns (moved: seq<Telegram>, pruned: seq<Telegram>, next: nat)
      requires Valid() && enqueued != [] && enqueued[0].nonce == nextNonce
      modifies this`enqueued, this`promoted, this`line
      ensures IsQueue(enqueued) && IsQueue(promoted) && next == nextNonce + |moved|
      ensures Lined(promoted, line, next) && line == old(line) + moved
      ensures Moved(multiset(old(enqueued)), enqueued, moved, pruned, nextNonce, maxEnqueued)
    {
      hide IsQueue, Moving, Moved, Lined;
      moved, pruned, next := [], [], enqueued[0].nonce;
      ghost var was := multiset(enqueued);
      MoveStart(enqueued, nextNonce);
      while enqueued != [] && enqueued[0].nonce == next
        invariant IsQueue(enqueued) && IsQueue(promoted)
        invariant next == nextNonce + |moved| && line == old(line) + moved
        invariant Lined(promoted, line, next)
        invariant Moving(was, enqueued, moved, pruned, nextNonce)
        decreases |enqueued|
      {
        var x, more := MoveNext(was, moved, pruned, nextNonce);
        moved, pruned, next := moved + [x], pruned + more, x.nonce + 1;
      }
      HeadIsLowest(enqueued);
      MoveEnd(was, enqueued, moved, pruned, nextNonce, maxEnqueued);
    }

    /** Aligns the account with the nonce of the chain. */
    method Reset(nonce: nat)
      returns (prunedPromoted: seq<Telegram>, prunedEnqueued: seq<Telegram>, signal: bool, ghost k: nat)
      requires Valid()
      modifies this`enqueued, this`promoted, this`line, this`nextNonce
      ensures Valid() && nextNonce == if nonce > old(nextNonce) then nonce else old(nextNonce)
      ensures multiset(old(promoted)) == multiset(promoted) + multiset(prunedPromoted)
      ensures multiset(old(enqueued)) == multiset(enqueued) + multiset(prunedEnqueued)
      ensures forall t | t in promoted || t in enqueued :: t.nonce >= nonce
      ensures forall t | t in prunedPromoted || t in prunedEnqueued :: t.nonce < nonce
      ensures k <= |old(line)| && line == old(line)[k..]
      ensures signal <==> nonce > old(nextNonce) && exists t :: t in enqueued && t.nonce == nonce
    {
      var q;
      q, prunedPromoted := Prune(promoted, nonce);
      k := CutLine(line, nextNonce, nonce, q, prunedPromoted);
      promoted, line := q, line[k..];
      if nonce <= nextNonce {
        return prunedPromoted, [], false, k;
      }
      assert line == [];
      q, prunedEnqueued := Prune(enqueued, nonce);
      SizeOfPart(q, multiset(enqueued));
      forall t | t in q ensures t in enqueued {
        assert t in multiset(q);
      }
      enqueued, nextNonce := q, nonce;
      signal := enqueued != [] && enqueued[0].nonce == nonce;
      HeadIsLowest(enqueued);
      assert enqueued != [] ==> enqueued[0] in enqueued;
    }

    /** Empties both queues and rolls the expected nonce to that of the dropped telegram. */
    method Clear(nonce: nat) returns (droppedPromoted: seq<Telegram>, droppedEnqueued: seq<Telegram>)
      requires Valid()
      modifies this`enqueued, this`promoted, this`line, this`nextNonce
      ensures Valid() && enqueued == [] && promoted == [] && line == [] && nextNonce == nonce
      ensures droppedPromoted == old(promoted) && droppedEnqueued == old(enqueued)
    {
      nextNonce := nonce;
      droppedPromoted, promoted, line := promoted, [], [];
      droppedEnqueued, enqueued := enqueued, [];
    }

    /** The telegram that would leave the account first. */
    method LowestTelegram() returns (t: Option<Telegram>)
      requires Valid()
      ensures t == None <==> promoted == [] && enqueued == []
      ensures t.Some? ==> t.value in promoted || t.value in enqueued
      ensures t.Some? ==> forall u | u in promoted || u in enqueued :: t.value.nonce <= u.nonce
    {
      HeadIsLowest(promoted);
      HeadIsLowest(enqueued);
      EmptyTogether();
      if promoted != [] {
        HeadIsFirst();
        return Some(promoted[0]);
      }
      if enqueued != [] {
        return Some(enqueued[0]);
      }
      return None;
    }

    /** Empties the enqueued queue if its first telegram is not the expected one. */
    method PruneHole() returns (removed: seq<Telegram>)
      requires Valid()
      modifies this`enqueued
      ensures Valid() && removed == (if HasHole(old(Value())) then old(enqueued) else [])
      ensures removed != [] <==> HasHole(old(Value()))
      ensures Value() == Plugged(old(Value()))
    {
      HeadIsLowest(enqueued);
      if enqueued == [] {
        return [];
      }
      assert enqueued[0] in enqueued;
      if enqueued[0].nonce == nextNonce {
        return [];
      }
      removed, enqueued := enqueued, [];
    }
  }

  // ---------- multisets ----------

  lemma SizeOfUnion(q: seq<Telegram>, p: seq<Telegram>, t: Telegram)
    requires multiset(q) == multiset(p) + multiset{t}
    ensures |q| == |p| + 1
  {
    assert |multiset(q)| == |q| && |multiset(p)| == |p|;
  }

  lemma Members(q: seq<Telegram>, p: seq<Telegram>, t: Telegram)
    requires multiset(q) == multiset(p) + multiset{t}
    ensures forall x :: x in q <==> x in p || x == t
  {
    forall x ensures x in q <==> x in p || x == t {
      assert x in q <==> x in multiset(q);
      assert x in p <==> x in multiset(p);
    }
  }

  lemma SizeOfPart(q: seq<Telegram>, m: multiset<Telegram>)
    requires multiset(q) <= m
    ensures |q| <= |m|
  {
    assert m == multiset(q) + (m - multiset(q));
    assert |multiset(q)| == |q|;
  }

  // ---------- promotion ----------

  /** Where a promotion from `current` stands: what was enqueued is enqueued still, moved or pruned. */
  ghost predicate Moving(was: multiset<Telegram>, enqueued: seq<Telegram>, moved: seq<Telegram>, pruned: seq<Telegram>, current: nat) {
    && was == multiset(enqueued) + multiset(moved) + multiset(pruned)
    && (forall t | t in enqueued :: t.nonce >= current + |moved|)
    && (forall t | t in pruned :: t.nonce < current + |moved|)
    && (forall i | 0 <= i < |moved| :: moved[i].nonce == current + i)
    && (forall i, t | 0 <= i < |moved| && t in was && t.nonce == current + i :: t.gasPrice <= moved[i].gasPrice)
  }

  /** A promotion is complete, and what is left lies in the new window. */
  ghost predicate Moved(was: multiset<Telegram>, enqueued: seq<Telegram>, moved: seq<Telegram>, pruned: seq<Telegram>,
                        current: nat, max: nat) {
    && IsPromotion(was, current, moved)
    && was == multiset(enqueued) + multiset(moved) + multiset(pruned)
    && |enqueued| <= max
    && (forall t | t in enqueued :: current + |moved| <= t.nonce < current + |moved| + max)
    && (forall t | t in pruned :: t.nonce < current + |moved|)
  }

  lemma MoveStart(enqueued: seq<Telegram>, current: nat)
    requires forall t | t in enqueued :: t.nonce >= current
    ensures Moving(multiset(enqueued), enqueued, [], [], current)
  {
  }

  /** The telegram taken is the best of its nonce among all that were enqueued at the start. */
  lemma MoveOne(was: multiset<Telegram>, before: seq<Telegram>, moved: seq<Telegram>, pruned: seq<Telegram>, current: nat,
                x: Telegram, after: seq<Telegram>, more: seq<Telegram>)
    requires Moving(was, before, moved, pruned, current)
    requires x.nonce == current + |moved| && forall t | t in before && t.nonce == x.nonce :: t.gasPrice <= x.gasPrice
    requires multiset(before) == multiset(after) + multiset{x} + multiset(more)
    requires forall t | t in after :: t.nonce > x.nonce
    requires forall t | t in more :: t.nonce <= x.nonce
    ensures Moving(was, after, moved + [x], pruned + more, current)
    ensures |after| < |before|
  {
    assert |multiset(before)| == |before| && |multiset(after)| == |after|;
    forall t | t in was && t.nonce == x.nonce ensures t.gasPrice <= x.gasPrice {
      NotThere(moved, t);
      NotThere(pruned, t);
      assert t in multiset(before);
    }
  }

  lemma MoveEnd(was: multiset<Telegram>, enqueued: seq<Telegram>, moved: seq<Telegram>, pruned: seq<Telegram>, current: nat, max: nat)
    requires Moving(was, enqueued, moved, pruned, current)
    requires enqueued != [] ==> enqueued[0].nonce != current + |moved| && forall t | t in enqueued :: t.nonce >= enqueued[0].nonce
    requires |was| <= max && forall t | t in was :: t.nonce < current + max
    ensures Moved(was, enqueued, moved, pruned, current, max)
  {
    SizeOfPart(enqueued, was);
    if enqueued != [] {
      assert enqueued[0] in enqueued;
    }
    forall t | t in enqueued || t in moved ensures t in was {
      assert t in multiset(enqueued) || t in multiset(moved);
    }
    forall t | t in was ensures t.nonce != current + |moved| {
      assert t in multiset(enqueued) || t in multiset(moved) || t in multiset(pruned);
    }
  }

  /** Pruning a queue below a nonce cuts a prefix off its line. */
  lemma CutLine(line: seq<Telegram>, next: nat, nonce: nat, q: seq<Telegram>, pruned: seq<Telegram>) returns (k: nat)
    requires Consecutive(line, next) && multiset(line) == multiset(q) + multiset(pruned)
    requires forall t | t in q :: t.nonce >= nonce
    requires forall t | t in pruned :: t.nonce < nonce
    ensures k <= |line| && multiset(q) == multiset(line[k..]) && Consecutive(line[k..], next)
    ensures nonce >= next ==> k == |line|
  {
    var first := next - |line|;
    k := if nonce <= first then 0 else if nonce - first <= |line| then nonce - first else |line|;
    assert line == line[..k] + line[k..];
    var low, high := multiset(line[..k]), multiset(line[k..]);
    assert multiset(line) == low + high;
    forall t ensures multiset(q)[t] == high[t] {
      assert multiset(line)[t] == multiset(q)[t] + multiset(pruned)[t] == low[t] + high[t];
      if t.nonce >= nonce {
        assert t !in pruned && t !in line[..k];
        NotThere(pruned, t);
        NotThere(line[..k], t);
      } else {
        assert t !in q && t !in line[k..];
        NotThere(q, t);
        NotThere(line[k..], t);
      }
    }
    assert multiset(q) == high;
  }

  lemma NotThere(s: seq<Telegram>, t: Telegram)
    requires t !in s
    ensures multiset(s)[t] == 0
  {
    assert t !in multiset(s);
  }
}
