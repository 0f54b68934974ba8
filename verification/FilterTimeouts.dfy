/**
 Filters installed by clients and the heap of their timeouts. Every filter
 object carries its own position in the heap, which swaps keep up to date.
 */
module FilterTimeouts {
  import opened Common
  import Heap

  type Id = nat
  type Time = int

  const NO_INDEX := -1

  class FilterBase {
    const id: Id
    const hasWs: bool
    var heapIndex: int
    var expiresAt: Time

    constructor (id: Id, hasWs: bool)
      ensures this.id == id && this.hasWs == hasWs && heapIndex == NO_INDEX
    {
      this.id, this.hasWs, heapIndex, expiresAt := id, hasWs, NO_INDEX, 0;
    }
  }

  predicate Sooner(x: Time, y: Time) {
    x <= y
  }

  lemma SoonerIsTotal()
    ensures Heap.TotalPreorder(Sooner)
  {
  }

  function Due(ts: seq<FilterBase>): (d: seq<Time>)
    reads ts
    ensures |d| == |ts| && forall i | 0 <= i < |ts| :: d[i] == ts[i].expiresAt
  {
    if ts == [] then [] else
      assert forall i | 1 <= i < |ts| :: ts[i] == ts[1..][i - 1];
      [ts[0].expiresAt] + Due(ts[1..])
  }

  ghost predicate Indexed(ts: seq<FilterBase>)
    reads ts
  {
    forall i | 0 <= i < |ts| :: ts[i].heapIndex == i
  }

  /** The timeouts: a heap by expiry whose elements know where they are. */
  class TimeHeap {
    var items: seq<FilterBase>

    ghost predicate Valid()
      reads this, items
    {
      Indexed(items) && Heap.IsHeap(Sooner, Due(items))
    }

    constructor ()
      ensures Valid() && items == []
    {
      items := [];
    }

    method Swap(i: nat, j: nat)
      requires Indexed(items) && i < |items| && j < |items|
      modifies this`items, items
      ensures Indexed(items) && items == Heap.Swapped(old(items), i, j)
      ensures forall x | x in old(items) :: x.expiresAt == old(x.expiresAt)
    {
      hide Due;
      var a, b := items[i], items[j];
      items := Heap.Swapped(items, i, j);
      b.heapIndex := i;
      a.heapIndex := j;
    }

    /** A swap among the first `n` items, with what it means for their expiries. */
    method Exchange(i: nat, j: nat, ghost n: nat)
      requires Indexed(items) && i < n && j < n <= |items|
      modifies this`items, items
      ensures Indexed(items) && multiset(items) == multiset(old(items)) && |items| == |old(items)|
      ensures items[n..] == old(items)[n..] && forall k | 0 <= k < |items| :: items[k] in old(items)
      ensures forall x | x in old(items) :: x.expiresAt == old(x.expiresAt)
      ensures Due(items[..n]) == Heap.Swapped(old(Due(items[..n])), i, j)
    {
      hide Due;
      ghost var d := Due(items[..n]);
      ghost var was := items;
      Swap(i, j);
      assert |d| == n && forall k | 0 <= k < n :: d[k] == was[k].expiresAt;
    }

    /** Lets the item at `j0` rise among the first `n`. */
    method Up(j0: nat, ghost n: nat)
      requires j0 < n <= |items| && Indexed(items) && Heap.UpOk(Sooner, Due(items[..n]), j0)
      modifies this`items, items
      ensures Indexed(items) && |items| == |old(items)| && Heap.IsHeap(Sooner, Due(items[..n]))
      ensures multiset(items) == multiset(old(items)) && items[n..] == old(items)[n..]
      ensures forall k | 0 <= k < |items| :: items[k] in old(items)
      ensures forall x | x in old(items) :: x.expiresAt == old(x.expiresAt)
    {
      hide Due, Heap.UpOk, Heap.Swapped, Indexed;
      SoonerIsTotal();
      var j: nat := j0;
      while j > 0 && !Sooner(items[Heap.Parent(j)].expiresAt, items[j].expiresAt)
        invariant j < n && |items| == |old(items)| && Indexed(items) && Heap.UpOk(Sooner, Due(items[..n]), j)
        invariant multiset(items) == multiset(old(items)) && items[n..] == old(items)[n..]
        invariant forall i | 0 <= i < |items| :: items[i] in old(items)
        invariant forall x | x in old(items) :: x.expiresAt == old(x.expiresAt)
      {
        Heap.UpStep(Sooner, Due(items[..n]), j);
        Exchange(Heap.Parent(j), j, n);
        j := Heap.Parent(j);
      }
      Heap.UpDone(Sooner, Due(items[..n]), j);
    }

    /** The child of `i` among the first `n` that expires first. */
    function SoonerChild(i: nat, n: nat): (c: nat)
      requires 2 * i + 1 < n <= |items|
      reads this, items
      ensures c == Heap.SmallerChild(Sooner, Due(items[..n]), i)
    {
      if 2 * i + 2 < n && !Sooner(items[2 * i + 1].expiresAt, items[2 * i + 2].expiresAt) then 2 * i + 2 else 2 * i + 1
    }

    /** Lets the item at `i0` sink among the first `n`; says whether it moved. */
    method Down(i0: nat, n: nat) returns (moved: bool)
      requires i0 < n <= |items| && Indexed(items) && Heap.HoleAt(Sooner, Due(items[..n]), i0)
      modifies this`items, items
      ensures Indexed(items) && |items| == |old(items)| && multiset(items) == multiset(old(items)) && items[n..] == old(items)[n..]
      ensures forall k | 0 <= k < |items| :: items[k] in old(items)
      ensures forall x | x in old(items) :: x.expiresAt == old(x.expiresAt)
      ensures if moved then Heap.IsHeap(Sooner, Due(items[..n])) else Heap.UpOk(Sooner, Due(items[..n]), i0)
    {
      hide Due, Heap.UpOk, Heap.DownOk, Heap.HoleAt, Heap.Swapped, Indexed, Heap.IsHeap, Heap.SmallerChild;
      SoonerIsTotal();
      var i: nat := i0;
      while 2 * i + 1 < n && !Sooner(items[i].expiresAt, items[SoonerChild(i, n)].expiresAt)
        invariant i0 <= i < n && |items| == |old(items)| && Indexed(items)
        invariant if i > i0 then Heap.DownOk(Sooner, Due(items[..n]), i) else Heap.HoleAt(Sooner, Due(items[..n]), i)
        invariant multiset(items) == multiset(old(items)) && items[n..] == old(items)[n..]
        invariant forall k | 0 <= k < |items| :: items[k] in old(items)
        invariant forall x | x in old(items) :: x.expiresAt == old(x.expiresAt)
        decreases n - i
      {
        var c := SoonerChild(i, n);
        if i > i0 {
          Heap.DownStep(Sooner, Due(items[..n]), i);
        } else {
          Heap.HoleSinks(Sooner, Due(items[..n]), i);
        }
        Exchange(i, c, n);
        i := c;
      }
      moved := i > i0;
      if moved {
        Heap.DownDone(Sooner, Due(items[..n]), i);
      } else {
        Heap.HoleStays(Sooner, Due(items[..n]), i);
      }
    }

    /** Adds an item that is not in the heap. */
    method AddFilter(f: FilterBase)
      requires Valid() && f !in items
      modifies this`items, items, f
      ensures Valid() && multiset(items) == multiset(old(items)) + multiset{f}
      ensures f.expiresAt == old(f.expiresAt) && forall x | x in old(items) :: x.expiresAt == old(x.expiresAt)
    {
      hide Due, Heap.UpOk, Heap.IsHeap;
      ghost var was := items;
      Push(f);
      Appended(was, f);
      assert items[..|items|] == items;
      Up(|items| - 1, |items|);
      assert items[..|items|] == items;
      SameMembers(items, was + [f]);
    }

    /** Appends an item and tells it where it is. */
    method Push(f: FilterBase)
      requires Indexed(items) && f !in items
      modifies this`items, f`heapIndex
      ensures items == old(items) + [f] && Indexed(items)
    {
      f.heapIndex := |items|;
      items := items + [f];
    }

    /** Cuts the last item off and tells it that it is nowhere. */
    method Pop() returns (x: FilterBase)
      requires Indexed(items) && items != [] && Heap.IsHeap(Sooner, Due(items[..|items| - 1]))
      modifies this`items, items
      ensures old(items) == items + [x] && Valid() && x.heapIndex == NO_INDEX
      ensures forall y | y in old(items) :: y.expiresAt == old(y.expiresAt)
    {
      hide Due, Heap.IsHeap;
      ghost var d := Due(items[..|items| - 1]);
      x := items[|items| - 1];
      items := items[..|items| - 1];
      x.heapIndex := NO_INDEX;
      assert Due(items) == d;
    }

    /** Removes the item at a position. */
    method RemoveAt(i: nat)
      requires Valid() && i < |items|
      modifies this`items, items
      ensures Valid() && multiset(old(items)) == multiset(items) + multiset{old(items)[i]}
      ensures old(items)[i].heapIndex == NO_INDEX
      ensures forall y | y in old(items) :: y.expiresAt == old(y.expiresAt)
    {
      hide Due, Heap.UpOk, Heap.IsHeap, Heap.HoleAt, Heap.Swapped, Indexed;
      var n := |items| - 1;
      ghost var was := items;
      if n != i {
        Punch(i);
        var moved := Down(i, n);
        if !moved {
          Up(i, n);
        }
      } else {
        Prefix(items, n);
      }
      assert items[n] == items[n..][0] == was[i];
      var x := Pop();
    }

    /** Puts the last item where the item at `i` was, and that one last. */
    method Punch(i: nat)
      requires Valid() && i < |items| - 1
      modifies this`items, items
      ensures Indexed(items) && |items| == |old(items)| && multiset(items) == multiset(old(items))
      ensures items[|items| - 1..] == [old(items)[i]] && forall k | 0 <= k < |items| :: items[k] in old(items)
      ensures forall x | x in old(items) :: x.expiresAt == old(x.expiresAt)
      ensures Heap.HoleAt(Sooner, Due(items[..|items| - 1]), i)
    {
      hide Due, Heap.IsHeap, Heap.HoleAt;
      SoonerIsTotal();
      var n := |items| - 1;
      ghost var d := Due(items);
      ghost var was := items;
      Heap.HoleLeft(Sooner, d, i, d[n]);
      Swap(i, n);
      assert Due(items[..n]) == d[..n][i := d[n]];
    }

    /** Removes an item from wherever it says it is; an item that is nowhere stays so. */
    method RemoveFilter(f: FilterBase) returns (removed: bool)
      requires Valid() && (f.heapIndex == NO_INDEX || f in items)
      modifies this`items, items
      ensures Valid() && removed == (f in old(items)) && f.heapIndex == NO_INDEX && f !in items
      ensures multiset(old(items)) == multiset(items) + if removed then multiset{f} else multiset{}
      ensures forall y | y in old(items) :: y.expiresAt == old(y.expiresAt)
    {
      hide Due, Heap.IsHeap;
      if f.heapIndex == NO_INDEX {
        return false;
      }
      RemoveAt(f.heapIndex);
      return true;
    }
  }

  lemma Prefix(ts: seq<FilterBase>, n: nat)
    requires n <= |ts| && Heap.IsHeap(Sooner, Due(ts))
    ensures Heap.IsHeap(Sooner, Due(ts[..n]))
  {
    hide Due, Heap.IsHeap;
    Heap.Prefix(Sooner, Due(ts), n);
    assert Due(ts[..n]) == Due(ts)[..n];
  }

  lemma Appended(ts: seq<FilterBase>, f: FilterBase)
    requires Heap.IsHeap(Sooner, Due(ts))
    ensures Heap.UpOk(Sooner, Due(ts + [f]), |ts|)
  {
    hide Due, Heap.IsHeap, Heap.UpOk;
    Heap.Appended(Sooner, Due(ts), f.expiresAt);
    assert Due(ts + [f]) == Due(ts) + [f.expiresAt];
  }

  lemma SameMembers(p: seq<FilterBase>, q: seq<FilterBase>)
    requires multiset(p) == multiset(q)
    ensures |p| == |q| && forall x | x in p :: x in q
    ensures forall x | x in q :: x in p
  {
    assert |multiset(p)| == |p| && |multiset(q)| == |q|;
    forall x | x in p ensures x in q {
      assert x in multiset(p);
    }
    forall x | x in q ensures x in p {
      assert x in multiset(q);
    }
  }

  datatype ChangesError = FilterNotFound | WsFilter

  /** What clients do between two steps of the worker. */
  datatype Event = Poll(id: Id, at: Time) | Removal(id: Id)

  function Removals(window: seq<Event>): set<Id> {
    set e | e in window && e.Removal? :: e.id
  }

  /** When a filter was polled last. */
  function LastPoll(window: seq<Event>, id: Id): Option<Time> {
    if window == [] then None
    else
      var last := window[|window| - 1];
      if last.Poll? && last.id == id then Some(last.at) else LastPoll(window[..|window| - 1], id)
  }

  class FilterManager {
    const timeout: nat
    const timeouts: TimeHeap
    var filters: map<Id, FilterBase>

    constructor (timeout: nat)
      ensures Valid() && filters == map[] && timeouts.items == [] && this.timeout == timeout && fresh(timeouts)
    {
      this.timeout, filters := timeout, map[];
      timeouts := new TimeHeap();
    }

    predicate Installed(f: FilterBase)
      reads this
    {
      f.id in filters && filters[f.id] == f
    }

    /** The heap holds exactly the installed filters without a web socket. */
    ghost predicate Matches()
      reads this, timeouts, filters.Values
    {
      && (forall id | id in filters :: filters[id].id == id)
      && (forall id | id in filters :: filters[id] in timeouts.items <==> !filters[id].hasWs)
      && (forall id | id in filters && filters[id].hasWs :: filters[id].heapIndex == NO_INDEX)
      && (forall f | f in timeouts.items :: Installed(f))
    }

    ghost predicate Valid()
      reads this, timeouts, timeouts.items, filters.Values
    {
      timeouts.Valid() && Matches()
    }

    method AddFilterTimeout(f: FilterBase, now: Time)
      requires timeouts.Valid() && f !in timeouts.items
      modifies timeouts, timeouts.items, f
      ensures timeouts.Valid() && multiset(timeouts.items) == multiset(old(timeouts.items)) + multiset{f}
      ensures f.expiresAt == now + timeout && forall x | x in old(timeouts.items) :: x.expiresAt == old(x.expiresAt)
    {
      hide Due, Heap.IsHeap;
      ghost var d := Due(timeouts.items);
      f.expiresAt := now + timeout;
      assert Due(timeouts.items) == d;
      timeouts.AddFilter(f);
    }

    /** Installs a new filter under its unique id. */
    method AddFilter(f: FilterBase, now: Time)
      requires Valid() && f.id !in filters && f.heapIndex == NO_INDEX
      modifies this, timeouts, timeouts.items, f
      ensures Valid() && filters == old(filters)[f.id := f]
      ensures !f.hasWs ==> f.expiresAt == now + timeout
      ensures forall x | x in timeouts.items :: x in old(timeouts.items) || x == f
      ensures forall x | x in old(timeouts.items) :: x.expiresAt == old(x.expiresAt)
    {
      hide Due, Heap.IsHeap, Indexed;
      ghost var was := timeouts.items;
      filters := filters[f.id := f];
      if !f.hasWs {
        AddFilterTimeout(f, now);
        Union(timeouts.items, was, f);
      }
    }

    /** Removes the filter with an id, if there is one. */
    method Uninstall(id: Id) returns (ok: bool)
      requires timeouts.Valid() && forall i | i in filters :: filters[i].heapIndex == NO_INDEX || filters[i] in timeouts.items
      modifies this, timeouts, timeouts.items
      ensures timeouts.Valid() && ok == (id in old(filters)) && filters == old(filters) - {id}
      ensures ok ==> old(filters)[id].heapIndex == NO_INDEX
      ensures forall x | x in old(timeouts.items) :: x.expiresAt == old(x.expiresAt)
      ensures multiset(old(timeouts.items)) ==
              multiset(timeouts.items) + if ok && old(filters)[id] in old(timeouts.items) then multiset{old(filters)[id]} else multiset{}
      ensures old(Matches()) ==> Matches()
      ensures !ok ==> timeouts.items == old(timeouts.items)
    {
      hide Due, Heap.IsHeap, Indexed;
      if id !in filters {
        assert filters - {id} == filters;
        return false;
      }
      var f := filters[id];
      ghost var was := timeouts.items;
      filters := filters - {id};
      var removed := timeouts.RemoveFilter(f);
      Difference(was, timeouts.items, f, removed);
      return true;
    }

    /**
     Gives a filter a new timeout. The heap goes on matching the installed
     filters exactly when this filter is still installed.
     */
    method RefreshFilterTimeout(f: FilterBase, now: Time)
      requires timeouts.Valid() && !f.hasWs && (f.heapIndex == NO_INDEX || f in timeouts.items)
      modifies timeouts, timeouts.items, f
      ensures timeouts.Valid() && f in timeouts.items && f.expiresAt == now + timeout
      ensures forall x | x in old(timeouts.items) || x in timeouts.items || x == f ::
                x in timeouts.items <==> x in old(timeouts.items) || x == f
      ensures forall x | x in old(timeouts.items) && x != f :: x.expiresAt == old(x.expiresAt)
      ensures old(Matches()) ==> (Matches() <==> Installed(f))
    {
      hide Due, Heap.IsHeap, Indexed;
      ghost var was := timeouts.items;
      var removed := timeouts.RemoveFilter(f);
      ghost var rest := timeouts.items;
      Difference(was, rest, f, removed);
      assert forall i | 0 <= i < |rest| :: rest[i] in rest && rest[i] in was;
      AddFilterTimeout(f, now);
      Union(timeouts.items, rest, f);
    }

    /** Looks a filter up for its changes; web socket filters are refused. */
    function Pollable(id: Id): (r: Option<ChangesError>)
      reads this
      ensures r == None <==> id in filters && !filters[id].hasWs
    {
      if id !in filters then Some(FilterNotFound)
      else if filters[id].hasWs then Some(WsFilter)
      else None
    }

    /** A client asks for the changes of a filter, with nobody in between. */
    method GetFilterChanges(id: Id, now: Time) returns (err: Option<ChangesError>)
      requires Valid()
      modifies timeouts, timeouts.items
      ensures Valid() && err == Pollable(id)
      ensures err == None ==> id in filters && filters[id].expiresAt == now + timeout
      ensures forall x | x in old(timeouts.items) && !(err == None && x == filters[id]) :: x.expiresAt == old(x.expiresAt)
      ensures forall x | x in timeouts.items :: x in old(timeouts.items)
    {
      hide Due, Heap.IsHeap, Indexed;
      err := Pollable(id);
      if err == None {
        RefreshFilterTimeout(filters[id], now);
      }
    }

    /** The filter that expires next. */
    method NextTimeoutFilter() returns (next: Option<(Id, Time)>)
      requires timeouts.Valid()
      ensures next == None <==> timeouts.items == []
      ensures next.Some? ==> timeouts.items != [] && next.value == (timeouts.items[0].id, timeouts.items[0].expiresAt)
      ensures next.Some? ==> forall f | f in timeouts.items :: next.value.1 <= f.expiresAt
      ensures Matches() ==> (next == None <==> forall id | id in filters :: filters[id].hasWs)
      ensures Matches() && next.Some? ==>
                && next.value.0 in filters && !filters[next.value.0].hasWs && filters[next.value.0].expiresAt == next.value.1
                && forall id | id in filters && !filters[id].hasWs :: next.value.1 <= filters[id].expiresAt
    {
      hide Due, Indexed;
      var items := timeouts.items;
      if |items| == 0 {
        return None;
      }
      SoonerIsTotal();
      forall f | f in items ensures items[0].expiresAt <= f.expiresAt {
        var i :| 0 <= i < |items| && items[i] == f;
        Heap.HeadIsLeast(Sooner, Due(items), i);
      }
      assert items[0] in items && Installed(items[0]) == Installed(items[0]);
      return Some((items[0].id, items[0].expiresAt));
    }

    /**
     The worker's turn when the timer fires at once: it removes the filter whose
     time has come. If that one is not installed, nothing changes, and it is the
     next one again.
     */
    method OnTimeout() returns (ok: bool)
      requires timeouts.Valid() && timeouts.items != []
      requires forall i | i in filters :: filters[i].heapIndex == NO_INDEX || filters[i] in timeouts.items
      modifies this, timeouts, timeouts.items
      ensures timeouts.Valid() && ok == (old(timeouts.items)[0].id in old(filters))
      ensures old(Matches()) ==> ok && Matches() && filters == old(filters) - {old(timeouts.items)[0].id}
      ensures !ok ==> timeouts.items == old(timeouts.items) && filters == old(filters)
    {
      hide Due, Heap.IsHeap, Indexed;
      var next := NextTimeoutFilter();
      assert timeouts.items[0] in timeouts.items;
      ok := Uninstall(next.value.0);
    }

    /** One event; what it does to a filter `f` of the heap. */
    method Act(event: Event, ghost f: FilterBase)
      requires Valid()
      modifies this, timeouts, timeouts.items
      ensures Valid() && filters == old(filters) - if event.Removal? then {event.id} else {}
      ensures forall x | x in timeouts.items :: x in old(timeouts.items)
      ensures f in old(timeouts.items) && Installed(f) ==>
                f.expiresAt == if event.Poll? && event.id == f.id then event.at + timeout else old(f.expiresAt)
    {
      hide Due, Heap.IsHeap, Indexed;
      match event {
        case Poll(id, at) =>
          assert filters - {} == filters;
          var err := GetFilterChanges(id, at);
        case Removal(id) =>
          ghost var was := timeouts.items;
          var ok := Uninstall(id);
          forall x | x in timeouts.items ensures x in was {
            assert x in multiset(timeouts.items);
          }
      }
    }

    /** The expiry of a filter after clients have acted. */
    function ExpiryAfter(window: seq<Event>, id: Id, expiresAt: Time): Time {
      match LastPoll(window, id)
      case None => expiresAt
      case Some(at) => at + timeout
    }

    lemma ExpiryStep(window: seq<Event>, i: nat, id: Id, expiresAt: Time)
      requires i < |window|
      ensures ExpiryAfter(window[..i + 1], id, expiresAt)
              == if window[i].Poll? && window[i].id == id then window[i].at + timeout else ExpiryAfter(window[..i], id, expiresAt)
    {
      assert window[..i + 1][..i] == window[..i];
    }

    /** Clients act while the worker does not listen; `f` is a filter that the worker has looked up. */
    method Unheard(window: seq<Event>, ghost f: FilterBase)
      requires Valid() && f in timeouts.items
      modifies this, timeouts, timeouts.items
      ensures Valid() && filters == old(filters) - Removals(window)
      ensures forall x | x in timeouts.items :: x in old(timeouts.items)
      ensures Installed(f) ==> f.expiresAt == ExpiryAfter(window, f.id, old(f.expiresAt))
    {
      hide Valid;
      ghost var items := timeouts.items;
      StillThere(f);
      for i := 0 to |window|
        invariant Valid() && filters == old(filters) - Removals(window[..i])
        invariant forall x | x in timeouts.items :: x in items
        invariant Installed(f) ==> f in timeouts.items && f.expiresAt == ExpiryAfter(window[..i], f.id, old(f.expiresAt))
      {
        assert forall k | 0 <= k < |timeouts.items| :: timeouts.items[k] in timeouts.items && timeouts.items[k] in items;
        ExpiryStep(window, i, f.id, old(f.expiresAt));
        assert window[..i + 1] == window[..i] + [window[i]];
        Act(window[i], f);
        StillThere(f);
      }
      assert window[..|window|] == window;
    }

    lemma StillThere(f: FilterBase)
      requires Valid()
      ensures f in timeouts.items <==> Installed(f) && !f.hasWs
    {
    }

    /**
     The worker's turn: it looks up the filter that expires next, clients act
     unheard, and at its time the filter is removed, if it is still there. It is
     removed early exactly when its last poll in between was less than a timeout
     ago.
     */
    method TimeoutTurn(window: seq<Event>, now: Time) returns (ok: bool)
      requires Valid() && timeouts.items != [] && timeouts.items[0].expiresAt <= now
      modifies this, timeouts, timeouts.items
      ensures Valid() && ok == (Removal(old(timeouts.items)[0].id) !in window)
      ensures filters == old(filters) - Removals(window) - {old(timeouts.items)[0].id}
      ensures var f := old(timeouts.items)[0];
              ok ==> && f.expiresAt == ExpiryAfter(window, f.id, old(f.expiresAt))
                     && (f.expiresAt > now <==> LastPoll(window, f.id).Some? && LastPoll(window, f.id).value + timeout > now)
    {
      hide Due, Heap.IsHeap, Indexed;
      var next := NextTimeoutFilter();
      ghost var f, items := timeouts.items[0], timeouts.items;
      assert f in timeouts.items && Installed(f);
      Unheard(window, f);
      assert forall k | 0 <= k < |timeouts.items| :: timeouts.items[k] in timeouts.items && timeouts.items[k] in items;
      ok := Uninstall(next.value.0);
    }
  }

  /**
   A client polls a filter after the worker has looked it up: it is removed at
   its old time, 59 seconds early.
   */
  method RefreshedIsRemoved(id: Id) returns (m: FilterManager, f: FilterBase, ok: bool)
    ensures ok && m.Valid() && m.filters == map[] && f.expiresAt == 60 + 59
  {
    hide Due, Heap.IsHeap, Indexed;
    m := new FilterManager(60);
    f := new FilterBase(id, false);
    m.AddFilter(f, 0);
    Alone(m.timeouts.items, f);
    var window := [Poll(id, 59)];
    assert window[..0] == [] && LastPoll(window, id) == Some(59);
    ok := m.TimeoutTurn(window, 60);
  }

  /**
   A client polls a filter while another removes it: looked up, uninstalled,
   then refreshed, it stays in the heap as the next one to expire for ever.
   */
  method PolledWhileRemoved(id: Id, now: Time, later: Time) returns (m: FilterManager, f: FilterBase, expired: bool)
    ensures !expired && m.filters == map[] && m.timeouts.Valid() && m.timeouts.items == [f] && !m.Matches()
  {
    hide Due, Heap.IsHeap, Indexed;
    m := new FilterManager(60);
    f := new FilterBase(id, false);
    m.AddFilter(f, now);
    Alone(m.timeouts.items, f);
    var looked := m.Pollable(id);
    var ok := m.Uninstall(id);
    assert |multiset(m.timeouts.items)| == |m.timeouts.items| == 0;
    m.RefreshFilterTimeout(f, later);
    Alone(m.timeouts.items, f);
    expired := m.OnTimeout();
  }

  lemma Alone(ts: seq<FilterBase>, f: FilterBase)
    requires Indexed(ts) && f in ts && forall x | x in ts :: x == f
    ensures ts == [f]
  {
    var last := |ts| - 1;
    assert ts[0] in ts && ts[last] in ts;
    assert ts[0].heapIndex == 0 && ts[last].heapIndex == last;
  }

  // ---------- members ----------

  lemma Union(p: seq<FilterBase>, q: seq<FilterBase>, f: FilterBase)
    requires multiset(p) == multiset(q) + multiset{f}
    ensures forall x | x in p || x in q || x == f :: x in p <==> x in q || x == f
  {
    SameMembers(p, q + [f]);
  }

  lemma Difference(was: seq<FilterBase>, now: seq<FilterBase>, f: FilterBase, removed: bool)
    requires multiset(was) == multiset(now) + if removed then multiset{f} else multiset{}
    requires removed == (f in was) && f !in now
    ensures forall x | x in was || x in now :: x in now <==> x in was && x != f
  {
    if removed {
      SameMembers(was, now + [f]);
    } else {
      SameMembers(was, now);
    }
  }
}
