/**
 The pool's capacity is counted in slots of 32 KB; the gauge is an unsigned
 64-bit counter that is decreased by adding a two's complement.
 */
module SlotGauge {
  import opened Common
  import opened Telegrams

  const SLOT_SIZE := 32 * 1024

  function SlotsFor(t: Telegram): nat {
    (t.size + SLOT_SIZE - 1) / SLOT_SIZE
  }

  /** As many slots of 32 KB as are needed, and no more. */
  lemma SlotsHold(t: Telegram)
    ensures 32768 * SlotsFor(t) >= t.size && (SlotsFor(t) > 0 ==> 32768 * (SlotsFor(t) - 1) < t.size)
  {
  }

  ghost function Slots(m: multiset<Telegram>): nat
    decreases |m|
  {
    if m == multiset{} then 0
    else
      var t :| t in m;
      SlotsFor(t) + Slots(m - multiset{t})
  }

  lemma SlotsEmpty(m: multiset<Telegram>)
    requires m == multiset{}
    ensures Slots(m) == 0
  {
  }

  lemma {:induction false} SlotsTakeOut(m: multiset<Telegram>, t: Telegram)
    requires t in m
    ensures Slots(m) == SlotsFor(t) + Slots(m - multiset{t})
    decreases |m|
  {
    hide SlotsFor;
    var x :| x in m && Slots(m) == SlotsFor(x) + Slots(m - multiset{x});
    if x != t {
      SlotsTakeOut(m - multiset{x}, t);
      SlotsTakeOut(m - multiset{t}, x);
      assert m - multiset{x} - multiset{t} == m - multiset{t} - multiset{x};
    }
  }

  lemma {:induction false} SlotsUnion(m: multiset<Telegram>, n: multiset<Telegram>)
    ensures Slots(m + n) == Slots(m) + Slots(n)
    decreases |n|
  {
    hide Slots, SlotsFor;
    if n == multiset{} {
      SlotsEmpty(n);
      assert m + n == m;
    } else {
      var t :| t in n;
      SlotsTakeOut(n, t);
      SlotsTakeOut(m + n, t);
      SlotsUnion(m, n - multiset{t});
      assert m + n - multiset{t} == m + (n - multiset{t});
    }
  }

  lemma SlotsOne(t: Telegram)
    ensures Slots(multiset{t}) == SlotsFor(t)
  {
    hide Slots, SlotsFor;
    SlotsTakeOut(multiset{t}, t);
    SlotsEmpty(multiset{t} - multiset{t});
  }

  method SlotsRequired(ts: seq<Telegram>) returns (slots: nat)
    ensures slots == Slots(multiset(ts))
  {
    hide Slots, SlotsFor;
    slots := 0;
    SlotsEmpty(multiset(ts[..0]));
    for i := 0 to |ts|
      invariant slots == Slots(multiset(ts[..i]))
    {
      assert ts[..i + 1] == ts[..i] + [ts[i]];
      SlotsUnion(multiset(ts[..i]), multiset{ts[i]});
      SlotsOne(ts[i]);
      slots := slots + SlotsFor(ts[i]);
    }
    assert ts[..|ts|] == ts;
  }

  function Increase(height: nat, slots: nat): nat {
    (height + slots) % U64
  }

  function Complement(x: nat): nat
    requires x < U64
  {
    U64 - 1 - x
  }

  /** Adds the complement of slots - 1, all modulo 2^64. */
  function Decrease(height: nat, slots: nat): nat {
    (height + Complement((slots - 1) % U64)) % U64
  }

  lemma WrapUnique(x: int, q: int, r: int)
    requires x == q * U64 + r && 0 <= r < U64
    ensures x % U64 == r
  {
  }

  lemma WrapAdd(x: int, y: int)
    ensures (x % U64 + y) % U64 == (x + y) % U64
  {
    var z := x % U64 + y;
    WrapUnique(x + y, x / U64 + z / U64, z % U64);
  }

  /** The gauge shows the sum modulo 2^64; both operations keep it so. */
  lemma GaugeFollows(sum: nat, slots: nat)
    ensures Increase(sum % U64, slots) == (sum + slots) % U64
    ensures slots <= sum ==> Decrease(sum % U64, slots) == (sum - slots) % U64
  {
    WrapAdd(sum, slots);
    var c := Complement((slots - 1) % U64);
    WrapAdd(sum, c);
    var d := sum - slots;
    WrapUnique(sum + c, d / U64 + (slots - 1) / U64 + 1, d % U64);
  }
}
