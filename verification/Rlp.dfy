/**
 Recursive Length Prefix encoding of byte strings and lists, as in appendix B of
 the Ethereum Yellow Paper.
 */
module Rlp {
  import opened Common

  datatype Value = Bytes(bytes: Bytes) | Array(elems: seq<Value>)

  // ---------- numbers ----------

  /** The shortest big-endian form; zero is empty. */
  function BigEndian(n: nat): (b: Bytes)
    ensures n > 0 ==> b != []
  {
    if n == 0 then [] else BigEndian(n / 256) + [n % 256]
  }

  function Number(b: Bytes): nat {
    if b == [] then 0 else 256 * Number(b[..|b| - 1]) + b[|b| - 1]
  }

  lemma {:induction false} NumberOfBigEndian(n: nat)
    ensures Number(BigEndian(n)) == n
  {
    if n > 0 {
      NumberOfBigEndian(n / 256);
      var front := BigEndian(n / 256);
      assert (front + [n % 256])[..|front|] == front;
    }
  }

  function Pow256(k: nat): nat {
    if k == 0 then 1 else 256 * Pow256(k - 1)
  }

  lemma {:induction false} BigEndianSize(n: nat, k: nat)
    requires n < Pow256(k)
    ensures |BigEndian(n)| <= k
  {
    if n > 0 {
      BigEndianSize(n / 256, k - 1);
    }
  }

  lemma WordSize(n: nat)
    requires n < U64
    ensures |BigEndian(n)| <= 8
  {
    assert Pow256(4) == 0x1_0000_0000;
    assert Pow256(8) == U64;
    BigEndianSize(n, 8);
  }

  /** All `k` bytes of a number. */
  function Fixed(n: nat, k: nat): (b: Bytes)
    ensures |b| == k
  {
    if k == 0 then [] else Fixed(n / 256, k - 1) + [n % 256]
  }

  lemma {:induction false} FixedOfNumber(b: Bytes)
    ensures Fixed(Number(b), |b|) == b
    decreases |b|
  {
    hide Number, Fixed;
    if b == [] {
      assert Fixed(Number(b), 0) == [];
    } else {
      var front, last := b[..|b| - 1], b[|b| - 1];
      assert b == front + [last];
      FixedOfNumber(front);
      NumberStep(front, last);
      FixedStep(Number(front), last, |front|);
    }
  }

  lemma NumberStep(front: Bytes, last: Byte)
    ensures Number(front + [last]) == 256 * Number(front) + last
  {
    assert (front + [last])[..|front|] == front;
  }

  lemma FixedStep(q: nat, r: Byte, k: nat)
    ensures Fixed(256 * q + r, k + 1) == Fixed(q, k) + [r]
  {
    var n := 256 * q + r;
    assert n / 256 == q && n % 256 == r;
  }

  // ---------- encoding ----------

  /** The length prefix; `base` is 0x80 for strings and 0xC0 for lists. Lengths are below 2^64. */
  function Prefix(base: nat, n: nat): Bytes
    requires base == 0x80 || base == 0xC0
  {
    if n <= 55 then [base + n]
    else
      var size := BigEndian(n);
      if |size| > 8 then [] else [base + 55 + |size|] + size
  }

  function Encode(v: Value): Bytes
    decreases v
  {
    match v
    case Bytes(b) => if |b| == 1 && b[0] < 0x80 then b else Prefix(0x80, |b|) + b
    case Array(es) => var payload := EncodeAll(es); Prefix(0xC0, |payload|) + payload
  }

  function EncodeAll(vs: seq<Value>): Bytes
    decreases vs
  {
    if vs == [] then [] else Encode(vs[0]) + EncodeAll(vs[1..])
  }

  // ---------- parsing ----------

  /** One item cut off the front: whether it is a list, its payload and what follows. */
  datatype Item = Item(isList: bool, payload: Bytes, rest: Bytes)

  /** Cuts `n` bytes after the first `at`. */
  function Cut(isList: bool, bs: Bytes, at: nat, n: nat): (r: Option<Item>)
    ensures r.Some? ==> |r.value.payload| == n && |r.value.rest| == |bs| - at - n
  {
    if |bs| < at + n then None else Some(Item(isList, bs[at..at + n], bs[at + n..]))
  }

  /** A long form: the first byte says how many bytes the length has. */
  function CutLong(isList: bool, bs: Bytes, k: nat): (r: Option<Item>)
    ensures r.Some? ==> |r.value.payload| + |r.value.rest| + k + 1 == |bs|
  {
    if |bs| < 1 + k then None else Cut(isList, bs, 1 + k, Number(bs[1..1 + k]))
  }

  function Split(bs: Bytes): (r: Option<Item>)
    ensures r.Some? ==> bs != [] && |r.value.payload| + |r.value.rest| <= |bs|
    ensures r.Some? && r.value.isList ==> |r.value.payload| + |r.value.rest| < |bs|
    ensures r.Some? ==> |r.value.rest| < |bs|
  {
    if bs == [] then None
    else
      var b := bs[0];
      if b < 0x80 then Cut(false, bs, 0, 1)
      else if b <= 0xB7 then Cut(false, bs, 1, b - 0x80)
      else if b <= 0xBF then CutLong(false, bs, b - 0xB7)
      else if b <= 0xF7 then Cut(true, bs, 1, b - 0xC0)
      else CutLong(true, bs, b - 0xF7)
  }

  function Parse(bs: Bytes): (r: Option<(Value, Bytes)>)
    ensures r.Some? ==> |r.value.1| < |bs|
    decreases |bs|, 0
  {
    var item := Split(bs);
    if item == None then None
    else if !item.value.isList then Some((Bytes(item.value.payload), item.value.rest))
    else
      var elems := ParseAll(item.value.payload);
      if elems == None then None else Some((Array(elems.value), item.value.rest))
  }

  function ParseAll(bs: Bytes): Option<seq<Value>>
    decreases |bs|, 1
  {
    if bs == [] then Some([])
    else
      var first := Parse(bs);
      if first == None then None
      else
        var others := ParseAll(first.value.1);
        if others == None then None else Some([first.value.0] + others.value)
  }

  // ---------- the parser undoes the encoder ----------

  lemma SplitsPrefix(isList: bool, payload: Bytes, rest: Bytes)
    requires |payload| < U64
    ensures var base := if isList then 0xC0 else 0x80;
            Split(Prefix(base, |payload|) + payload + rest) == Some(Item(isList, payload, rest))
  {
    var base, n := if isList then 0xC0 else 0x80, |payload|;
    var bs := Prefix(base, n) + payload + rest;
    if n <= 55 {
      assert bs[0] == base + n && bs[1..1 + n] == payload && bs[1 + n..] == rest;
    } else {
      WordSize(n);
      var size := BigEndian(n);
      var k := |size|;
      NumberOfBigEndian(n);
      assert bs[0] == base + 55 + k && bs[1..1 + k] == size;
      assert bs[1 + k..1 + k + n] == payload && bs[1 + k + n..] == rest;
    }
  }

  lemma {:induction false} ParseOfEncode(v: Value, rest: Bytes)
    requires |Encode(v)| < U64
    ensures Parse(Encode(v) + rest) == Some((v, rest))
    decreases v
  {
    match v {
      case Bytes(b) =>
        if |b| == 1 && b[0] < 0x80 {
          assert (b + rest)[0..1] == b && (b + rest)[1..] == rest;
        } else {
          SplitsPrefix(false, b, rest);
        }
      case Array(es) =>
        var payload := EncodeAll(es);
        SplitsPrefix(true, payload, rest);
        ParseAllOfEncode(es);
    }
  }

  lemma {:induction false} ParseAllOfEncode(vs: seq<Value>)
    requires |EncodeAll(vs)| < U64
    ensures ParseAll(EncodeAll(vs)) == Some(vs)
    decreases vs
  {
    if vs != [] {
      ParseOfEncode(vs[0], EncodeAll(vs[1..]));
      ParseAllOfEncode(vs[1..]);
      EncodeIsNotEmpty(vs[0]);
      assert vs == [vs[0]] + vs[1..];
    }
  }

  lemma EncodeIsNotEmpty(v: Value)
    requires |Encode(v)| < U64
    ensures Encode(v) != []
  {
    if v.Array? {
      WordSizeIf(|EncodeAll(v.elems)|);
    }
  }

  lemma WordSizeIf(n: nat)
    ensures n < U64 ==> |BigEndian(n)| <= 8
  {
    if n < U64 {
      WordSize(n);
    }
  }
}
