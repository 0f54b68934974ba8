/**
 Headers, telegrams, blocks and stored bodies as RLP values. In a list of
 telegrams a tag comes before every telegram that is not a legacy one.
 */
module TypedRlp {
  import opened Common
  import opened Rlp

  type Hash = b: Bytes | |b| == 32 witness seq(32, _ => 0)
  type Account = b: Bytes | |b| == 20 witness seq(20, _ => 0)
  type Bloom = b: Bytes | |b| == 256 witness seq(256, _ => 0)
  type Nonce = b: Bytes | |b| == 8 witness seq(8, _ => 0)

  const LEGACY: Byte := 0
  const STATE: Byte := 0x7F

  function Zeros(n: nat): (b: Bytes)
    ensures |b| == n && forall i | 0 <= i < n :: b[i] == 0
  {
    if n == 0 then [] else [0] + Zeros(n - 1)
  }

  datatype Header = Header(parentHash: Hash, miner: Bytes, stateRoot: Hash, teleRoot: Hash, receiptsRoot: Hash,
                           logsBloom: Bloom, number: Word, gasLimit: Word, gasUsed: Word, timestamp: Word,
                           extraData: Bytes, nonce: Nonce)

  /** Numbers that may be nil in memory are options; so is the recipient. */
  datatype Telegram = Telegram(kind: Byte, nonce: Word, gasPrice: Option<nat>, gas: Word, to: Option<Account>,
                               value: Option<nat>, input: Bytes, v: Option<nat>, r: Option<nat>, s: Option<nat>,
                               resp: Response, from: Account)

  datatype Response = Response(v: Option<nat>, r: Option<nat>, s: Option<nat>, hash: Hash, from: Account)

  datatype Block = Block(header: Header, telegrams: seq<Telegram>, uncles: seq<Header>)

  datatype DecodeError = Malformed | IndexPanic

  datatype Result<+T> = Ok(value: T) | Err(error: DecodeError) {
    predicate IsFailure() {
      Err?
    }
    function PropagateFailure<U>(): Result<U>
      requires Err?
    {
      Err(error)
    }
    function Extract(): T
      requires Ok?
    {
      value
    }
  }

  // ---------- fields ----------

  function Uint(n: Word): Value {
    Bytes(BigEndian(n))
  }

  function BigInt(n: Option<nat>): Value {
    Bytes(if n == None then [] else BigEndian(n.value))
  }

  lemma {:induction false} NumberBound(b: Bytes)
    ensures Number(b) < Pow256(|b|)
    decreases |b|
  {
    if b != [] {
      NumberBound(b[..|b| - 1]);
    }
  }

  lemma ShortNumber(b: Bytes)
    requires |b| <= 8
    ensures Number(b) < U64
  {
    NumberBound(b);
    PowGrows(|b|, 8);
    assert Pow256(4) == 0x1_0000_0000;
    assert Pow256(8) == U64;
  }

  lemma {:induction false} PowGrows(i: nat, j: nat)
    requires i <= j
    ensures Pow256(i) <= Pow256(j)
  {
    if i < j {
      PowGrows(i, j - 1);
    }
  }

  function GetUint64(v: Value): Result<Word> {
    if !v.Bytes? || |v.bytes| > 8 then Err(Malformed)
    else
      ShortNumber(v.bytes);
      Ok(Number(v.bytes))
  }

  function GetBigInt(v: Value): Result<Option<nat>> {
    if !v.Bytes? then Err(Malformed) else Ok(Some(Number(v.bytes)))
  }

  function GetBytes(v: Value): Result<Bytes> {
    if !v.Bytes? then Err(Malformed) else Ok(v.bytes)
  }

  function GetHash(v: Value): Result<Hash> {
    if !v.Bytes? || |v.bytes| != 32 then Err(Malformed) else Ok(v.bytes)
  }

  function GetAccount(v: Value): Result<Account> {
    if !v.Bytes? || |v.bytes| != 20 then Err(Malformed) else Ok(v.bytes)
  }

  function GetBloom(v: Value): Result<Bloom> {
    if !v.Bytes? || |v.bytes| != 256 then Err(Malformed) else Ok(v.bytes)
  }

  function GetElems(v: Value): Result<seq<Value>> {
    if v.Array? then Ok(v.elems) else Err(Malformed)
  }

  /** An account if it has the length of one. */
  function MaybeAccount(v: Value): Option<Account> {
    if v.Bytes? && |v.bytes| == 20 then Some(v.bytes) else None
  }

  function Given(n: Option<nat>): Option<nat> {
    Some(if n == None then 0 else n.value)
  }

  lemma FieldsReturn(n: Word, m: Option<nat>)
    ensures GetUint64(Uint(n)) == Ok(n) && GetBigInt(BigInt(m)) == Ok(Given(m))
  {
    WordSize(n);
    NumberOfBigEndian(n);
    if m.Some? {
      NumberOfBigEndian(m.value);
    }
  }

  // ---------- headers ----------

  function EncodeHeader(h: Header): Value {
    Array([Bytes(h.parentHash), Bytes(h.miner), Bytes(h.stateRoot), Bytes(h.teleRoot), Bytes(h.receiptsRoot),
           Bytes(h.logsBloom), Uint(h.number), Uint(h.gasLimit), Uint(h.gasUsed), Uint(h.timestamp),
           Bytes(h.extraData), Bytes(h.nonce)])
  }

  /** The nonce is read as a number and written back as eight bytes. */
  function DecodeHeader(v: Value): Result<Header> {
    var es :- GetElems(v);
    if |es| < 12 then Err(Malformed)
    else
      var parentHash :- GetHash(es[0]);
      var miner :- GetBytes(es[1]);
      var stateRoot :- GetHash(es[2]);
      var teleRoot :- GetHash(es[3]);
      var receiptsRoot :- GetHash(es[4]);
      var logsBloom :- GetBloom(es[5]);
      var number :- GetUint64(es[6]);
      var gasLimit :- GetUint64(es[7]);
      var gasUsed :- GetUint64(es[8]);
      var timestamp :- GetUint64(es[9]);
      var extraData :- GetBytes(es[10]);
      var nonce :- GetUint64(es[11]);
      Ok(Header(parentHash, miner, stateRoot, teleRoot, receiptsRoot, logsBloom,
                number, gasLimit, gasUsed, timestamp, extraData, Fixed(nonce, 8)))
  }

  lemma HeaderReturns(h: Header)
    ensures DecodeHeader(EncodeHeader(h)) == Ok(h)
  {
    hide Number, BigEndian, Fixed, Uint;
    FieldsReturn(h.number, None);
    FieldsReturn(h.gasLimit, None);
    FieldsReturn(h.gasUsed, None);
    FieldsReturn(h.timestamp, None);
    FixedOfNumber(h.nonce);
  }

  // ---------- telegrams ----------

  function EncodeResponse(a: Response): seq<Value> {
    [BigInt(a.v), BigInt(a.r), BigInt(a.s), Bytes(a.hash), Bytes(a.from)]
  }

  function EncodeTelegram(t: Telegram): Value {
    Array([Uint(t.nonce), BigInt(t.gasPrice), Uint(t.gas), Bytes(if t.to == None then [] else t.to.value),
           BigInt(t.value), Bytes(t.input), BigInt(t.v), BigInt(t.r), BigInt(t.s)]
          + EncodeResponse(t.resp) + (if t.kind == STATE then [Bytes(t.from)] else []))
  }

  /** The response fields, from position 9 on, if there are any; a list that breaks off among them panics. */
  function DecodeResponse(es: seq<Value>): Result<Response>
    requires |es| >= 9
  {
    if |es| == 9 then Ok(Response(None, None, None, Zeros(32), Zeros(20)))
    else
      var v :- GetBigInt(es[9]);
      if |es| == 10 then Err(IndexPanic) else
      var r :- GetBigInt(es[10]);
      if |es| == 11 then Err(IndexPanic) else
      var s :- GetBigInt(es[11]);
      if |es| < 14 then Err(IndexPanic)
      else
        var hash: Hash := if es[12].Bytes? && |es[12].bytes| == 32 then es[12].bytes else Zeros(32);
        var from := MaybeAccount(es[13]);
        Ok(Response(v, r, s, hash, if from == None then Zeros(20) else from.value))
  }

  /** The sender is read for state telegrams only. */
  function DecodeFrom(kind: Byte, es: seq<Value>): Account {
    if kind == STATE && |es| > 14 && MaybeAccount(es[14]).Some? then MaybeAccount(es[14]).value else Zeros(20)
  }

  function DecodeTelegram(kind: Byte, v: Value): Result<Telegram> {
    var es :- GetElems(v);
    if |es| < 9 then Err(Malformed)
    else
      var nonce :- GetUint64(es[0]);
      var gasPrice :- GetBigInt(es[1]);
      var gas :- GetUint64(es[2]);
      var value :- GetBigInt(es[4]);
      var input :- GetBytes(es[5]);
      var sv :- GetBigInt(es[6]);
      var sr :- GetBigInt(es[7]);
      var ss :- GetBigInt(es[8]);
      var resp :- DecodeResponse(es);
      Ok(Telegram(kind, nonce, gasPrice, gas, MaybeAccount(es[3]), value, input, sv, sr, ss, resp, DecodeFrom(kind, es)))
  }

  /** What a telegram becomes in transit: nil numbers are zero. */
  function WithNumbers(t: Telegram): Telegram {
    t.(gasPrice := Given(t.gasPrice), value := Given(t.value), v := Given(t.v), r := Given(t.r), s := Given(t.s),
       resp := t.resp.(v := Given(t.resp.v), r := Given(t.resp.r), s := Given(t.resp.s)))
  }

  /** And the sender is lost, except for state telegrams. */
  function InTransit(t: Telegram): Telegram {
    var u := WithNumbers(t);
    if t.kind == STATE then u else u.(from := Zeros(20))
  }

  lemma ResponseReturns(es: seq<Value>, a: Response)
    requires |es| >= 14 && es[9..14] == EncodeResponse(a)
    ensures DecodeResponse(es) == Ok(a.(v := Given(a.v), r := Given(a.r), s := Given(a.s)))
  {
    hide Number, BigEndian, BigInt, GetBigInt;
    FieldsReturn(0, a.v);
    FieldsReturn(0, a.r);
    FieldsReturn(0, a.s);
    var part := es[9..14];
    assert es[9] == part[0] && es[10] == part[1] && es[11] == part[2] && es[12] == part[3] && es[13] == part[4];
  }

  lemma TelegramReturns(t: Telegram)
    ensures DecodeTelegram(t.kind, EncodeTelegram(t)) == Ok(InTransit(t))
  {
    hide Number, BigEndian, BigInt, GetBigInt, Uint, GetUint64, DecodeResponse, EncodeResponse;
    FieldsReturn(t.nonce, t.gasPrice);
    FieldsReturn(t.gas, t.value);
    FieldsReturn(0, t.v);
    FieldsReturn(0, t.r);
    FieldsReturn(0, t.s);
    var es := EncodeTelegram(t).elems;
    FiveFields(t.resp);
    assert es[9..14] == EncodeResponse(t.resp);
    ResponseReturns(es, t.resp);
  }

  lemma FiveFields(a: Response)
    ensures |EncodeResponse(a)| == 5
  {
  }

  // ---------- stored telegrams ----------

  /** In storage the tag is inside, and the sender comes last. */
  function EncodeStored(t: Telegram): Value {
    Array((if t.kind != LEGACY then [Bytes([t.kind])] else []) + [EncodeTelegram(t), Bytes(t.from)])
  }

  function DecodeKind(v: Value): Result<Byte> {
    if !v.Bytes? || |v.bytes| != 1 then Err(Malformed)
    else if v.bytes[0] == LEGACY || v.bytes[0] == STATE then Ok(v.bytes[0])
    else Err(Malformed)
  }

  function DecodeParts(kind: Byte, consensus: Value, context: Value): Result<Telegram> {
    var t :- DecodeTelegram(kind, consensus);
    var from :- GetAccount(context);
    Ok(t.(from := from))
  }

  function DecodeStored(kind: Byte, v: Value): Result<Telegram> {
    var es :- GetElems(v);
    if |es| == 2 then DecodeParts(kind, es[0], es[1])
    else if |es| == 3 then
      var inner :- DecodeKind(es[0]);
      DecodeParts(inner, es[1], es[2])
    else Err(Malformed)
  }

  predicate KnownKind(t: Telegram) {
    t.kind == LEGACY || t.kind == STATE
  }

  lemma StoredReturnsIff(t: Telegram)
    ensures KnownKind(t) ==> DecodeStored(LEGACY, EncodeStored(t)) == Ok(WithNumbers(t))
    ensures !KnownKind(t) ==> DecodeStored(LEGACY, EncodeStored(t)).Err?
  {
    hide DecodeParts, EncodeTelegram, WithNumbers;
    PartsReturn(t);
    var es := EncodeStored(t).elems;
    if t.kind == LEGACY {
      assert es == [EncodeTelegram(t), Bytes(t.from)];
    } else {
      assert es == [Bytes([t.kind]), EncodeTelegram(t), Bytes(t.from)];
    }
  }

  lemma PartsReturn(t: Telegram)
    ensures DecodeParts(t.kind, EncodeTelegram(t), Bytes(t.from)) == Ok(WithNumbers(t))
  {
    hide DecodeTelegram, EncodeTelegram, WithNumbers, InTransit;
    TelegramReturns(t);
    SenderRestored(t);
  }

  lemma SenderRestored(t: Telegram)
    ensures InTransit(t).(from := t.from) == WithNumbers(t)
  {
    hide Zeros;
  }

  // ---------- lists of telegrams ----------

  function Tag(t: Telegram): seq<Value> {
    if t.kind != LEGACY then [Bytes([t.kind])] else []
  }

  /** The list of a block: a tag before every telegram that is not a legacy one. */
  function EncodeTagged(ts: seq<Telegram>): seq<Value>
    decreases |ts|
  {
    if ts == [] then [] else Tag(ts[0]) + [EncodeTelegram(ts[0])] + EncodeTagged(ts[1..])
  }

  method MarshalTelegrams(ts: seq<Telegram>) returns (es: seq<Value>)
    ensures es == EncodeTagged(ts)
  {
    hide EncodeTelegram, EncodeTagged;
    es := [];
    assert ts[0..] == ts;
    for i := 0 to |ts|
      invariant es + EncodeTagged(ts[i..]) == EncodeTagged(ts)
    {
      TaggedFrom(ts, i, es);
      if ts[i].kind != LEGACY {
        es := es + [Bytes([ts[i].kind])];
      }
      es := es + [EncodeTelegram(ts[i])];
    }
    TaggedEnd(ts);
    assert es + [] == es;
  }

  lemma TaggedFrom(ts: seq<Telegram>, i: nat, es: seq<Value>)
    requires i < |ts|
    ensures var one := if ts[i].kind != LEGACY then es + [Bytes([ts[i].kind])] else es;
            es + EncodeTagged(ts[i..]) == one + [EncodeTelegram(ts[i])] + EncodeTagged(ts[i + 1..])
  {
    hide EncodeTelegram;
    assert ts[i..][1..] == ts[i + 1..];
    var v, rest := EncodeTelegram(ts[i]), EncodeTagged(ts[i + 1..]);
    assert es + (Tag(ts[i]) + [v] + rest) == es + Tag(ts[i]) + [v] + rest;
    assert es + [] == es;
  }

  lemma TaggedEnd(ts: seq<Telegram>)
    ensures EncodeTagged(ts[|ts|..]) == []
  {
  }

  type Decoder = (Byte, Value) -> Result<Telegram>

  /** Reads a list of telegrams: a string is a tag for what follows it. */
  function DecodeTagged(decode: Decoder, es: seq<Value>): Result<seq<Telegram>>
    decreases |es|
  {
    if es == [] then Ok([])
    else if es[0].Bytes? then
      var kind :- DecodeKind(es[0]);
      if |es| == 1 then Err(IndexPanic)
      else
        var t :- decode(kind, es[1]);
        After([t], DecodeTagged(decode, es[2..]))
    else
      var t :- decode(LEGACY, es[0]);
      After([t], DecodeTagged(decode, es[1..]))
  }

  /** Telegrams read before the rest of a list. */
  function After(ts: seq<Telegram>, rest: Result<seq<Telegram>>): Result<seq<Telegram>> {
    if rest.Err? then rest else Ok(ts + rest.value)
  }

  lemma AfterNone(rest: Result<seq<Telegram>>)
    ensures After([], rest) == rest
  {
    if rest.Ok? {
      assert [] + rest.value == rest.value;
    }
  }

  lemma AfterOne(ts: seq<Telegram>, t: Telegram, rest: Result<seq<Telegram>>)
    ensures After(ts, After([t], rest)) == After(ts + [t], rest)
  {
    if rest.Ok? {
      assert ts + ([t] + rest.value) == ts + [t] + rest.value;
    }
  }

  method UnmarshalTelegrams(decode: Decoder, es: seq<Value>) returns (r: Result<seq<Telegram>>)
    ensures r == DecodeTagged(decode, es)
  {
    hide After;
    var ts: seq<Telegram> := [];
    var i := 0;
    AfterNone(DecodeTagged(decode, es));
    assert es[0..] == es;
    while i < |es|
      invariant i <= |es|
      invariant DecodeTagged(decode, es) == After(ts, DecodeTagged(decode, es[i..]))
    {
      var kind, at := LEGACY, i;
      if es[i].Bytes? {
        var tag := DecodeKind(es[i]);
        if tag.Err? {
          AfterError(ts, DecodeTagged(decode, es[i..]));
          return Err(tag.error);
        }
        kind := tag.value;
        if i + 1 == |es| {
          AfterError(ts, DecodeTagged(decode, es[i..]));
          return Err(IndexPanic);
        }
        at := i + 1;
      }
      var t := decode(kind, es[at]);
      if t.Err? {
        AfterError(ts, DecodeTagged(decode, es[i..]));
        return Err(t.error);
      }
      assert es[i..][at + 1 - i..] == es[at + 1..];
      AfterOne(ts, t.value, DecodeTagged(decode, es[at + 1..]));
      ts, i := ts + [t.value], at + 1;
    }
    assert es[|es|..] == [];
    AfterAll(ts);
    return Ok(ts);
  }

  lemma AfterError(ts: seq<Telegram>, rest: Result<seq<Telegram>>)
    ensures rest.Err? ==> After(ts, rest) == rest
  {
  }

  lemma AfterAll(ts: seq<Telegram>)
    ensures After(ts, Ok([])) == Ok(ts)
  {
    assert ts + [] == ts;
  }

  function Mapped(f: Telegram -> Telegram, ts: seq<Telegram>): (us: seq<Telegram>)
    ensures |us| == |ts| && forall i | 0 <= i < |ts| :: us[i] == f(ts[i])
    decreases |ts|
  {
    if ts == [] then [] else
      assert forall i | 1 <= i < |ts| :: ts[i] == ts[1..][i - 1];
      [f(ts[0])] + Mapped(f, ts[1..])
  }

  predicate AllKnown(ts: seq<Telegram>) {
    forall t | t in ts :: KnownKind(t)
  }

  lemma AllKnownStep(ts: seq<Telegram>)
    requires ts != []
    ensures AllKnown(ts) <==> KnownKind(ts[0]) && AllKnown(ts[1..])
  {
    assert forall t | t in ts :: t == ts[0] || t in ts[1..];
  }

  /** A list of telegrams comes back as it is in transit, exactly when every kind in it is a known one. */
  lemma {:induction false} TaggedReturnsIff(ts: seq<Telegram>)
    ensures AllKnown(ts) ==> DecodeTagged(DecodeTelegram, EncodeTagged(ts)) == Ok(Mapped(InTransit, ts))
    ensures !AllKnown(ts) ==> DecodeTagged(DecodeTelegram, EncodeTagged(ts)).Err?
    decreases |ts|
  {
    hide DecodeTelegram, EncodeTelegram, InTransit, AllKnown, DecodeTagged, Tag, KnownKind;
    if ts == [] {
      NoneUnknown();
      TaggedNone(DecodeTelegram);
    } else {
      AllKnownStep(ts);
      TaggedReturnsIff(ts[1..]);
      TaggedCons(ts[0], EncodeTagged(ts[1..]));
    }
  }

  /** One telegram at the front of a list. */
  lemma TaggedCons(t: Telegram, more: seq<Value>)
    ensures DecodeTagged(DecodeTelegram, Tag(t) + [EncodeTelegram(t)] + more)
            == if KnownKind(t) then After([InTransit(t)], DecodeTagged(DecodeTelegram, more)) else Err(Malformed)
  {
    hide DecodeTelegram, EncodeTelegram, InTransit, DecodeTagged, After;
    TelegramReturns(t);
    var v := EncodeTelegram(t);
    if t.kind == LEGACY {
      TelegramIsArray(t);
      assert Tag(t) + [v] + more == [v] + more;
      UntaggedStep(DecodeTelegram, v, more);
    } else {
      assert Tag(t) + [v] + more == [Bytes([t.kind]), v] + more;
      TaggedStep(DecodeTelegram, t.kind, v, more);
    }
  }

  lemma TelegramIsArray(t: Telegram)
    ensures EncodeTelegram(t).Array?
  {
  }

  lemma TaggedNone(decode: Decoder)
    ensures DecodeTagged(decode, []) == Ok([])
  {
  }

  lemma UntaggedStep(decode: Decoder, v: Value, more: seq<Value>)
    requires v.Array?
    ensures var t := decode(LEGACY, v);
            DecodeTagged(decode, [v] + more) == if t.Err? then Err(t.error) else After([t.value], DecodeTagged(decode, more))
  {
    assert ([v] + more)[1..] == more;
  }

  lemma TaggedStep(decode: Decoder, kind: Byte, v: Value, more: seq<Value>)
    ensures var t := decode(kind, v);
            DecodeTagged(decode, [Bytes([kind]), v] + more)
            == if kind != LEGACY && kind != STATE then Err(Malformed)
               else if t.Err? then Err(t.error) else After([t.value], DecodeTagged(decode, more))
  {
    assert ([Bytes([kind]), v] + more)[2..] == more;
  }

  lemma NoneUnknown()
    ensures AllKnown([])
  {
  }

  function EncodeStoredAll(ts: seq<Telegram>): seq<Value>
    decreases |ts|
  {
    if ts == [] then [] else [EncodeStored(ts[0])] + EncodeStoredAll(ts[1..])
  }

  method MarshalStored(ts: seq<Telegram>) returns (es: seq<Value>)
    ensures es == EncodeStoredAll(ts)
  {
    hide EncodeStored;
    es := [];
    for i := 0 to |ts|
      invariant es + EncodeStoredAll(ts[i..]) == EncodeStoredAll(ts)
    {
      assert ts[i..][1..] == ts[i + 1..];
      ghost var was := es;
      es := es + [EncodeStored(ts[i])];
      assert was + ([EncodeStored(ts[i])] + EncodeStoredAll(ts[i + 1..])) == es + EncodeStoredAll(ts[i + 1..]);
    }
  }

  /** From storage every sender comes back too. */
  lemma {:induction false} StoredListReturnsIff(ts: seq<Telegram>)
    ensures AllKnown(ts) ==> DecodeTagged(DecodeStored, EncodeStoredAll(ts)) == Ok(Mapped(WithNumbers, ts))
    ensures !AllKnown(ts) ==> DecodeTagged(DecodeStored, EncodeStoredAll(ts)).Err?
    decreases |ts|
  {
    hide DecodeStored, WithNumbers, AllKnown, DecodeTagged;
    if ts == [] {
      NoneUnknown();
      TaggedNone(DecodeStored);
    } else {
      AllKnownStep(ts);
      StoredListReturnsIff(ts[1..]);
      StoredReturnsIff(ts[0]);
      UntaggedStep(DecodeStored, EncodeStored(ts[0]), EncodeStoredAll(ts[1..]));
    }
  }

  // ---------- blocks and bodies ----------

  function EncodeHeaders(hs: seq<Header>): seq<Value>
    decreases |hs|
  {
    if hs == [] then [] else [EncodeHeader(hs[0])] + EncodeHeaders(hs[1..])
  }

  function DecodeHeaders(es: seq<Value>): Result<seq<Header>>
    decreases |es|
  {
    if es == [] then Ok([])
    else
      var h :- DecodeHeader(es[0]);
      var rest :- DecodeHeaders(es[1..]);
      Ok([h] + rest)
  }

  lemma {:induction false} HeadersReturn(hs: seq<Header>)
    ensures DecodeHeaders(EncodeHeaders(hs)) == Ok(hs)
    decreases |hs|
  {
    hide DecodeHeader, EncodeHeader, DecodeHeaders;
    if hs == [] {
      NoHeaders();
    } else {
      HeaderReturns(hs[0]);
      HeadersReturn(hs[1..]);
      HeadersStep(hs[0], EncodeHeader(hs[0]), hs[1..], EncodeHeaders(hs[1..]));
      assert hs == [hs[0]] + hs[1..];
    }
  }

  lemma NoHeaders()
    ensures DecodeHeaders([]) == Ok([])
  {
  }

  lemma HeadersStep(h: Header, v: Value, hs: seq<Header>, more: seq<Value>)
    requires DecodeHeader(v) == Ok(h) && DecodeHeaders(more) == Ok(hs)
    ensures DecodeHeaders([v] + more) == Ok([h] + hs)
  {
    hide DecodeHeader;
    assert ([v] + more)[1..] == more;
  }

  function EncodeBlock(b: Block): Value {
    Array([EncodeHeader(b.header), Array(EncodeTagged(b.telegrams)), Array(EncodeHeaders(b.uncles))])
  }

  function DecodeBlock(v: Value): Result<Block> {
    var es :- GetElems(v);
    if |es| < 3 then Err(Malformed)
    else
      var header :- DecodeHeader(es[0]);
      var list :- GetElems(es[1]);
      var telegrams :- DecodeTagged(DecodeTelegram, list);
      var heads :- GetElems(es[2]);
      var uncles :- DecodeHeaders(heads);
      Ok(Block(header, telegrams, uncles))
  }

  /** A block comes back with its header, its uncles and its telegrams as they are in transit. */
  lemma BlockReturnsIff(b: Block)
    ensures AllKnown(b.telegrams) ==>
              DecodeBlock(EncodeBlock(b)) == Ok(b.(telegrams := Mapped(InTransit, b.telegrams)))
    ensures !AllKnown(b.telegrams) ==> DecodeBlock(EncodeBlock(b)).Err?
  {
    hide DecodeHeader, EncodeHeader, DecodeTelegram, InTransit, AllKnown, Mapped;
    HeaderReturns(b.header);
    TaggedReturnsIff(b.telegrams);
    HeadersReturn(b.uncles);
  }

  function EncodeBody(ts: seq<Telegram>): Value {
    Array([Array(EncodeStoredAll(ts))])
  }

  function DecodeBody(v: Value): Result<seq<Telegram>> {
    var es :- GetElems(v);
    if |es| < 1 then Err(Malformed)
    else
      var list :- GetElems(es[0]);
      DecodeTagged(DecodeStored, list)
  }

  lemma BodyReturnsIff(ts: seq<Telegram>)
    ensures AllKnown(ts) ==> DecodeBody(EncodeBody(ts)) == Ok(Mapped(WithNumbers, ts))
    ensures !AllKnown(ts) ==> DecodeBody(EncodeBody(ts)).Err?
  {
    hide DecodeStored, WithNumbers, AllKnown, Mapped;
    StoredListReturnsIff(ts);
  }

  // ---------- bytes ----------

  function BlockFromBytes(input: Bytes): Result<Block> {
    var parsed := Parse(input);
    if parsed == None then Err(Malformed) else DecodeBlock(parsed.value.0)
  }

  /** Through bytes as well, for encodings shorter than 2^64. */
  lemma BlockBytesReturnIff(b: Block)
    requires |Encode(EncodeBlock(b))| < U64
    ensures AllKnown(b.telegrams) ==>
              BlockFromBytes(Encode(EncodeBlock(b))) == Ok(b.(telegrams := Mapped(InTransit, b.telegrams)))
    ensures !AllKnown(b.telegrams) ==> BlockFromBytes(Encode(EncodeBlock(b))).Err?
  {
    hide DecodeBlock, EncodeBlock, Encode, Parse, AllKnown, Mapped;
    ParseOfEncode(EncodeBlock(b), []);
    assert Encode(EncodeBlock(b)) + [] == Encode(EncodeBlock(b));
    BlockReturnsIff(b);
  }

  /** A telegram on its own: the tag is the first byte, below every list prefix. */
  function TelegramToBytes(t: Telegram): Bytes {
    (if t.kind != LEGACY then [t.kind] else []) + Encode(EncodeTelegram(t))
  }

  function TelegramFromBytes(input: Bytes): Result<Telegram> {
    var tagged := input != [] && input[0] <= 0x7F;
    if tagged && input[0] != LEGACY && input[0] != STATE then Err(Malformed)
    else
      var kind := if tagged then input[0] else LEGACY;
      var parsed := Parse(if tagged then input[1..] else input);
      if parsed == None then Err(Malformed) else DecodeTelegram(kind, parsed.value.0)
  }

  lemma TelegramBytesReturn(t: Telegram)
    requires KnownKind(t) && |Encode(EncodeTelegram(t))| < U64
    ensures TelegramFromBytes(TelegramToBytes(t)) == Ok(InTransit(t))
  {
    hide DecodeTelegram, InTransit, Encode, Parse, Zeros;
    var body := Encode(EncodeTelegram(t));
    ParseOfEncode(EncodeTelegram(t), []);
    assert body + [] == body;
    ListPrefix(EncodeTelegram(t));
    TelegramReturns(t);
    if t.kind == LEGACY {
      assert TelegramToBytes(t) == body;
    } else {
      assert TelegramToBytes(t)[1..] == body;
    }
  }

  lemma ListPrefix(v: Value)
    requires v.Array? && |Encode(v)| < U64
    ensures Encode(v) != [] && Encode(v)[0] >= 0xC0
  {
    var n := |EncodeAll(v.elems)|;
    WordSizeIf(n);
  }

  // ---------- what is refused ----------

  /** A telegram needs its nine own fields; the response may be missing altogether. */
  lemma ShortIsRefused(kind: Byte, v: Value)
    requires v.Bytes? || |v.elems| < 9
    ensures DecodeTelegram(kind, v) == Err(Malformed)
  {
  }

  lemma OldFormReturns(t: Telegram)
    ensures DecodeTelegram(LEGACY, Array(EncodeTelegram(t).elems[..9]))
            == Ok(WithNumbers(t).(kind := LEGACY, from := Zeros(20), resp := Response(None, None, None, Zeros(32), Zeros(20))))
  {
    hide Number, BigEndian, BigInt, GetBigInt, Uint, GetUint64, EncodeResponse;
    FieldsReturn(t.nonce, t.gasPrice);
    FieldsReturn(t.gas, t.value);
    FieldsReturn(0, t.v);
    FieldsReturn(0, t.r);
    FieldsReturn(0, t.s);
  }

  /** A leading byte below the list prefixes is a tag, and an unknown one is refused. */
  lemma TagIsKnownIff(tag: Byte, t: Telegram)
    requires tag <= 0x7F && |Encode(EncodeTelegram(t))| < U64
    ensures TelegramFromBytes([tag] + Encode(EncodeTelegram(t)))
            == if tag == 0 || tag == 0x7F then DecodeTelegram(tag, EncodeTelegram(t)) else Err(Malformed)
  {
    hide DecodeTelegram, Encode, Parse, EncodeTelegram;
    var body := Encode(EncodeTelegram(t));
    assert ([tag] + body)[1..] == body && body + [] == body;
    ParseOfEncode(EncodeTelegram(t), []);
  }

  // ---------- on the wire ----------

  lemma EncodeCons(v: Value, rest: seq<Value>)
    ensures EncodeAll([v] + rest) == Encode(v) + EncodeAll(rest)
  {
    assert ([v] + rest)[1..] == rest;
  }

  lemma OneByte(n: Byte)
    requires n > 0
    ensures BigEndian(n) == [n] && Uint(n) == BigInt(Some(n)) == Bytes([n])
  {
    assert BigEndian(0) == [];
  }

  /** A small number in front of other fields. */
  lemma PutSmall(n: Byte, fields: seq<Value>, bytes: Bytes) returns (more: seq<Value>)
    requires n < 0x80 && EncodeAll(fields) == bytes
    ensures more == [Bytes([n])] + fields && EncodeAll(more) == [n] + bytes
  {
    more := [Bytes([n])] + fields;
    EncodeCons(Bytes([n]), fields);
  }

  /** A short string in front of other fields. */
  lemma PutBytes(b: Bytes, fields: seq<Value>, bytes: Bytes) returns (more: seq<Value>)
    requires 2 <= |b| <= 55 && EncodeAll(fields) == bytes
    ensures more == [Bytes(b)] + fields && EncodeAll(more) == [0x80 + |b|] + b + bytes
  {
    more := [Bytes(b)] + fields;
    EncodeCons(Bytes(b), fields);
  }

  /** The response and the sender: number, number, number, hash, provider, sender. */
  lemma ResponseOnWire(hash: Hash, provider: Account, from: Account)
    ensures EncodeAll(EncodeResponse(Response(Some(9), Some(10), Some(11), hash, provider)) + [Bytes(from)])
            == [9] + ([10] + ([11] + ([0xA0] + hash + ([0x94] + provider + ([0x94] + from + [])))))
  {
    hide EncodeAll, BigEndian, BigInt;
    OneByte(9);
    OneByte(10);
    OneByte(11);
    NoFields();
    var f5 := PutBytes(from, [], []);
    var f4 := PutBytes(provider, f5, [0x94] + from + []);
    var f3 := PutBytes(hash, f4, [0x94] + provider + ([0x94] + from + []));
    var f2 := PutSmall(11, f3, [0xA0] + hash + ([0x94] + provider + ([0x94] + from + [])));
    var f1 := PutSmall(10, f2, EncodeAll(f2));
    var f0 := PutSmall(9, f1, EncodeAll(f1));
    assert f0 == EncodeResponse(Response(Some(9), Some(10), Some(11), hash, provider)) + [Bytes(from)];
  }

  lemma NoFields()
    ensures EncodeAll([]) == []
  {
  }

  /** The fields of a telegram in front of its response, each with a number of its own. */
  lemma FieldsOnWire(to: Account, fields: seq<Value>)
    ensures EncodeAll([Uint(1), BigInt(Some(2)), Uint(3), Bytes(to), BigInt(Some(4)), Bytes([5]), BigInt(Some(6)), BigInt(Some(7)), BigInt(Some(8))]
                      + fields)
            == [1] + ([2] + ([3] + ([0x94] + to + ([4] + ([5] + ([6] + ([7] + ([8] + EncodeAll(fields)))))))))
  {
    hide EncodeAll, BigEndian, BigInt, Uint;
    forall n: Byte | 0 < n ensures Uint(n) == BigInt(Some(n)) == Bytes([n]) {
      OneByte(n);
    }
    var f8 := PutSmall(8, fields, EncodeAll(fields));
    var f7 := PutSmall(7, f8, EncodeAll(f8));
    var f6 := PutSmall(6, f7, EncodeAll(f7));
    var f5 := PutSmall(5, f6, EncodeAll(f6));
    var f4 := PutSmall(4, f5, EncodeAll(f5));
    var f3 := PutBytes(to, f4, EncodeAll(f4));
    var f2 := PutSmall(3, f3, EncodeAll(f3));
    var f1 := PutSmall(2, f2, EncodeAll(f2));
    var f0 := PutSmall(1, f1, EncodeAll(f1));
    assert f0 == [Uint(1), BigInt(Some(2)), Uint(3), Bytes(to), BigInt(Some(4)), Bytes([5]), BigInt(Some(6)), BigInt(Some(7)), BigInt(Some(8))]
                 + fields;
  }

  function SampleTelegram(to: Account, hash: Hash, provider: Account, from: Account): Telegram {
    Telegram(STATE, 1, Some(2), 3, Some(to), Some(4), [5], Some(6), Some(7), Some(8),
             Response(Some(9), Some(10), Some(11), hash, provider), from)
  }

  /** A state telegram with a different number in each field, byte for byte. */
  lemma TelegramOnWire(to: Account, hash: Hash, provider: Account, from: Account)
    ensures TelegramToBytes(SampleTelegram(to, hash, provider, from))
            == [0x7F, 0xF8, 107]
               + ([1] + ([2] + ([3] + ([0x94] + to + ([4] + ([5] + ([6] + ([7] + ([8]
                  + ([9] + ([10] + ([11] + ([0xA0] + hash + ([0x94] + provider + ([0x94] + from + [])))))))))))))))
  {
    hide EncodeAll, BigEndian, BigInt, Uint, EncodeResponse;
    var t := SampleTelegram(to, hash, provider, from);
    var last := EncodeResponse(t.resp) + [Bytes(from)];
    ResponseOnWire(hash, provider, from);
    FieldsOnWire(to, last);
    var first := [Uint(1), BigInt(Some(2)), Uint(3), Bytes(to), BigInt(Some(4)), Bytes([5]), BigInt(Some(6)), BigInt(Some(7)), BigInt(Some(8))];
    assert EncodeTelegram(t) == Array(first + last);
    SizeByte(107);
    assert |EncodeAll(first + last)| == 107;
    assert Encode(Array(first + last)) == [0xF8, 107] + EncodeAll(first + last);
  }

  lemma SizeByte(n: Byte)
    requires n > 55
    ensures Prefix(0xC0, n) == [0xF8, n]
  {
    OneByte(n);
  }

  /** The numbers of a header and what follows them. */
  lemma NumbersOnWire(nonce: Nonce)
    ensures EncodeAll([Uint(1), Uint(2), Uint(3), Uint(4), Bytes([5]), Bytes(nonce)])
            == [1] + ([2] + ([3] + ([4] + ([5] + ([0x88] + nonce + [])))))
  {
    hide EncodeAll, BigEndian, Uint;
    OneByte(1);
    OneByte(2);
    OneByte(3);
    OneByte(4);
    NoFields();
    var f5 := PutBytes(nonce, [], []);
    var f4 := PutSmall(5, f5, EncodeAll(f5));
    var f3 := PutSmall(4, f4, EncodeAll(f4));
    var f2 := PutSmall(3, f3, EncodeAll(f3));
    var f1 := PutSmall(2, f2, EncodeAll(f2));
    var f0 := PutSmall(1, f1, EncodeAll(f1));
    assert f0 == [Uint(1), Uint(2), Uint(3), Uint(4), Bytes([5]), Bytes(nonce)];
  }

  lemma BloomOnWire(bloom: Bloom, fields: seq<Value>)
    ensures EncodeAll([Bytes(bloom)] + fields) == [0xB9, 1, 0] + bloom + EncodeAll(fields)
  {
    hide EncodeAll;
    EncodeCons(Bytes(bloom), fields);
    LongPrefix();
  }

  /** A header with a different number in each of its numbers, byte for byte. */
  lemma HeaderOnWire(h: Header)
    requires |h.miner| == 20 && h.number == 1 && h.gasLimit == 2 && h.gasUsed == 3 && h.timestamp == 4 && h.extraData == [5]
    ensures Encode(EncodeHeader(h))
            == [0xF9, 1, 170]
               + ([0xA0] + h.parentHash + ([0x94] + h.miner + ([0xA0] + h.stateRoot + ([0xA0] + h.teleRoot + ([0xA0] + h.receiptsRoot
                  + ([0xB9, 1, 0] + h.logsBloom + ([1] + ([2] + ([3] + ([4] + ([5] + ([0x88] + h.nonce + []))))))))))))
  {
    hide EncodeAll, BigEndian, Uint;
    NumbersOnWire(h.nonce);
    var numbers := [Uint(1), Uint(2), Uint(3), Uint(4), Bytes([5]), Bytes(h.nonce)];
    BloomOnWire(h.logsBloom, numbers);
    var f5 := [Bytes(h.logsBloom)] + numbers;
    var f4 := PutBytes(h.receiptsRoot, f5, EncodeAll(f5));
    var f3 := PutBytes(h.teleRoot, f4, EncodeAll(f4));
    var f2 := PutBytes(h.stateRoot, f3, EncodeAll(f3));
    var f1 := PutBytes(h.miner, f2, EncodeAll(f2));
    var f0 := PutBytes(h.parentHash, f1, EncodeAll(f1));
    assert EncodeHeader(h) == Array(f0);
    assert |EncodeAll(f0)| == 426;
    LongPrefix();
  }

  lemma LongPrefix()
    ensures Prefix(0x80, 256) == [0xB9, 1, 0] && Prefix(0xC0, 426) == [0xF9, 1, 170]
  {
    OneByte(1);
    assert BigEndian(256) == BigEndian(1) + [0] && BigEndian(426) == BigEndian(1) + [170];
  }
}
