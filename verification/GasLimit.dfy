/**
 The gas limit of a block: the builder moves it towards a target by at most one
 part in 1024, and the checker compares it with the parent's limit in signed
 64-bit arithmetic.
 */
module GasLimit {
  import opened Common

  const DIVISOR := 1024

  function Wrap(x: int): Word {
    x % U64
  }

  /** A word read as a signed number. */
  function Signed(x: Word): int {
    if x < U64 / 2 then x else x - U64
  }

  function Delta(parent: Word): Word {
    parent / DIVISOR
  }

  function CalculateGasLimit(parent: Word, target: Word): Word {
    if target == 0 then parent
    else if parent == target then target
    else if parent < target then
      var up := Wrap(parent + Delta(parent));
      if target < up then target else up
    else
      var down := Wrap(parent - Delta(parent));
      if target > down then target else down
  }

  datatype GasLimitError = GasUsedExceedsLimit | LimitOutOfBounds

  function VerifyGasLimit(number: Word, gasUsed: Word, limit: Word, parent: Word): Option<GasLimitError> {
    if gasUsed > limit then Some(GasUsedExceedsLimit)
    else if number == 0 then None
    else
      var diff := Signed(Wrap(Signed(parent) - Signed(limit)));
      var size := if diff < 0 then Wrap(0 - diff) else diff;
      if size > Delta(parent) then Some(LimitOutOfBounds) else None
  }

  function Distance(x: int, y: int): nat {
    if x < y then y - x else x - y
  }

  /** At most one part in 1024 apart, around the circle of words. */
  predicate Close(parent: Word, limit: Word) {
    Distance(parent, limit) <= parent / 1024 || Distance(parent, limit) >= U64 - parent / 1024
  }

  /**
   The checker accepts exactly a limit that covers the gas used and, except in
   the genesis, is close to the parent's; the gas is looked at first.
   */
  lemma AcceptsIff(number: Word, gasUsed: Word, limit: Word, parent: Word)
    ensures VerifyGasLimit(number, gasUsed, limit, parent) == None <==> gasUsed <= limit && (number > 0 ==> Close(parent, limit))
    ensures VerifyGasLimit(number, gasUsed, limit, parent) == Some(GasUsedExceedsLimit) <==> gasUsed > limit
  {
    assert Delta(parent) == parent / 1024;
    hide Wrap, Delta;
    var d := parent - limit;
    WrapSmall(Signed(parent) - Signed(limit), d);
    var diff := Signed(Wrap(d));
    WrapSmall(0 - diff, 0 - diff);
    DeltaIsSmall(parent);
  }

  lemma DeltaIsSmall(parent: Word)
    ensures Delta(parent) < U64 / 1024
  {
  }

  lemma WrapSmall(x: int, d: int)
    requires x == d || x == d + U64 || x == d - U64
    ensures Wrap(x) == Wrap(d)
    ensures 0 - U64 < d < U64 ==> Wrap(d) == if d < 0 then d + U64 else d
  {
  }

  /** The limit stays within its bounds exactly when the increase does not overflow. */
  lemma CalculatedIsCloseIff(parent: Word, target: Word)
    ensures Distance(parent, CalculateGasLimit(parent, target)) <= Delta(parent)
            <==> !(target > parent && parent + Delta(parent) >= U64)
  {
    WrapSmall(parent + Delta(parent), parent + Delta(parent) - U64);
    WrapSmall(parent + Delta(parent), parent + Delta(parent));
    WrapSmall(parent - Delta(parent), parent - Delta(parent));
  }

  /** Whatever the builder computes, overflow included, the checker accepts for any gas that it covers. */
  lemma CalculatedIsAccepted(number: Word, gasUsed: Word, parent: Word, target: Word)
    ensures VerifyGasLimit(number, gasUsed, CalculateGasLimit(parent, target), parent) == None
            <==> gasUsed <= CalculateGasLimit(parent, target)
  {
    var limit := CalculateGasLimit(parent, target);
    AcceptsIff(number, gasUsed, limit, parent);
    WrapSmall(parent + Delta(parent), parent + Delta(parent) - U64);
    WrapSmall(parent + Delta(parent), parent + Delta(parent));
    WrapSmall(parent - Delta(parent), parent - Delta(parent));
  }

  /**
   Without a target the limit stays. With one, and without overflow, it is the
   target if that is within one part in 1024 of the parent, and otherwise moves
   by exactly that much towards it.
   */
  lemma CalculatedApproaches(parent: Word, target: Word)
    requires !(target > parent && parent + parent / 1024 >= U64)
    ensures var limit := CalculateGasLimit(parent, target);
            if target == 0 then limit == parent
            else if Distance(parent, target) <= parent / 1024 then limit == target
            else Distance(parent, limit) == parent / 1024 && Distance(limit, target) == Distance(parent, target) - parent / 1024
  {
    WrapSmall(parent + Delta(parent), parent + Delta(parent));
    WrapSmall(parent - Delta(parent), parent - Delta(parent));
  }

  /** An overflow: the limit collapses, and the checker does not mind. */
  lemma CollapsedLimitIsAccepted()
    ensures var parent: Word, target: Word := U64 - 1024, U64 - 1;
            CalculateGasLimit(parent, target) < parent / 1000 && VerifyGasLimit(1, 0, CalculateGasLimit(parent, target), parent) == None
  {
    var parent: Word, target: Word := U64 - 1024, U64 - 1;
    CalculatedIsAccepted(1, 0, parent, target);
  }
}
