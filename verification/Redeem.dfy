/**
 Checks on redeem transactions (crates/core/src/evm/polymarket_flows.rs): the union of index
 sets names one outcome only, and only one outcome's amount is redeemed.
 */
module Redeem {
  import opened Bytes
  import opened Wrappers
  import opened AbiArrays

  // The contracts and selectors that the checks compare with.
  datatype Contracts = Contracts(ctf: seq<byte>, negRisk: seq<byte>, pusd: seq<byte>,
                                 ctfRedeem: seq<byte>, negRiskRedeem: seq<byte>)

  datatype FlowError =
    | WrongTarget(actual: seq<byte>)
    | Abi(error: AbiError)
    | WrongCollateral(actual: seq<byte>)
    | NonZeroParentCollection
    | WrongConditionId
    | IndexSetsMismatch
    | OutcomeIndexOob(index: nat, length: nat)
    | UnauthorizedAmount(index: nat)
    | AmountExceedsIntent(amount: nat, max: nat)

  type Checked = Result<(), FlowError>

  function Lift<T>(r: Result<T, AbiError>): Result<T, FlowError> {
    match r case Success(v) => Success(v) case Failure(e) => Failure(Abi(e))
  }

  // ---------- bitwise or ----------

  // Bit by bit, least significant first.
  function Or(a: nat, b: nat): nat
    decreases a + b
  {
    if a == 0 && b == 0 then 0 else 2 * Or(a / 2, b / 2) + (if a % 2 == 1 || b % 2 == 1 then 1 else 0)
  }

  function Bit(n: nat, i: nat): bool {
    if i == 0 then n % 2 == 1 else Bit(n / 2, i - 1)
  }

  lemma {:induction false} OrBit(a: nat, b: nat, i: nat)
    ensures Bit(Or(a, b), i) == (Bit(a, i) || Bit(b, i))
    decreases i
  {
    if a == 0 && b == 0 {
      ZeroBit(i);
    } else {
      DoubleAndBit(Or(a / 2, b / 2), if a % 2 == 1 || b % 2 == 1 then 1 else 0);
      if i > 0 {
        OrBit(a / 2, b / 2, i - 1);
      }
    }
  }

  lemma DoubleAndBit(q: nat, r: nat)
    requires r < 2
    ensures (2 * q + r) / 2 == q && (2 * q + r) % 2 == r
  {
  }

  lemma {:induction false} ZeroBit(i: nat)
    ensures !Bit(0, i)
  {
    if i > 0 {
      ZeroBit(i - 1);
    }
  }

  lemma {:induction false} OrZero(a: nat, b: nat)
    ensures Or(a, b) == 0 <==> a == 0 && b == 0
    decreases a + b
  {
    if a != 0 || b != 0 {
      OrZero(a / 2, b / 2);
    }
  }

  // A union is a single bit exactly when each part is that bit or nothing, and one is the bit.
  lemma {:induction false} OrIsPower(a: nat, b: nat, k: nat)
    ensures Or(a, b) == Pow(2, k) <==> (a == 0 || a == Pow(2, k)) && (b == 0 || b == Pow(2, k)) && (a != 0 || b != 0)
    decreases k
  {
    PowPositive(2, k);
    OrZero(a / 2, b / 2);
    if k > 0 {
      PowPositive(2, k - 1);
      OrIsPower(a / 2, b / 2, k - 1);
    }
  }

  // The union the loop accumulates.
  function Union(sets: seq<nat>): nat {
    if sets == [] then 0 else Or(Union(sets[..|sets| - 1]), sets[|sets| - 1])
  }

  predicate OnlyOutcome(sets: seq<nat>, k: nat) {
    (forall i :: 0 <= i < |sets| ==> sets[i] == 0 || sets[i] == Pow(2, k))
    && exists i :: 0 <= i < |sets| && sets[i] == Pow(2, k)
  }

  lemma {:induction false} UnionZero(sets: seq<nat>)
    ensures Union(sets) == 0 <==> forall i :: 0 <= i < |sets| ==> sets[i] == 0
  {
    if sets != [] {
      var n := |sets| - 1;
      UnionZero(sets[..n]);
      OrZero(Union(sets[..n]), sets[n]);
    }
  }

  lemma {:induction false} UnionIsPower(sets: seq<nat>, k: nat)
    ensures Union(sets) == Pow(2, k) <==> OnlyOutcome(sets, k)
  {
    PowPositive(2, k);
    if sets != [] {
      var n := |sets| - 1;
      var init := sets[..n];
      UnionIsPower(init, k);
      UnionZero(init);
      OrIsPower(Union(init), sets[n], k);
      if OnlyOutcome(init, k) && (sets[n] == 0 || sets[n] == Pow(2, k)) {
        var i :| 0 <= i < |init| && init[i] == Pow(2, k);
        assert sets[i] == Pow(2, k);
      }
      if Union(init) == 0 && sets[n] == Pow(2, k) {
        assert forall i :: 0 <= i < n ==> sets[i] == init[i];
      }
      if OnlyOutcome(sets, k) {
        assert forall i :: 0 <= i < n ==> init[i] == sets[i];
        if Union(init) != 0 {
          var i :| 0 <= i < |init| && init[i] != 0;
          assert init[i] == Pow(2, k);
        }
      }
    }
  }

  // ---------- redeeming on the conditional tokens contract ----------

  datatype CtfIntent = CtfIntent(conditionId: seq<byte>, outcome: nat)

  // Everything before the index sets are compared, and the index sets.
  function CtfIndexSets(c: Contracts, target: seq<byte>, calldata: seq<byte>, intent: CtfIntent): Result<seq<nat>, FlowError> {
    if target != c.ctf then Failure(WrongTarget(target))
    else
      var args :- Lift(RequireSelector(calldata, c.ctfRedeem));
      var collateral :- Lift(WordAddress(args, 0));
      var parent :- Lift(Word(args, 1));
      var condition :- Lift(Word(args, 2));
      var sets :- Lift(DynamicU256Array(args, 4, 3));
      if collateral != c.pusd then Failure(WrongCollateral(collateral))
      else if parent != Repeat(0, 32) then Failure(NonZeroParentCollection)
      else if condition != intent.conditionId then Failure(WrongConditionId)
      else Success(sets)
  }

  // The calldata of redeemPositions(collateral, 0, conditionId, indexSets): the selector, then
  // four words, the last of which is the offset of the array.
  predicate CtfCall(c: Contracts, target: seq<byte>, calldata: seq<byte>, intent: CtfIntent, sets: seq<nat>) {
    && target == c.ctf && |calldata| >= 4 && calldata[..4] == c.ctfRedeem
    && var args := calldata[4..];
       |args| >= 4 * 32
       && args[12..32] == c.pusd && args[32..64] == Repeat(0, 32) && args[64..96] == intent.conditionId
       && HasArray(args, 4, 3, sets)
  }

  // The checks before the comparison accept exactly such calls, and yield their index sets.
  lemma CtfDecodesExactly(c: Contracts, target: seq<byte>, calldata: seq<byte>, intent: CtfIntent, sets: seq<nat>)
    requires |calldata| < U64_RANGE
    ensures CtfIndexSets(c, target, calldata, intent) == Success(sets) <==> CtfCall(c, target, calldata, intent, sets)
  {
    if |calldata| >= 4 {
      var args := calldata[4..];
      ReadsExactly(args, 4, 3, sets);
      if |args| >= 32 {
        assert args[0..32][12..] == args[12..32];
      }
    }
  }

  // What a refusal before the comparison says is so, and what is checked before it holds.
  lemma CtfRefusals(c: Contracts, target: seq<byte>, calldata: seq<byte>, intent: CtfIntent)
    requires CtfIndexSets(c, target, calldata, intent).Failure?
    ensures var e := CtfIndexSets(c, target, calldata, intent).error;
            if e.WrongTarget? then e.actual == target != c.ctf
            else if e.Abi? then target == c.ctf
            else
              && target == c.ctf && |calldata| >= 4 && calldata[..4] == c.ctfRedeem && |calldata[4..]| >= 4 * 32
              && var args := calldata[4..];
                 match e
                 case WrongCollateral(actual) => actual == args[12..32] != c.pusd
                 case NonZeroParentCollection => args[32..64] != Repeat(0, 32) && args[12..32] == c.pusd
                 case WrongConditionId => args[64..96] != intent.conditionId && args[32..64] == Repeat(0, 32)
                 case _ => false
  {
    if |calldata| >= 4 {
      var args := calldata[4..];
      if |args| >= 32 {
        assert args[0..32][12..] == args[12..32];
      }
    }
  }

  method ValidateCtfRedeem(c: Contracts, target: seq<byte>, calldata: seq<byte>, intent: CtfIntent) returns (r: Checked)
    requires intent.outcome < 256
    ensures r.Success? <==>
              CtfIndexSets(c, target, calldata, intent).Success?
              && OnlyOutcome(CtfIndexSets(c, target, calldata, intent).value, intent.outcome)
    ensures r.Failure? ==>
              r.error == if CtfIndexSets(c, target, calldata, intent).Failure?
                         then CtfIndexSets(c, target, calldata, intent).error else IndexSetsMismatch
  {
    var decoded := CtfIndexSets(c, target, calldata, intent);
    if decoded.Failure? {
      return Failure(decoded.error);
    }
    var sets := decoded.value;
    var expected := Pow(2, intent.outcome);
    var union := 0;
    for i := 0 to |sets|
      invariant union == Union(sets[..i])
    {
      assert sets[..i + 1][..i] == sets[..i];
      union := Or(union, sets[i]);
    }
    assert sets[..|sets|] == sets;
    UnionIsPower(sets, intent.outcome);
    if union != expected {
      return Failure(IndexSetsMismatch);
    }
    return Success(());
  }

  // ---------- redeeming on the neg-risk adapter ----------

  datatype NegRiskIntent = NegRiskIntent(conditionId: seq<byte>, outcome: nat, maxAmount: nat)

  function NegRiskAmounts(c: Contracts, target: seq<byte>, calldata: seq<byte>, intent: NegRiskIntent): Result<seq<nat>, FlowError> {
    if target != c.negRisk then Failure(WrongTarget(target))
    else
      var args :- Lift(RequireSelector(calldata, c.negRiskRedeem));
      var condition :- Lift(Word(args, 0));
      var amounts :- Lift(DynamicU256Array(args, 2, 1));
      if condition != intent.conditionId then Failure(WrongConditionId)
      else if intent.outcome >= |amounts| then Failure(OutcomeIndexOob(intent.outcome, |amounts|))
      else Success(amounts)
  }

  // The calldata of redeemPositions(conditionId, amounts).
  predicate NegRiskCall(c: Contracts, target: seq<byte>, calldata: seq<byte>, intent: NegRiskIntent, amounts: seq<nat>) {
    && target == c.negRisk && |calldata| >= 4 && calldata[..4] == c.negRiskRedeem
    && var args := calldata[4..];
       |args| >= 2 * 32 && args[..32] == intent.conditionId && HasArray(args, 2, 1, amounts)
       && intent.outcome < |amounts|
  }

  lemma NegRiskDecodesExactly(c: Contracts, target: seq<byte>, calldata: seq<byte>, intent: NegRiskIntent, amounts: seq<nat>)
    requires |calldata| < U64_RANGE
    ensures NegRiskAmounts(c, target, calldata, intent) == Success(amounts)
       <==> NegRiskCall(c, target, calldata, intent, amounts)
  {
    if |calldata| >= 4 {
      var args := calldata[4..];
      ReadsExactly(args, 2, 1, amounts);
      if |args| >= 32 {
        assert args[0..32] == args[..32];
      }
    }
  }

  function Sum(amounts: seq<nat>): nat {
    if amounts == [] then 0 else Sum(amounts[..|amounts| - 1]) + amounts[|amounts| - 1]
  }

  predicate ZeroExcept(amounts: seq<nat>, k: nat) {
    forall i :: 0 <= i < |amounts| && i != k ==> amounts[i] == 0
  }

  // The total is one outcome's amount exactly when every other amount is zero.
  lemma {:induction false} SumOfOne(amounts: seq<nat>, k: nat)
    requires k < |amounts|
    ensures Sum(amounts) >= amounts[k]
    ensures Sum(amounts) == amounts[k] <==> ZeroExcept(amounts, k)
  {
    var n := |amounts| - 1;
    var init := amounts[..n];
    if k < n {
      SumOfOne(init, k);
      assert ZeroExcept(amounts, k) <==> ZeroExcept(init, k) && amounts[n] == 0 by {
        assert forall i :: 0 <= i < n ==> init[i] == amounts[i];
      }
    } else {
      SumZero(init);
      assert forall i :: 0 <= i < n ==> init[i] == amounts[i];
    }
  }

  lemma {:induction false} SumZero(amounts: seq<nat>)
    ensures Sum(amounts) == 0 <==> forall i :: 0 <= i < |amounts| ==> amounts[i] == 0
  {
    if amounts != [] {
      SumZero(amounts[..|amounts| - 1]);
    }
  }

  // The error names the first amount of another outcome, or if there is none the chosen amount.
  predicate FirstBroken(amounts: seq<nat>, intent: NegRiskIntent, e: FlowError)
    requires intent.outcome < |amounts|
  {
    if e.UnauthorizedAmount? then
      && e.index < |amounts| && e.index != intent.outcome && amounts[e.index] != 0
      && ZeroExcept(amounts[..e.index], intent.outcome)
    else
      && e == AmountExceedsIntent(amounts[intent.outcome], intent.maxAmount)
      && amounts[intent.outcome] > intent.maxAmount && ZeroExcept(amounts, intent.outcome)
  }

  // The error of a redeem that decodes: another outcome's amount, or too much.
  function NegRiskError(amounts: seq<nat>, intent: NegRiskIntent): (e: Option<FlowError>)
    requires intent.outcome < |amounts|
    ensures e.None? <==> Sum(amounts) == amounts[intent.outcome] <= intent.maxAmount
    ensures e.Some? ==> FirstBroken(amounts, intent, e.value)
  {
    SumOfOne(amounts, intent.outcome);
    var i := FirstOther(amounts, intent.outcome, 0);
    if i < |amounts| then Some(UnauthorizedAmount(i))
    else if amounts[intent.outcome] > intent.maxAmount then
      Some(AmountExceedsIntent(amounts[intent.outcome], intent.maxAmount))
    else None
  }

  // The first nonzero amount of another outcome from i on.
  function FirstOther(amounts: seq<nat>, outcome: nat, i: nat): (r: nat)
    requires i <= |amounts|
    ensures i <= r <= |amounts|
    ensures forall j :: i <= j < r && j != outcome ==> amounts[j] == 0
    ensures r < |amounts| ==> r != outcome && amounts[r] != 0
    decreases |amounts| - i
  {
    if i == |amounts| || (i != outcome && amounts[i] != 0) then i else FirstOther(amounts, outcome, i + 1)
  }

  method ValidateNegRiskRedeem(c: Contracts, target: seq<byte>, calldata: seq<byte>, intent: NegRiskIntent) returns (r: Checked)
    ensures r.Success? <==>
              NegRiskAmounts(c, target, calldata, intent).Success?
              && var amounts := NegRiskAmounts(c, target, calldata, intent).value;
                 Sum(amounts) == amounts[intent.outcome] <= intent.maxAmount
    ensures r.Failure? ==>
              var decoded := NegRiskAmounts(c, target, calldata, intent);
              if decoded.Failure? then r.error == decoded.error
              else NegRiskError(decoded.value, intent).Some? && r.error == NegRiskError(decoded.value, intent).value
  {
    var decoded := NegRiskAmounts(c, target, calldata, intent);
    if decoded.Failure? {
      return Failure(decoded.error);
    }
    r := CheckAmounts(decoded.value, intent);
  }

  method CheckAmounts(amounts: seq<nat>, intent: NegRiskIntent) returns (r: Checked)
    requires intent.outcome < |amounts|
    ensures r.Success? <==> NegRiskError(amounts, intent).None?
    ensures r.Failure? ==> r.error == NegRiskError(amounts, intent).value
  {
    for i := 0 to |amounts|
      invariant FirstOther(amounts, intent.outcome, 0) == FirstOther(amounts, intent.outcome, i)
    {
      if i != intent.outcome && amounts[i] != 0 {
        return Failure(UnauthorizedAmount(i));
      }
    }
    if amounts[intent.outcome] > intent.maxAmount {
      return Failure(AmountExceedsIntent(amounts[intent.outcome], intent.maxAmount));
    }
    return Success(());
  }
}
