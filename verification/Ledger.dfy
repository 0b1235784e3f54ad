/**
 Ledger rows and the signed effect of a transaction on a balance, with the int64
 arithmetic of the source written out.
 */
module Ledger {
  import opened Wrappers
  import opened Rational

  datatype TransactionType =
    | OpeningBalance | Deposit | Interest | Dividend | CapitalGain | Purchase | LiabilityIncrease
    | Withdrawal | CapitalLoss | Fee | Sale | LiabilityPayment
    | ManualAdjustment | Transfer
    | Unsupported(name: string)

  datatype LedgerError = UnsupportedType | AmountRange | BalanceRange

  type Int64 = n: int | MIN_INT64 <= n <= MAX_INT64

  const TWO_TO_64: int := 0x1_0000_0000_0000_0000

  /** Two's complement: the int64 that an exact result wraps to. */
  function Wrap(n: int): Int64 {
    (n - MIN_INT64) % TWO_TO_64 + MIN_INT64
  }

  lemma WrapIdentity(n: int)
    requires IsInt64(n)
    ensures Wrap(n) == n
  {
  }

  /** `checkedAdd`, as its overflow guard is written. */
  function CheckedAdd(left: Int64, right: Int64): (sum: Result<Int64, LedgerError>)
    ensures sum == if IsInt64(left + right) then Ok(left + right) else Err(BalanceRange)
  {
    if (right > 0 && left > MAX_INT64 - right) || (right < 0 && left < MIN_INT64 - right) then Err(BalanceRange)
    else
      var sum: Int64 := left + right;
      Ok(sum)
  }

  /** The table `transactionEffects`. */
  function EffectSign(t: TransactionType): Option<int> {
    match t
    case OpeningBalance | Deposit | Interest | Dividend | CapitalGain | Purchase | LiabilityIncrease => Some(1)
    case Withdrawal | CapitalLoss | Fee | Sale | LiabilityPayment => Some(-1)
    case _ => None
  }

  /**
   `transactionEffect`: negating the least int64 wraps, so it is only refused where the
   sign would make it positive.
   */
  function TransactionEffect(t: TransactionType, amount: Int64): Result<Int64, LedgerError> {
    if t.ManualAdjustment? || t.Transfer? then Ok(amount)
    else match EffectSign(t)
      case None => Err(UnsupportedType)
      case Some(sign) =>
        if amount == MIN_INT64 && sign > 0 then Err(AmountRange)
        else
          var exact: int := amount;
          var magnitude := if exact < 0 then Wrap(-exact) else exact;
          Ok(Wrap(sign * magnitude))
  }

  /** `investmentTransactionEffect`, over unbounded integers; an unsupported type has no effect. */
  function InvestmentEffect(t: TransactionType, amount: int): int {
    var magnitude: int := Abs(amount);
    match t
    case ManualAdjustment | Transfer => amount
    case OpeningBalance | Deposit | Interest | Dividend | CapitalGain | Purchase | LiabilityIncrease => magnitude
    case Withdrawal | CapitalLoss | Fee | Sale | LiabilityPayment => -magnitude
    case Unsupported(_) => 0
  }

  /**
   The table and the switch agree, and the wrapping never shows: where the checked effect
   is defined it is the exact signed magnitude.
   */
  lemma EffectsAgree(t: TransactionType, amount: Int64)
    ensures
      match TransactionEffect(t, amount)
      case Ok(effect) => effect == InvestmentEffect(t, amount)
      case Err(UnsupportedType) => t.Unsupported?
      case Err(_) => !IsInt64(InvestmentEffect(t, amount))
  {
    var exact: int := amount;
    if exact == MIN_INT64 {
      assert Wrap(-exact) == MIN_INT64;
      assert Wrap(-1 * Wrap(-exact)) == MIN_INT64;
    } else {
      var magnitude: int := Abs(exact);
      assert -MAX_INT64 <= exact <= MAX_INT64;
      WrapIdentity(magnitude);
      WrapIdentity(-magnitude);
    }
  }
}
