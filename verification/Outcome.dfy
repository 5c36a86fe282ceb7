/** The refusals of the package, and an answer that is a value or one of them. */
module Outcome {
  datatype Error =
    | AmountOverflow
    | AmountNotPositive
    | AmountScale
    | AmountSyntax
    | DecimalPlaces
    | RatePair
    | RateNotPositive
    | RateDenominator
    | RateNotQuoted
    | ConversionUnderflow
    | CurrencyMismatch
    | FeeShare
    | FeeBounds
    | FeeWallet
    | FeeCurrencyMismatch
    | FeeExceedsAmount
    | DiscountNegative
    | NotFound
    | SameWallet
    | Refused
    | WalletNotFrozen
    | LedgerBalanced
    | ScheduleTerms
    | InstallmentClosed
    | CreditClosed
    | Underpaid

  datatype Result<+T> = Ok(value: T) | Err(error: Error) {
    predicate IsFailure() {
      Err?
    }

    function PropagateFailure<U>(): Result<U>
      requires Err?
    {
      Err(error)
    }

    function Extract(): T
      requires Ok?
    {
      value
    }
  }

  datatype Option<+T> = None | Some(value: T)
}
