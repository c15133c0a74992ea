/** The vocabulary shared by every module: addresses, pool rates, ledger time, and the
    outcome of a contract call. A panic of the contract aborts the transaction; here it
    is an `Err` carrying the contract error. */
module Types {
  type Address = string

  // i128 holds the integers from -I128_LIMIT up to, but not including, I128_LIMIT.
  const I128_LIMIT: int := 0x8000_0000_0000_0000_0000_0000_0000_0000

  // A bToken rate, 12 decimals. The pool's rates are divisors, so they are positive.
  type Rate = r: int | 0 < r < I128_LIMIT witness 1

  // A ledger timestamp is an unsigned 64-bit integer.
  type Timestamp = t: int | 0 <= t < 0x1_0000_0000_0000_0000

  datatype Error =
    | BalanceError
    | ReserveNotFound
    | ReserveAlreadyExists
    | InvalidAmount
    | InsufficientAccruedFees
    | InvalidFeeModeValue
    | InsufficientReserves
    | InvalidBTokensMinted
    | InvalidBTokensBurnt
    | InvalidSharesMinted
    | ArithmeticError  // i128 overflow, u64 underflow, or a division by zero
    | PoolError        // the pool does not list the asset

  datatype Result<+T> = Ok(value: T) | Err(error: Error) {
    predicate IsFailure() {
      Err?
    }

    function PropagateFailure<U>(): Result<U>
      requires Err?
    {
      Err(error)
    }

    function Extract(): T
      requires Ok?
    {
      value
    }
  }
}
