/** The two fee computations. Sums are u64 and wrap, as in a release build; a debug build panics there. */
module Fees {
  import opened Wrappers
  import opened Xdr

  const DEFAULT_TRANSACTION_FEES: u32 := 100
  const AUTH_FEE_BUFFER: u64 := 100_000

  function WrapU64(n: nat): u64 {
    n % U64_MODULUS
  }

  /** The conversion to u32 that both paths end with. */
  function ToFee(n: nat): Result<u32, HelperError> {
    if n <= U32_MAX then Ok(n) else Err(InvalidArgument)
  }

  function PlainFee(operations: nat, minResourceFee: u64): Result<u32, HelperError> {
    var fee :- ToFee(WrapU64(operations * DEFAULT_TRANSACTION_FEES + minResourceFee));
    Ok(if fee < DEFAULT_TRANSACTION_FEES then DEFAULT_TRANSACTION_FEES else fee)
  }

  function AuthFee(operations: nat, minResourceFee: u64): Result<u32, HelperError> {
    ToFee(WrapU64(WrapU64(operations * DEFAULT_TRANSACTION_FEES + minResourceFee) + AUTH_FEE_BUFFER))
  }

  /**
   Both fees are the exact sum, refused when it exceeds u32, precisely while the sum stays below
   2^64. Past that bound the wrapped sum is small and is accepted as a fee.
   */
  lemma FeesExactly(operations: nat, minResourceFee: u64)
    requires operations <= MAX_OPERATIONS
    ensures var sum := 100 * operations + minResourceFee;
      && ((PlainFee(operations, minResourceFee)
           == if sum > 0xFFFF_FFFF then Err(InvalidArgument) else Ok(if sum < 100 then 100 else sum))
          <==> sum < 0x1_0000_0000_0000_0000)
      && ((AuthFee(operations, minResourceFee)
           == if sum + 100_000 > 0xFFFF_FFFF then Err(InvalidArgument) else Ok(sum + 100_000))
          <==> sum + 100_000 < 0x1_0000_0000_0000_0000)
  {
    var sum := 100 * operations + minResourceFee;
    assert sum < U64_MODULUS + 10_000;
    assert sum >= U64_MODULUS ==> WrapU64(sum) == sum - U64_MODULUS;
    assert WrapU64(WrapU64(sum) + AUTH_FEE_BUFFER) == WrapU64(sum + AUTH_FEE_BUFFER);
  }

  /** A transaction priced for smart-account authorization always pays more than the plain price. */
  lemma AuthFeeExceedsPlainFee(operations: nat, minResourceFee: u64)
    requires operations <= MAX_OPERATIONS
    requires 100 * operations + minResourceFee + 100_000 < U64_MODULUS
    requires PlainFee(operations, minResourceFee).Ok? && AuthFee(operations, minResourceFee).Ok?
    ensures PlainFee(operations, minResourceFee).value < AuthFee(operations, minResourceFee).value
  {
    FeesExactly(operations, minResourceFee);
  }

  /** The largest resource fee a node can report is priced at the minimum instead of refused. */
  lemma OverflowIsUndercharged()
    ensures PlainFee(1, U64_MODULUS - 1) == Ok(100)
    ensures AuthFee(1, U64_MODULUS - 1) == Ok(100_099)
  {
  }
}
