/** Shared vocabulary of the eWallet model: optional and failure-carrying
    values (the Java code uses null and exceptions for both), identifiers,
    and the injected sources of randomness and time. */
module Common {

  /** A value that may be absent; stands for a nullable Java reference. */
  datatype Option<+T> = None | Some(value: T)

  /** Either a value or the exception the Java code would throw instead. */
  datatype Result<+T, +E> = Success(value: T) | Failure(error: E)

  /** Login name of a user; the engine resolves every actor through it. */
  type Username = string

  /** Database identity of a user row. */
  type UserId = nat

  /** Identity of a wallet row (a UUID in the source). */
  type WalletId = nat

  /** A point on the local time line, in nanoseconds since the epoch day 0. */
  type Instant = int

  /** A calendar day, counted from the epoch day 0. */
  type Day = int

  /** The decimal digit `d`. */
  function DigitChar(d: nat): (c: char)
    requires d < 10
    ensures '0' <= c <= '9'
  {
    "0123456789"[d]
  }

  /** The decimal rendering of a natural number, as string concatenation
      shows an identifier in an exception message. */
  function NatString(n: nat): (s: string)
    ensures 1 <= |s|
    ensures forall i :: 0 <= i < |s| ==> '0' <= s[i] <= '9'
  {
    if n < 10 then [DigitChar(n)] else NatString(n / 10) + [DigitChar(n % 10)]
  }

  /** A draw of `Math.random()`: a real in [0, 1). */
  type Unit = r: real | 0.0 <= r < 1.0
}
