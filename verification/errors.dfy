/** Failures of identifier generation and the messages they carry. */
module Errors {

  /** Every failure the generator reports. The first four are the
      InvalidArgumentException cases of the value objects; the last one
      stands for a byte source that stops answering, which the model needs
      because it is given only finitely many answers. */
  datatype Error =
    | AlphabetTooShort
    | AlphabetTooLong
    | AlphabetHasDuplicates
    | SizeNotPositive
    | SourceExhausted

  /** The exception message the library attaches to each failure. */
  function Message(e: Error): (m: string)
    ensures |m| >= 1 && m[|m| - 1] == '.'
  {
    match e
    case AlphabetTooShort => "Alphabet must contain at least 2 characters."
    case AlphabetTooLong => "Alphabet must not exceed 256 characters."
    case AlphabetHasDuplicates => "Alphabet must not contain duplicate characters."
    case SizeNotPositive => "Size must be a positive integer."
    case SourceExhausted => "Random byte source has no more answers."
  }

  /** The length of each message; no two are equal. */
  lemma MessageLength(e: Error)
    ensures |Message(e)| == match e
      case AlphabetTooShort => 44
      case AlphabetTooLong => 40
      case AlphabetHasDuplicates => 47
      case SizeNotPositive => 32
      case SourceExhausted => 39
  {
  }

  /** Different failures never share a message, so the message alone tells
      which check failed. */
  lemma MessagesDistinct(e1: Error, e2: Error)
    requires e1 != e2
    ensures Message(e1) != Message(e2)
  {
    MessageLength(e1);
    MessageLength(e2);
  }

  predicate IsDigits(s: string)
  {
    forall i | 0 <= i < |s| :: '0' <= s[i] <= '9'
  }

  /** The number a string of decimal digits denotes. */
  function DigitsValue(s: string): nat
    requires IsDigits(s)
  {
    if s == [] then 0
    else 10 * DigitsValue(s[..|s| - 1]) + (s[|s| - 1] as int - '0' as int)
  }

  /** sprintf's %d for a non-negative integer: its decimal digits, without
      leading zeros. */
  function Decimal(n: nat): (s: string)
    ensures |s| >= 1 && IsDigits(s)
    ensures DigitsValue(s) == n
    ensures n == 0 <==> s == "0"
    ensures s[0] == '0' ==> s == "0"
  {
    var last := ['0' + (n % 10) as char];
    if n < 10 then last
    else
      var s := Decimal(n / 10) + last;
      assert s[..|s| - 1] == Decimal(n / 10);
      s
  }
}
