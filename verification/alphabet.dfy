/** The symbol set identifiers are drawn from: a string of 2 to 256 distinct
    characters, validated once when it is built and never changed after.
    Each character stands for one byte of the PHP string, as strlen and
    str_split count and split bytes. */
module Alphabets {
  import opened Wrappers
  import opened Errors
  import opened Bits

  const MIN_LENGTH: nat := 2
  const MAX_LENGTH: nat := 256

  /** The readonly value object: the symbols and the two derived fields. */
  datatype Alphabet = Alphabet(value: string, length: nat, isPowerOfTwo: bool)

  predicate Distinct(s: string)
  {
    forall i, j | 0 <= i < j < |s| :: s[i] != s[j]
  }

  /** What every constructed alphabet satisfies. */
  predicate Valid(a: Alphabet)
  {
    && a.length == |a.value|
    && MIN_LENGTH <= a.length <= MAX_LENGTH
    && Distinct(a.value)
    && a.isPowerOfTwo == IsPowerOfTwo(a.length)
  }

  /** The characters of s, each kept where it first occurs (array_unique over str_split). */
  function Unique(s: string): (u: string)
    ensures |u| <= |s|
    ensures forall c :: c in u <==> c in s
    ensures Distinct(u)
  {
    if s == [] then []
    else
      var init, last := s[..|s| - 1], s[|s| - 1];
      var u := Unique(init);
      if last in init then u else u + [last]
  }

  /** Counting the unique characters detects a repeat exactly. */
  lemma {:induction false} UniqueCountDetectsDuplicates(s: string)
    ensures |Unique(s)| == |s| <==> Distinct(s)
  {
    if s != [] {
      var init, last := s[..|s| - 1], s[|s| - 1];
      UniqueCountDetectsDuplicates(init);
      if Distinct(s) {
        assert Distinct(init);
        assert forall i | 0 <= i < |init| :: init[i] == s[i] != s[|s| - 1];
      } else if Distinct(init) {
        var i, j :| 0 <= i < j < |s| && s[i] == s[j];
        assert init[i] == s[i];
        assert last in init;
      }
    }
  }

  function ValidateLength(length: nat): (failure: Option<Error>)
    ensures failure == None <==> MIN_LENGTH <= length <= MAX_LENGTH
    ensures length < MIN_LENGTH ==> failure == Some(AlphabetTooShort)
    ensures length > MAX_LENGTH ==> failure == Some(AlphabetTooLong)
  {
    if length < MIN_LENGTH then Some(AlphabetTooShort)
    else if length > MAX_LENGTH then Some(AlphabetTooLong)
    else None
  }

  function ValidateNoDuplicates(value: string): (failure: Option<Error>)
    ensures failure == None <==> Distinct(value)
    ensures failure != None ==> failure == Some(AlphabetHasDuplicates)
  {
    UniqueCountDetectsDuplicates(value);
    if |value| != |Unique(value)| then Some(AlphabetHasDuplicates) else None
  }

  /** The two bounds as sprintf's %d writes them into the messages. */
  lemma BoundsInDecimal()
    ensures Decimal(MIN_LENGTH) == "2" && Decimal(MAX_LENGTH) == "256"
  {
    assert Decimal(25) == Decimal(2) + "5";
  }

  /** The constructor: the length check, then the duplicate check, then the
      derived fields. */
  function Create(value: string): (r: Result<Alphabet, Error>)
    ensures r.Ok? <==> MIN_LENGTH <= |value| <= MAX_LENGTH && Distinct(value)
    ensures |value| < MIN_LENGTH ==>
      && r == Err(AlphabetTooShort)
      && Message(r.error) == "Alphabet must contain at least " + Decimal(MIN_LENGTH) + " characters."
    ensures |value| > MAX_LENGTH ==>
      && r == Err(AlphabetTooLong)
      && Message(r.error) == "Alphabet must not exceed " + Decimal(MAX_LENGTH) + " characters."
    ensures MIN_LENGTH <= |value| <= MAX_LENGTH && !Distinct(value) ==>
      && r == Err(AlphabetHasDuplicates)
      && Message(r.error) == "Alphabet must not contain duplicate characters."
    ensures r.Ok? ==> Valid(r.value) && r.value.value == value && r.value.length == |value|
    ensures r.Ok? ==> (r.value.isPowerOfTwo <==> |value| in {2, 4, 8, 16, 32, 64, 128, 256})
  {
    var length := |value|;
    BoundsInDecimal();
    match ValidateLength(length)
    case Some(e) => Err(e)
    case None =>
      match ValidateNoDuplicates(value)
      case Some(e) => Err(e)
      case None =>
        PowerOfTwoTest(length);
        PowersOfTwoUpTo256(length);
        Ok(Alphabet(value, length, BitAnd(length, length - 1) == 0))
  }
}
