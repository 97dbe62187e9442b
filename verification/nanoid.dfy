/** The identifier generator: configuration with defaults, and the two
    sampling algorithms that turn random bytes into alphabet symbols.

    The random byte source is a capability the generator only calls. Here it
    is the sequence of its successive answers during one call to Generate:
    answer k is the k-th batch of bytes handed back. */
module NanoIds {
  import opened Wrappers
  import opened Errors
  import opened Bits
  import Alphabets
  import Sizes

  type Byte = b: int | 0 <= b < 256

  /** The answers of the random byte source, in the order they are drawn. */
  type ByteSource = seq<seq<Byte>>

  /** "0123456789ABCDEFGHIJKLMNOPQRSTUVWXYZ_abcdefghijklmnopqrstuvwxyz-",
      written as its five runs of consecutive characters. */
  const DEFAULT_ALPHABET: string :=
    "0123456789" + "ABCDEFGHIJKLMNOPQRSTUVWXYZ" + "_" + "abcdefghijklmnopqrstuvwxyz" + "-"

  const DEFAULT_SIZE: int := 21

  /** The readonly generator: the alphabet and the default size. The byte
      source it also holds is passed to Generate instead. */
  datatype Generator = Generator(alphabet: Alphabets.Alphabet, defaultSize: Sizes.Size)

  predicate Valid(g: Generator)
  {
    Alphabets.Valid(g.alphabet) && Sizes.Valid(g.defaultSize)
  }

  /** The source keeps its contract: every answer has the requested length. */
  predicate Serves(source: ByteSource, count: nat)
  {
    forall k | 0 <= k < |source| :: |source[k]| == count
  }

  /** Every answer has at least two bytes, so the descending scan, which
      stops above index 0, looks at one byte or more of each batch. This is
      all the rejection path needs of the batch size. */
  predicate ScansEveryAnswer(source: ByteSource)
  {
    forall k | 0 <= k < |source| :: |source[k]| >= 2
  }

  // ---------------------------------------------------------------------
  // Configuration

  function ParseAlphabetValue(alphabet: Option<string>): string
  {
    match alphabet
    case None => DEFAULT_ALPHABET
    case Some(value) => value
  }

  function DefaultSizeValue(defaultSize: Option<int>): int
  {
    match defaultSize
    case None => DEFAULT_SIZE
    case Some(n) => n
  }

  /** Builds a generator. A missing alphabet or default size takes the
      library's default; the alphabet is validated before the size, so an
      alphabet failure is the one reported when both are wrong. */
  function Create(alphabet: Option<string>, defaultSize: Option<int>): (r: Result<Generator, Error>)
    ensures var value, n := ParseAlphabetValue(alphabet), DefaultSizeValue(defaultSize);
      && (r.Ok? <==> Alphabets.MIN_LENGTH <= |value| <= Alphabets.MAX_LENGTH && Alphabets.Distinct(value) && n >= 1)
      && (Alphabets.Create(value).Err? ==> r == Err(Alphabets.Create(value).error))
      && (Alphabets.Create(value).Ok? && n < 1 ==> r == Err(SizeNotPositive))
      && (r.Ok? ==> Valid(r.value) && r.value.alphabet.value == value && r.value.defaultSize.value == n)
  {
    match Alphabets.Create(ParseAlphabetValue(alphabet))
    case Err(e) => Err(e)
    case Ok(a) =>
      match Sizes.Create(DefaultSizeValue(defaultSize))
      case Err(e) => Err(e)
      case Ok(s) => Ok(Generator(a, s))
  }

  /** Position of each default symbol in the default alphabet. */
  function DefaultCode(c: char): int
  {
    if '0' <= c <= '9' then c as int - '0' as int
    else if 'A' <= c <= 'Z' then c as int - 'A' as int + 10
    else if c == '_' then 36
    else if 'a' <= c <= 'z' then c as int - 'a' as int + 37
    else 63
  }

  /** The characters of s are those DefaultCode maps to base, base + 1, .... */
  predicate CodesFrom(s: string, base: int)
  {
    forall i | 0 <= i < |s| :: DefaultCode(s[i]) == base + i
  }

  lemma CodesConcat(x: string, y: string, base: int)
    requires CodesFrom(x, base) && CodesFrom(y, base + |x|)
    ensures CodesFrom(x + y, base)
  {
    forall i | 0 <= i < |x + y| ensures DefaultCode((x + y)[i]) == base + i {
      if i >= |x| {
        assert (x + y)[i] == y[i - |x|];
      }
    }
  }

  lemma DigitCodes() ensures CodesFrom("0123456789", 0) {}
  lemma UpperCodes() ensures CodesFrom("ABCDEFGHIJKLMNOPQRSTUVWXYZ", 10) {}
  lemma LowerCodes() ensures CodesFrom("abcdefghijklmnopqrstuvwxyz", 37) {}

  /** Symbol i of the default alphabet is the one DefaultCode maps to i. */
  lemma DefaultAlphabetCodes()
    ensures |DEFAULT_ALPHABET| == 64 && CodesFrom(DEFAULT_ALPHABET, 0)
  {
    var digits, upper, lower := "0123456789", "ABCDEFGHIJKLMNOPQRSTUVWXYZ", "abcdefghijklmnopqrstuvwxyz";
    DigitCodes();
    UpperCodes();
    LowerCodes();
    CodesConcat(digits, upper, 0);
    CodesConcat(digits + upper, "_", 0);
    CodesConcat(digits + upper + "_", lower, 0);
    CodesConcat(digits + upper + "_" + lower, "-", 0);
  }

  lemma DefaultAlphabetDistinct()
    ensures |DEFAULT_ALPHABET| == 64 && Alphabets.Distinct(DEFAULT_ALPHABET)
    ensures DEFAULT_ALPHABET[0] == '0'
  {
    DefaultAlphabetCodes();
  }

  /** With no arguments, the generator uses the 64-symbol default alphabet,
      takes the power-of-two path and produces 21 symbols by default. */
  lemma CreateWithDefaults()
    ensures Create(None, None).Ok?
    ensures var g := Create(None, None).value;
      g.alphabet.value == DEFAULT_ALPHABET && g.alphabet.length == 64
      && g.alphabet.isPowerOfTwo && g.defaultSize.value == 21
  {
    DefaultAlphabetDistinct();
  }

  // ---------------------------------------------------------------------
  // Power-of-two path

  /** The symbol a byte selects once masked; the mask never exceeds the last index. */
  function MaskedSymbol(a: Alphabets.Alphabet, b: Byte, mask: nat): char
    requires Alphabets.Valid(a) && mask < a.length
  {
    a.value[BitAnd(b, mask)]
  }

  /** One symbol per byte: position i is the symbol that byte i selects
      under the mask length - 1. */
  function PowerOfTwoId(a: Alphabets.Alphabet, bytes: seq<Byte>): (id: string)
    requires Alphabets.Valid(a) && a.isPowerOfTwo
    ensures |id| == |bytes|
    ensures forall i | 0 <= i < |bytes| :: id[i] == a.value[bytes[i] % a.length]
  {
    forall b: Byte ensures BitAnd(b, a.length - 1) == b % a.length {
      PowerOfTwoIsPow2(a.length);
      var k :| Pow2(k) == a.length;
      BitAndLowMask(b, k);
    }
    seq(|bytes|, i requires 0 <= i < |bytes| => MaskedSymbol(a, bytes[i], a.length - 1))
  }

  /** The power-of-two path draws once and maps the whole answer. */
  function PowerOfTwoSpec(a: Alphabets.Alphabet, source: ByteSource): (r: Result<string, Error>)
    requires Alphabets.Valid(a) && a.isPowerOfTwo
    ensures r.Ok? <==> |source| >= 1
    ensures r.Ok? ==>
      && |r.value| == |source[0]|
      && forall i | 0 <= i < |source[0]| :: r.value[i] == a.value[source[0][i] % a.length]
    ensures r.Err? ==> r.error == SourceExhausted
  {
    if |source| == 0 then Err(SourceExhausted) else Ok(PowerOfTwoId(a, source[0]))
  }

  method GenerateForPowerOfTwoLengthAlphabet(a: Alphabets.Alphabet, size: Sizes.Size, source: ByteSource)
    returns (r: Result<string, Error>)
    requires Alphabets.Valid(a) && a.isPowerOfTwo && Sizes.Valid(size)
    requires Serves(source, size.value)
    ensures r == PowerOfTwoSpec(a, source)
  {
    var mask := a.length - 1;
    if |source| == 0 {
      return Err(SourceExhausted);
    }
    var bytes := source[0];
    var id := "";
    for i := 0 to size.value
      invariant |id| == i
      invariant forall j | 0 <= j < i :: id[j] == MaskedSymbol(a, bytes[j], mask)
    {
      var index := BitAnd(bytes[i], mask);
      id := id + [a.value[index]];
    }
    assert id == PowerOfTwoId(a, bytes);
    return Ok(id);
  }

  // ---------------------------------------------------------------------
  // Rejection-sampling path

  /** (2 << floor(log2(length - 1))) - 1: the smallest all-ones bit pattern
      covering length - 1. For a length that is not a power of two it is at
      least length, so it needs rejection, and it fits in a byte. */
  function Mask(length: nat): (mask: nat)
    requires length >= 2
    ensures IsPowerOfTwo(mask + 1)
    ensures length - 1 <= mask && mask + 1 <= 2 * (length - 1)
    ensures length <= 256 ==> mask <= 255
    ensures !IsPowerOfTwo(length) ==> length < mask + 1
  {
    var k := FloorLog2(length - 1);
    Pow2IsPowerOfTwo(k + 1);
    assert length <= 256 ==> Pow2(k) <= 128 by {
      if length <= 256 && Pow2(k) >= 2 {
        Pow2IsPowerOfTwo(k);
        PowersOfTwoUpTo256(Pow2(k));
      }
    }
    Pow2(k + 1) - 1
  }

  /** Masking a byte with the rejection mask keeps its remainder modulo
      mask + 1, a power of two, and fewer than half of the masked values
      0 .. mask lie outside the alphabet. */
  lemma MaskedValueIsRemainder(length: nat, b: Byte)
    requires 2 <= length <= 256
    ensures BitAnd(b, Mask(length)) == b % (Mask(length) + 1)
    ensures 2 * length > Mask(length) + 1
  {
    var k := FloorLog2(length - 1);
    assert Mask(length) == Pow2(k + 1) - 1;
    BitAndLowMask(b, k + 1);
  }

  /** ceil(1.6 * mask * size / length), with 1.6 taken as the exact 8/5. */
  function BatchStep(mask: nat, size: nat, length: nat): (step: nat)
    requires length >= 1
    ensures mask >= length && size >= 1 ==> step >= 2
  {
    var d := 5 * length;
    var step := (8 * mask * size + d - 1) / d;
    CeilDivision(8 * mask * size, d, step);
    assert mask >= length && size >= 1 ==> mask * size >= length by {
      if mask >= length && size >= 1 {
        MulAtLeast(mask, size, length);
      }
    }
    step
  }

  /** The batch size is the ceiling of 8/5 * mask * size / length: the
      least whole number of bytes at least that large. */
  lemma BatchStepIsCeiling(mask: nat, size: nat, length: nat)
    requires length >= 1
    ensures var step := BatchStep(mask, size, length);
      && 5 * length * step >= 8 * mask * size
      && (step >= 1 ==> 5 * length * (step - 1) < 8 * mask * size)
  {
    var d := 5 * length;
    CeilDivision(8 * mask * size, d, BatchStep(mask, size, length));
  }

  lemma CeilDivision(n: nat, d: nat, q: nat)
    requires d >= 1 && q == (n + d - 1) / d
    ensures d * q >= n
    ensures q >= 1 ==> d * (q - 1) < n
  {
    var r := (n + d - 1) % d;
    assert n + d - 1 == d * q + r;
    assert d * (q - 1) == d * q - d;
  }

  lemma MulAtLeast(m: nat, s: nat, l: nat)
    requires m >= l && s >= 1
    ensures m * s >= l
  {
    assert m * s == m * (s - 1) + m;
  }

  /** What one byte contributes: its masked value's symbol when that value
      indexes the alphabet, nothing when it is rejected. */
  function Keep(a: Alphabets.Alphabet, mask: nat, b: Byte): (s: string)
    requires a.length == |a.value|
    ensures |s| <= 1 && forall c | c in s :: c in a.value
    ensures s == [] <==> BitAnd(b, mask) >= a.length
    ensures s != [] ==> s == [a.value[BitAnd(b, mask)]]
  {
    var index := BitAnd(b, mask);
    if index < a.length then [a.value[index]] else []
  }

  /** The symbols accepted while scanning bytes[hi-1], bytes[hi-2], ..., bytes[lo]. */
  function DescendingScan(a: Alphabets.Alphabet, mask: nat, bytes: seq<Byte>, lo: nat, hi: nat): (s: string)
    requires a.length == |a.value| && lo <= hi <= |bytes|
    ensures |s| <= hi - lo
    decreases hi - lo
  {
    if hi == lo then []
    else Keep(a, mask, bytes[hi - 1]) + DescendingScan(a, mask, bytes, lo, hi - 1)
  }

  /** What one batch yields: indices |bytes|-1 down to 1; index 0 is never scanned. */
  function Accepted(a: Alphabets.Alphabet, mask: nat, bytes: seq<Byte>): (s: string)
    requires a.length == |a.value|
    ensures |bytes| >= 1 ==> |s| <= |bytes| - 1
  {
    if |bytes| == 0 then [] else DescendingScan(a, mask, bytes, 1, |bytes|)
  }

  /** The accepted symbols of all batches, batch after batch. */
  function AcceptedAll(a: Alphabets.Alphabet, mask: nat, batches: ByteSource): string
    requires a.length == |a.value|
  {
    if batches == [] then []
    else AcceptedAll(a, mask, batches[..|batches| - 1]) + Accepted(a, mask, batches[|batches| - 1])
  }

  /** The rejection path returns the first size accepted symbols, or fails
      when the source's answers do not hold that many. */
  function RejectionSpec(a: Alphabets.Alphabet, size: nat, source: ByteSource): (r: Result<string, Error>)
    requires 2 <= a.length == |a.value|
    ensures r.Ok? ==> |r.value| == size && forall c | c in r.value :: c in a.value
    ensures r.Err? ==> r.error == SourceExhausted
  {
    var all := AcceptedAll(a, Mask(a.length), source);
    AcceptedAllInAlphabet(a, Mask(a.length), source);
    if |all| >= size then Ok(all[..size]) else Err(SourceExhausted)
  }

  lemma {:induction false} AcceptedAllInAlphabet(a: Alphabets.Alphabet, mask: nat, batches: ByteSource)
    requires a.length == |a.value|
    ensures forall c | c in AcceptedAll(a, mask, batches) :: c in a.value
  {
    if batches != [] {
      var last := batches[|batches| - 1];
      AcceptedAllInAlphabet(a, mask, batches[..|batches| - 1]);
      if |last| != 0 {
        DescendingScanInAlphabet(a, mask, last, 1, |last|);
      }
    }
  }

  lemma {:induction false} DescendingScanInAlphabet(a: Alphabets.Alphabet, mask: nat, bytes: seq<Byte>, lo: nat, hi: nat)
    requires a.length == |a.value| && lo <= hi <= |bytes|
    ensures forall c | c in DescendingScan(a, mask, bytes, lo, hi) :: c in a.value
    decreases hi - lo
  {
    if hi > lo {
      DescendingScanInAlphabet(a, mask, bytes, lo, hi - 1);
    }
  }

  /** Scanning one index lower appends that byte's contribution. */
  lemma {:induction false} DescendingScanStep(a: Alphabets.Alphabet, mask: nat, bytes: seq<Byte>, lo: nat, hi: nat)
    requires a.length == |a.value| && 1 <= lo <= hi <= |bytes|
    ensures DescendingScan(a, mask, bytes, lo - 1, hi)
         == DescendingScan(a, mask, bytes, lo, hi) + Keep(a, mask, bytes[lo - 1])
    decreases hi - lo
  {
    if hi > lo {
      DescendingScanStep(a, mask, bytes, lo, hi - 1);
    }
  }

  /** A scan splits at any middle index: the upper part comes first. */
  lemma {:induction false} DescendingScanSplit(a: Alphabets.Alphabet, mask: nat, bytes: seq<Byte>, lo: nat, mid: nat, hi: nat)
    requires a.length == |a.value| && lo <= mid <= hi <= |bytes|
    ensures DescendingScan(a, mask, bytes, lo, hi)
         == DescendingScan(a, mask, bytes, mid, hi) + DescendingScan(a, mask, bytes, lo, mid)
    decreases hi - mid
  {
    if hi > mid {
      DescendingScanSplit(a, mask, bytes, lo, mid, hi - 1);
    }
  }

  /** The symbols gathered from the first k batches and the start of batch
      k come first in the accepted stream. */
  lemma {:induction false} AcceptedAllPrefix(a: Alphabets.Alphabet, mask: nat, batches: ByteSource, k: nat)
    requires a.length == |a.value| && k < |batches|
    ensures var p := AcceptedAll(a, mask, batches[..k]) + Accepted(a, mask, batches[k]);
      |p| <= |AcceptedAll(a, mask, batches)| && AcceptedAll(a, mask, batches)[..|p|] == p
    decreases |batches|
  {
    var n := |batches|;
    assert batches[..n][..k] == batches[..k];
    if k == n - 1 {
      assert batches[..n - 1] == batches[..k];
    } else {
      AcceptedAllPrefix(a, mask, batches[..n - 1], k);
      assert batches[..n - 1][..k] == batches[..k];
      assert batches[..n - 1][k] == batches[k];
    }
  }

  /** Finishing a batch appends its accepted symbols to those of the batches before it. */
  lemma BatchDone(a: Alphabets.Alphabet, mask: nat, source: ByteSource, k: nat)
    requires a.length == |a.value| && k < |source|
    ensures AcceptedAll(a, mask, source[..k + 1]) == AcceptedAll(a, mask, source[..k]) + Accepted(a, mask, source[k])
  {
    assert source[..k + 1][..k] == source[..k];
  }

  /** Reaching size symbols in the middle of batch k, after scanning down to
      index i, yields exactly what the rejection specification returns. */
  lemma EarlyReturn(a: Alphabets.Alphabet, source: ByteSource, k: nat, i: nat, id: string)
    requires 2 <= a.length == |a.value| && k < |source| && 1 <= i <= |source[k]|
    requires id == AcceptedAll(a, Mask(a.length), source[..k]) + DescendingScan(a, Mask(a.length), source[k], i, |source[k]|)
    ensures RejectionSpec(a, |id|, source) == Ok(id)
  {
    var mask, bytes := Mask(a.length), source[k];
    DescendingScanSplit(a, mask, bytes, 1, i, |bytes|);
    AcceptedAllPrefix(a, mask, source, k);
    var all := AcceptedAll(a, mask, source);
    var p := AcceptedAll(a, mask, source[..k]) + Accepted(a, mask, bytes);
    assert p[..|id|] == id;
    assert all[..|id|] == p[..|id|];
  }

  method GenerateForNonPowerOfTwoLengthAlphabet(a: Alphabets.Alphabet, size: Sizes.Size, source: ByteSource)
    returns (r: Result<string, Error>)
    requires Alphabets.Valid(a) && !a.isPowerOfTwo && Sizes.Valid(size)
    requires ScansEveryAnswer(source)
    ensures r == RejectionSpec(a, size.value, source)
  {
    var mask := Mask(a.length);
    var id := "";
    var k := 0;
    while k < |source|
      invariant 0 <= k <= |source|
      invariant id == AcceptedAll(a, mask, source[..k])
      invariant |id| < size.value
    {
      var bytes := source[k];
      ghost var stop;
      id, stop := ScanBatch(a, mask, bytes, id, size.value);
      if |id| == size.value {
        EarlyReturn(a, source, k, stop, id);
        return Ok(id);
      }
      BatchDone(a, mask, source, k);
      k := k + 1;
    }
    assert source[..k] == source;
    return Err(SourceExhausted);
  }

  /** One batch of the rejection path: scans from the last index down to 1,
      appending the symbol of each accepted byte, and stops as soon as the
      identifier has size symbols; stop is the lowest index scanned. */
  method ScanBatch(a: Alphabets.Alphabet, mask: nat, bytes: seq<Byte>, id: string, size: nat)
    returns (grown: string, ghost stop: nat)
    requires a.length == |a.value| && |id| < size && |bytes| >= 2
    ensures 1 <= stop < |bytes|
    ensures grown == id + DescendingScan(a, mask, bytes, stop, |bytes|)
    ensures |grown| <= size
    ensures |grown| < size ==> stop == 1
  {
    grown := id;
    var i := |bytes| - 1;
    while i > 0
      invariant 0 <= i < |bytes|
      invariant grown == id + DescendingScan(a, mask, bytes, i + 1, |bytes|)
      invariant |grown| < size
    {
      var byte := BitAnd(bytes[i], mask);
      DescendingScanStep(a, mask, bytes, i + 1, |bytes|);
      if byte < a.length {
        grown := grown + [a.value[byte]];
        if |grown| == size {
          return grown, i;
        }
      }
      i := i - 1;
    }
    stop := 1;
  }

  // ---------------------------------------------------------------------
  // Generation

  /** An explicit size is validated; a missing one is the configured default. */
  function EffectiveSize(g: Generator, size: Option<int>): (r: Result<Sizes.Size, Error>)
  {
    match size
    case None => Ok(g.defaultSize)
    case Some(n) => Sizes.Create(n)
  }

  /** How many bytes each draw asks the source for. */
  function DrawCount(a: Alphabets.Alphabet, size: Sizes.Size): nat
    requires Alphabets.Valid(a) && Sizes.Valid(size)
  {
    if a.isPowerOfTwo then size.value else BatchStep(Mask(a.length), size.value, a.length)
  }

  /** What generation needs of the source: exactly size bytes per answer on
      the power-of-two path, and at least two bytes per answer on the
      rejection path, whatever batch size was asked for. */
  predicate SourceServes(g: Generator, size: Option<int>, source: ByteSource)
    requires Valid(g)
  {
    EffectiveSize(g, size).Ok? ==>
      if g.alphabet.isPowerOfTwo then Serves(source, EffectiveSize(g, size).value.value)
      else ScansEveryAnswer(source)
  }

  /** A source that answers every draw with exactly the requested number of
      bytes serves generation: on the rejection path the requested batch size
      is at least 2. */
  lemma ExactAnswersServe(g: Generator, size: Option<int>, source: ByteSource)
    requires Valid(g) && EffectiveSize(g, size).Ok?
    requires Serves(source, DrawCount(g.alphabet, EffectiveSize(g, size).value))
    ensures SourceServes(g, size, source)
  {
    var a, n := g.alphabet, EffectiveSize(g, size).value.value;
    if !a.isPowerOfTwo {
      assert BatchStep(Mask(a.length), n, a.length) >= 2;
    }
  }

  /** What Generate computes: the size, then the path the alphabet's length selects. */
  function GenerateSpec(g: Generator, size: Option<int>, source: ByteSource): Result<string, Error>
    requires Valid(g)
  {
    match EffectiveSize(g, size)
    case Err(e) => Err(e)
    case Ok(s) =>
      if g.alphabet.isPowerOfTwo then PowerOfTwoSpec(g.alphabet, source)
      else RejectionSpec(g.alphabet, s.value, source)
  }

  method Generate(g: Generator, size: Option<int>, source: ByteSource) returns (r: Result<string, Error>)
    requires Valid(g) && SourceServes(g, size, source)
    ensures r == GenerateSpec(g, size, source)
  {
    var effective := EffectiveSize(g, size);
    if effective.Err? {
      return Err(effective.error);
    }
    var s := effective.value;
    if g.alphabet.isPowerOfTwo {
      r := GenerateForPowerOfTwoLengthAlphabet(g.alphabet, s, source);
    } else {
      r := GenerateForNonPowerOfTwoLengthAlphabet(g.alphabet, s, source);
    }
  }

  // ---------------------------------------------------------------------
  // Properties of generation

  /** Every identifier has exactly the requested length (the configured
      default when none is given) and is made of alphabet symbols; a size
      below 1 fails whatever the byte source would answer. */
  lemma GeneratedIdShape(g: Generator, size: Option<int>, source: ByteSource)
    requires Valid(g) && SourceServes(g, size, source)
    ensures var r := GenerateSpec(g, size, source);
      && (r.Ok? ==> |r.value| == (if size.Some? then size.value else g.defaultSize.value))
      && (r.Ok? ==> forall c | c in r.value :: c in g.alphabet.value)
      && (size.Some? && size.value <= 0 ==> r == Err(SizeNotPositive))
  {
    var r := GenerateSpec(g, size, source);
    if r.Ok? && g.alphabet.isPowerOfTwo {
      var a, bytes := g.alphabet, source[0];
      var id := PowerOfTwoId(a, bytes);
      forall c | c in id ensures c in a.value {
        var i :| 0 <= i < |id| && id[i] == c;
        assert a.value[bytes[i] % a.length] in a.value;
      }
    }
  }

  /** On a power-of-two alphabet the source is asked once for size bytes and
      byte i alone decides symbol i: the symbol at its value modulo the length. */
  lemma PowerOfTwoPath(g: Generator, n: int, source: ByteSource)
    requires Valid(g) && g.alphabet.isPowerOfTwo && n >= 1
    requires SourceServes(g, Some(n), source) && |source| >= 1
    ensures DrawCount(g.alphabet, Sizes.Size(n)) == n
    ensures GenerateSpec(g, Some(n), source).Ok?
    ensures var id, a := GenerateSpec(g, Some(n), source).value, g.alphabet;
      |id| == n && forall i | 0 <= i < n :: id[i] == a.value[source[0][i] % a.length]
  {
  }

  /** On any other alphabet the identifier is the first size symbols of the
      accepted stream, and generation fails only when the answers run out first. */
  lemma RejectionPath(g: Generator, n: int, source: ByteSource)
    requires Valid(g) && !g.alphabet.isPowerOfTwo && n >= 1
    ensures var all, r := AcceptedAll(g.alphabet, Mask(g.alphabet.length), source), GenerateSpec(g, Some(n), source);
      && (r.Ok? <==> |all| >= n)
      && (r.Ok? ==> r.value == all[..n])
  {
  }

  /** Byte 0 of a batch is never looked at: replacing it changes nothing. */
  lemma IndexZeroNeverInspected(a: Alphabets.Alphabet, mask: nat, bytes: seq<Byte>, x: Byte)
    requires a.length == |a.value| && |bytes| >= 1
    ensures Accepted(a, mask, [x] + bytes[1..]) == Accepted(a, mask, bytes)
  {
    var other := [x] + bytes[1..];
    DescendingScanReadsRange(a, mask, bytes, other, 1, |bytes|);
  }

  /** A scan depends only on the bytes in its index range. */
  lemma {:induction false} DescendingScanReadsRange(a: Alphabets.Alphabet, mask: nat, bytes: seq<Byte>, other: seq<Byte>, lo: nat, hi: nat)
    requires a.length == |a.value| && lo <= hi <= |bytes| && hi <= |other|
    requires forall i | lo <= i < hi :: bytes[i] == other[i]
    ensures DescendingScan(a, mask, bytes, lo, hi) == DescendingScan(a, mask, other, lo, hi)
    decreases hi - lo
  {
    if hi > lo {
      DescendingScanReadsRange(a, mask, bytes, other, lo, hi - 1);
    }
  }

  /** The default generator fed only zero bytes yields 21 times '0'. */
  lemma DefaultGeneratorWithZeroBytes()
    ensures Create(None, None).Ok?
    ensures GenerateSpec(Create(None, None).value, None, [seq(21, _ => 0)]) == Ok(seq(21, _ => '0'))
  {
    CreateWithDefaults();
    DefaultAlphabetDistinct();
    var g := Create(None, None).value;
    var bytes: seq<Byte> := seq(21, _ => 0);
    var id := PowerOfTwoId(g.alphabet, bytes);
    assert forall i | 0 <= i < 21 :: id[i] == g.alphabet.value[0];
    assert id == seq(21, _ => '0');
  }
}
