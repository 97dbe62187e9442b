# NanoId generator in Dafny

A model of the identifier generator of php-nanoid. The library mints short random
identifiers. Each one is `size` symbols drawn from a configurable alphabet of 2 to
256 distinct characters, using bytes from a pluggable random byte source.

The model covers the two readonly value objects, `Alphabet` and `Size`, and the generator built on them:

- **`Alphabets`** (`src/Alphabet.php`): the symbol string. The length check runs
  first: fewer than 2 characters is too short, more than 256 is too long. The
  duplicate check runs second and counts the unique characters, as `array_unique`
  over `str_split` does. The constructor then derives `length` and `isPowerOfTwo`,
  which is the bit test `length & (length - 1) == 0`. One Dafny `char` stands for
  one byte of the PHP string, because `strlen` and `str_split` count and split bytes.
- **`Sizes`** (`src/Size.php`): a strictly positive integer.
- **`NanoIds`** (`src/NanoIdGenerator.php`):
  - `Create` applies the defaults: the 64-symbol alphabet and size 21.
  - `Generate` validates an explicit size and dispatches on `isPowerOfTwo`.
  - The power-of-two path draws `size` bytes and maps byte `i` through the mask
    `length - 1`.
  - The rejection path computes the mask `(2 << floor(log2(length - 1))) - 1` and
    the batch size `ceil(1.6 * mask * size / length)`. It then draws batches and
    scans each one from its last index down to index 1. It keeps each masked value
    below `length`, and returns as soon as `size` symbols are collected.
- **`Bits`**: the integer arithmetic behind PHP's `&` and `log`. `BitAnd` is
  bitwise AND on non-negative integers, proved equal to the machine AND on bytes.
  `FloorLog2` is the integer floor of log2. `IsPowerOfTwo` is the reference
  definition.
- **`Errors`**: one constructor per `InvalidArgumentException`, plus
  `SourceExhausted`. `Message` gives each one's exact text, and `Decimal`
  models the `%d` of `sprintf` that writes the length bounds into those texts.
- **`Wrappers`**: the general-purpose `Option` and `Result` types.

The random byte source is a parameter of type `ByteSource`. It holds the sequence
of answers the source gives during one call, and answer `k` is the `k`-th batch.
On the power-of-two path its contract is `Serves`: every answer has the requested
length. The rejection path needs only `ScansEveryAnswer`: every answer has at least
two bytes, whatever batch size was asked for. The two sampling
methods are imperative, with loops, and each is proved against a specification
function:

- `PowerOfTwoSpec`, via `PowerOfTwoId`;
- `RejectionSpec`: the first `size` symbols of `AcceptedAll`, which concatenates
  each batch's accepted symbols in descending index order.

The lemmas then prove what the library promises about those functions.

## Model

| member | source | states |
|---|---|---|
| `Alphabets.Create` | src/Alphabet.php:22-30 | Succeeds exactly when the length is 2..256 and no character repeats. A length below 2 gives the too-short error and a length above 256 the too-long error, whatever the characters, because the length check comes first. An in-range length with a repeat gives the duplicate error. Each failure carries its exact message, with the bound written in decimal from `MIN_LENGTH` or `MAX_LENGTH`. On success the value is stored unchanged, `length == \|value\|`, the alphabet is `Valid`, and `isPowerOfTwo` holds exactly for lengths 2, 4, 8, ..., 256 |
| `Alphabets.ValidateLength` | src/Alphabet.php:32-45 | Passes exactly for lengths 2..256; below 2 it reports too short, above 256 too long |
| `Alphabets.ValidateNoDuplicates` | src/Alphabet.php:47-52 | Passes exactly when the characters are pairwise distinct, and otherwise reports the duplicate error |
| `Alphabets.Unique` | src/Alphabet.php:49 | The `array_unique(str_split(...))` result has the same characters as its input, has no repeats, and is no longer than the input |
| `Alphabets.UniqueCountDetectsDuplicates` | src/Alphabet.php:49 | The unique-character count equals the length if and only if no character repeats |
| `Bits.PowerOfTwoTest` | src/Alphabet.php:29 | For n >= 1, `n & (n - 1) == 0` holds if and only if n is a power of two |
| `Bits.PowersOfTwoUpTo256` | src/Alphabet.php:29 | Between 2 and 256 the powers of two are exactly 2, 4, 8, 16, 32, 64, 128 and 256 |
| `Bits.BitAnd` | src/NanoIdGenerator.php:61 | `b & m` never exceeds m (nor b), so a byte masked with `length - 1` always indexes the alphabet |
| `Bits.BitAndIsBv8And` | src/NanoIdGenerator.php:79 | For every pair of bytes, `BitAnd` equals the machine's 8-bit AND, so the integer model is PHP's `&` on the values it is applied to |
| `Bits.BitAndLowMask` | src/NanoIdGenerator.php:61 | AND with `2^k - 1` is the remainder modulo `2^k` |
| `Bits.FloorLog2` | src/NanoIdGenerator.php:71 | The result k satisfies `2^k <= n < 2^(k+1)` |
| `Sizes.Create` | src/Size.php:14-19 | Succeeds exactly for values >= 1, so 1 is the smallest accepted value and 0 or any negative value fails. The stored value equals the argument. A failure carries the message "Size must be a positive integer." |
| `Errors.Message` | src/Alphabet.php:34-51 | Each failure's text is a full sentence ending in a period. The four library texts are those thrown at src/Alphabet.php:36, 42 and 50 and src/Size.php:17, and `Alphabets.Create` and `Sizes.Create` state them word for word. The `SourceExhausted` text is the model's own, because the library never runs out of bytes |
| `Errors.MessagesDistinct` | tests/NanoIdGeneratorTest.php:63-87 | Two different failures never have the same message, so the message alone identifies the failed check |
| `Errors.Decimal` | src/Alphabet.php:36 | The `%d` text of n is non-empty, all digits and denotes exactly n. It starts with '0' only when it is "0", which it is exactly for n = 0 |
| `Alphabets.BoundsInDecimal` | src/Alphabet.php:36-42 | The bounds 2 and 256 appear in the messages as "2" and "256" |
| `NanoIds.Create` | src/NanoIdGenerator.php:21-44 | A missing alphabet means the default alphabet and a missing size means 21. The generator is built exactly when the alphabet and the size are both valid. An alphabet failure is reported before a size failure. The result keeps both values unchanged |
| `NanoIds.CreateWithDefaults` | src/NanoIdGenerator.php:11-13 | With no arguments, creation succeeds. The alphabet is the 64-symbol default and takes the power-of-two path, and the default size is 21 |
| `NanoIds.DefaultAlphabetDistinct` | src/NanoIdGenerator.php:11 | The default alphabet has 64 pairwise-distinct characters and starts with '0' |
| `NanoIds.PowerOfTwoId` | src/NanoIdGenerator.php:57-64 | One symbol per byte, in byte order. Symbol i is the alphabet symbol at `bytes[i] % length`, which is what masking with `length - 1` selects for a power-of-two length |
| `NanoIds.PowerOfTwoSpec` | src/NanoIdGenerator.php:59-66 | The power-of-two path uses the first answer only, and fails only when the source gives none. On success there is one symbol per byte of that answer, and symbol i is `alphabet[byte i % length]` |
| `NanoIds.GenerateForPowerOfTwoLengthAlphabet` | src/NanoIdGenerator.php:55-67 | The for loop that appends one masked symbol per byte returns exactly `PowerOfTwoSpec` |
| `NanoIds.Mask` | src/NanoIdGenerator.php:71 | `mask + 1` is a power of two with `length - 1 <= mask` and `mask + 1 <= 2(length - 1)`. The mask fits in a byte for lengths up to 256. For a length that is not a power of two, `length < mask + 1` |
| `NanoIds.MaskedValueIsRemainder` | src/NanoIdGenerator.php:71-80 | Masking a byte with the rejection mask is its remainder modulo `mask + 1`. Fewer than half of the masked values are rejected, because `2 * length > mask + 1` |
| `NanoIds.BatchStep` | src/NanoIdGenerator.php:73 | When `mask >= length` and `size >= 1` the batch has at least 2 bytes, so every batch scans at least one byte |
| `NanoIds.BatchStepIsCeiling` | src/NanoIdGenerator.php:73 | The batch size is the least whole number at least `8/5 * mask * size / length` |
| `NanoIds.Keep` | src/NanoIdGenerator.php:79-81 | A byte contributes at most one symbol, always from the alphabet. It contributes nothing exactly when its masked value is `>= length`, and otherwise the symbol at that masked value |
| `NanoIds.DescendingScan` | src/NanoIdGenerator.php:78-86 | A scan over indices hi-1 down to lo yields at most one symbol per scanned byte |
| `NanoIds.Accepted` | src/NanoIdGenerator.php:78 | A batch of n >= 1 bytes yields at most n - 1 symbols, because index 0 is not scanned |
| `NanoIds.AcceptedAllInAlphabet` | src/NanoIdGenerator.php:79-81 | Every accepted symbol, from any batches, is a symbol of the alphabet |
| `NanoIds.RejectionSpec` | src/NanoIdGenerator.php:75-87 | A successful result has exactly `size` symbols, all from the alphabet. The only failure is running out of answers |
| `NanoIds.ScanBatch` | src/NanoIdGenerator.php:78-86 | The descending loop over one batch appends the symbols of that scan, in order. It stops exactly when the identifier reaches `size` symbols; otherwise it has scanned the whole batch down to index 1 |
| `NanoIds.EarlyReturn` | src/NanoIdGenerator.php:82-84 | Stopping mid-batch at `size` symbols returns exactly the first `size` symbols of the whole accepted stream |
| `NanoIds.GenerateForNonPowerOfTwoLengthAlphabet` | src/NanoIdGenerator.php:69-88 | The loop over batches, with its early return, computes exactly `RejectionSpec` for any source whose answers have at least two bytes each, so for the model's batch size and for PHP's alike |
| `NanoIds.IndexZeroNeverInspected` | src/NanoIdGenerator.php:78 | Replacing byte 0 of a batch does not change what that batch yields |
| `NanoIds.ExactAnswersServe` | src/NanoIdGenerator.php:59-76 | A source that answers each draw with exactly the requested number of bytes meets what generation needs, because the rejection path's batch size is at least 2 |
| `NanoIds.Generate` | src/NanoIdGenerator.php:46-53 | Validates an explicit size, otherwise uses the default, then dispatches on `isPowerOfTwo`. It computes exactly `GenerateSpec` |
| `NanoIds.GeneratedIdShape` | src/NanoIdGenerator.php:46-53 | Every identifier has exactly the requested length, or the default when none is given, and every character is an alphabet symbol. An explicit size <= 0 fails with the size error whatever the source would answer, so no byte matters |
| `NanoIds.PowerOfTwoPath` | src/NanoIdGenerator.php:55-67 | On a power-of-two alphabet the source is asked for exactly `size` bytes, and symbol i is `alphabet[byte i % length]` |
| `NanoIds.RejectionPath` | src/NanoIdGenerator.php:69-88 | On any other alphabet, generation succeeds exactly when the answers hold at least `size` accepted symbols. The identifier is the first `size` of them |
| `NanoIds.DefaultGeneratorWithZeroBytes` | tests/NanoIdGeneratorTest.php:42-54 | The default generator with a source of zero bytes yields '0' repeated 21 times |

## Left out

- An alphabet is a sequence of characters that each stand for one byte, and characters above 255 are not excluded. A PHP alphabet with multi-byte UTF-8 characters is modelled by giving its bytes one by one; for example, "αβ" becomes four characters whose first and third are equal, so it fails the duplicate check as in PHP.
- The `AlphabetValue` branch of `parseAlphabetValue` (src/NanoIdGenerator.php:39-41) is not modelled: that type is not part of this model. An alphabet is given as a string or left to the default.
- `NativeRandomBytesGenerator` and its `RuntimeException` are not modelled, because they wrap PHP's `Random\Randomizer` and `unpack`. The `RandomBytesGenerator` interface becomes the `ByteSource` parameter. Its contract that each answer has the requested length is `Serves`, and `ExactAnswersServe` shows that such a source meets what generation needs on both paths.
- The byte source in the model gives finitely many answers, while the PHP `while (true)` keeps drawing. When the answers run out, the model returns `SourceExhausted`, an outcome the library itself never produces. Termination with probability 1 and uniformity of the output are probabilistic claims and are not stated.
- `Mask` uses the integer floor of log2 in place of `(int) (log(length - 1) / M_LN2)`. The floating-point quotient is not modelled.
- BatchStep: uses the exact ratio 8/5 in place of the double `1.6`. The double is slightly above 8/5, so where `8 * mask * size / (5 * length)` is a whole number PHP's `ceil` can come out one higher; for length 3 and size 5, PHP asks for 9 bytes where the model asks for 8. `RejectionSpec` depends only on the answers the source gives and not on the batch size. `GenerateForNonPowerOfTwoLengthAlphabet` and the generation lemmas ask only that each answer has at least two bytes, which PHP's batch size also gives, so every property of the rejection path holds for it too. Only the count passed to the source can differ.
- The descending inner loop of the rejection path is the separate method `ScanBatch`, which hands its early return back to `GenerateForNonPowerOfTwoLengthAlphabet`. The order of scanned bytes and the stopping point are unchanged.
- PHP integers are 64-bit. `Size` holds an unbounded integer, and overflow at `PHP_INT_MAX` is not modelled. For sizes above about 10^13, double rounding in `(1.6 * mask * size) / length` can also put PHP's batch size one above or one below the model's. This too changes only the count passed to the source.
- The golden-vector test (tests/NanoIdGeneratorTest.php:89-103) depends on the Mt19937 engine, which is not part of this model.
- A source answer shorter than requested, which PHP would read past with warnings, is not modelled. On the power-of-two path `Serves` excludes it. On the rejection path each answer is scanned from its own last byte, which is PHP's behaviour exactly when the answer has the requested length, as the `RandomBytesGenerator` contract promises.
