# frenc: a verified model of the front-coding codec

`frenc` packs a list of C strings into one byte blob by front coding. The
first string is written verbatim with its terminator. After that, each
string is written as two parts:

- a tiered signed delta: how much longer or shorter its shared prefix with
  the previous string is than the previous one's;
- the suffix after that prefix, with a terminator.

`frdec` unpacks such a blob. The encoder makes two passes:

- the first computes every adjacent common prefix length (`lcp`), caches it
  in `pplen[]` and sums the output size;
- the second writes the bytes.

The decoder also makes two passes:

- the first counts the strings and sizes one output block;
- the second rebuilds each string. It copies a prefix of the previously
  rebuilt string, then the literal suffix.

`enc12`/`dec12` pack a size hint into 12 bits: a 7-bit mantissa and a 5-bit
exponent, rounding up.

The model is split by source file:

| module | file | what it holds |
|---|---|---|
| `Bytes` | (support) | bytes, `char` signedness and little-endian `short` pairs |
| `FrencH` | `frenc.h` | error codes, platform limits and the tier bounds DIFF1 = ±126, DIFF2 = ±382, DIFF3 = [−33151, 33150] |
| `LcpEngine` | `lcp.h` | `lcp` as a loop method, with the 16-byte block step and the scalar tail, proved equal to a reference common-prefix function |
| `Enc12` | `enc12.h` | `enc12` as a method with its round-up loop, `dec12` as a function, and their laws |
| `Delta` | `frenc.c`, `frdec.c` | the tiered delta code as the encoder writes it and as each decoder pass reads it back |
| `Encoder` | `frenc.c` | both passes of `encpass` as methods over arrays, specified by a plan of per-string decisions (`Plan`), the size the first pass computes (`Total`) and the bytes the second writes (`Blob`); also `frenc` itself |
| `Decoder` | `frenc.c`, `frdec.c` | both passes of `frdec` as loop methods, specified by the recursive functions `Pass1` and `Pass2` |
| `RoundTrip` | `frenc.c` with `frdec.c` | decoding what was encoded |

`frdec.c:29-136` repeats `frenc.c:153-260` line for line, so one model
covers both copies.

Tier constants, integer widths and behaviour without a defined result:

- The tier bounds are defined in a header block that is not part of this
  model. Their values come from the code: the `bigdiff` table, the
  two-byte tier-2 operand and the asserts of the tier-3 write.
- `char` is signed, `int` is 32 bits, and `size_t` and pointers are 64 bits.
  A wider value stored in an `int` keeps its value modulo 2^32
  (`FrencH.Int32`). This matters for the decoder's `int left = end - enc`.
- A decoder step whose result C leaves undefined gives the outcome
  `Undefined`:
  - a `strlen` past the end of the blob;
  - a `memcpy` with a negative length or one that runs past the previous
    string.

Where the code and the written description of the format disagree, the model
follows the code:

- The encoder refuses a delta below DIFF3_LO with `FRENC_ERR_RANGE`
  (`frenc.c:75-78`). It does not write a "reset prefix to 0" sentinel.
- The decoder checks neither a shrink past the running prefix nor an
  overflow (`frenc.c:197`, `frenc.c:247`).
  - `Decoder.NegativePrefixUndefined` shows a blob that the first pass
    counts.
  - The second pass then reaches a `memcpy` of negative length on it.
- The tier-3 offsets are 383 on both sides (`DIFF2_HI + 1` and
  `DIFF2_LO - 1`), not 382.
- In the example list "app", "apple", "application", "banana", the prefix
  shared by "apple" and "application" is 4 bytes ("appl"), not 5. The deltas
  are therefore 3, 1 and −4, and the blob is 25 bytes
  (`RoundTrip.WorkedExample`).

The main result is `RoundTrip.RoundTrip`:

- It covers every list whose deltas all lie in [−127, 382] and whose blob
  is at most INT_MAX bytes.
- `frdec` with an output list gives back the list, string for string.
- `frdec` without an output list gives back the count.
- The size `frenc` returns is the blob's length.

Outside that range the round trip breaks, as the findings below record.
A longer blob can break it too, because the decoder's 32-bit `left` can
wrap.

## Model

| member | source | states |
|---|---|---|
| `Bytes.ToByte` | frenc.c:49 | storing an `int` in a `char` keeps it modulo 256: values in [0, 256) are kept, values in [−256, 0) gain 256 |
| `Bytes.Signed` | frenc.c:168 | reading a `char` as `int` on a signed-`char` platform gives a value in [−128, 128) that stores back as the same byte |
| `Bytes.SignedToByte` | frenc.c:217 | a delta in [−128, 128) written as one byte reads back unchanged |
| `Bytes.Le16` | frenc.c:91-93 | the two bytes written for a `short` in little-endian order: the low byte, then the high one, giving the value modulo 65536 |
| `Bytes.S16` | frenc.c:185-188 | two little-endian bytes read as a `short`: a value in [−32768, 32768) congruent to their unsigned sum modulo 65536 |
| `Bytes.S16Le16` | frenc.c:237-241 | a `short` written as two little-endian bytes reads back as itself |
| `FrencH.Int32` | frenc.c:170 | storing a wider integer in an `int`: the result is a 32-bit value congruent to the input modulo 2^32, exact on the `int` range, and never larger than a non-negative input when non-negative |
| `FrencH.ErrorCodes` | frenc.h:30-49 | the four error codes are distinct, each is at or above `FRENC_ERROR` (so `ret >= FRENC_ERROR` detects it), and none exceeds `SIZE_MAX` |
| `LcpEngine.Min` | lcp.h:12 | the smaller of two lengths: bounded by both, and equal to one of them |
| `LcpEngine.CommonPrefixLen` | lcp.h:7-34 | the reference longest common prefix: bounded by both lengths, equal bytes before it, and a mismatch at it when both strings go on |
| `LcpEngine.CommonPrefixUnique` | lcp.h:26-33 | any length with equal bytes before it and a mismatch at it (or an end of either string) is the common prefix length |
| `LcpEngine.CommonPrefixSlices` | lcp.h:28-31 | the two strings agree up to their common prefix length |
| `LcpEngine.FirstMismatch` | lcp.h:14-21 | the first-mismatch search behind the 16-byte block step: equal bytes before its result, a mismatch at it unless it reached the bound |
| `LcpEngine.BlockMismatch` | lcp.h:14-24 | one SSE2 step over 16 bytes (`ffs(~mask) - 1`): the offset of the first unequal byte among 16, or 16 when all are equal |
| `LcpEngine.Lcp` | lcp.h:7-34 | for terminated strings without inner NUL, with or without the block path: at most both lengths, an equal prefix, a mismatch after it, the full length for identical strings, and exactly the reference common prefix length |
| `Enc12.Pow2` | enc12.h:45 | the shift `1 << e` as a positive power of two |
| `Enc12.Pow2Add` | enc12.h:45 | shifting by a + b is shifting by a then by b |
| `Enc12.Pow2Monotone` | enc12.h:45 | a larger shift gives a larger power |
| `Enc12.Pow2Values` | enc12.h:1-2 | the powers of two the bounds of `enc12`/`dec12` are stated in: 2^6 … 2^32 |
| `Enc12.HalfUp` | enc12.h:19 | `n / 2 + n % 2` is n halved, rounding up |
| `Enc12.Normalize` | enc12.h:17-21 | the round-up loop as a recursion: while the mantissa is 256 or more, halve it rounding up and add one to the exponent; the final (mantissa, exponent) pair |
| `Enc12.Pack12` | enc12.h:4-30 | the value `enc12` returns: n itself up to 256, otherwise the exponent normalised from ⌈n/2⌉ and 2, shifted left by 7, with the mantissa's low 7 bits below it |
| `Enc12.Enc12` | enc12.h:4-30 | the loop method computes `Pack12`: n itself for n ≤ 256, and a hint above 256 otherwise |
| `Enc12.NormalizeShape` | enc12.h:17-21 | the round-up loop ends with the mantissa in [128, 256) and an exponent no smaller than it started with, growing exactly when the input is 256 or more |
| `Enc12.NormalizeCovers` | enc12.h:18-19 | rounding up: the final mantissa scaled back covers the input, and one less does not |
| `Enc12.NormalizeMinimal` | enc12.h:17-21 | each extra exponent step was needed: the input exceeds 255 times the previous scale |
| `Enc12.NormalizeMonotone` | enc12.h:6-8 | a larger input never packs to a smaller (exponent, mantissa) pair |
| `Enc12.Pack12Small` | enc12.h:9-10 | `enc12(n) == n` for n ≤ 256 |
| `Enc12.Pack12Monotone` | enc12.h:6-8 | `enc12` is monotone |
| `Enc12.Dec12` | enc12.h:35-46 | `dec12(h) == h` for h ≤ 256, and above 256 the decoded value is above 256 too |
| `Enc12.Dec12Increasing` | enc12.h:35-46 | `dec12` is strictly increasing on 12-bit hints |
| `Enc12.NormalizeShifted` | enc12.h:17-21 | a valid mantissa shifted left by j normalizes back to itself with the exponent raised by j |
| `Enc12.Pack12Dec12` | enc12.h:32-34 | the encoding is reversible: `enc12(dec12(h)) == h` for every 12-bit hint |
| `Enc12.ExponentBound` | enc12.h:25-28 | the exponent stays within a bound exactly when the input is at most 255 times the matching power of two |
| `Enc12.Pack12Fits` | enc12.h:25-28 | `enc12(n) < 4096` if and only if n ≤ `dec12(4095)` = 255·2^30 (255G) |
| `Enc12.PackedHint` | enc12.h:22-29 | for n > 256 the hint is `e << 7 | (m - 128)` with mantissa m in [128, 256), e ≥ 2, and `dec12` of it is m·2^(e−1) |
| `Enc12.PackedCovers` | enc12.h:17-21 | for n > 256 the packed value m·2^(e−1) covers n and (m−1)·2^(e−1) does not |
| `Enc12.Dec12Pack12` | enc12.h:32-34 | for n ≤ 255G the hint fits 12 bits, `dec12(enc12(n)) ≥ n`, and the round-up overhead is at most 1/128 of the decoded value |
| `Enc12.PackedOverhead` | enc12.h:32-34 | above 256, rounding up costs at most 1/128 of the decoded value |
| `Enc12.HintBelowPacked` | enc12.h:18-21 | the hint just below `enc12(n)` decodes to less than n |
| `Enc12.Pack12Least` | enc12.h:4-30 | `enc12(n)` is the least hint that decodes to at least n: every smaller hint decodes below n |
| `Enc12.Dec12Max32` | enc12.h:48-51 | `dec12(h)` fits 32 bits if and only if h ≤ `ENC12_MAX32` = 3327 |
| `Delta.TierOf` | frenc.c:45-96 | the tier a delta takes: tier 1 exactly on [−126, 126], tier 2 exactly on [−382, −127] ∪ [127, 382], tier 3 everywhere else |
| `Delta.Cost` | frenc.c:46-81 | the bytes the first pass counts for a delta: 1, 2 or 3 |
| `Delta.Code` | frenc.c:44-96 | the bytes the second pass writes: one fewer than counted for tier 3 (no marker), as many as counted otherwise |
| `Delta.BigDiff` | frenc.c:134-151 | the `bigdiff` table flags exactly the bytes that read as 127, −128 and −127 |
| `Delta.ReadCode` | frenc.c:167-194 | the delta read given the decoder's count `left` of bytes after the lead byte: a successful read moves past the lead byte and stays within the blob, and under the second pass's checks leaves at least one byte for the suffix |
| `Delta.ReadDelta` | frenc.c:167-194 | the delta read as written, with `left` wrapped to 32 bits: a successful read stays within the blob, and under the second pass's checks leaves a byte for the suffix |
| `Delta.WideReadDelta` | frenc.c:170 | the corrected read with `left` kept as the full pointer difference, with the same bounds |
| `Delta.NarrowAgrees` | frenc.c:170 | while at most INT_MAX bytes follow the lead byte, the 32-bit `left` is exact and the as-written read equals the corrected one |
| `Delta.ReadDeltaCases` | frenc.c:167-245 | every case of the delta read in both passes: the truncation refusals, which compare the 32-bit `left`, and the refusal of a plain byte at the end of the blob; then 127 + b, −127 − b, the `short` plus 383 whatever its sign, and a plain byte read as itself |
| `Delta.StrictAcceptsLess` | frenc.c:216-245 | whatever the second pass accepts, the first pass accepts too and reads the same way |
| `Delta.DeltaRoundTrip` | frenc.c:44-67 | a delta in [−127, 382] written by the encoder reads back unchanged in either pass, while at most INT_MAX bytes follow its lead byte |
| `Delta.WideRoundTrip` | frenc.c:44-67 | with `left` kept in full, a delta in [−127, 382] reads back unchanged however long the blob |
| `Delta.NegativeTier2Decodes` | frenc.c:60-66 | a delta d in [−382, −128] reads back as −510 − d, which equals d only for d = −255 (−127 itself reads back correctly) |
| `Delta.Tier3WritesNoMarker` | frenc.c:80-95 | tier 3 is counted as 3 bytes but written as 2: 400 is written as 17, 0 and read back as the delta 17 |
| `Delta.NegativeTier3Decodes` | frenc.c:189-192 | a negative tier-3 delta d, even with its marker, reads back as d + 766 |
| `Delta.IntendedCode` | frenc.c:44-96 | the corrected delta code writes exactly the bytes the first pass counts |
| `Delta.IntendedRead` | frenc.c:167-245 | the corrected reading: the full-width `left` of `WideReadDelta`, with a 128 marker's short offset by 383 upward and by −383 downward, the inverse of `IntendedCode` |
| `Delta.IntendedRoundTrip` | frenc.c:167-194 | with the marker written, matching offsets and `left` kept in full, every delta in [−33150, 33150] reads back unchanged |
| `Encoder.NextEntry` | frenc.c:38-79 | one decision of `encpass`: a range error exactly when the common prefix exceeds INT_MAX or the delta is below DIFF3_LO, the claimed length is the previous one plus the delta, and a delta above DIFF3_HI is clamped so that the claim is `olen + DIFF3_HI` |
| `Encoder.Plan` | frenc.c:33-104 | the first pass's decisions for strings 1 … k−1: one per string, each taken from its predecessor's claimed length and the common prefix length |
| `Encoder.PlanPrefix` | frenc.c:33-104 | the plan for the first i strings is a prefix of the plan for more |
| `Encoder.PlanFits` | frenc.c:35-43 | every decision fits its string, and replays from the cached prefix length alone, so both passes take the same decisions |
| `Encoder.PlanStops` | frenc.c:40-41 | a refused decision makes the whole encoding a range error |
| `Encoder.PlanNoneStays` | frenc.c:75-78 | once the first pass has returned an error, no longer list prefix recovers |
| `Encoder.BlobSize` | frenc.c:80-95 | the bytes written fall short of the size counted by exactly the number of tier-3 deltas |
| `Encoder.BlobPrefix` | frenc.c:97-98 | the second pass only appends: what it wrote for fewer strings is a prefix of what it writes for more |
| `Encoder.PrefixAgree` | frenc.c:33-104 | the size and bytes for k strings depend only on the first k−1 decisions |
| `Encoder.PlanGrows` | frenc.c:44-103 | one more accepted decision extends the plan and adds its tier cost plus the suffix length plus 1 to the size |
| `Encoder.Total` | frenc.c:28-103 | the size the first pass returns after k strings: the first string plus 1, then for each later string its tier cost, its suffix after the claimed prefix and 1 |
| `Encoder.Piece` | frenc.c:44-98 | the bytes the second pass writes for one string: the delta code, the suffix after the claimed prefix, and a terminator |
| `Encoder.Blob` | frenc.c:24-98 | the bytes the second pass has written after k strings: the first string and its terminator, then one piece per later string in list order |
| `Encoder.Tier3Count` | frenc.c:80-95 | how many of the first k − 1 decisions code their delta in tier 3, each counted three bytes by the first pass and written as two |
| `Encoder.EncodedSize` | frenc.c:113-121 | the size `frenc` returns: none when the first pass refuses a delta, else the first pass's total over the whole list |
| `Encoder.Encoding` | frenc.c:123-128 | the encoding exists exactly when the size does, and is no longer than it |
| `Encoder.EncodingShape` | frenc.c:24-31 | the blob starts with the first string and its terminator, a one-string list encodes to exactly that, the size is positive, and without tier-3 deltas the size is the number of bytes written |
| `Encoder.NoTier3` | frenc.c:80-95 | a plan with no tier-3 delta has a tier-3 count of zero (`Encoder.EncodingShape` turns this into equal written and counted sizes) |
| `Encoder.StpCpy` | frenc.c:97-98 | `stpcpy` writes the string and its terminator at the given position, changes nothing else, and returns the terminator's position |
| `Encoder.EncPass1` | frenc.c:17-106 | the first pass returns `FRENC_ERR_RANGE` exactly when the plan fails, and otherwise the planned size, having cached every common prefix length in `pplen[]` |
| `Encoder.CountNext` | frenc.c:37-103 | one first-pass step caches the common prefix length, extends the plan and adds this string's cost, or stops the plan with a range error; no other `pplen` slot changes |
| `Encoder.CountDelta` | frenc.c:44-81 | the first pass's tier step succeeds exactly when the decision exists, with that decision's cost and claimed length |
| `Encoder.EncPass2` | frenc.c:17-106 | the second pass writes the blob of the plan at the start of the buffer and leaves the bytes beyond it untouched |
| `Encoder.PutNext` | frenc.c:35-103 | one second-pass step writes the next string's piece right after what is already written |
| `Encoder.PutPiece` | frenc.c:44-98 | one string's delta code and suffix with terminator written at a position, nothing else changed |
| `Encoder.BlobGrows` | frenc.c:97-103 | the cached length replays the first pass's decision, and the blob grows by exactly this string's piece |
| `Encoder.PutDelta` | frenc.c:44-96 | the delta code written at a position, with the claimed length after clamping, nothing else changed |
| `Encoder.Frenc` | frenc.c:108-132 | an error code comes back exactly when no buffer does; a failed `pplen` allocation gives `FRENC_ERR_MALLOC`, a range error `FRENC_ERR_RANGE`, and a failed output allocation `FRENC_ERR_MALLOC`; when neither allocation fails and the first pass returns a size, the call succeeds; on success the fresh buffer has the counted size, which is positive, and starts with the encoding |
| `Decoder.StrLen` | frenc.c:201 | `strlen` inside a terminated blob stops at the first NUL, inside the blob |
| `Decoder.StrLenNoNul` | frenc.c:201 | the bytes `strlen` skips hold no NUL |
| `Decoder.StrLenOf` | frenc.c:253-254 | a string without NUL followed by a terminator has its own length as `strlen` |
| `Decoder.StrLenLoop` | frenc.c:201-202 | the byte loop computes `strlen` |
| `Decoder.CString` | frenc.h:21-23 | the C string at the start of a region: no NUL, a prefix of the region, ended by a NUL when shorter |
| `Decoder.CStringOf` | frenc.c:253 | a string written with its terminator reads back as itself |
| `Decoder.CStrings` | frenc.c:249-258 | the decoded list: one C string per region |
| `Decoder.FirstRegion` | frenc.c:212-214 | the first region: the blob's first string with its terminator |
| `Decoder.FirstTotal` | frenc.c:160-165 | the size the first pass starts from: the first string, its terminator and two pointers |
| `Decoder.TableSize` | frenc.c:249-257 | the string table's size: the total length of the regions laid so far, which the assert at frenc.c:257 compares with the first pass's total |
| `Decoder.Decoding` | frenc.c:153-260 | `frdec`'s outcome: `FRENC_ERR_DATA` when the last byte is not 0; else the first pass's refusal, overread or count, and with a list the second pass's refusal, undefined step or the C strings of its regions |
| `Decoder.Pass1` | frenc.c:165-204 | the first pass never loses count: when it sizes, the count only grows |
| `Decoder.Pass2` | frenc.c:208-256 | the second pass only adds regions |
| `Decoder.Pass2Extends` | frenc.c:247-255 | the regions the second pass started from stay unchanged |
| `Decoder.PassesAgree` | frdec.c:41-132 | wherever the second pass rebuilds, the first pass sizes the same deltas, counting one string and the region's length plus a pointer for each region |
| `Decoder.TableGrows` | frenc.c:249-255 | the string table grows by the region written |
| `Decoder.FirstRegionRead` | frenc.c:211-214 | the first region read as a C string is the blob's first string |
| `Decoder.FirstRebuilt` | frenc.c:211-214 | the first decoded string is the blob's first C string |
| `Decoder.TotalMatchesBlock` | frenc.c:257 | the size the first pass computes is the pointer table of n + 1 entries plus all rebuilt regions: the block the second pass fills exactly |
| `Decoder.DecodedShape` | frenc.c:205-206 | a decoded list has n ≥ 1 strings, its first is the blob's first C string, and the same call without a list returns just n |
| `Decoder.Pass1Step` | frenc.c:167-203 | one first-pass step adds the claimed length, the suffix, its terminator and a pointer to the size |
| `Decoder.Pass2Short` | frenc.c:219-245 | a truncated delta makes the second pass return `FRENC_ERR_DATA` |
| `Decoder.Pass2Overrun` | frenc.c:247-249 | a claimed length below zero or past the previous region makes the `memcpy` undefined |
| `Decoder.Pass2Proceeds` | frenc.c:216-249 | where the second pass rebuilds, each delta reads and claims a length within the previous region |
| `Decoder.Pass2Step` | frenc.c:216-255 | one second-pass step appends the previous region's prefix and the suffix with its terminator |
| `Decoder.SizingPass` | frdec.c:41-80 | the first pass's loop computes `Pass1` |
| `Decoder.SizeNext` | frdec.c:43-79 | one first-pass iteration either ends with the pass's result, or advances within the blob to a state with the same result |
| `Decoder.RebuildPass` | frdec.c:84-132 | the second pass's loop computes `Pass2` |
| `Decoder.RebuildNext` | frenc.c:217-255 | one second-pass step either ends with the pass's result, or advances within the blob to a state with the same result |
| `Decoder.Frdec` | frenc.c:153-260 | a blob whose last byte is not 0 gives `FRENC_ERR_DATA`, and in all cases the result is `Decoding` |
| `Decoder.Pass1Overreads` | frenc.c:165-204 | on the blob 'a', 0, 0 the first pass accepts a plain delta at the last byte, and its `strlen` reads past the end |
| `Decoder.LongTailRefused` | frenc.c:170-173 | a 127 marker coding the delta 200, with 2^31 + 3 bytes after it, is refused with `FRENC_ERR_DATA` with or without a list, although a full-width `left` reads it as 200 |
| `Decoder.NegativePrefixUndefined` | frenc.c:197 | the blob 'a', 0, −2, 'b', 0 is counted as two strings, but rebuilding it is a `memcpy` of negative length |
| `Decoder.StrictPass1Safe` | frenc.c:219-245 | with the second pass's checks, the first pass never reads past the blob |
| `Decoder.StrictPass1Refuses` | frenc.c:244-245 | with those checks, the blob 'a', 0, 0 is refused as malformed |
| `RoundTrip.Regions` | frenc.c:249-255 | the regions a list should rebuild to: each string with its terminator |
| `RoundTrip.PlanClaims` | frenc.c:38-74 | without a clamp, each decision claims the full common prefix, with the delta as the change |
| `RoundTrip.PieceInBlob` | frenc.c:97-98 | string k's piece sits in the final blob right after the bytes of the strings before it |
| `RoundTrip.PartsAt` | frenc.c:97-98 | the delta code, suffix and terminator of a piece are located at their offsets in the blob |
| `RoundTrip.Pass2Reads` | frenc.c:216-255 | the second pass over one piece appends the string's region |
| `RoundTrip.RegionsGrow` | frenc.c:247-255 | string k's region is the shared prefix of the region before it, then the rest of string k and a terminator |
| `RoundTrip.LaysStep` | frenc.c:216-255 | over one string's bytes, the second pass moves from k regions to k + 1 |
| `RoundTrip.Rebuilds` | frenc.c:216-256 | from any string's end, the second pass rebuilds the regions of all strings |
| `RoundTrip.Located` | frenc.c:44-98 | each string's delta and suffix in the encoder's blob have the layout the decoder reads |
| `RoundTrip.DeltaAt` | frenc.c:44-67 | the decoder reads back the encoder's delta for string k, where its code ends |
| `RoundTrip.SuffixAt` | frenc.c:97-98 | after string k's delta come its suffix and terminator |
| `RoundTrip.FirstString` | frenc.c:24-27 | the blob opens with the first string and its terminator, and ends with a terminator |
| `RoundTrip.SecondPass` | frenc.c:208-256 | the second pass over an encoding with small deltas, of at most INT_MAX bytes, rebuilds one region per string |
| `RoundTrip.EncodedBlob` | frenc.c:123-128 | with small deltas no tier-3 code arises, so the size returned is the blob's length |
| `RoundTrip.RegionsRead` | frenc.c:249-258 | the regions read as C strings give the list back |
| `RoundTrip.DecodesTo` | frenc.c:153-260 | a blob whose second pass rebuilds the list's regions decodes to the list, and counts it without a list |
| `RoundTrip.RoundTrip` | frenc.c:17-132 | for every list with all deltas in [−127, 382] whose blob is at most INT_MAX bytes: `frdec(frenc(v))` gives back v string for string, gives `|v|` without a list, and the returned size is the blob's length |
| `RoundTrip.ExamplePlan` | frenc.c:33-104 | "app", "apple", "application", "banana" take the deltas 3, 1 and −4 |
| `RoundTrip.ExampleBlob` | frenc.c:24-98 | those strings encode to "app" 0, 3 "le" 0, 1 "ication" 0, −4 "banana" 0 |
| `RoundTrip.WorkedExample` | frenc.c:108-132 | the example encodes to 25 bytes and decodes back to the same four strings |

## Left out

- `main.c`, the command-line harness, is not part of this model. It only reads files and writes to standard output.
- The streaming functions `frencio`/`frdecio` are not part of this model. They are stream I/O.
- The SSE2 intrinsics, `ffs` and `htole16`/`le16toh` are not modelled bit for bit:
  - the 16-byte comparison is `LcpEngine.BlockMismatch`, the index of the first unequal byte among 16;
  - the byte-order helpers are explicit little-endian byte pairs.
- `malloc` failure is a boolean parameter of `Encoder.Frenc`.
- The decoder's `malloc` (`frenc.c:208`) is unchecked. Its failure is left out, and so is the block leaked when the second pass returns an error after allocating.
- The decoder's single block is modelled as its regions and a size:
  - the pointer table and the string table behind it;
  - the `NULL` placed at `v[n]`;
  - each pointer's address.

  `Decoder.TotalMatchesBlock` states the size of the table and the strings.
- `assert()` calls are proof obligations in the model, not aborts.
- Bytes of a `malloc`'d buffer that are never written are not modelled: the last bytes of the encoder's output when some delta takes tier 3. `Encoder.Frenc` states only the bytes the second pass writes.
- The header block defining the tier bounds is not part of this model. DIFF1, DIFF2 and DIFF3 are inferred from the code.
- `Encoder.EncPass1`: the running `size_t` total is unbounded in the model. The 64-bit wrap-around it would need more than 2^64 bytes of input to reach.
- `Decoder.Pass1`: the running `int` prefix length and `size_t` total are unbounded. The 32-bit `int` wrap-around from a long run of positive deltas in corrupted input is not modelled.
- `Encoder.NextEntry`: the `(int)` casts of `len` and `olen` are exact in the model. The first pass refuses any common prefix above INT_MAX, and each claimed length is at most a common prefix, so the casts never truncate.
- `RoundTrip.RoundTrip`: covers only blobs of at most INT_MAX bytes. A longer blob still decodes when no marker has 2^31 or more bytes after it. The model does not state that case, because it would mean tracking each marker's position against the 32-bit `left`.
- `LcpEngine.Lcp`: no contract names the bytes the loops read. Its result depends only on `s1[..len1]` and `s2[..len2]` (its last ensures), and the loop invariants keep every index at or below min(len1, len2). Reads are not observable on sequences.
- `Encoder.Frenc` does not state that `v[]` is left unchanged. The list is a value in the model, so nothing can change it.

## Findings

| source | as written | input that shows it | evidently intended | confidence | as-written member | corrected member |
|---|---|---|---|---|---|---|
| frenc.c:60-66 | a negative tier-2 delta is stored as (d + 127) mod 256, and the decoder computes −127 minus that byte | d = −200 is written as −127, 183 and read back as −310 | store −d − 127 so that −127 − b gives d back | high, not executed | `Delta.NegativeTier2Decodes` | `Delta.IntendedRoundTrip` |
| frenc.c:80-95 | the first pass counts 3 bytes for tier 3, but the second writes only the `short`, with no −128 marker | d = 400 is written as 17, 0 and read back as the plain delta 17 | write the −128 marker before the `short` | high, not executed | `Delta.Tier3WritesNoMarker` | `Delta.IntendedRoundTrip` |
| frenc.c:189-192 | both decoder branches for tier 3 add 383, and the negative branch should subtract | d = −400 is stored as the `short` −17 and read back as 366 | offsets that invert the encoder's, with the sign of the `short` telling the two sides apart | high, not executed | `Delta.NegativeTier3Decodes` | `Delta.IntendedRoundTrip` |
| frenc.c:170 | `int left = end - enc` stores the 64-bit pointer difference in a 32-bit `int`, so when the count of bytes after a marker is 2^31 or more modulo 2^32 (e.g. 2^31 … 2^32 − 1 bytes) `left` is negative and the marker is refused | the list "", a×200, a×200 + b×2^30, a×200 + c×2^30: each string is under 2G and the deltas are 0, 200 and 0, but its 127 marker has 2^31 + 4 bytes after it, so `frdec` returns `FRENC_ERR_DATA` | keep `left` as a `ptrdiff_t` | medium (the conversion is implementation-defined; GCC and Clang wrap), not executed | `Decoder.LongTailRefused` | `Delta.WideRoundTrip` |
| frenc.c:172 | the first pass asks a marker for one byte less than the second, and accepts a plain delta that is the blob's last byte, so the `strlen` at frenc.c:201 reads past the end | the blob 'a', 0, 0 | apply the second pass's checks (frenc.c:221, 232, 244) in the first pass too | high, not executed | `Decoder.Pass1Overreads` | `Decoder.StrictPass1Safe` |
