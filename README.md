# Grizzly buffer chunk, value holders and stop action, in Dafny

This project models three small, sequential components of the Grizzly NIO
framework and proves what they promise:

- `BufferChunk` (HTTP module): a view of message bytes. It is either a window
  `start..end` over a byte buffer, a plain `String`, or neither (a null chunk).
  It has mutators that keep the two representations exclusive, a per-charset
  cache of the decoded string, byte and substring searches, exact and
  case-insensitive equality, ordering and prefix tests, and a read-only
  `Immutable` copy whose mutators do nothing.
- `Holder`: a value holder that is static (value captured at creation) or lazy
  (value computed by a factory on first `get`, at most once, unless `set`
  supplies it first), with an `int` specialisation.
- `StopAction`: the filter-chain action that stops a phase, carrying a
  remainder and an appender.

Files:

- `optional.dfy` (`Optional`): `Option`, where `None` stands for Java `null`.
- `chunk_text.dfy` (`ChunkText`): Java `byte`/`char` as integers, ASCII case
  folding, "pattern occurs at offset", lexicographic comparison, and the two
  `java.lang.String.indexOf` searches that a string-backed chunk delegates to.
- `chunk_search.dfy` (`ChunkSearch`): the chunk's private static search helpers
  and the loop of `findBytesAscii`, two of them both as written and corrected
  (see Findings).
- `buffer_chunk.dfy` (`BufferChunks`): the `BufferChunk` class. `Immutable` is
  the same class with `immutable` set.
- `holder.dfy` (`Holders`): the state of a lazy holder as a `Cell`, its `get`
  and `set` steps as functions, lemmas over arbitrary call sequences, and the
  `Holder` and `IntHolder` classes proved to follow those steps.
- `stop_action.dfy` (`StopActions`): the `StopAction` class.

Representation choices:

- A Java `byte` is an `int` in -128..127 and a `char` an `int` in 0..65535, so
  that a byte compared with a char behaves as Java's widening comparison does.
- A `Buffer` is a value: its bytes, position and limit.
- Charset decoding (`Buffer.toStringContent`) is a `Decoder` function that
  `ToString` receives as a parameter.
- `Ascii.toLower` is taken to be plain ASCII folding (`A`..`Z` to `a`..`z`).

## Model

| member | source | states |
|---|---|---|
| `ChunkText.LexCompare` | modules/http/src/main/java/org/glassfish/grizzly/http/util/BufferChunk.java:343-395 | the ordering used by `compare`: the answer is -1, 0 or 1, and it is 0 exactly when the two sequences are equal |
| `ChunkText.LexCompareAntisymmetric` | modules/http/src/main/java/org/glassfish/grizzly/http/util/BufferChunk.java:371-395 | comparing the other way round gives the negated answer, so the ordering is consistent |
| `ChunkText.LexCompareAfterCommonPrefix` | modules/http/src/main/java/org/glassfish/grizzly/http/util/BufferChunk.java:380-393 | a common prefix does not decide the order; the first difference, or else the lengths, do |
| `ChunkText.JavaIndexOfChar` | modules/http/src/main/java/org/glassfish/grizzly/http/util/BufferChunk.java:234-235 | a string chunk's `indexOf(char)`: the first index at or after `fromIndex` holding the char, or -1, and no earlier index holds it |
| `ChunkText.JavaIndexOf` | modules/http/src/main/java/org/glassfish/grizzly/http/util/BufferChunk.java:250-251 | a string chunk's `indexOf(String)`: an empty pattern is found at the clamped `fromIndex`; otherwise the first occurrence at or after `fromIndex`, or -1 when there is none |
| `ChunkSearch.FindChar` | modules/http/src/main/java/org/glassfish/grizzly/http/util/BufferChunk.java:257-267 | returns the first position in `off..end` holding the char, or -1 when none holds it |
| `ChunkSearch.FindStringAsWritten` | modules/http/src/main/java/org/glassfish/grizzly/http/util/BufferChunk.java:269-295 | the substring helper as written computes exactly the scan function of the loop (early returns included) |
| `ChunkSearch.ScanFromSound` | modules/http/src/main/java/org/glassfish/grizzly/http/util/BufferChunk.java:281-293 | from any partial match, whatever the as-written loop returns is an occurrence of the pattern that starts no earlier than the partial match |
| `ChunkSearch.FindStringScanSound` | modules/http/src/main/java/org/glassfish/grizzly/http/util/BufferChunk.java:269-295 | the as-written helper is sound: a non-negative answer for a non-empty pattern is an occurrence starting in `off..end - len` |
| `ChunkSearch.ScanMissesOverlap` | modules/http/src/main/java/org/glassfish/grizzly/http/util/BufferChunk.java:288-290 | the as-written helper is not complete: it answers -1 for "ab" in "aab" |
| `ChunkSearch.ScanSkipsFirstOccurrence` | modules/http/src/main/java/org/glassfish/grizzly/http/util/BufferChunk.java:288-290 | the as-written helper does not return the first occurrence: "ab" in "aabab" gives 3, not 1 |
| `ChunkSearch.FindString` | modules/http/src/main/java/org/glassfish/grizzly/http/util/BufferChunk.java:269-295 | corrected helper: `off` for an empty pattern, -1 when the pattern is longer than `end - off`, otherwise the first occurrence in `off..end - len`, or -1 when there is none |
| `ChunkSearch.FindAsciiAsWritten` | modules/http/src/main/java/org/glassfish/grizzly/http/util/BufferChunk.java:199-222 | `findBytesAscii` as written: for patterns of two or more bytes, the offset of the first position whose lowercased bytes equal the pattern, or -1; a one-byte pattern always gives -1 |
| `ChunkSearch.OneBytePatternMissed` | modules/http/src/main/java/org/glassfish/grizzly/http/util/BufferChunk.java:211-219 | a concrete miss: "h" is not found in "H" although it matches once lowercased |
| `ChunkSearch.FindAscii` | modules/http/src/main/java/org/glassfish/grizzly/http/util/BufferChunk.java:199-222 | corrected `findBytesAscii` loop: for every non-empty pattern, the offset of the first position whose lowercased bytes equal it, or -1 when there is none |
| `BufferChunks.BufferChunk.constructor` | modules/http/src/main/java/org/glassfish/grizzly/http/util/BufferChunk.java:55-77 | a new chunk is null, with `start == end == 0` and an empty cache |
| `BufferChunks.BufferChunk.Immutable` | modules/http/src/main/java/org/glassfish/grizzly/http/util/BufferChunk.java:520-529 | the read-only copy has the original's buffer, window, string and cache |
| `BufferChunks.BufferChunk.ToImmutable` | modules/http/src/main/java/org/glassfish/grizzly/http/util/BufferChunk.java:79-81 | a fresh read-only copy with equal fields; a read-only chunk returns itself (the `Immutable` override at lines 531-534) |
| `BufferChunks.BufferChunk.ResetBuffer` | modules/http/src/main/java/org/glassfish/grizzly/http/util/BufferChunk.java:490-494 | drops the buffer and sets the window to `-1..-1`, touching nothing else; no-op when read-only |
| `BufferChunks.BufferChunk.ResetString` | modules/http/src/main/java/org/glassfish/grizzly/http/util/BufferChunk.java:496-499 | drops the string, touching nothing else; no-op when read-only |
| `BufferChunks.BufferChunk.ResetStringCache` | modules/http/src/main/java/org/glassfish/grizzly/http/util/BufferChunk.java:501-504 | empties the cache, touching nothing else; no-op when read-only |
| `BufferChunks.BufferChunk.Reset` | modules/http/src/main/java/org/glassfish/grizzly/http/util/BufferChunk.java:506-514 | the chunk becomes null with window `-1..-1` and an empty cache; no-op when read-only |
| `BufferChunks.BufferChunk.Recycle` | modules/http/src/main/java/org/glassfish/grizzly/http/util/BufferChunk.java:516-518 | the same as `Reset` |
| `BufferChunks.BufferChunk.SetBuffer` | modules/http/src/main/java/org/glassfish/grizzly/http/util/BufferChunk.java:105-113 | the chunk is a window `s..e` over the buffer, with no string and an empty cache; no-op when read-only |
| `BufferChunks.BufferChunk.SetBufferRemaining` | modules/http/src/main/java/org/glassfish/grizzly/http/util/BufferChunk.java:101-103 | the window is the buffer's `position..limit`, otherwise as `SetBuffer` |
| `BufferChunks.BufferChunk.SetStart` | modules/http/src/main/java/org/glassfish/grizzly/http/util/BufferChunk.java:119-123 | moves `start` only and empties the cache; no-op when read-only |
| `BufferChunks.BufferChunk.SetEnd` | modules/http/src/main/java/org/glassfish/grizzly/http/util/BufferChunk.java:129-133 | moves `end` only and empties the cache; no-op when read-only |
| `BufferChunks.BufferChunk.SetString` | modules/http/src/main/java/org/glassfish/grizzly/http/util/BufferChunk.java:135-139 | the chunk holds the string, no buffer and window `-1..-1`; the cache is kept; no-op when read-only |
| `BufferChunks.BufferChunk.Set` | modules/http/src/main/java/org/glassfish/grizzly/http/util/BufferChunk.java:83-95 | copies the other chunk's window and cache, or else its string; `set(this)` leaves a null chunk; no-op when read-only; representations stay exclusive |
| `BufferChunks.BufferChunk.ToString` | modules/http/src/main/java/org/glassfish/grizzly/http/util/BufferChunk.java:154-169 | null for a null chunk, the string of a string chunk, a cached string with an equal charset (UTF-8 when none is given) whatever the range, otherwise the decoded range, which is then cached with its charset |
| `BufferChunks.BufferChunk.ToStringWindow` | modules/http/src/main/java/org/glassfish/grizzly/http/util/BufferChunk.java:141-152 | `toString()` and `toString(charset)`: `ToString` over the chunk's own window |
| `BufferChunks.BufferChunk.HasBuffer` | modules/http/src/main/java/org/glassfish/grizzly/http/util/BufferChunk.java:478-480 | `hasBuffer()`: a well-formed chunk that has a buffer has no string |
| `BufferChunks.BufferChunk.HasString` | modules/http/src/main/java/org/glassfish/grizzly/http/util/BufferChunk.java:482-484 | `hasString()`: a well-formed chunk that has a string has no buffer |
| `BufferChunks.BufferChunk.IsNull` | modules/http/src/main/java/org/glassfish/grizzly/http/util/BufferChunk.java:486-488 | `isNull()`: a well-formed chunk is in exactly one state, null, buffer or string, and `isNull` holds exactly in the first |
| `BufferChunks.BufferChunk.Size` | modules/http/src/main/java/org/glassfish/grizzly/http/util/BufferChunk.java:179-187 | `end - start` (the number of bytes in a well-formed window) for a buffer chunk, the string length for a string chunk, 0 for a null chunk |
| `BufferChunks.BufferChunk.IndexOfChar` | modules/http/src/main/java/org/glassfish/grizzly/http/util/BufferChunk.java:230-239 | buffer chunk: -1, or an offset `r >= fromIndex` inside the window whose byte is the char with none equal to it in between; -1 only when no byte from `start + fromIndex` to `end` matches (`fromIndex >= 0`); a match before the window hides matches inside it; string chunk: `String.indexOf`; null chunk: -1 |
| `BufferChunks.BufferChunk.IndexOfString` | modules/http/src/main/java/org/glassfish/grizzly/http/util/BufferChunk.java:246-255 | buffer chunk (corrected helper, see Findings): for an empty pattern, `fromIndex` when it is non-negative and -1 otherwise; for a non-empty pattern, -1 or the offset `r >= fromIndex` of an occurrence that ends by `end`, with none between `start + fromIndex` and it; -1 only when none occurs from `start + fromIndex` to `end` (`fromIndex >= 0`); an occurrence before the window hides those inside it; string chunk: `String.indexOf`; null chunk: -1 |
| `BufferChunks.BufferChunk.FindBytesAscii` | modules/http/src/main/java/org/glassfish/grizzly/http/util/BufferChunk.java:199-222 | (corrected helper, see Findings) the offset from `start` of the first window position whose lowercased bytes equal the pattern, or -1 when there is none |
| `BufferChunks.BufferChunk.Equals` | modules/http/src/main/java/org/glassfish/grizzly/http/util/BufferChunk.java:302-318 | holds iff the window has the length of `s` and each byte equals the char at the same offset; a string chunk compares its string |
| `BufferChunks.BufferChunk.EqualsIgnoreCase` | modules/http/src/main/java/org/glassfish/grizzly/http/util/BufferChunk.java:325-341 | `Equals` with both sides lowercased |
| `BufferChunks.BufferChunk.Compare` | modules/http/src/main/java/org/glassfish/grizzly/http/util/BufferChunk.java:374-395 | returns only -1, 0 or 1, and is the lexicographic order of the bytes `start..end` against `s` (0 exactly when they are equal); a reversed range gives -1 |
| `BufferChunks.BufferChunk.CompareIgnoreCase` | modules/http/src/main/java/org/glassfish/grizzly/http/util/BufferChunk.java:346-368 | `Compare` with both sides lowercased |
| `BufferChunks.BufferChunk.StartsWith` | modules/http/src/main/java/org/glassfish/grizzly/http/util/BufferChunk.java:449-476 | false when `s` does not fit after offset `pos`, else true iff the bytes there equal `s`; on a string chunk, iff the string holds `s` at `pos` |
| `BufferChunks.BufferChunk.StartsWithIgnoreCase` | modules/http/src/main/java/org/glassfish/grizzly/http/util/BufferChunk.java:409-437 | `StartsWith` with both sides lowercased |
| `Holders.Braced` | modules/grizzly/src/main/java/org/glassfish/grizzly/utils/Holder.java:96-100 | `toString`: null exactly when the value is null, otherwise the rendered value between `{` and `}` |
| `Holders.FactoryRunsAtMostOnce` | modules/grizzly/src/main/java/org/glassfish/grizzly/utils/Holder.java:113-127 | over any sequence of `get` and `set` calls, the factory runs at most once, and never while no value is stored |
| `Holders.StoredValueIsStable` | modules/grizzly/src/main/java/org/glassfish/grizzly/utils/Holder.java:114-117 | once a lazy holder has a value, `get` returns it and changes nothing |
| `Holders.LazyReadsAgree` | modules/grizzly/src/main/java/org/glassfish/grizzly/utils/Holder.java:113-127 | on a lazy holder never set, the first `get` runs the factory once and every `get` returns its result |
| `Holders.SetOverrides` | modules/grizzly/src/main/java/org/glassfish/grizzly/utils/Holder.java:107-111 | after `set(v)` every `get` returns `v` and the factory does not run, whether or not it ran before |
| `Holders.StaticIsConstant` | modules/grizzly/src/main/java/org/glassfish/grizzly/utils/Holder.java:51-59 | a static holder always returns its captured value, and `set` changes nothing |
| `Holders.Holder.StaticHolder` | modules/grizzly/src/main/java/org/glassfish/grizzly/utils/Holder.java:51-59 | a static holder of `v`, not yet read |
| `Holders.Holder.LazyHolder` | modules/grizzly/src/main/java/org/glassfish/grizzly/utils/Holder.java:71-79 | a lazy holder over the factory, not yet read or set |
| `Holders.Holder.Get` | modules/grizzly/src/main/java/org/glassfish/grizzly/utils/Holder.java:113-127 | follows the `get` step: stored value if any, else the factory's result, now stored; keeps the at-most-once invariant |
| `Holders.Holder.Set` | modules/grizzly/src/main/java/org/glassfish/grizzly/utils/Holder.java:107-111 | follows the `set` step: a lazy holder stores `v`; a static holder is unchanged |
| `Holders.Holder.ToString` | modules/grizzly/src/main/java/org/glassfish/grizzly/utils/Holder.java:96-100 | reads the value through `get` and braces it, null for a null value |
| `Holders.IntHolder.StaticIntHolder` | modules/grizzly/src/main/java/org/glassfish/grizzly/utils/Holder.java:61-69 | a static int holder of `v` |
| `Holders.IntHolder.LazyIntHolder` | modules/grizzly/src/main/java/org/glassfish/grizzly/utils/Holder.java:81-89 | a lazy int holder over the factory, not yet read or set |
| `Holders.IntHolder.GetInt` | modules/grizzly/src/main/java/org/glassfish/grizzly/utils/Holder.java:158-172 | follows the `get` step, as `Holder.Get` |
| `Holders.IntHolder.Get` | modules/grizzly/src/main/java/org/glassfish/grizzly/utils/Holder.java:133-136 | `getInt()` boxed: the same value, never null |
| `Holders.IntHolder.SetInt` | modules/grizzly/src/main/java/org/glassfish/grizzly/utils/Holder.java:152-156 | follows the `set` step; a static int holder is unchanged |
| `Holders.IntHolder.Set` | modules/grizzly/src/main/java/org/glassfish/grizzly/utils/Holder.java:138-141 | the same effect as `SetInt` |
| `Holders.IntHolder.ToString` | modules/grizzly/src/main/java/org/glassfish/grizzly/utils/Holder.java:96-100 | the decimal value in braces, never null |
| `StopActions.StopAction.constructor` | modules/grizzly/src/main/java/org/glassfish/grizzly/filterchain/StopAction.java:59-61 | type 1, no remainder, no appender |
| `StopActions.StopAction.WithAppender` | modules/grizzly/src/main/java/org/glassfish/grizzly/filterchain/StopAction.java:63-67 | type 1 with both fields as given |
| `StopActions.StopAction.FromAppendable` | modules/grizzly/src/main/java/org/glassfish/grizzly/filterchain/StopAction.java:69-72 | type 1, the appendable as remainder, no appender |
| `StopActions.StopAction.GetRemainder` | modules/grizzly/src/main/java/org/glassfish/grizzly/filterchain/StopAction.java:74-76 | returns the remainder and changes nothing |
| `StopActions.StopAction.GetAppender` | modules/grizzly/src/main/java/org/glassfish/grizzly/filterchain/StopAction.java:78-80 | returns the appender and changes nothing |
| `StopActions.StopAction.SetAppendableRemainder` | modules/grizzly/src/main/java/org/glassfish/grizzly/filterchain/StopAction.java:82-85 | the appendable becomes the remainder and the appender is cleared |
| `StopActions.StopAction.SetRemainder` | modules/grizzly/src/main/java/org/glassfish/grizzly/filterchain/StopAction.java:87-90 | exactly the given remainder and appender |
| `StopActions.StopAction.Reset` | modules/grizzly/src/main/java/org/glassfish/grizzly/filterchain/StopAction.java:92-95 | both fields null, so a second reset changes nothing |

## Left out

- The asynchronous write queue (`AsyncQueueWriter`, `TaskQueue`, push-back handling, the reentrant-write limiter) is not part of this model. Its source is not among the modelled files; only an end-to-end network test of it is, and that test needs real transports, threads and timing.
- The draft-06 WebSocket handshake is not part of this model. It is a thin wrapper over `HandShake`, `SecKey` and the HTTP packet classes, which are not part of this model either.
- `Ascii.toLower` is not part of this model. It is taken to be plain ASCII folding.
- BufferChunks.BufferChunk.EqualsIgnoreCase: on a string chunk, `String.equalsIgnoreCase` is modelled with the same ASCII folding, not Java's Unicode case mapping, so two strings that differ outside ASCII but fold to each other in Java compare unequal here.
- Charset decoding is the `Decoder` parameter of `ToString`. Its result is not constrained.
- `CharChunk.recycle()`, called when the string is reset, is not modelled. Neither is the empty `onContentChanged()` hook.
- A `Buffer` is a value, so the model does not capture a buffer object shared with other code and changed behind the chunk's back.
- `Buffer.get` is bounded by the byte sequence, not by the buffer's limit.
- A null buffer passed to `setBuffer(buffer, start, end)` is not modelled.
- Reads outside the buffer or the string throw in the source (`Buffer.get`, `String.charAt`). Here they are preconditions on the whole range each method may read. The source's loops stop at the first match or mismatch, and do not throw when that comes before the unreadable index. The members below are therefore called on fewer inputs than the source accepts.
- ChunkSearch.FindChar: requires all of `off..end` readable, although a hit before an unreadable position returns without reading it.
- BufferChunks.BufferChunk.IndexOfChar: requires the whole window from `start + fromIndex` to `end` readable, for the same reason as `FindChar`.
- BufferChunks.BufferChunk.IndexOfString: requires the whole window from `start + fromIndex` to `end` readable, although an early occurrence returns before the rest is read.
- BufferChunks.BufferChunk.FindBytesAscii: requires the whole window readable, although an early match returns before the rest is read.
- BufferChunks.BufferChunk.Equals: requires the whole window readable when its length equals `|s|`, although the first mismatching byte returns false before the rest is read.
- BufferChunks.BufferChunk.EqualsIgnoreCase: the same whole-window requirement as `Equals`.
- BufferChunks.BufferChunk.StartsWith: requires all `|s|` bytes after `start + pos` readable, although the first mismatch returns false before the rest is read.
- BufferChunks.BufferChunk.StartsWithIgnoreCase: the same whole-prefix requirement as `StartsWith`.
- BufferChunks.BufferChunk.StartsWith: on a string chunk, a negative `pos` with a non-empty `s` that fits makes `stringValue.charAt(pos)` throw; here that case is excluded by a precondition.
- BufferChunks.BufferChunk.StartsWithIgnoreCase: the same negative-`pos` precondition on a string chunk as `StartsWith`.
- `findBytesAscii` with an empty pattern throws on `b[0]`. Here a non-empty pattern is a precondition.
- Null `String` arguments (which throw) are not modelled.
- Java's 32-bit overflow of `start + fromIndex` and `end - start - pos` is not modelled. Integers are unbounded.
- BufferChunks.BufferChunk.IndexOfChar: the buffer-chunk contract is stated for `start >= 0` only. With a negative `start`, the source's `ret >= start` test turns "not found" (-1) into `-1 - start`.
- BufferChunks.BufferChunk.IndexOfString: the buffer-chunk contract is stated for `start >= 0` only, for the same reason as `IndexOfChar`.
- BufferChunks.BufferChunk.Compare: requires the whole range `start..end` inside the buffer. The source reads only its first `min(|s|, end - start)` bytes.
- BufferChunks.BufferChunk.CompareIgnoreCase: the same range requirement as `Compare`.
- `Holder`'s concurrency (`volatile isSet`, `synchronized` double-checked locking) is not modelled. Only single-threaded behaviour is.
- A holder's factory is a pure function. The model counts how often it runs (`evaluations`) rather than what its side effects are.
- `IntHolder.set(null)` (an unboxing failure) is not modelled.
- The Java class hierarchies (`Immutable` extends `BufferChunk`; the holder subclasses) are expressed as a flag and as the `Source` variants.

## Findings

| source | as written | input that shows it | evidently intended | confidence | as-written member | corrected member |
|---|---|---|---|---|---|---|
| modules/http/src/main/java/org/glassfish/grizzly/http/util/BufferChunk.java:288-290 | after a mismatch the substring helper resets `strOffs` to 0 and moves on. It neither retries the current byte nor goes back to the position after the one where the broken partial match began. | buffer "aab", pattern "ab": -1, though "ab" occurs at 1. Buffer "aabab": 3, though the first occurrence is at 1. | the first occurrence, or -1 when there is none | high; not executed | `ChunkSearch.FindStringAsWritten` | `ChunkSearch.FindString` |
| modules/http/src/main/java/org/glassfish/grizzly/http/util/BufferChunk.java:211-219 | `findBytesAscii` only returns from inside the loop that confirms bytes 1.. of the pattern, and that loop does not run for a one-byte pattern | buffer "H", pattern "h": -1, though "h" matches at 0 once lowercased | the first position whose lowercased bytes equal the pattern, for a one-byte pattern too | high; not executed | `ChunkSearch.FindAsciiAsWritten` | `ChunkSearch.FindAscii` |

The counterexamples are proved as `ChunkSearch.ScanMissesOverlap`, `ChunkSearch.ScanSkipsFirstOccurrence` and `ChunkSearch.OneBytePatternMissed`. `BufferChunk.IndexOfString` and `BufferChunk.FindBytesAscii` use the corrected helpers.
