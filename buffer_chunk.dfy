/**
 * `BufferChunk`, the HTTP module's view of message bytes: a window
 * `start..end` over a byte buffer, or a plain string, or neither (a "null"
 * chunk). The two representations never coexist. A buffer-backed chunk
 * caches the string it last decoded, together with the charset used.
 * `Immutable`, the read-only copy, is the same class with `immutable` set:
 * every mutator is then a no-op, while `ToString` may still fill the cache.
 */
module BufferChunks {
  import opened Optional
  import opened ChunkText
  import ChunkSearch

  /** A Grizzly `Buffer` as the chunk sees it: its bytes and its position and limit. */
  datatype Buffer = Buffer(bytes: seq<Byte>, position: int, limit: int)

  /** A `java.nio.charset.Charset`, compared by name as `Charset.equals` does. */
  datatype Charset = Charset(name: string)

  /** The charset `toString` uses when it is given none. */
  const UTF8: Charset := Charset("UTF-8")

  /** `Buffer.toStringContent(charset, start, end)`: charset decoding, left abstract. */
  type Decoder = (Buffer, Charset, int, int) -> JString

  class BufferChunk {
    var buffer: Option<Buffer>
    var start: int
    var end: int
    var cachedString: Option<JString>
    var cachedStringCharset: Option<Charset>
    var stringValue: Option<JString>
    /** Set on the copies `ToImmutable` makes (the source's `Immutable` subclass). */
    const immutable: bool

    /** The chunk never holds a buffer and a string at once, and the cache holds a string and its charset or nothing. */
    ghost predicate Valid()
      reads this
    {
      && !(buffer.Some? && stringValue.Some?)
      && (cachedString.Some? <==> cachedStringCharset.Some?)
    }

    /** `hasBuffer()`: a well-formed chunk with a buffer holds no string. */
    predicate HasBuffer(): (r: bool)
      reads this
      ensures Valid() && r ==> stringValue.None?
    {
      buffer.Some?
    }

    /** `hasString()`: a well-formed chunk with a string holds no buffer. */
    predicate HasString(): (r: bool)
      reads this
      ensures Valid() && r ==> buffer.None?
    {
      stringValue.Some?
    }

    /** `isNull()`: a well-formed chunk is in exactly one of three states: null, buffer or string. */
    predicate IsNull(): (r: bool)
      reads this
      ensures Valid() ==> (r && !HasBuffer() && !HasString()) || (!r && HasBuffer() != HasString())
    {
      !HasBuffer() && !HasString()
    }

    /** The buffer's bytes, or none when there is no buffer. */
    function Bytes(): seq<Byte>
      reads this
    {
      if buffer.Some? then buffer.value.bytes else []
    }

    /** Reading the absolute positions `from..to` of the buffer cannot fail. */
    predicate RangeReadable(from: int, to: int)
      reads this
    {
      to <= from || (buffer.Some? && 0 <= from && to <= |buffer.value.bytes|)
    }

    /** The bytes at absolute positions `from..to` (none when `to <= from`). */
    function Range(from: int, to: int): seq<int>
      reads this
      requires RangeReadable(from, to)
    {
      if to <= from then [] else buffer.value.bytes[from..to]
    }

    /** `newInstance()`: Java's field defaults, a null chunk with `start == end == 0`. */
    constructor ()
      ensures Valid() && IsNull() && !immutable
      ensures start == 0 && end == 0
      ensures cachedString == None && cachedStringCharset == None
    {
      buffer := None;
      start, end := 0, 0;
      cachedString, cachedStringCharset := None, None;
      stringValue := None;
      immutable := false;
    }

    /** `new Immutable(original)`: a read-only copy of every field. */
    constructor Immutable(original: BufferChunk)
      requires original.Valid()
      ensures Valid() && immutable
      ensures buffer == original.buffer && start == original.start && end == original.end
      ensures cachedString == original.cachedString
      ensures cachedStringCharset == original.cachedStringCharset
      ensures stringValue == original.stringValue
    {
      buffer := original.buffer;
      start, end := original.start, original.end;
      cachedString, cachedStringCharset := original.cachedString, original.cachedStringCharset;
      stringValue := original.stringValue;
      immutable := true;
    }

    /** `toImmutable()`: a fresh read-only copy, or the chunk itself when it is already read-only. */
    method ToImmutable() returns (r: BufferChunk)
      requires Valid()
      ensures immutable ==> r == this
      ensures !immutable ==> fresh(r) && r.Valid() && r.immutable
      ensures !immutable ==> r.buffer == buffer && r.start == start && r.end == end
      ensures !immutable ==> r.cachedString == cachedString && r.cachedStringCharset == cachedStringCharset
      ensures !immutable ==> r.stringValue == stringValue
    {
      if immutable {
        r := this;
      } else {
        r := new BufferChunk.Immutable(this);
      }
    }

    // -------------------------------------------------------------------
    // Mutators

    /** `resetBuffer()`: drops the buffer and sets the window to `-1..-1`. */
    method ResetBuffer()
      modifies this
      ensures immutable ==> unchanged(this)
      ensures !immutable ==> buffer == None && start == -1 && end == -1
      ensures !immutable ==> cachedString == old(cachedString) && cachedStringCharset == old(cachedStringCharset)
      ensures !immutable ==> stringValue == old(stringValue)
    {
      if !immutable {
        start, end := -1, -1;
        buffer := None;
      }
    }

    /** `resetString()`: drops the string. */
    method ResetString()
      modifies this
      ensures immutable ==> unchanged(this)
      ensures !immutable ==> stringValue == None
      ensures !immutable ==> buffer == old(buffer) && start == old(start) && end == old(end)
      ensures !immutable ==> cachedString == old(cachedString) && cachedStringCharset == old(cachedStringCharset)
    {
      if !immutable {
        stringValue := None;
      }
    }

    /** `resetStringCache()`: forgets the decoded string and its charset. */
    method ResetStringCache()
      modifies this
      ensures immutable ==> unchanged(this)
      ensures !immutable ==> cachedString == None && cachedStringCharset == None
      ensures !immutable ==> buffer == old(buffer) && start == old(start) && end == old(end)
      ensures !immutable ==> stringValue == old(stringValue)
    {
      if !immutable {
        cachedString, cachedStringCharset := None, None;
      }
    }

    /** `reset()`: a null chunk with window `-1..-1` and an empty cache. */
    method Reset()
      modifies this
      ensures immutable ==> unchanged(this)
      ensures !immutable ==> Valid() && IsNull() && start == -1 && end == -1
      ensures !immutable ==> cachedString == None && cachedStringCharset == None
    {
      if !immutable {
        start, end := -1, -1;
        buffer := None;
        cachedString, cachedStringCharset := None, None;
        stringValue := None;
      }
    }

    /** `recycle()`: the same as `reset()`. */
    method Recycle()
      modifies this
      ensures immutable ==> unchanged(this)
      ensures !immutable ==> Valid() && IsNull() && start == -1 && end == -1
      ensures !immutable ==> cachedString == None && cachedStringCharset == None
    {
      Reset();
    }

    /** `setBuffer(buffer, start, end)`: a window over `b`; the string and the cache are dropped. */
    method SetBuffer(b: Buffer, s: int, e: int)
      requires Valid()
      modifies this
      ensures Valid()
      ensures immutable ==> unchanged(this)
      ensures !immutable ==> buffer == Some(b) && start == s && end == e
      ensures !immutable ==> stringValue == None && cachedString == None && cachedStringCharset == None
    {
      if !immutable {
        buffer := Some(b);
        start, end := s, e;
        ResetString();
        ResetStringCache();
      }
    }

    /** `setBuffer(buffer)`: a window over the buffer's remaining bytes, `position..limit`. */
    method SetBufferRemaining(b: Buffer)
      requires Valid()
      modifies this
      ensures Valid()
      ensures immutable ==> unchanged(this)
      ensures !immutable ==> buffer == Some(b) && start == b.position && end == b.limit
      ensures !immutable ==> stringValue == None && cachedString == None && cachedStringCharset == None
    {
      SetBuffer(b, b.position, b.limit);
    }

    /** `setStart(start)`: moves the start of the window and drops the cache. */
    method SetStart(s: int)
      requires Valid()
      modifies this
      ensures Valid()
      ensures immutable ==> unchanged(this)
      ensures !immutable ==> start == s && end == old(end) && buffer == old(buffer) && stringValue == old(stringValue)
      ensures !immutable ==> cachedString == None && cachedStringCharset == None
    {
      if !immutable {
        start := s;
        ResetStringCache();
      }
    }

    /** `setEnd(end)`: moves the end of the window and drops the cache. */
    method SetEnd(e: int)
      requires Valid()
      modifies this
      ensures Valid()
      ensures immutable ==> unchanged(this)
      ensures !immutable ==> end == e && start == old(start) && buffer == old(buffer) && stringValue == old(stringValue)
      ensures !immutable ==> cachedString == None && cachedStringCharset == None
    {
      if !immutable {
        end := e;
        ResetStringCache();
      }
    }

    /**
     * `setString(string)`: a string-backed chunk (a null one for a null
     * string); the buffer is dropped and the window becomes `-1..-1`, while
     * the cache is left as it was.
     */
    method SetString(x: Option<JString>)
      requires Valid()
      modifies this
      ensures Valid()
      ensures immutable ==> unchanged(this)
      ensures !immutable ==> stringValue == x && buffer == None && start == -1 && end == -1
      ensures !immutable ==> cachedString == old(cachedString) && cachedStringCharset == old(cachedStringCharset)
    {
      if !immutable {
        stringValue := x;
        ResetBuffer();
      }
    }

    /**
     * `set(value)`: after a reset, takes over `value`'s buffer window and
     * cache, or else its string. Because the reset comes first,
     * `set(this)` leaves a null chunk.
     */
    method Set(value: BufferChunk)
      requires Valid() && value.Valid()
      modifies this
      ensures Valid()
      ensures immutable ==> unchanged(this)
      ensures !immutable && value == this ==> IsNull() && start == -1 && end == -1 && cachedString == None && cachedStringCharset == None
      ensures !immutable && value != this && old(value.buffer).Some? ==>
        && buffer == old(value.buffer) && start == old(value.start) && end == old(value.end)
        && stringValue == None
        && cachedString == old(value.cachedString) && cachedStringCharset == old(value.cachedStringCharset)
      ensures !immutable && value != this && old(value.buffer).None? ==>
        && stringValue == old(value.stringValue) && buffer == None && start == -1 && end == -1
        && cachedString == None && cachedStringCharset == None
    {
      if !immutable {
        Reset();
        if value.buffer.Some? {
          SetBuffer(value.buffer.value, value.start, value.end);
          cachedString := value.cachedString;
          cachedStringCharset := value.cachedStringCharset;
        } else if value.stringValue.Some? {
          stringValue := value.stringValue;
        }
      }
    }

    // -------------------------------------------------------------------
    // Conversion to a string

    /**
     * `toString(charset, start, end)`: null for a null chunk, the string of
     * a string-backed chunk, and otherwise the bytes `from..to` decoded with
     * `charset` (UTF-8 when none is given). A cached string decoded with an
     * equal charset is returned as it is, whatever `from` and `to` are;
     * otherwise the decoded string and its charset are cached. Read-only
     * chunks fill the cache too.
     */
    method ToString(charset: Option<Charset>, from: int, to: int, decode: Decoder) returns (r: Option<JString>)
      requires Valid()
      modifies this`cachedString, this`cachedStringCharset
      ensures Valid()
      ensures old(IsNull()) ==> r == None && unchanged(this)
      ensures old(HasString()) ==> r == stringValue && unchanged(this)
      ensures old(HasBuffer()) ==>
        var cs := if charset.Some? then charset.value else UTF8;
        if old(cachedString).Some? && old(cachedStringCharset) == Some(cs)
        then r == old(cachedString) && unchanged(this)
        else r == Some(decode(buffer.value, cs, from, to)) && cachedString == r && cachedStringCharset == Some(cs)
    {
      if IsNull() {
        return None;
      }
      if HasString() {
        return stringValue;
      }
      var cs := if charset.Some? then charset.value else UTF8;
      if cachedString.Some? && cachedStringCharset == Some(cs) {
        return cachedString;
      }
      cachedString := Some(decode(buffer.value, cs, from, to));
      cachedStringCharset := Some(cs);
      return cachedString;
    }

    /** `toString()` and `toString(charset)`: `ToString` over the chunk's own window. */
    method ToStringWindow(charset: Option<Charset>, decode: Decoder) returns (r: Option<JString>)
      requires Valid()
      modifies this`cachedString, this`cachedStringCharset
      ensures Valid()
      ensures old(IsNull()) ==> r == None && unchanged(this)
      ensures old(HasString()) ==> r == stringValue && unchanged(this)
      ensures old(HasBuffer()) ==>
        var cs := if charset.Some? then charset.value else UTF8;
        if old(cachedString).Some? && old(cachedStringCharset) == Some(cs)
        then r == old(cachedString) && unchanged(this)
        else r == Some(decode(buffer.value, cs, start, end)) && cachedString == r && cachedStringCharset == Some(cs)
    {
      r := ToString(charset, start, end, decode);
    }

    // -------------------------------------------------------------------
    // Length and searches

    /** `size()`: the window length of a buffer chunk, the string length of a string chunk, 0 for a null chunk. */
    function Size(): (n: int)
      reads this
      ensures HasBuffer() ==> n == end - start
      ensures HasBuffer() && start <= end && RangeReadable(start, end) ==> n == |Range(start, end)|
      ensures !HasBuffer() && HasString() ==> n == |stringValue.value|
      ensures IsNull() ==> n == 0
    {
      if HasBuffer() then end - start
      else if HasString() then |stringValue.value|
      else 0
    }

    /**
     * `indexOf(char c, int fromIndex)`. On a buffer chunk: the offset from
     * `start` of the first byte equal to `c` at or after `start + fromIndex`
     * and before `end`, or -1. A negative `fromIndex` starts the scan before
     * the window, and a match found there hides any match inside it. On a
     * string chunk: `String.indexOf`. On a null chunk: -1.
     */
    method IndexOfChar(c: Char16, fromIndex: int) returns (r: int)
      requires HasBuffer() && start + fromIndex < end ==> 0 <= start + fromIndex && end <= |buffer.value.bytes|
      ensures HasBuffer() && 0 <= start ==> (r == -1 ||
        (0 <= r && fromIndex <= r && start + r < end && buffer.value.bytes[start + r] == c &&
         forall k :: start + fromIndex <= k < start + r ==> buffer.value.bytes[k] != c))
      ensures HasBuffer() && 0 <= start && 0 <= fromIndex && r == -1 ==>
        forall k :: start + fromIndex <= k < end ==> buffer.value.bytes[k] != c
      ensures HasBuffer() && (exists j :: start + fromIndex <= j < start && j < end && buffer.value.bytes[j] == c) ==> r == -1
      ensures !HasBuffer() && HasString() ==> r == JavaIndexOfChar(stringValue.value, c, fromIndex)
      ensures IsNull() ==> r == -1
    {
      if HasBuffer() {
        var ret := ChunkSearch.FindChar(buffer.value.bytes, start + fromIndex, end, c);
        return if ret >= start then ret - start else -1;
      } else if HasString() {
        return JavaIndexOfChar(stringValue.value, c, fromIndex);
      }
      return -1;
    }

    /**
     * `indexOf(String s, int fromIndex)`. On a buffer chunk: for an empty
     * `s`, `fromIndex` itself (-1 when it is negative); otherwise the offset
     * from `start` of the first occurrence of `s` that begins at or after
     * `start + fromIndex` and ends by `end`, or -1; as for `IndexOfChar`, an
     * occurrence found before the window hides any inside it. On a string chunk:
     * `String.indexOf`. On a null chunk: -1.
     */
    method IndexOfString(s: JString, fromIndex: int) returns (r: int)
      requires HasBuffer() && 0 < |s| <= end - (start + fromIndex) ==>
        0 <= start + fromIndex && end <= |buffer.value.bytes|
      ensures HasBuffer() && |s| == 0 ==> r == (if fromIndex >= 0 then fromIndex else -1)
      ensures HasBuffer() && 0 <= start && |s| > 0 ==> (r == -1 ||
        (0 <= r && fromIndex <= r && start + r <= end - |s| && MatchesAt(buffer.value.bytes, start + r, s)))
      ensures HasBuffer() && 0 <= start && |s| > 0 && r != -1 ==>
        forall p :: start + fromIndex <= p < start + r ==> !MatchesAt(buffer.value.bytes, p, s)
      ensures HasBuffer() && 0 <= start && |s| > 0 && 0 <= fromIndex && r == -1 ==>
        forall p :: start + fromIndex <= p <= end - |s| ==> !MatchesAt(buffer.value.bytes, p, s)
      ensures HasBuffer() && |s| > 0 && (exists j :: start + fromIndex <= j < start && j <= end - |s| && MatchesAt(buffer.value.bytes, j, s)) ==> r == -1
      ensures !HasBuffer() && HasString() ==> r == JavaIndexOf(stringValue.value, s, fromIndex)
      ensures IsNull() ==> r == -1
    {
      if HasBuffer() {
        var ret := ChunkSearch.FindString(buffer.value.bytes, start + fromIndex, end, s);
        return if ret >= start then ret - start else -1;
      } else if HasString() {
        return JavaIndexOf(stringValue.value, s, fromIndex);
      }
      return -1;
    }

    /**
     * `findBytesAscii(b)`: the offset from `start` of the first position in
     * the window whose bytes, lowercased, equal `b` (which is expected in
     * lower case already), or -1.
     */
    method FindBytesAscii(b: seq<Byte>) returns (r: int)
      requires |b| > 0
      requires start <= end - |b| ==> RangeReadable(start, end) && HasBuffer()
      ensures r == -1 || (0 <= r && start + r <= end - |b| && MatchesAt(Lowered(Bytes()), start + r, b))
      ensures forall i :: start <= i <= end - |b| && (r == -1 || i < start + r) ==> !MatchesAt(Lowered(Bytes()), i, b)
    {
      r := ChunkSearch.FindAscii(Bytes(), start, end, b);
    }

    // -------------------------------------------------------------------
    // Comparisons

    /**
     * `equals(String s)`: a string chunk compares its string; any other
     * chunk holds exactly when its window has the length of `s` and each
     * byte equals the code unit at the same offset.
     */
    method Equals(s: JString) returns (r: bool)
      requires !HasString() && end - start == |s| ==> RangeReadable(start, end)
      ensures !HasString() ==> (r <==> end - start == |s| && Range(start, end) == s)
      ensures HasString() ==> (r <==> stringValue.value == s)
    {
      if HasString() {
        return stringValue.value == s;
      }
      if end - start != |s| {
        return false;
      }
      var i := start;
      while i < end
        invariant start <= i <= end
        invariant forall k :: start <= k < i ==> buffer.value.bytes[k] == s[k - start]
      {
        if buffer.value.bytes[i] != s[i - start] {
          return false;
        }
        i := i + 1;
      }
      assert start < end ==> Range(start, end) == s by {
        if start < end {
          assert forall k :: 0 <= k < |s| ==> Range(start, end)[k] == buffer.value.bytes[start + k];
        }
      }
      return true;
    }

    /**
     * `equalsIgnoreCase(String s)`: `Equals` with both sides lowercased; a
     * string chunk compares its lowercased string.
     */
    method EqualsIgnoreCase(s: JString) returns (r: bool)
      requires !HasString() && end - start == |s| ==> RangeReadable(start, end)
      ensures !HasString() ==> (r <==> end - start == |s| && Lowered(Range(start, end)) == Lowered(s))
      ensures HasString() ==> (r <==> Lowered(stringValue.value) == Lowered(s))
    {
      if HasString() {
        return Lowered(stringValue.value) == Lowered(s);
      }
      if end - start != |s| {
        return false;
      }
      var i := start;
      while i < end
        invariant start <= i <= end
        invariant forall k :: start <= k < i ==> ToLower(buffer.value.bytes[k]) == ToLower(s[k - start])
      {
        if ToLower(buffer.value.bytes[i]) != ToLower(s[i - start]) {
          assert Lowered(Range(start, end))[i - start] != Lowered(s)[i - start];
          return false;
        }
        i := i + 1;
      }
      assert start < end ==> Lowered(Range(start, end)) == Lowered(s) by {
        if start < end {
          assert forall k :: 0 <= k < |s| ==> Range(start, end)[k] == buffer.value.bytes[start + k];
        }
      }
      return true;
    }

    /**
     * `compare(start, end, compareTo)`: -1, 0 or 1 as the bytes `from..to`
     * are lexicographically below, equal to or above `s` (a reversed range
     * is below everything).
     */
    method Compare(from: int, to: int, s: JString) returns (r: int)
      requires RangeReadable(from, to)
      ensures -1 <= r <= 1
      ensures to < from ==> r == -1
      ensures from <= to ==> r == LexCompare(Range(from, to), s)
    {
      ghost var a := Range(from, to);
      var result := 0;
      var len := |s|;
      if to - from < len {
        len := to - from;
      }
      var i := 0;
      while i < len && result == 0
        invariant 0 <= i && (i == 0 || i <= len)
        invariant from <= to ==> len <= |a| && len <= |s|
        invariant result == 0 ==> a[..i] == s[..i]
        invariant result != 0 ==> from <= to && result == LexCompare(a, s)
      {
        if buffer.value.bytes[i + from] > s[i] {
          result := 1;
        } else if buffer.value.bytes[i + from] < s[i] {
          result := -1;
        }
        if result != 0 {
          LexCompareAfterCommonPrefix(a, s, i);
        }
        i := i + 1;
      }
      if result == 0 {
        if |s| > to - from {
          result := -1;
        } else if |s| < to - from {
          result := 1;
        }
        if from <= to {
          LexCompareAfterCommonPrefix(a, s, len);
        }
      }
      return result;
    }

    /**
     * `compareIgnoreCase(start, end, compareTo)`: `Compare` with the range
     * and `s` both lowercased.
     */
    method CompareIgnoreCase(from: int, to: int, s: JString) returns (r: int)
      requires RangeReadable(from, to)
      ensures -1 <= r <= 1
      ensures to < from ==> r == -1
      ensures from <= to ==> r == LexCompare(Lowered(Range(from, to)), Lowered(s))
    {
      ghost var a := Lowered(Range(from, to));
      ghost var t := Lowered(s);
      var result := 0;
      var len := |s|;
      if to - from < len {
        len := to - from;
      }
      var i := 0;
      while i < len && result == 0
        invariant 0 <= i && (i == 0 || i <= len)
        invariant from <= to ==> len <= |a| && len <= |t|
        invariant result == 0 ==> a[..i] == t[..i]
        invariant result != 0 ==> from <= to && result == LexCompare(a, t)
      {
        if ToLower(buffer.value.bytes[i + from]) > ToLower(s[i]) {
          result := 1;
        } else if ToLower(buffer.value.bytes[i + from]) < ToLower(s[i]) {
          result := -1;
        }
        if result != 0 {
          LexCompareAfterCommonPrefix(a, t, i);
        }
        i := i + 1;
      }
      if result == 0 {
        if |s| > to - from {
          result := -1;
        } else if |s| < to - from {
          result := 1;
        }
        if from <= to {
          LexCompareAfterCommonPrefix(a, t, len);
        }
      }
      return result;
    }

    /**
     * `startsWith(String s, int pos)`: `s` occurs at offset `pos` of the
     * window (false when it does not fit before `end`); on a string chunk,
     * at index `pos` of the string.
     */
    method StartsWith(s: JString, pos: int) returns (r: bool)
      requires !HasString() && |s| <= end - start - pos ==> RangeReadable(start + pos, start + pos + |s|)
      requires HasString() && 0 < |s| && pos + |s| <= |stringValue.value| ==> 0 <= pos
      ensures !HasString() ==> (r <==> |s| <= end - start - pos && Range(start + pos, start + pos + |s|) == s)
      ensures HasString() ==> (r <==> pos + |s| <= |stringValue.value| && (|s| == 0 || stringValue.value[pos..pos + |s|] == s))
    {
      if !HasString() {
        var len := |s|;
        if len > end - start - pos {
          return false;
        }
        ghost var w := Range(start + pos, start + pos + len);
        var off := start + pos;
        var i := 0;
        while i < len
          invariant 0 <= i <= len && off == start + pos + i
          invariant forall k :: 0 <= k < i ==> w[k] == s[k]
        {
          if buffer.value.bytes[off] != s[i] {
            return false;
          }
          off, i := off + 1, i + 1;
        }
        return true;
      } else {
        var sv := stringValue.value;
        if |sv| < pos + |s| {
          return false;
        }
        var i := 0;
        while i < |s|
          invariant 0 <= i <= |s|
          invariant forall k :: 0 <= k < i ==> s[k] == sv[pos + k]
        {
          if s[i] != sv[pos + i] {
            return false;
          }
          i := i + 1;
        }
        return true;
      }
    }

    /** `startsWithIgnoreCase(String s, int pos)`: `StartsWith` with both sides lowercased. */
    method StartsWithIgnoreCase(s: JString, pos: int) returns (r: bool)
      requires !HasString() && |s| <= end - start - pos ==> RangeReadable(start + pos, start + pos + |s|)
      requires HasString() && 0 < |s| && pos + |s| <= |stringValue.value| ==> 0 <= pos
      ensures !HasString() ==> (r <==> |s| <= end - start - pos && Lowered(Range(start + pos, start + pos + |s|)) == Lowered(s))
      ensures HasString() ==> (r <==> pos + |s| <= |stringValue.value| && (|s| == 0 || Lowered(stringValue.value[pos..pos + |s|]) == Lowered(s)))
    {
      if !HasString() {
        var len := |s|;
        if len > end - start - pos {
          return false;
        }
        ghost var raw := Range(start + pos, start + pos + len);
        ghost var w := Lowered(raw);
        var off := start + pos;
        var i := 0;
        while i < len
          invariant 0 <= i <= len && off == start + pos + i
          invariant forall k :: 0 <= k < i ==> w[k] == Lowered(s)[k]
        {
          assert raw[i] == buffer.value.bytes[off];
          if ToLower(buffer.value.bytes[off]) != ToLower(s[i]) {
            assert w[i] == ToLower(raw[i]) && Lowered(s)[i] == ToLower(s[i]);
            return false;
          }
          off, i := off + 1, i + 1;
        }
        return true;
      } else {
        var sv := stringValue.value;
        if |sv| < pos + |s| {
          return false;
        }
        var i := 0;
        while i < |s|
          invariant 0 <= i <= |s|
          invariant forall k :: 0 <= k < i ==> ToLower(s[k]) == ToLower(sv[pos + k])
        {
          if ToLower(s[i]) != ToLower(sv[pos + i]) {
            assert Lowered(sv[pos..pos + |s|])[i] != Lowered(s)[i];
            return false;
          }
          i := i + 1;
        }
        return true;
      }
    }
  }
}
