/**
 * The byte-level searches behind `BufferChunk`: the two private static
 * `indexOf` helpers and the loop of `findBytesAscii`. Each scans the absolute
 * byte positions `off..end` of a buffer. The substring helper and
 * `findBytesAscii` are given twice: as the source writes them, with what
 * they get wrong exhibited, and corrected, with first-occurrence proved; the
 * chunk uses the corrected ones.
 */
module ChunkSearch {
  import opened ChunkText

  /**
   * `indexOf(Buffer, int off, int end, char qq)`: the first absolute
   * position in `off..end` holding `c`, or -1.
   */
  method FindChar(buf: seq<Byte>, off: int, end: int, c: Char16) returns (r: int)
    requires off < end ==> 0 <= off && end <= |buf|
    ensures r == -1 || (off <= r < end && buf[r] == c)
    ensures forall k :: off <= k < end && (r == -1 || k < r) ==> buf[k] != c
  {
    var o := off;
    while o < end
      invariant off <= o && (o == off || o <= end)
      invariant forall k :: off <= k < o ==> buf[k] != c
    {
      if buf[o] == c {
        return o;
      }
      o := o + 1;
    }
    return -1;
  }

  // ---------------------------------------------------------------------
  // indexOf(Buffer, int off, int end, CharSequence s), as written

  /**
   * What the loop of the substring helper returns when it is at position
   * `o` having matched the first `strOffs` units of `s`; `lastOffs` is
   * `end - |s|`. On a mismatch the loop restarts the pattern at the NEXT
   * position without re-examining the current one.
   */
  function ScanFrom(buf: seq<int>, o: int, lastOffs: int, s: seq<int>, strOffs: nat): int
    requires strOffs < |s|
    requires 0 <= o && lastOffs + |s| <= |buf|
    decreases lastOffs + |s| - o
  {
    if o > lastOffs + strOffs then -1
    else if buf[o] == s[strOffs] then
      if strOffs + 1 == |s| then o - |s| + 1
      else ScanFrom(buf, o + 1, lastOffs, s, strOffs + 1)
    else ScanFrom(buf, o + 1, lastOffs, s, 0)
  }

  /** The whole as-written substring helper, including its two early returns. */
  function FindStringScan(buf: seq<int>, off: int, end: int, s: seq<int>): int
    requires 0 < |s| <= end - off ==> 0 <= off && end <= |buf|
  {
    if |s| == 0 then off
    else if |s| > end - off then -1
    else ScanFrom(buf, off, end - |s|, s, 0)
  }

  /** The substring helper exactly as the source writes it. */
  method FindStringAsWritten(buf: seq<Byte>, off: int, end: int, s: seq<Char16>) returns (r: int)
    requires 0 < |s| <= end - off ==> 0 <= off && end <= |buf|
    ensures r == FindStringScan(buf, off, end, s)
  {
    var strLen := |s|;
    if strLen == 0 {
      return off;
    }
    if strLen > end - off {
      return -1;
    }
    var strOffs := 0;
    var lastOffs := end - strLen;
    var o := off;
    while o <= lastOffs + strOffs
      invariant 0 <= strOffs < strLen && 0 <= o <= end
      invariant ScanFrom(buf, o, lastOffs, s, strOffs) == FindStringScan(buf, off, end, s)
      decreases end - o
    {
      if buf[o] == s[strOffs] {
        strOffs := strOffs + 1;
        if strOffs == strLen {
          return o - strLen + 1;
        }
      } else {
        strOffs := 0;
      }
      o := o + 1;
    }
    return -1;
  }

  /** Whatever the as-written loop returns from a partial match is a real occurrence. */
  lemma {:induction false} ScanFromSound(buf: seq<int>, o: int, lastOffs: int, s: seq<int>, strOffs: nat)
    requires strOffs < |s|
    requires 0 <= o && lastOffs + |s| <= |buf|
    requires 0 <= o - strOffs && o <= |buf|
    requires forall k :: 0 <= k < strOffs ==> buf[o - strOffs + k] == s[k]
    ensures var r := ScanFrom(buf, o, lastOffs, s, strOffs);
      r == -1 || (o - strOffs <= r <= lastOffs && MatchesAt(buf, r, s))
    decreases lastOffs + |s| - o
  {
    if o <= lastOffs + strOffs {
      if buf[o] == s[strOffs] {
        if strOffs + 1 < |s| {
          ScanFromSound(buf, o + 1, lastOffs, s, strOffs + 1);
        }
      } else {
        ScanFromSound(buf, o + 1, lastOffs, s, 0);
      }
    }
  }

  /**
   * The as-written helper is sound: a non-negative answer for a non-empty
   * pattern is an occurrence that starts in `off..end - |s|`.
   */
  lemma FindStringScanSound(buf: seq<int>, off: int, end: int, s: seq<int>)
    requires 0 < |s| <= end - off ==> 0 <= off && end <= |buf|
    requires |s| > 0
    ensures var r := FindStringScan(buf, off, end, s);
      r == -1 || (off <= r <= end - |s| && MatchesAt(buf, r, s))
  {
    if |s| <= end - off {
      ScanFromSound(buf, off, end - |s|, s, 0);
    }
  }

  /** The as-written helper misses "ab" in "aab": the 'a' that broke the first partial match is never retried. */
  lemma ScanMissesOverlap()
    ensures FindStringScan([97, 97, 98], 0, 3, [97, 98]) == -1
    ensures MatchesAt([97, 97, 98], 1, [97, 98])
  {
  }

  /** In "aabab" the as-written helper reports "ab" at 3, although it first occurs at 1. */
  lemma ScanSkipsFirstOccurrence()
    ensures FindStringScan([97, 97, 98, 97, 98], 0, 5, [97, 98]) == 3
    ensures MatchesAt([97, 97, 98, 97, 98], 1, [97, 98])
  {
  }

  // ---------------------------------------------------------------------
  // indexOf(Buffer, int off, int end, CharSequence s), corrected

  /**
   * The substring helper with the evident intent restored: after a
   * mismatch the pattern restarts at the position after the one where the
   * broken partial match began. Returns `off` for an empty pattern, and
   * otherwise the first occurrence starting in `off..end - |s|`, or -1.
   */
  method FindString(buf: seq<Byte>, off: int, end: int, s: seq<Char16>) returns (r: int)
    requires 0 < |s| <= end - off ==> 0 <= off && end <= |buf|
    ensures |s| == 0 ==> r == off
    ensures |s| > end - off ==> r == -1 || |s| == 0
    ensures |s| > 0 ==> r == -1 || (off <= r <= end - |s| && MatchesAt(buf, r, s))
    ensures |s| > 0 ==> forall p :: off <= p <= end - |s| && (r == -1 || p < r) ==> !MatchesAt(buf, p, s)
  {
    var strLen := |s|;
    if strLen == 0 {
      return off;
    }
    if strLen > end - off {
      return -1;
    }
    var strOffs := 0;
    var lastOffs := end - strLen;
    var o := off;
    while o <= lastOffs + strOffs
      invariant 0 <= strOffs < strLen
      invariant off <= o - strOffs <= lastOffs + 1
      invariant forall k :: 0 <= k < strOffs ==> buf[o - strOffs + k] == s[k]
      invariant forall p :: off <= p < o - strOffs ==> !MatchesAt(buf, p, s)
      decreases end - (o - strOffs), strLen - strOffs
    {
      if buf[o] == s[strOffs] {
        strOffs := strOffs + 1;
        if strOffs == strLen {
          return o - strLen + 1;
        }
      } else {
        assert !MatchesAt(buf, o - strOffs, s) by {
          assert buf[(o - strOffs) + strOffs] != s[strOffs];
        }
        o := o - strOffs;
        strOffs := 0;
      }
      o := o + 1;
    }
    return -1;
  }

  // ---------------------------------------------------------------------
  // findBytesAscii(byte[] b), as written and corrected

  /**
   * The loop of `findBytesAscii` exactly as the source writes it, over the
   * absolute positions `from..to`: for a pattern of two or more bytes it
   * returns the offset from `from` of the first position whose lowercased
   * bytes equal `b`; a one-byte pattern is never found, because the
   * confirming inner loop does not run.
   */
  method FindAsciiAsWritten(buf: seq<Byte>, from: int, to: int, b: seq<Byte>) returns (r: int)
    requires |b| > 0
    requires from <= to - |b| ==> 0 <= from && to <= |buf|
    ensures |b| == 1 ==> r == -1
    ensures |b| > 1 ==> r == -1 || (0 <= r && from + r <= to - |b| && MatchesAt(Lowered(buf), from + r, b))
    ensures |b| > 1 ==> forall i :: from <= i <= to - |b| && (r == -1 || i < from + r) ==> !MatchesAt(Lowered(buf), i, b)
  {
    var first := b[0];
    var srcEnd := |b|;
    var i := from;
    while i <= to - srcEnd
      invariant from <= i && (i == from || i <= to - srcEnd + 1)
      invariant |b| > 1 ==> forall p :: from <= p < i ==> !MatchesAt(Lowered(buf), p, b)
    {
      if ToLower(buf[i]) == first {
        var myPos := i + 1;
        var srcPos := 1;
        while srcPos < srcEnd
          invariant 1 <= srcPos <= srcEnd && myPos == i + srcPos
          invariant srcPos < srcEnd || srcEnd == 1
          invariant forall k :: 0 <= k < srcPos ==> ToLower(buf[i + k]) == b[k]
        {
          var mine := ToLower(buf[myPos]);
          var theirs := b[srcPos];
          myPos, srcPos := myPos + 1, srcPos + 1;
          if mine != theirs {
            assert !MatchesAt(Lowered(buf), i, b) by {
              assert Lowered(buf)[i + (srcPos - 1)] != b[srcPos - 1];
            }
            break;
          }
          if srcPos == srcEnd {
            return i - from;
          }
        }
      }
      i := i + 1;
    }
    return -1;
  }

  /** `findBytesAscii` misses the one-byte pattern "h" in "H", which it does contain once lowercased. */
  method OneBytePatternMissed() returns (r: int, occurs: bool)
    ensures r == -1 && occurs
  {
    r := FindAsciiAsWritten([72], 0, 1, [104]);
    occurs := MatchesAt(Lowered([72]), 0, [104]);
  }

  /**
   * `findBytesAscii` with a one-byte pattern accepted on its first byte:
   * the offset from `from` of the first position in `from..to - |b|` whose
   * lowercased bytes equal `b`, or -1.
   */
  method FindAscii(buf: seq<Byte>, from: int, to: int, b: seq<Byte>) returns (r: int)
    requires |b| > 0
    requires from <= to - |b| ==> 0 <= from && to <= |buf|
    ensures r == -1 || (0 <= r && from + r <= to - |b| && MatchesAt(Lowered(buf), from + r, b))
    ensures forall i :: from <= i <= to - |b| && (r == -1 || i < from + r) ==> !MatchesAt(Lowered(buf), i, b)
  {
    var first := b[0];
    var srcEnd := |b|;
    var i := from;
    while i <= to - srcEnd
      invariant from <= i && (i == from || i <= to - srcEnd + 1)
      invariant forall p :: from <= p < i ==> !MatchesAt(Lowered(buf), p, b)
    {
      if ToLower(buf[i]) == first {
        if srcEnd == 1 {
          return i - from;
        }
        var myPos := i + 1;
        var srcPos := 1;
        while srcPos < srcEnd
          invariant 1 <= srcPos < srcEnd && myPos == i + srcPos
          invariant forall k :: 0 <= k < srcPos ==> ToLower(buf[i + k]) == b[k]
        {
          var mine := ToLower(buf[myPos]);
          var theirs := b[srcPos];
          myPos, srcPos := myPos + 1, srcPos + 1;
          if mine != theirs {
            assert !MatchesAt(Lowered(buf), i, b) by {
              assert Lowered(buf)[i + (srcPos - 1)] != b[srcPos - 1];
            }
            break;
          }
          if srcPos == srcEnd {
            return i - from;
          }
        }
      } else {
        assert !MatchesAt(Lowered(buf), i, b) by {
          assert Lowered(buf)[i + 0] != b[0];
        }
      }
      i := i + 1;
    }
    return -1;
  }
}
