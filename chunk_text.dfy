/**
 * The character-level vocabulary of the HTTP buffer chunk: Java bytes and
 * chars as the integers Java compares them as, ASCII case folding, "pattern
 * occurs at offset", lexicographic comparison, and the two searches of
 * java.lang.String that a string-backed chunk delegates to.
 */
module ChunkText {

  /** A Java `byte`: widening it to `int` sign-extends it. */
  type Byte = b: int | -128 <= b < 128

  /** A Java `char` (one UTF-16 code unit): widening it to `int` zero-extends it. */
  type Char16 = c: int | 0 <= c < 0x1_0000

  /** A Java `String`, as its sequence of code units. */
  type JString = seq<Char16>

  /**
   * ASCII case folding, as `Ascii.toLower` is taken to behave: 'A'..'Z'
   * (65..90) become 'a'..'z', every other value is left alone.
   */
  function ToLower(c: int): int
  {
    if 65 <= c <= 90 then c + 32 else c
  }

  /** Folds every unit of `s` with `ToLower`. */
  function Lowered(s: seq<int>): (r: seq<int>)
    ensures |r| == |s|
    ensures forall k :: 0 <= k < |s| ==> r[k] == ToLower(s[k])
  {
    seq(|s|, k requires 0 <= k < |s| => ToLower(s[k]))
  }

  /** `pattern` occurs in `text` starting at index `at`. */
  predicate MatchesAt(text: seq<int>, at: int, pattern: seq<int>)
  {
    0 <= at && at + |pattern| <= |text| &&
    forall k :: 0 <= k < |pattern| ==> text[at + k] == pattern[k]
  }

  /**
   * Lexicographic order on unit sequences: -1, 0 or 1 as `a` is below, equal
   * to or above `b`; a proper prefix is below the longer sequence.
   */
  function LexCompare(a: seq<int>, b: seq<int>): (r: int)
    ensures -1 <= r <= 1
    ensures r == 0 <==> a == b
    decreases |a|
  {
    if |a| == 0 then (if |b| == 0 then 0 else -1)
    else if |b| == 0 then 1
    else if a[0] > b[0] then 1
    else if a[0] < b[0] then -1
    else
      assert a == [a[0]] + a[1..] && b == [b[0]] + b[1..];
      LexCompare(a[1..], b[1..])
  }

  /** Swapping the operands of `LexCompare` negates the answer. */
  lemma {:induction false} LexCompareAntisymmetric(a: seq<int>, b: seq<int>)
    ensures LexCompare(b, a) == -LexCompare(a, b)
    decreases |a|
  {
    if |a| > 0 && |b| > 0 && a[0] == b[0] {
      LexCompareAntisymmetric(a[1..], b[1..]);
    }
  }

  /** A common prefix does not decide the comparison: it is decided by what follows it. */
  lemma {:induction false} LexCompareAfterCommonPrefix(a: seq<int>, b: seq<int>, i: nat)
    requires i <= |a| && i <= |b|
    requires a[..i] == b[..i]
    ensures LexCompare(a, b) == LexCompare(a[i..], b[i..])
    decreases i
  {
    if i > 0 {
      assert a[0] == a[..i][0] == b[..i][0] == b[0];
      assert a[1..][..i - 1] == a[1..i] == a[..i][1..];
      assert b[1..][..i - 1] == b[1..i] == b[..i][1..];
      LexCompareAfterCommonPrefix(a[1..], b[1..], i - 1);
      assert a[1..][i - 1..] == a[i..];
      assert b[1..][i - 1..] == b[i..];
    }
  }

  /**
   * `String.indexOf(int ch, int fromIndex)`: the first index at or after
   * `fromIndex` (a negative `fromIndex` counts as 0) that holds `c`, or -1.
   */
  function JavaIndexOfChar(s: JString, c: int, from: int): (r: int)
    ensures r == -1 || (0 <= r < |s| && from <= r && s[r] == c)
    ensures forall k :: 0 <= k < |s| && from <= k && (r == -1 || k < r) ==> s[k] != c
    decreases |s| - from
  {
    if from < 0 then JavaIndexOfChar(s, c, 0)
    else if from >= |s| then -1
    else if s[from] == c then from
    else JavaIndexOfChar(s, c, from + 1)
  }

  /**
   * `String.indexOf(String str, int fromIndex)`: an empty `t` is found at
   * `fromIndex` clamped to `0..|s|`; otherwise the first index at or after
   * `fromIndex` where `t` occurs, or -1.
   */
  function JavaIndexOf(s: JString, t: JString, from: int): (r: int)
    ensures |t| == 0 ==> r == (if from >= |s| then |s| else if from < 0 then 0 else from)
    ensures |t| > 0 ==> r == -1 || (0 <= r && from <= r && MatchesAt(s, r, t))
    ensures |t| > 0 ==> forall p :: 0 <= p && from <= p && (r == -1 || p < r) ==> !MatchesAt(s, p, t)
    decreases |s| - from
  {
    if from >= |s| then (if |t| == 0 then |s| else -1)
    else if from < 0 then JavaIndexOf(s, t, 0)
    else if |t| == 0 then from
    else if from + |t| > |s| then -1
    else if MatchesAt(s, from, t) then from
    else JavaIndexOf(s, t, from + 1)
  }
}
