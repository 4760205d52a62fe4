/** The two ECMAScript string built-ins the filter rules rely on, `String.prototype.slice`
    and `String.prototype.includes`, over strings as sequences of characters, together with
    the plain prefix / suffix / substring relations they are compared against. */
module JsString {

  /** True if `v` is a prefix of `s`. */
  ghost predicate IsPrefix(v: string, s: string) {
    exists k | 0 <= k <= |s| :: s[..k] == v
  }

  /** True if `v` is a suffix of `s`. */
  ghost predicate IsSuffix(v: string, s: string) {
    exists k | 0 <= k <= |s| :: s[k..] == v
  }

  /** True if `v` occurs in `s` as a contiguous run of characters. */
  ghost predicate IsSubstring(v: string, s: string) {
    exists i, j | 0 <= i <= j <= |s| :: s[i..j] == v
  }

  /** How `slice` turns one of its arguments into a position of a string of length `len`:
      a negative argument counts back from the end, and the result is clamped to [0, len]. */
  function RelativeIndex(k: int, len: nat): (r: nat)
    ensures r <= len
  {
    if k < 0 then (if len + k < 0 then 0 else len + k)
    else if k < len then k else len
  }

  /** `s.slice(start, end)`: the characters between the two relative positions, or the empty
      string when they cross. */
  function Slice(s: string, start: int, end: int): (r: string)
    ensures |r| <= |s|
  {
    var from, to := RelativeIndex(start, |s|), RelativeIndex(end, |s|);
    if from < to then s[from..to] else []
  }

  /** `s.slice(start)`, whose end defaults to the length of `s`. */
  function SliceFrom(s: string, start: int): (r: string)
    ensures |r| <= |s|
  {
    Slice(s, start, |s|)
  }

  /** `s.includes(v)`: a left-to-right search for `v` in `s`. */
  function Includes(s: string, v: string): bool
    decreases |s|
  {
    if |v| > |s| then false
    else if s[..|v|] == v then true
    else Includes(s[1..], v)
  }

  /** `s.slice(0, v.length) === v` is exactly "v is a prefix of s". */
  lemma SliceHeadIsPrefix(s: string, v: string)
    ensures Slice(s, 0, |v|) == v <==> IsPrefix(v, s)
  {
    if |v| <= |s| {
      assert Slice(s, 0, |v|) == s[..|v|];
    }
    if IsPrefix(v, s) {
      var k :| 0 <= k <= |s| && s[..k] == v;
      assert k == |v|;
    }
  }

  /** `s.slice(-v.length) === v`: because `-0` is `0`, an empty `v` selects the whole of `s`,
      so the comparison holds only for an empty `s`; otherwise it is "v is a suffix of s". */
  lemma SliceTailIsSuffix(s: string, v: string)
    ensures SliceFrom(s, -|v|) == v <==> if |v| == 0 then s == [] else IsSuffix(v, s)
  {
    if |v| == 0 {
      assert SliceFrom(s, -|v|) == s;
    } else if |v| <= |s| {
      assert SliceFrom(s, -|v|) == s[|s| - |v|..];
      if IsSuffix(v, s) {
        var k :| 0 <= k <= |s| && s[k..] == v;
        assert k == |s| - |v|;
      }
    } else {
      assert |SliceFrom(s, -|v|)| < |v|;
    }
  }

  /** A string longer than `s` does not occur in it. */
  lemma TooLongIsNoSubstring(s: string, v: string)
    requires |v| > |s|
    ensures !IsSubstring(v, s)
  {
  }

  /** When `v` does not start `s`, it occurs in `s` exactly when it occurs in `s[1..]`. */
  lemma SubstringOfTail(s: string, v: string)
    requires |v| <= |s| && s[..|v|] != v
    ensures IsSubstring(v, s) <==> IsSubstring(v, s[1..])
  {
    var t := s[1..];
    if IsSubstring(v, t) {
      var i, j :| 0 <= i <= j <= |t| && t[i..j] == v;
      assert s[i + 1..j + 1] == t[i..j];
    }
    if IsSubstring(v, s) {
      var i, j :| 0 <= i <= j <= |s| && s[i..j] == v;
      assert j - i == |v| && s[0..|v|] == s[..|v|];
      assert i != 0;
      assert t[i - 1..j - 1] == s[i..j];
    }
  }

  /** The search performed by `includes` finds `v` exactly when `v` is a substring of `s`. */
  lemma {:induction false} IncludesIsSubstring(s: string, v: string)
    ensures Includes(s, v) <==> IsSubstring(v, s)
    decreases |s|
  {
    if |v| > |s| {
      TooLongIsNoSubstring(s, v);
    } else if s[..|v|] == v {
      assert s[0..|v|] == v;
    } else {
      IncludesIsSubstring(s[1..], v);
      SubstringOfTail(s, v);
    }
  }
}
