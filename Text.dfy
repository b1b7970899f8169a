/**
 The string trimming the add-friend form applies to both of its inputs
 (`String.prototype.trim`): strip white space and line terminators from both ends.
 */
module Text {

  /** The code points ECMAScript classes as WhiteSpace or LineTerminator
      (the Zs category as of Unicode 15), which is what `trim` removes. */
  predicate IsWhitespace(c: char) {
    var n := c as int;
    n == 0x09 || n == 0x0A || n == 0x0B || n == 0x0C || n == 0x0D ||
    n == 0x20 || n == 0xA0 || n == 0x1680 || (0x2000 <= n <= 0x200A) ||
    n == 0x2028 || n == 0x2029 || n == 0x202F || n == 0x205F ||
    n == 0x3000 || n == 0xFEFF
  }

  predicate AllWhitespace(s: string) {
    forall i :: 0 <= i < |s| ==> IsWhitespace(s[i])
  }

  /** True when `s` neither starts nor ends with white space. */
  predicate IsTrimmed(s: string) {
    s == [] || (!IsWhitespace(s[0]) && !IsWhitespace(s[|s| - 1]))
  }

  /** The first index at or after `i` that does not hold white space (`|s|` if none). */
  function SkipStart(s: string, i: nat): (k: nat)
    requires i <= |s|
    ensures i <= k <= |s|
    ensures forall j :: i <= j < k ==> IsWhitespace(s[j])
    ensures k < |s| ==> !IsWhitespace(s[k])
    decreases |s| - i
  {
    if i < |s| && IsWhitespace(s[i]) then SkipStart(s, i + 1) else i
  }

  /** Scanning down from `hi`, the end of the last character in `s[lo..hi]` that is
      not white space (`lo` if none). */
  function SkipEnd(s: string, lo: nat, hi: nat): (k: nat)
    requires lo <= hi <= |s|
    ensures lo <= k <= hi
    ensures forall j :: k <= j < hi ==> IsWhitespace(s[j])
    ensures k > lo ==> !IsWhitespace(s[k - 1])
  {
    if lo < hi && IsWhitespace(s[hi - 1]) then SkipEnd(s, lo, hi - 1) else hi
  }

  /** Where the trimmed text starts and ends inside `s`. */
  function TrimStartIndex(s: string): nat {
    SkipStart(s, 0)
  }

  function TrimEndIndex(s: string): (k: nat)
    ensures TrimStartIndex(s) <= k <= |s|
  {
    SkipEnd(s, TrimStartIndex(s), |s|)
  }

  /** `s.trim()`: the text of `s` between its leading and its trailing run of white
      space; what is cut off on either side is all white space, and the result
      neither starts nor ends with white space. */
  function Trim(s: string): (r: string)
    ensures |r| == TrimEndIndex(s) - TrimStartIndex(s)
    ensures forall j :: 0 <= j < |r| ==> r[j] == s[TrimStartIndex(s) + j]
    ensures forall j :: 0 <= j < TrimStartIndex(s) ==> IsWhitespace(s[j])
    ensures forall j :: TrimEndIndex(s) <= j < |s| ==> IsWhitespace(s[j])
    ensures IsTrimmed(r)
  {
    s[TrimStartIndex(s)..TrimEndIndex(s)]
  }

  /** The trimmed text is empty exactly when the input is nothing but white space:
      this is the condition under which the form rejects a field. */
  lemma TrimEmptyIff(s: string)
    ensures Trim(s) == [] <==> AllWhitespace(s)
  {
    var a := TrimStartIndex(s);
    if Trim(s) != [] {
      assert !IsWhitespace(s[a]);
    } else if a < |s| {
      assert TrimEndIndex(s) == a;
    }
  }

  /** A string is left unchanged by `trim` exactly when it neither starts nor ends with white space. */
  lemma TrimFixedIff(s: string)
    ensures Trim(s) == s <==> IsTrimmed(s)
  {
    if IsTrimmed(s) && s != [] {
      assert TrimStartIndex(s) == 0;
      assert TrimEndIndex(s) == |s|;
      assert s[0..|s|] == s;
    }
  }

  /** Trimming twice is the same as trimming once. */
  lemma TrimIdempotent(s: string)
    ensures Trim(Trim(s)) == Trim(s)
  {
    TrimFixedIff(Trim(s));
  }
}
