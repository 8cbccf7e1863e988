/** String trimming as JavaScript's String.prototype.trim performs it. */
module Text {

  /** The WhiteSpace and LineTerminator code points of ECMAScript, the set that `trim` strips. */
  predicate IsTrimmable(c: char) {
    var n := c as int;
    (0x09 <= n <= 0x0D) || n == 0x20 || n == 0xA0 || n == 0x1680
    || (0x2000 <= n <= 0x200A) || n == 0x2028 || n == 0x2029
    || n == 0x202F || n == 0x205F || n == 0x3000 || n == 0xFEFF
  }

  /** A string that holds nothing but whitespace (the empty string included). */
  predicate IsBlank(s: string) {
    forall k | 0 <= k < |s| :: IsTrimmable(s[k])
  }

  /** The number of whitespace characters the string starts with. */
  function LeadingBlanks(s: string): (n: nat)
    ensures n <= |s|
    ensures forall k | 0 <= k < n :: IsTrimmable(s[k])
    ensures n < |s| ==> !IsTrimmable(s[n])
  {
    if s == [] || !IsTrimmable(s[0]) then 0 else 1 + LeadingBlanks(s[1..])
  }

  /** The number of whitespace characters the string ends with. */
  function TrailingBlanks(s: string): (n: nat)
    ensures n <= |s|
    ensures forall k | |s| - n <= k < |s| :: IsTrimmable(s[k])
    ensures n < |s| ==> !IsTrimmable(s[|s| - n - 1])
  {
    if s == [] || !IsTrimmable(s[|s| - 1]) then 0 else 1 + TrailingBlanks(s[..|s| - 1])
  }

  /**
   * Removes the leading and the trailing whitespace. The result neither starts nor ends
   * with whitespace, and it is empty exactly when the input is blank.
   */
  function Trim(s: string): (r: string)
    ensures |r| <= |s|
    ensures r != [] ==> !IsTrimmable(r[0]) && !IsTrimmable(r[|r| - 1])
    ensures r == [] <==> IsBlank(s)
  {
    var i := LeadingBlanks(s);
    var j := |s| - TrailingBlanks(s[i..]);
    assert i < |s| ==> i < j && s[j - 1] == s[i..][|s[i..]| - TrailingBlanks(s[i..]) - 1];
    s[i..j]
  }

  /** What Trim cuts off is whitespace: the input is that whitespace, the result, and more whitespace. */
  lemma TrimIsSlice(s: string)
    ensures exists i | 0 <= i <= |s| - |Trim(s)| ::
      s[i..i + |Trim(s)|] == Trim(s) && IsBlank(s[..i]) && IsBlank(s[i + |Trim(s)|..])
  {
    var i := LeadingBlanks(s);
    var n := TrailingBlanks(s[i..]);
    var j := |s| - n;
    assert Trim(s) == s[i..j];
    forall k | j <= k < |s| ensures IsTrimmable(s[k]) {
      assert s[k] == s[i..][k - i];
    }
    assert IsBlank(s[j..]);
    assert IsBlank(s[..i]);
  }

  /** Trimming a trimmed string changes nothing. */
  lemma TrimIdempotent(s: string)
    ensures Trim(Trim(s)) == Trim(s)
  {
  }
}
