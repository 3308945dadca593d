/** The part of JavaScript's string semantics the form logic depends on:
    String.prototype.trim and the notion of a blank string. */
module JsStrings {

  /** The code points that trim removes: ECMAScript's WhiteSpace (tab,
      vertical tab, form feed, the byte order mark and every Unicode
      space separator) and LineTerminator (line feed, carriage return,
      line separator, paragraph separator). */
  predicate IsWhiteSpace(c: char)
  {
    var n := c as int;
    || n == 0x09 || n == 0x0A || n == 0x0B || n == 0x0C || n == 0x0D
    || n == 0x20 || n == 0xA0 || n == 0x1680
    || (0x2000 <= n <= 0x200A)
    || n == 0x2028 || n == 0x2029 || n == 0x202F || n == 0x205F
    || n == 0x3000 || n == 0xFEFF
  }

  predicate AllWhiteSpace(s: string)
  {
    forall i :: 0 <= i < |s| ==> IsWhiteSpace(s[i])
  }

  /** The number of white-space characters s starts with. */
  function LeadingSpace(s: string): (n: nat)
    ensures n <= |s|
    ensures forall i :: 0 <= i < n ==> IsWhiteSpace(s[i])
    ensures n < |s| ==> !IsWhiteSpace(s[n])
  {
    if s == [] || !IsWhiteSpace(s[0]) then 0
    else
      var n := LeadingSpace(s[1..]);
      assert forall i :: 1 <= i < n + 1 ==> s[i] == s[1..][i - 1];
      n + 1
  }

  /** The index at which the white space s ends with begins. */
  function TrailingStart(s: string): (n: nat)
    ensures n <= |s|
    ensures forall i :: n <= i < |s| ==> IsWhiteSpace(s[i])
    ensures n > 0 ==> !IsWhiteSpace(s[n - 1])
  {
    if s == [] || !IsWhiteSpace(s[|s| - 1]) then |s|
    else
      var n := TrailingStart(s[..|s| - 1]);
      assert forall i :: n <= i < |s| - 1 ==> s[i] == s[..|s| - 1][i];
      n
  }

  /** String.prototype.trim: the stretch of s between its leading and its
      trailing white space. It is empty exactly when s is all white
      space, and otherwise neither starts nor ends with white space. */
  function Trim(s: string): (r: string)
    ensures |r| <= |s|
    ensures r == "" <==> AllWhiteSpace(s)
    ensures r != "" ==> !IsWhiteSpace(r[0]) && !IsWhiteSpace(r[|r| - 1])
    ensures r != "" ==> r == s[LeadingSpace(s)..TrailingStart(s)]
  {
    var i := LeadingSpace(s);
    if i == |s| then ""
    else
      assert !IsWhiteSpace(s[i]);
      var j := TrailingStart(s);
      assert i < j;
      s[i..j]
  }

  /** Trimming twice is trimming once. */
  lemma TrimIdempotent(s: string)
    ensures Trim(Trim(s)) == Trim(s)
  {
  }
}
