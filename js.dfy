/** The two JavaScript built-ins whose exact behaviour the store relies on:
    `Array.prototype.splice(start, 1)` (remove one element, negative start counts
    from the end, an out-of-range start removes nothing) and
    `String.prototype.trim` (used only to ask whether a query is blank). */
module Js {

  /** The index `splice` actually starts at, for an array of length `len`
      (the "actualStart" of the ECMAScript algorithm). */
  function SpliceStart(len: nat, start: int): (k: nat)
    ensures k <= len
    ensures 0 <= start <= len ==> k == start
    ensures start > len ==> k == len
    ensures start < 0 && 0 <= len + start ==> k == len + start
    ensures len + start < 0 ==> k == 0
  {
    if start < 0 then
      (if len + start < 0 then 0 else len + start)
    else
      (if start > len then len else start)
  }

  /** `s.splice(start, 1)`: the array after removing (at most) one element. */
  function Splice<T>(s: seq<T>, start: int): (r: seq<T>)
    // an index in range removes exactly that element and keeps the order of the rest
    ensures 0 <= start < |s| ==>
              && |r| == |s| - 1
              && (forall i :: 0 <= i < start ==> r[i] == s[i])
              && (forall i :: start <= i < |r| ==> r[i] == s[i + 1])
              && multiset(r) + multiset{s[start]} == multiset(s)
    // a negative index counts from the end
    ensures -|s| <= start < 0 ==> r == s[..|s| + start] + s[|s| + start + 1..]
    // past the end nothing is removed
    ensures start >= |s| ==> r == s
    ensures |s| > 0 && start < -|s| ==> r == s[1..]
    // an empty array stays empty whatever the start
    ensures s == [] ==> r == []
  {
    var k := SpliceStart(|s|, start);
    if k < |s| then
      assert s == s[..k] + [s[k]] + s[k + 1..];
      s[..k] + s[k + 1..]
    else
      s
  }

  /** The characters `trim` removes: ECMAScript WhiteSpace (tab, vertical tab,
      form feed, the byte order mark and every space separator) and
      LineTerminator (line feed, carriage return, U+2028, U+2029). */
  predicate IsWhiteSpace(c: char)
  {
    var n := c as int;
    n == 0x09 || n == 0x0A || n == 0x0B || n == 0x0C || n == 0x0D || n == 0x20
    || n == 0xA0 || n == 0x1680 || (0x2000 <= n <= 0x200A) || n == 0x2028
    || n == 0x2029 || n == 0x202F || n == 0x205F || n == 0x3000 || n == 0xFEFF
  }

  predicate Blank(s: string)
  {
    forall i :: 0 <= i < |s| ==> IsWhiteSpace(s[i])
  }

  /** The number of white-space characters `s` starts with. */
  function LeadingSpace(s: string): (k: nat)
    ensures k <= |s|
    ensures forall i :: 0 <= i < k ==> IsWhiteSpace(s[i])
    ensures k < |s| ==> !IsWhiteSpace(s[k])
  {
    if s != [] && IsWhiteSpace(s[0]) then 1 + LeadingSpace(s[1..]) else 0
  }

  /** The number of white-space characters `s` ends with. */
  function TrailingSpace(s: string): (k: nat)
    ensures k <= |s|
    ensures forall i :: |s| - k <= i < |s| ==> IsWhiteSpace(s[i])
    ensures k < |s| ==> !IsWhiteSpace(s[|s| - 1 - k])
  {
    if s != [] && IsWhiteSpace(s[|s| - 1]) then 1 + TrailingSpace(s[..|s| - 1]) else 0
  }

  /** `s[a..b]` is what is left after cutting white space, and all of it, from
      both ends of `s`. */
  lemma TrimSlice(s: string, a: nat, b: nat)
    requires a <= b <= |s|
    requires forall i :: 0 <= i < a ==> IsWhiteSpace(s[i])
    requires forall i :: b <= i < |s| ==> IsWhiteSpace(s[i])
    ensures Blank(s[..a]) && Blank(s[b..])
  {
    assert forall i :: 0 <= i < a ==> s[..a][i] == s[i];
    assert forall i :: 0 <= i < |s| - b ==> s[b..][i] == s[b + i];
  }

  /** `s.trim()`: white space removed at both ends; it is empty exactly when
      every character of `s` is white space, and what is cut off on either
      side is white space only. */
  function Trim(s: string): (r: string)
    ensures r == [] <==> Blank(s)
    ensures r != [] ==> !IsWhiteSpace(r[0]) && !IsWhiteSpace(r[|r| - 1])
    ensures exists a, b :: 0 <= a <= b <= |s| && r == s[a..b] && Blank(s[..a]) && Blank(s[b..])
  {
    var a := LeadingSpace(s);
    if a == |s| then
      TrimSlice(s, |s|, |s|);
      assert s[|s|..|s|] == [];
      []
    else
      var b := |s| - TrailingSpace(s);
      TrimSlice(s, a, b);
      assert !Blank(s) by { assert !IsWhiteSpace(s[a]); }
      s[a..b]
  }
}
