/**
  `String.prototype.trim` as the script applies it to the category and task-name
  inputs: leading and trailing white space and line terminators are removed.
 */
module Text {

  /** A WhiteSpace or LineTerminator code point of ECMA-262 (sections 12.2 and 12.3). */
  predicate IsWhiteSpace(c: char) {
    var n := c as int;
    || n == 0x09 || n == 0x0A || n == 0x0B || n == 0x0C || n == 0x0D
    || n == 0x20 || n == 0xA0 || n == 0x1680
    || (0x2000 <= n <= 0x200A)
    || n == 0x2028 || n == 0x2029 || n == 0x202F || n == 0x205F
    || n == 0x3000 || n == 0xFEFF
  }

  predicate AllWhiteSpace(s: string) {
    forall j :: 0 <= j < |s| ==> IsWhiteSpace(s[j])
  }

  /** Neither end is white space (the empty string qualifies). */
  predicate IsTrimmed(s: string) {
    s == [] || (!IsWhiteSpace(s[0]) && !IsWhiteSpace(s[|s| - 1]))
  }

  /** The length of the longest all-white-space prefix. */
  function LeadingWhiteSpace(s: string): (n: nat)
    ensures n <= |s|
    ensures forall j :: 0 <= j < n ==> IsWhiteSpace(s[j])
    ensures n < |s| ==> !IsWhiteSpace(s[n])
  {
    if s == [] || !IsWhiteSpace(s[0]) then 0 else 1 + LeadingWhiteSpace(s[1..])
  }

  /** The length of the longest all-white-space suffix. */
  function TrailingWhiteSpace(s: string): (n: nat)
    ensures n <= |s|
    ensures forall j :: |s| - n <= j < |s| ==> IsWhiteSpace(s[j])
    ensures n < |s| ==> !IsWhiteSpace(s[|s| - 1 - n])
  {
    if s == [] || !IsWhiteSpace(s[|s| - 1]) then 0 else 1 + TrailingWhiteSpace(s[..|s| - 1])
  }

  /** `s.trim()`: the part of `s` left between its white-space prefix and suffix. */
  function Trim(s: string): (r: string)
    ensures |r| <= |s|
    ensures IsTrimmed(r)
    ensures r == [] <==> AllWhiteSpace(s)
    ensures exists i :: 0 <= i <= |s| - |r| && r == s[i..i + |r|]
                     && AllWhiteSpace(s[..i]) && AllWhiteSpace(s[i + |r|..])
  {
    var lead := LeadingWhiteSpace(s);
    if lead == |s| then
      assert s[..lead] == s;
      []
    else
      var trail := TrailingWhiteSpace(s);
      assert lead < |s| - trail;
      var r := s[lead..|s| - trail];
      assert r == s[lead..lead + |r|];
      r
  }

  /** A white-space prefix ending where a non-white-space character starts is all that leads. */
  lemma LeadingOfPadded(p: string, r: string)
    requires AllWhiteSpace(p) && r != [] && !IsWhiteSpace(r[0])
    ensures LeadingWhiteSpace(p + r) == |p|
  {
    var s := p + r;
    var lead := LeadingWhiteSpace(s);
    assert s[|p|] == r[0];
  }

  /** A white-space suffix starting after a non-white-space character is all that trails. */
  lemma TrailingOfPadded(r: string, q: string)
    requires AllWhiteSpace(q) && r != [] && !IsWhiteSpace(r[|r| - 1])
    ensures TrailingWhiteSpace(r + q) == |q|
  {
    var s := r + q;
    var trail := TrailingWhiteSpace(s);
    assert s[|r| - 1] == r[|r| - 1];
  }

  /**
    Trim strips exactly the padding: a trimmed core surrounded by white space
    comes back unchanged. Together with the contract of Trim this pins the
    result down completely.
   */
  lemma TrimPadded(p: string, m: string, q: string)
    requires AllWhiteSpace(p) && AllWhiteSpace(q) && IsTrimmed(m)
    ensures Trim(p + m + q) == m
  {
    var s := p + m + q;
    if m == [] {
      assert AllWhiteSpace(s) by {
        forall j | 0 <= j < |s| ensures IsWhiteSpace(s[j]) {
          if j < |p| { assert s[j] == p[j]; } else { assert s[j] == q[j - |p|]; }
        }
      }
    } else {
      assert s == p + (m + q);
      LeadingOfPadded(p, m + q);
      TrailingOfPadded(p + m, q);
      assert s[|p|..|s| - |q|] == m;
    }
  }

  /** Trimming a string that is already trimmed changes nothing. */
  lemma TrimOfTrimmed(s: string)
    requires IsTrimmed(s)
    ensures Trim(s) == s
  {
  }

  /** Trim is idempotent. */
  lemma TrimIdempotent(s: string)
    ensures Trim(Trim(s)) == Trim(s)
  {
  }
}
