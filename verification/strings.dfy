/** JavaScript's `String.prototype.trim`, which every text and number editor
    applies before it compares or sends a value. */
module Strings {

  /** The characters `trim` removes: the WhiteSpace and LineTerminator code
      points of ECMAScript (section 12.2 and 12.3 of ECMA-262). */
  predicate IsWhitespace(c: char) {
    || c == ' ' || c == '\t' || c == '\n' || c == '\r'
    || c == '\U{000B}' || c == '\U{000C}' || c == '\U{00A0}' || c == '\U{1680}'
    || ('\U{2000}' <= c <= '\U{200A}')
    || c == '\U{2028}' || c == '\U{2029}' || c == '\U{202F}' || c == '\U{205F}'
    || c == '\U{3000}' || c == '\U{FEFF}'
  }

  predicate AllWhitespace(s: string) {
    forall i :: 0 <= i < |s| ==> IsWhitespace(s[i])
  }

  /** Neither end of `s` is whitespace. */
  predicate IsTrimmed(s: string) {
    s == [] || (!IsWhitespace(s[0]) && !IsWhitespace(s[|s| - 1]))
  }

  /** The length of the whitespace run at the start of `s`. */
  function LeadingWhitespace(s: string): (k: nat)
    ensures k <= |s|
    ensures AllWhitespace(s[..k])
    ensures k < |s| ==> !IsWhitespace(s[k])
  {
    if |s| > 0 && IsWhitespace(s[0]) then
      var k' := LeadingWhitespace(s[1..]);
      assert forall i :: 1 <= i < 1 + k' ==> s[i] == s[1..][..k'][i - 1];
      1 + k'
    else
      0
  }

  /** The length of the whitespace run at the end of `s`. */
  function TrailingWhitespace(s: string): (k: nat)
    ensures k <= |s|
    ensures AllWhitespace(s[|s| - k..])
    ensures k < |s| ==> !IsWhitespace(s[|s| - 1 - k])
  {
    if |s| > 0 && IsWhitespace(s[|s| - 1]) then
      var t := s[..|s| - 1];
      var k' := TrailingWhitespace(t);
      assert forall i :: |s| - 1 - k' <= i < |s| - 1 ==> s[i] == t[|t| - k'..][i - (|t| - k')];
      1 + k'
    else
      0
  }

  /** `s.trim()`: `s` without its leading and trailing whitespace. The result
      is the unique trimmed infix of `s` whose surroundings are whitespace. */
  function Trim(s: string): (r: string)
    ensures IsTrimmed(r)
    ensures r == [] <==> AllWhitespace(s)
    ensures LeadingWhitespace(s) + |r| <= |s|
    ensures r == s[LeadingWhitespace(s)..LeadingWhitespace(s) + |r|]
    ensures AllWhitespace(s[..LeadingWhitespace(s)])
    ensures AllWhitespace(s[LeadingWhitespace(s) + |r|..])
  {
    var a := LeadingWhitespace(s);
    if a == |s| then
      []
    else
      var k := TrailingWhitespace(s);
      assert forall i | |s| - k <= i < |s| :: s[i] == s[|s| - k..][i - (|s| - k)];
      assert k < |s| - a;
      assert !AllWhitespace(s) by { assert !IsWhitespace(s[a]); }
      s[a..|s| - k]
  }

  /** Trimming a trimmed string changes nothing, so `trim` is idempotent. */
  lemma {:induction false} TrimOfTrimmed(s: string)
    requires IsTrimmed(s)
    ensures Trim(s) == s
  {
    if s != [] {
      assert LeadingWhitespace(s) == 0;
      assert TrailingWhitespace(s) == 0;
    }
  }

  lemma TrimIdempotent(s: string)
    ensures Trim(Trim(s)) == Trim(s)
  {
    TrimOfTrimmed(Trim(s));
  }

  lemma LeadingWhitespaceUnique(s: string, k: nat)
    requires k <= |s|
    requires forall i | 0 <= i < k :: IsWhitespace(s[i])
    requires k < |s| ==> !IsWhitespace(s[k])
    ensures LeadingWhitespace(s) == k
  {
    var a := LeadingWhitespace(s);
    assert forall i | 0 <= i < a :: s[i] == s[..a][i];
  }

  /** `trim` removes exactly the whitespace around a trimmed core: whatever
      whitespace surrounds a non-empty trimmed `r`, trimming gives back `r`. */
  lemma TrimSurrounded(p: string, r: string, q: string)
    requires AllWhitespace(p) && AllWhitespace(q)
    requires r != [] && IsTrimmed(r)
    ensures Trim(p + r + q) == r
  {
    var s := p + r + q;
    assert s[|p|] == r[0];
    LeadingWhitespaceUnique(s, |p|);
    TrimmedCoreLength(p, r, q);
    assert Trim(s) == s[|p|..|p| + |r|] == r;
  }

  /** Around a non-empty trimmed core, `trim` keeps as many characters as the
      core has: its last kept character is not whitespace, so it cannot lie
      past the core, and the core's last character is not whitespace, so the
      kept part reaches it. */
  lemma TrimmedCoreLength(p: string, r: string, q: string)
    requires AllWhitespace(p) && AllWhitespace(q)
    requires r != [] && IsTrimmed(r)
    requires LeadingWhitespace(p + r + q) == |p|
    ensures |Trim(p + r + q)| == |r|
  {
    var s := p + r + q;
    var t := Trim(s);
    assert t != [] by { assert s[|p|] == r[0]; }
    TrimReachesCore(s, |p|, |r|);
    assert s[|p| + |r|..] == q;
    TrimStaysInCore(s, |p| + |r|);
  }

  lemma TrimReachesCore(s: string, a: nat, n: nat)
    requires 0 < n && a + n <= |s| && LeadingWhitespace(s) == a
    requires !IsWhitespace(s[a + n - 1])
    ensures a + n <= a + |Trim(s)|
  {
    WhitespaceFrom(s, a + |Trim(s)|);
  }

  lemma TrimStaysInCore(s: string, b: nat)
    requires b <= |s| && AllWhitespace(s[b..])
    requires Trim(s) != []
    ensures LeadingWhitespace(s) + |Trim(s)| <= b
  {
    var t := Trim(s);
    var e := LeadingWhitespace(s) + |t|;
    WhitespaceFrom(s, b);
    assert t[|t| - 1] == s[e - 1];
  }

  /** Every position of a whitespace suffix holds whitespace. */
  lemma WhitespaceFrom(s: string, e: nat)
    requires e <= |s| && AllWhitespace(s[e..])
    ensures forall j | e <= j < |s| :: IsWhitespace(s[j])
  {
    forall j | e <= j < |s|
      ensures IsWhitespace(s[j])
    {
      assert s[e..][j - e] == s[j];
    }
  }
}
