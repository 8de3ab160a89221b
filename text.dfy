/**
 * The three Python string operations the handler relies on: `str.startswith`,
 * the substring test `sub in s`, and `str.strip()` with no argument.
 * Strings are sequences of Unicode scalar values.
 */
module Text {

  /** `s.startswith(prefix)`. */
  predicate StartsWith(s: string, prefix: string)
  {
    prefix <= s
  }

  /** `sub` occurs in `s` starting at index `i`. */
  predicate OccursAt(s: string, sub: string, i: int)
  {
    0 <= i && i + |sub| <= |s| && s[i..i + |sub|] == sub
  }

  /** `sub in s`: tries every start position from the left, comparing characters exactly. */
  predicate Contains(s: string, sub: string)
    decreases |s|
  {
    StartsWith(s, sub) || (|s| > 0 && Contains(s[1..], sub))
  }

  /** The substring test holds exactly when some position of `s` holds `sub`, character for character. */
  lemma {:induction false} ContainsIff(s: string, sub: string)
    ensures Contains(s, sub) <==> exists i :: OccursAt(s, sub, i)
    decreases |s|
  {
    if |s| > 0 {
      ContainsIff(s[1..], sub);
    }
    if StartsWith(s, sub) {
      assert s[0..|sub|] == sub;
      assert OccursAt(s, sub, 0);
    } else if Contains(s, sub) {
      var i :| OccursAt(s[1..], sub, i);
      assert s[1..][i..i + |sub|] == s[i + 1..i + 1 + |sub|];
      assert OccursAt(s, sub, i + 1);
    }
    forall i | OccursAt(s, sub, i)
      ensures Contains(s, sub)
    {
      if i == 0 {
        assert s[..|sub|] == sub;
      } else {
        assert s[1..][i - 1..i - 1 + |sub|] == s[i..i + |sub|];
        assert OccursAt(s[1..], sub, i - 1);
      }
    }
  }

  /** The characters Python's `str.isspace()` accepts, which `str.strip()` removes by default. */
  const Whitespace: set<char> := {
    '\t', '\n', '\U{B}', '\U{C}', '\r', '\U{1C}', '\U{1D}', '\U{1E}', '\U{1F}', ' ',
    '\U{85}', '\U{A0}', '\U{1680}',
    '\U{2000}', '\U{2001}', '\U{2002}', '\U{2003}', '\U{2004}', '\U{2005}',
    '\U{2006}', '\U{2007}', '\U{2008}', '\U{2009}', '\U{200A}',
    '\U{2028}', '\U{2029}', '\U{202F}', '\U{205F}', '\U{3000}'}

  /** `s` neither begins nor ends with one of `chars`. */
  predicate TrimmedOf(s: string, chars: set<char>)
  {
    s == [] || (s[0] !in chars && s[|s| - 1] !in chars)
  }

  /** How many characters `s.lstrip(chars)` drops: the longest run of `chars` at the front. */
  function LeadingIn(s: string, chars: set<char>): (n: nat)
    ensures n <= |s|
    ensures forall k :: 0 <= k < n ==> s[k] in chars
    ensures n == |s| || s[n] !in chars
  {
    if s != [] && s[0] in chars then 1 + LeadingIn(s[1..], chars) else 0
  }

  /** How many characters `s.rstrip(chars)` drops: the longest run of `chars` at the back. */
  function TrailingIn(s: string, chars: set<char>): (n: nat)
    ensures n <= |s|
    ensures forall k :: |s| - n <= k < |s| ==> s[k] in chars
    ensures n == |s| || s[|s| - 1 - n] !in chars
  {
    if s != [] && s[|s| - 1] in chars then 1 + TrailingIn(s[..|s| - 1], chars) else 0
  }

  /** `r` is the piece of `s` starting at `i`, and every character around it is in `chars`. */
  predicate StripsAt(s: string, r: string, i: int, chars: set<char>)
  {
    && 0 <= i <= |s| - |r| && s[i..i + |r|] == r
    && (forall k :: 0 <= k < i ==> s[k] in chars)
    && (forall k :: i + |r| <= k < |s| ==> s[k] in chars)
  }

  /**
   * `s.strip(chars)`: the result is a contiguous piece of `s` that neither
   * begins nor ends with one of `chars`, and what was cut away on both sides
   * consists of `chars` only.
   */
  function StripChars(s: string, chars: set<char>): (r: string)
    ensures TrimmedOf(r, chars)
    ensures exists i :: StripsAt(s, r, i, chars)
  {
    var t := s[LeadingIn(s, chars)..];
    var r := t[..|t| - TrailingIn(t, chars)];
    assert StripsAt(s, r, LeadingIn(s, chars), chars);
    r
  }

  /** `s.strip()`: strips Python's whitespace from both ends. */
  function Strip(s: string): string
  {
    StripChars(s, Whitespace)
  }

  /** Stripping twice is stripping once. */
  lemma StripIdempotent(s: string, chars: set<char>)
    ensures StripChars(StripChars(s, chars), chars) == StripChars(s, chars)
  {
    var r := StripChars(s, chars);
    assert LeadingIn(r, chars) == 0;
    assert TrailingIn(r, chars) == 0;
  }
}
