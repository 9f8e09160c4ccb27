/**
 * The few pieces of `std::string` that the modelled code relies on: `find`,
 * `find_first_of`, `substr`, the `npos` sentinel and `size_t` arithmetic,
 * which wraps around modulo 2^64.
 */
module StdString {

  /** The number of distinct `size_t` values (64-bit targets). */
  const SizeModulus: int := 0x1_0000_0000_0000_0000

  /** `std::string::npos`, the largest `size_t` value. */
  const NPos: int := SizeModulus - 1

  type Size = n: int | 0 <= n < SizeModulus

  /** A `std::string`: never as long as `npos` (its `max_size()` is smaller). */
  type CppString = s: string | |s| < NPos

  /** The `size_t` value of an unsigned sum `x`: arithmetic wraps modulo 2^64. */
  function ToSize(x: nat): (r: Size)
    ensures x < SizeModulus ==> r == x
    ensures SizeModulus <= x < 2 * SizeModulus ==> r == x - SizeModulus
  {
    x % SizeModulus
  }

  predicate MatchesAt(s: string, pat: string, i: int)
  {
    0 <= i && i + |pat| <= |s| && s[i..i + |pat|] == pat
  }

  /** The first position at or after `i` where `pat` occurs in `s`, or `npos`. */
  function FindFrom(s: CppString, pat: string, i: nat): (r: Size)
    decreases |s| - i
    ensures r == NPos || (i <= r && MatchesAt(s, pat, r))
    ensures r != NPos ==> forall j :: i <= j < r ==> !MatchesAt(s, pat, j)
    ensures r == NPos ==> forall j :: i <= j ==> !MatchesAt(s, pat, j)
  {
    if i + |pat| > |s| then NPos
    else if s[i..i + |pat|] == pat then i
    else FindFrom(s, pat, i + 1)
  }

  /** `s.find(pat)`: the first occurrence of `pat` in `s`, or `npos`. */
  function Find(s: CppString, pat: string): (r: Size)
    ensures r == NPos <==> forall j :: !MatchesAt(s, pat, j)
    ensures r != NPos ==> MatchesAt(s, pat, r) && forall j :: 0 <= j < r ==> !MatchesAt(s, pat, j)
  {
    FindFrom(s, pat, 0)
  }

  /** The first position at or after `i` holding a character of `chars`, or `npos`. */
  function FindFirstOfFrom(s: CppString, chars: string, i: nat): (r: Size)
    decreases |s| - i
    ensures r == NPos || (i <= r < |s| && s[r] in chars)
    ensures r != NPos ==> forall c :: c in chars ==> c !in s[i..r]
    ensures r == NPos && i <= |s| ==> forall c :: c in chars ==> c !in s[i..]
  {
    if i >= |s| then NPos
    else if s[i] in chars then i
    else
      var r := FindFirstOfFrom(s, chars, i + 1);
      assert r != NPos ==> s[i..r] == [s[i]] + s[i + 1..r];
      assert s[i..] == [s[i]] + s[i + 1..];
      r
  }

  /** `s.find_first_of(chars)`: the first position holding one of `chars`, or `npos`. */
  function FindFirstOf(s: CppString, chars: string): (r: Size)
    ensures r == NPos <==> forall c :: c in chars ==> c !in s
    ensures r != NPos ==> r < |s| && s[r] in chars && forall c :: c in chars ==> c !in s[..r]
  {
    var r := FindFirstOfFrom(s, chars, 0);
    assert s[0..] == s;
    assert r != NPos ==> s[0..r] == s[..r];
    r
  }

  /**
   * `s.substr(pos, count)`: at most `count` characters starting at `pos`.
   * (A `pos` past the end throws `std::out_of_range`; no caller here does that.)
   */
  function Substr(s: CppString, pos: Size, count: Size): (r: CppString)
    requires pos <= |s|
    ensures pos + count <= |s| ==> r == s[pos..pos + count]
    ensures pos + count > |s| ==> r == s[pos..]
    ensures |r| <= |s| - pos
  {
    if pos + count <= |s| then s[pos..pos + count] else s[pos..]
  }

  /** The first index of `c` in `s`, for a `c` that occurs. */
  function IndexOf(s: string, c: char): (r: nat)
    requires c in s
    ensures r < |s| && s[r] == c && c !in s[..r]
  {
    if s[0] == c then 0
    else
      assert s == [s[0]] + s[1..];
      var k := IndexOf(s[1..], c);
      assert s[..k + 1] == [s[0]] + s[1..][..k];
      k + 1
  }

  /** A character missing from a prefix is missing from each of its positions. */
  lemma NotInPrefix(s: string, c: char, n: nat)
    requires n <= |s| && c !in s[..n]
    ensures forall k :: 0 <= k < n ==> s[k] != c
  {
    forall k | 0 <= k < n
      ensures s[k] != c
    {
      assert s[..n][k] == s[k];
    }
  }
}
