/** Text primitives used by the grant rules: ASCII lower-casing (the model of
    `str.lower`) and substring search (the model of Python's `in` on strings). */
module Strings {

  predicate IsAsciiUpper(c: char) { 'A' <= c <= 'Z' }

  predicate IsAsciiLetter(c: char) { 'A' <= c <= 'Z' || 'a' <= c <= 'z' }

  /** A pattern with no ASCII letter in it: lower-casing cannot create or destroy a match of it. */
  predicate LetterFree(pat: string) {
    forall k :: 0 <= k < |pat| ==> !IsAsciiLetter(pat[k])
  }

  function LowerChar(c: char): (r: char)
    ensures IsAsciiUpper(c) ==> IsAsciiLetter(r) && !IsAsciiUpper(r)
    ensures !IsAsciiUpper(c) ==> r == c
  {
    if IsAsciiUpper(c) then (c as int + 32) as char else c
  }

  /** `s.lower()`, restricted to ASCII letters. */
  function Lower(s: string): (r: string)
    ensures |r| == |s|
    ensures forall i :: 0 <= i < |s| ==> r[i] == LowerChar(s[i])
    ensures forall i :: 0 <= i < |s| ==> !IsAsciiUpper(r[i])
  {
    seq(|s|, i requires 0 <= i < |s| => LowerChar(s[i]))
  }

  lemma LowerIdempotent(s: string)
    ensures Lower(Lower(s)) == Lower(s)
  {
  }

  /** `pat` occurs in `s` starting at position `i`. */
  ghost predicate OccursAt(s: string, pat: string, i: int) {
    0 <= i <= |s| - |pat| && s[i..i + |pat|] == pat
  }

  /** `pat` occurs somewhere in `s` (the declarative reading of `pat in s`). */
  ghost predicate Occurs(s: string, pat: string) {
    exists i :: OccursAt(s, pat, i)
  }

  lemma OccursAfterHead(s: string, pat: string)
    requires |pat| <= |s| && s[..|pat|] != pat
    ensures Occurs(s, pat) <==> Occurs(s[1..], pat)
  {
    if Occurs(s, pat) {
      var i :| OccursAt(s, pat, i);
      assert i != 0 by { assert s[0..|pat|] == s[..|pat|]; }
      assert s[1..][i - 1..i - 1 + |pat|] == s[i..i + |pat|];
      assert OccursAt(s[1..], pat, i - 1);
    }
    if Occurs(s[1..], pat) {
      var i :| OccursAt(s[1..], pat, i);
      assert s[i + 1..i + 1 + |pat|] == s[1..][i..i + |pat|];
      assert OccursAt(s, pat, i + 1);
    }
  }

  /** A pattern whose first character is absent from `s` does not occur in it. */
  lemma AbsentHeadNoOccurrence(s: string, pat: string)
    requires |pat| > 0 && pat[0] !in s
    ensures !Occurs(s, pat)
  {
    forall i | 0 <= i <= |s| - |pat| ensures !OccursAt(s, pat, i) {
      assert s[i..i + |pat|][0] == s[i];
    }
  }

  /** Python's `pat in s`, scanning left to right. */
  function Contains(s: string, pat: string): (r: bool)
    ensures r <==> Occurs(s, pat)
    decreases |s|
  {
    if |pat| > |s| then false
    else if s[..|pat|] == pat then assert OccursAt(s, pat, 0); true
    else OccursAfterHead(s, pat); Contains(s[1..], pat)
  }

  /** `any(pat in s for pat in pats)`. */
  predicate ContainsAny(s: string, pats: seq<string>)
    decreases |pats|
  {
    pats != [] && (Contains(s, pats[0]) || ContainsAny(s, pats[1..]))
  }

  lemma {:induction false} ContainsAnyMember(s: string, pats: seq<string>)
    ensures ContainsAny(s, pats) <==> exists pat :: pat in pats && Occurs(s, pat)
    decreases |pats|
  {
    if pats != [] {
      ContainsAnyMember(s, pats[1..]);
      assert pats == [pats[0]] + pats[1..];
    }
  }

  /** Lower-casing the searched text does not change whether a letter-free pattern occurs in it. */
  lemma LowerKeepsLetterFreeMatch(s: string, pat: string)
    requires LetterFree(pat)
    ensures Occurs(Lower(s), pat) <==> Occurs(s, pat)
  {
    var ls := Lower(s);
    forall i | 0 <= i <= |s| - |pat|
      ensures OccursAt(ls, pat, i) <==> OccursAt(s, pat, i)
    {
      if s[i..i + |pat|] == pat {
        forall k | 0 <= k < |pat| ensures ls[i + k] == pat[k] {
          assert s[i + k] == s[i..i + |pat|][k];
        }
        assert ls[i..i + |pat|] == pat;
      }
      if ls[i..i + |pat|] == pat {
        forall k | 0 <= k < |pat| ensures s[i + k] == pat[k] {
          assert ls[i + k] == ls[i..i + |pat|][k];
        }
        assert s[i..i + |pat|] == pat;
      }
    }
    if Occurs(s, pat) {
      var i :| OccursAt(s, pat, i);
      assert OccursAt(ls, pat, i);
    }
    if Occurs(ls, pat) {
      var i :| OccursAt(ls, pat, i);
      assert OccursAt(s, pat, i);
    }
  }
}
