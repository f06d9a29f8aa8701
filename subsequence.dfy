/** Order-preserving selection. Each list pass of the pipeline returns
    `Pick(input, keep)` for a flag sequence `keep` that its lemmas characterise
    index by index, which says at once that the result is a subsequence of the
    input and exactly which elements survive. */
module Subsequences {

  /** The elements `s[i]` with `keep[i]` set, in their order in `s`. */
  function Pick<T>(s: seq<T>, keep: seq<bool>): (r: seq<T>)
    requires |keep| == |s|
    ensures |r| <= |s|
    decreases |s|
  {
    if s == [] then []
    else Pick(s[..|s| - 1], keep[..|s| - 1]) + (if keep[|s| - 1] then [s[|s| - 1]] else [])
  }

  lemma SliceSnoc<T>(s: seq<T>, i: int)
    requires 0 <= i < |s|
    ensures s[..i + 1] == s[..i] + [s[i]]
  {
  }

  lemma AppendLast<T>(a: seq<T>, b: seq<T>)
    requires b != []
    ensures b == b[..|b| - 1] + [b[|b| - 1]]
    ensures a + b == (a + b[..|b| - 1]) + [b[|b| - 1]]
  {
    assert b == b[..|b| - 1] + [b[|b| - 1]];
  }

  lemma PickSnoc<T>(s: seq<T>, keep: seq<bool>, x: T, b: bool)
    requires |keep| == |s|
    ensures Pick(s + [x], keep + [b]) == Pick(s, keep) + (if b then [x] else [])
  {
    assert (s + [x])[..|s|] == s;
    assert (keep + [b])[..|s|] == keep;
  }

  /** An element is picked exactly when some flagged position holds it. */
  lemma {:induction false} PickMember<T>(s: seq<T>, keep: seq<bool>, x: T)
    requires |keep| == |s|
    ensures x in Pick(s, keep) <==> exists j :: 0 <= j < |s| && keep[j] && s[j] == x
    decreases |s|
  {
    if s != [] {
      var n := |s| - 1;
      PickMember(s[..n], keep[..n], x);
      if x in Pick(s, keep) && x !in Pick(s[..n], keep[..n]) {
        assert keep[n] && s[n] == x;
      }
      if j :| 0 <= j < |s| && keep[j] && s[j] == x {
        if j < n {
          assert s[..n][j] == x && keep[..n][j];
        }
      }
    }
  }

  /** Selecting every position gives the sequence back. */
  lemma {:induction false} PickAll<T>(s: seq<T>, keep: seq<bool>)
    requires |keep| == |s|
    requires forall j :: 0 <= j < |s| ==> keep[j]
    ensures Pick(s, keep) == s
    decreases |s|
  {
    if s != [] {
      var n := |s| - 1;
      PickAll(s[..n], keep[..n]);
      assert s[..n] + [s[n]] == s;
    }
  }

  /** Selection distributes over concatenation. */
  lemma {:induction false} PickAppend<T>(s: seq<T>, keep: seq<bool>, t: seq<T>, keep': seq<bool>)
    requires |keep| == |s| && |keep'| == |t|
    ensures Pick(s + t, keep + keep') == Pick(s, keep) + Pick(t, keep')
    decreases |t|
  {
    if t == [] {
      assert s + t == s && keep + keep' == keep;
    } else {
      var n := |t| - 1;
      PickAppend(s, keep, t[..n], keep'[..n]);
      assert s + t == (s + t[..n]) + [t[n]];
      assert keep + keep' == (keep + keep'[..n]) + [keep'[n]];
      PickSnoc(s + t[..n], keep + keep'[..n], t[n], keep'[n]);
    }
  }

  /** A relation that holds between every earlier and later element of `s`
      still holds in any selection from `s`. */
  lemma {:induction false} PickPreservesPairwise<T>(s: seq<T>, keep: seq<bool>, rel: (T, T) -> bool)
    requires |keep| == |s|
    requires forall i, j :: 0 <= i < j < |s| ==> rel(s[i], s[j])
    ensures forall i, j :: 0 <= i < j < |Pick(s, keep)| ==> rel(Pick(s, keep)[i], Pick(s, keep)[j])
    decreases |s|
  {
    if s != [] {
      var n := |s| - 1;
      var p := Pick(s[..n], keep[..n]);
      PickPreservesPairwise(s[..n], keep[..n], rel);
      if keep[n] {
        var r := p + [s[n]];
        forall i, j | 0 <= i < j < |r| ensures rel(r[i], r[j]) {
          if j == |p| {
            PickMember(s[..n], keep[..n], p[i]);
            var k :| 0 <= k < n && keep[..n][k] && s[..n][k] == p[i];
            assert s[k] == p[i];
          }
        }
      }
    }
  }
}
