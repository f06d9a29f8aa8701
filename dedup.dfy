/** The two deduplicating passes of the pipeline: the two-key pass at the end
    of `scrape_additional_sources` and the exact-URL pass of `main`. */
module Dedup {
  import opened Grants
  import opened Subsequences

  /** `url.split("?")[0]`: the URL up to, not including, its first "?". */
  function UrlKey(url: string): (key: string)
    ensures key <= url
    ensures '?' !in key
    ensures |key| < |url| ==> url[|key|] == '?'
    decreases |url|
  {
    if url == [] || url[0] == '?' then [] else [url[0]] + UrlKey(url[1..])
  }

  /** A query string does not change the URL key. */
  lemma UrlKeyIgnoresQuery(base: string, query: string)
    requires '?' !in base
    ensures UrlKey(base + "?" + query) == base
  {
    var url := base + "?" + query;
    assert url[|base|] == '?';
    assert url[..|base|] == base;
  }

  // ---------------------------------------------------------------------------
  // Two-key deduplication (end of scrape_additional_sources)
  // ---------------------------------------------------------------------------

  /** `a` and `b` have the same URL key or the same normalised title. `normalize`
      stands for `normalize_text`, whose definition is not part of this model. */
  predicate SharesKey(a: Grant, b: Grant, normalize: string -> string) {
    UrlKey(a.url) == UrlKey(b.url) || normalize(a.title) == normalize(b.title)
  }

  /** `g` shares a key with some grant of `kept`. */
  predicate ClashesWithKept(kept: seq<Grant>, g: Grant, normalize: string -> string)
    decreases |kept|
  {
    kept != [] && (ClashesWithKept(kept[..|kept| - 1], g, normalize) || SharesKey(kept[|kept| - 1], g, normalize))
  }

  lemma {:induction false} ClashesWithKeptMember(kept: seq<Grant>, g: Grant, normalize: string -> string)
    ensures ClashesWithKept(kept, g, normalize) <==> exists h :: h in kept && SharesKey(h, g, normalize)
    decreases |kept|
  {
    if kept != [] {
      var n := |kept| - 1;
      ClashesWithKeptMember(kept[..n], g, normalize);
      assert kept == kept[..n] + [kept[n]];
    }
  }

  /** Which grants the two-key pass keeps: a grant is kept when it shares no key
      with a grant kept before it. */
  function TwoKeyMask(gs: seq<Grant>, normalize: string -> string): (keep: seq<bool>)
    ensures |keep| == |gs|
    decreases |gs|
  {
    if gs == [] then []
    else
      var prefix := gs[..|gs| - 1];
      var keptBefore := TwoKeyMask(prefix, normalize);
      keptBefore + [!ClashesWithKept(Pick(prefix, keptBefore), gs[|gs| - 1], normalize)]
  }

  function TwoKeyDedup(gs: seq<Grant>, normalize: string -> string): seq<Grant> {
    Pick(gs, TwoKeyMask(gs, normalize))
  }

  lemma TwoKeySnoc(gs: seq<Grant>, g: Grant, normalize: string -> string)
    ensures TwoKeyMask(gs + [g], normalize) ==
      TwoKeyMask(gs, normalize) + [!ClashesWithKept(TwoKeyDedup(gs, normalize), g, normalize)]
    ensures TwoKeyDedup(gs + [g], normalize) ==
      if ClashesWithKept(TwoKeyDedup(gs, normalize), g, normalize) then TwoKeyDedup(gs, normalize)
      else TwoKeyDedup(gs, normalize) + [g]
  {
    assert (gs + [g])[..|gs|] == gs;
    var b := !ClashesWithKept(TwoKeyDedup(gs, normalize), g, normalize);
    PickSnoc(gs, TwoKeyMask(gs, normalize), g, b);
  }

  function UrlKeys(kept: seq<Grant>): set<string> {
    set h | h in kept :: UrlKey(h.url)
  }

  function TitleKeys(kept: seq<Grant>, normalize: string -> string): set<string> {
    set h | h in kept :: normalize(h.title)
  }

  /** Looking the two keys up in the recorded key sets is the same as comparing with every kept grant. */
  lemma SeenKeysMatchKept(kept: seq<Grant>, g: Grant, normalize: string -> string)
    ensures (UrlKey(g.url) in UrlKeys(kept) || normalize(g.title) in TitleKeys(kept, normalize))
            <==> ClashesWithKept(kept, g, normalize)
    ensures UrlKeys(kept + [g]) == UrlKeys(kept) + {UrlKey(g.url)}
    ensures TitleKeys(kept + [g], normalize) == TitleKeys(kept, normalize) + {normalize(g.title)}
  {
    ClashesWithKeptMember(kept, g, normalize);
    assert forall h :: h in kept + [g] <==> h in kept || h == g;
    if UrlKey(g.url) in UrlKeys(kept) {
      var h :| h in kept && UrlKey(h.url) == UrlKey(g.url);
      assert SharesKey(h, g, normalize);
    }
    if normalize(g.title) in TitleKeys(kept, normalize) {
      var h :| h in kept && normalize(h.title) == normalize(g.title);
      assert SharesKey(h, g, normalize);
    }
  }

  /** One iteration of the two-key loop, stated on the recorded key sets. */
  lemma TwoKeyStep(done: seq<Grant>, g: Grant, normalize: string -> string)
    ensures var kept := TwoKeyDedup(done, normalize);
      TwoKeyDedup(done + [g], normalize) ==
        if UrlKey(g.url) !in UrlKeys(kept) && normalize(g.title) !in TitleKeys(kept, normalize)
        then kept + [g] else kept
    ensures var kept := TwoKeyDedup(done, normalize);
      UrlKeys(kept + [g]) == UrlKeys(kept) + {UrlKey(g.url)} &&
      TitleKeys(kept + [g], normalize) == TitleKeys(kept, normalize) + {normalize(g.title)}
  {
    TwoKeySnoc(done, g, normalize);
    SeenKeysMatchKept(TwoKeyDedup(done, normalize), g, normalize);
  }

  /** The loop at the end of `scrape_additional_sources`: keep a grant only when
      neither its URL key nor its normalised title has been seen, then record both. */
  method DedupAdditionalSources(grants: seq<Grant>, normalize: string -> string)
    returns (unique: seq<Grant>)
    ensures unique == TwoKeyDedup(grants, normalize)
    ensures forall i, j :: 0 <= i < j < |unique| ==>
      UrlKey(unique[i].url) != UrlKey(unique[j].url) && normalize(unique[i].title) != normalize(unique[j].title)
  {
    unique := [];
    var urls: set<string> := {};
    var titles: set<string> := {};
    var i := 0;
    while i < |grants|
      invariant 0 <= i <= |grants|
      invariant unique == TwoKeyDedup(grants[..i], normalize)
      invariant urls == UrlKeys(unique)
      invariant titles == TitleKeys(unique, normalize)
    {
      var grant := grants[i];
      var urlKey := UrlKey(grant.url);
      var titleKey := normalize(grant.title);
      TwoKeyStep(grants[..i], grant, normalize);
      if urlKey !in urls && titleKey !in titles {
        urls := urls + {urlKey};
        titles := titles + {titleKey};
        unique := unique + [grant];
      }
      SliceSnoc(grants, i);
      i := i + 1;
    }
    assert grants[..|grants|] == grants;
    TwoKeyKeysDistinct(grants, normalize);
  }

  /** No two grants kept by the two-key pass share a URL key or a normalised title. */
  lemma {:induction false} TwoKeyKeysDistinct(gs: seq<Grant>, normalize: string -> string)
    ensures forall i, j :: 0 <= i < j < |TwoKeyDedup(gs, normalize)| ==>
      !SharesKey(TwoKeyDedup(gs, normalize)[i], TwoKeyDedup(gs, normalize)[j], normalize)
    decreases |gs|
  {
    if gs != [] {
      var n := |gs| - 1;
      assert gs == gs[..n] + [gs[n]];
      TwoKeySnoc(gs[..n], gs[n], normalize);
      TwoKeyKeysDistinct(gs[..n], normalize);
      var kept := TwoKeyDedup(gs[..n], normalize);
      ClashesWithKeptMember(kept, gs[n], normalize);
      if !ClashesWithKept(kept, gs[n], normalize) {
        var r := kept + [gs[n]];
        forall i, j | 0 <= i < j < |r| ensures !SharesKey(r[i], r[j], normalize) {
          if j == |kept| {
            assert r[i] in kept;
          }
        }
      }
    }
  }

  lemma {:induction false} TwoKeyMaskPrefix(gs: seq<Grant>, k: nat, normalize: string -> string)
    requires k <= |gs|
    ensures TwoKeyMask(gs, normalize)[..k] == TwoKeyMask(gs[..k], normalize)
    decreases |gs|
  {
    if k < |gs| {
      var n := |gs| - 1;
      TwoKeyMaskPrefix(gs[..n], k, normalize);
      assert gs[..n][..k] == gs[..k];
    } else {
      assert gs[..k] == gs;
    }
  }

  /** Each flag of the mask is computed against the grants kept before it. */
  lemma TwoKeyMaskAt(gs: seq<Grant>, normalize: string -> string, i: nat)
    requires i < |gs|
    ensures TwoKeyMask(gs, normalize)[i] ==
      !ClashesWithKept(Pick(gs[..i], TwoKeyMask(gs, normalize)[..i]), gs[i], normalize)
  {
    var m := TwoKeyMask(gs, normalize);
    var p := gs[..i];
    var b := !ClashesWithKept(TwoKeyDedup(p, normalize), gs[i], normalize);
    TwoKeyMaskPrefix(gs, i + 1, normalize);
    TwoKeyMaskPrefix(gs, i, normalize);
    assert m[..i] == TwoKeyMask(p, normalize);
    SliceSnoc(gs, i);
    TwoKeySnoc(p, gs[i], normalize);
    assert m[..i + 1] == TwoKeyMask(p, normalize) + [b];
    assert m[i] == m[..i + 1][i] == b;
  }

  /** A grant clashes with a selection exactly when it clashes with some selected position. */
  lemma ClashesWithPicked(s: seq<Grant>, keep: seq<bool>, g: Grant, normalize: string -> string)
    requires |keep| == |s|
    ensures ClashesWithKept(Pick(s, keep), g, normalize) <==>
      exists j :: 0 <= j < |s| && keep[j] && SharesKey(s[j], g, normalize)
  {
    ClashesWithKeptMember(Pick(s, keep), g, normalize);
    if ClashesWithKept(Pick(s, keep), g, normalize) {
      var h :| h in Pick(s, keep) && SharesKey(h, g, normalize);
      PickMember(s, keep, h);
    }
    if j :| 0 <= j < |s| && keep[j] && SharesKey(s[j], g, normalize) {
      PickMember(s, keep, s[j]);
    }
  }

  /** The two-key pass drops a grant exactly when its URL key or normalised title
      equals that of a grant kept earlier; its result is the kept grants in input order. */
  lemma TwoKeyKeepsExactly(gs: seq<Grant>, normalize: string -> string, i: nat)
    requires i < |gs|
    ensures TwoKeyMask(gs, normalize)[i] <==>
      !exists j :: 0 <= j < i && TwoKeyMask(gs, normalize)[j] && SharesKey(gs[j], gs[i], normalize)
  {
    var m := TwoKeyMask(gs, normalize);
    TwoKeyMaskAt(gs, normalize, i);
    ClashesWithPicked(gs[..i], m[..i], gs[i], normalize);
    assert forall j :: 0 <= j < i ==> gs[..i][j] == gs[j] && m[..i][j] == m[j];
  }

  /** The first grant of a non-empty list is always kept, and stays first. */
  lemma TwoKeyKeepsFirst(gs: seq<Grant>, normalize: string -> string)
    requires |gs| > 0
    ensures |TwoKeyDedup(gs, normalize)| > 0 && TwoKeyDedup(gs, normalize)[0] == gs[0]
  {
    var m := TwoKeyMask(gs, normalize);
    TwoKeyKeepsExactly(gs, normalize, 0);
    assert gs == [gs[0]] + gs[1..];
    assert m == [m[0]] + m[1..];
    PickAppend([gs[0]], [m[0]], gs[1..], m[1..]);
    assert Pick([gs[0]], [m[0]]) == [gs[0]] by {
      assert [gs[0]][..0] == [];
    }
  }

  /** A list whose grants already have pairwise distinct keys passes unchanged. */
  lemma {:induction false} TwoKeyFixesDistinct(s: seq<Grant>, normalize: string -> string)
    requires forall i, j :: 0 <= i < j < |s| ==> !SharesKey(s[i], s[j], normalize)
    ensures TwoKeyDedup(s, normalize) == s
    decreases |s|
  {
    if s != [] {
      var n := |s| - 1;
      TwoKeyFixesDistinct(s[..n], normalize);
      assert s == s[..n] + [s[n]];
      TwoKeySnoc(s[..n], s[n], normalize);
      ClashesWithKeptMember(s[..n], s[n], normalize);
    }
  }

  /** Applying the two-key pass to its own output changes nothing. */
  lemma TwoKeyIdempotent(gs: seq<Grant>, normalize: string -> string)
    ensures TwoKeyDedup(TwoKeyDedup(gs, normalize), normalize) == TwoKeyDedup(gs, normalize)
  {
    TwoKeyKeysDistinct(gs, normalize);
    TwoKeyFixesDistinct(TwoKeyDedup(gs, normalize), normalize);
  }

  /** The same page listed under two query strings is kept once, the first time,
      whatever the two titles are: the URL key alone is enough to drop it. */
  lemma QueryVariantDropped(first: Grant, second: Grant, base: string, q1: string, q2: string,
                            normalize: string -> string)
    requires '?' !in base
    requires first.url == base + "?" + q1 && second.url == base + "?" + q2
    ensures TwoKeyDedup([first, second], normalize) == [first]
  {
    UrlKeyIgnoresQuery(base, q1);
    UrlKeyIgnoresQuery(base, q2);
    assert SharesKey(first, second, normalize);
    TwoKeySnoc([], first, normalize);
    assert [] + [first] == [first];
    assert TwoKeyDedup([first], normalize) == [first];
    assert ClashesWithKept([first], second, normalize);
    TwoKeySnoc([first], second, normalize);
    assert [first] + [second] == [first, second];
  }

  // ---------------------------------------------------------------------------
  // Exact-URL deduplication (main)
  // ---------------------------------------------------------------------------

  function UrlsOf(gs: seq<Grant>): set<string> {
    set g | g in gs :: g.url
  }

  lemma UrlsOfSnoc(gs: seq<Grant>, g: Grant)
    ensures UrlsOf(gs + [g]) == UrlsOf(gs) + {g.url}
  {
    assert forall h :: h in gs + [g] <==> h in gs || h == g;
  }

  /** A grant is kept exactly when no earlier grant has the same URL string. */
  function FirstUrlMask(gs: seq<Grant>): (keep: seq<bool>)
    ensures |keep| == |gs|
    ensures forall i :: 0 <= i < |gs| ==> (keep[i] <==> forall j :: 0 <= j < i ==> gs[j].url != gs[i].url)
  {
    seq(|gs|, i requires 0 <= i < |gs| => forall j :: 0 <= j < i ==> gs[j].url != gs[i].url)
  }

  /** What the exact-URL pass returns: the first grant for each URL, in input order. */
  function UniqueByUrl(gs: seq<Grant>): seq<Grant> {
    Pick(gs, FirstUrlMask(gs))
  }

  lemma UniqueByUrlSnoc(gs: seq<Grant>, g: Grant)
    ensures UniqueByUrl(gs + [g]) == UniqueByUrl(gs) + (if g.url in UrlsOf(gs) then [] else [g])
  {
    var s := gs + [g];
    var b := g.url !in UrlsOf(gs);
    assert b <==> forall j :: 0 <= j < |gs| ==> s[j].url != s[|gs|].url by {
      if !b {
        var h :| h in gs && h.url == g.url;
        var j :| 0 <= j < |gs| && gs[j] == h;
        assert s[j] == h;
      }
    }
    forall i | 0 <= i < |gs| ensures FirstUrlMask(s)[i] == FirstUrlMask(gs)[i] {
      assert forall j :: 0 <= j <= i ==> s[j] == gs[j];
    }
    assert FirstUrlMask(s) == FirstUrlMask(gs) + [b];
    PickSnoc(gs, FirstUrlMask(gs), g, b);
  }

  /** The loop in `main` (and the identical one in the older `scrape_additional_sources`):
      keep a grant when its exact URL string has not been seen. */
  method DedupByUrl(grants: seq<Grant>) returns (unique: seq<Grant>)
    ensures unique == UniqueByUrl(grants)
    ensures UrlsOf(unique) == UrlsOf(grants)
    ensures forall i, j :: 0 <= i < j < |unique| ==> unique[i].url != unique[j].url
  {
    unique := [];
    var urls: set<string> := {};
    var i := 0;
    while i < |grants|
      invariant 0 <= i <= |grants|
      invariant unique == UniqueByUrl(grants[..i])
      invariant urls == UrlsOf(grants[..i])
    {
      var grant := grants[i];
      UniqueByUrlSnoc(grants[..i], grant);
      if grant.url !in urls {
        urls := urls + {grant.url};
        unique := unique + [grant];
      }
      SliceSnoc(grants, i);
      i := i + 1;
    }
    assert grants[..|grants|] == grants;
    UniqueByUrlCovers(grants);
  }

  /** The grant at the first index carrying a URL is the one that survives for that URL:
      it is kept, and every kept grant with that URL is it. */
  lemma UniqueByUrlKeepsFirstOccurrence(gs: seq<Grant>, i: nat)
    requires i < |gs|
    requires forall j :: 0 <= j < i ==> gs[j].url != gs[i].url
    ensures gs[i] in UniqueByUrl(gs)
    ensures forall g :: g in UniqueByUrl(gs) && g.url == gs[i].url ==> g == gs[i]
  {
    var m := FirstUrlMask(gs);
    PickMember(gs, m, gs[i]);
    forall g | g in UniqueByUrl(gs) && g.url == gs[i].url
      ensures g == gs[i]
    {
      PickMember(gs, m, g);
      var j :| 0 <= j < |gs| && m[j] && gs[j] == g;
      assert j == i;
    }
  }

  /** Every URL of the input survives, and each survives once. */
  lemma {:induction false} UniqueByUrlCovers(gs: seq<Grant>)
    ensures UrlsOf(UniqueByUrl(gs)) == UrlsOf(gs)
    ensures forall i, j :: 0 <= i < j < |UniqueByUrl(gs)| ==> UniqueByUrl(gs)[i].url != UniqueByUrl(gs)[j].url
    decreases |gs|
  {
    if gs != [] {
      var n := |gs| - 1;
      var p := gs[..n];
      assert gs == p + [gs[n]];
      UniqueByUrlSnoc(p, gs[n]);
      UniqueByUrlCovers(p);
      var r := UniqueByUrl(p);
      UrlsOfSnoc(p, gs[n]);
      UrlsOfSnoc(r, gs[n]);
      if gs[n].url !in UrlsOf(p) {
        forall i, j | 0 <= i < j < |r| + 1 ensures (r + [gs[n]])[i].url != (r + [gs[n]])[j].url {
          if j == |r| {
            assert r[i] in r;
          }
        }
      }
    }
  }

  /** Merging two lists and deduplicating keeps the first list's survivors as a
      prefix; what follows comes from the second list, with URLs the first lacks. */
  lemma {:induction false} UniqueByUrlPrefersFirstList(a: seq<Grant>, b: seq<Grant>)
    ensures UniqueByUrl(a) <= UniqueByUrl(a + b)
    ensures forall g :: g in UniqueByUrl(a + b)[|UniqueByUrl(a)|..] ==> g in b && g.url !in UrlsOf(a)
    decreases |b|
  {
    if b == [] {
      assert a + b == a;
    } else {
      UniqueByUrlPrefersFirstList(a, b[..|b| - 1]);
      PrefersFirstListStep(a, b[..|b| - 1], b[|b| - 1]);
      AppendLast(a, b);
    }
  }

  /** The inductive step of `UniqueByUrlPrefersFirstList`: one more grant `x` of the second list. */
  lemma PrefersFirstListStep(a: seq<Grant>, p: seq<Grant>, x: Grant)
    requires UniqueByUrl(a) <= UniqueByUrl(a + p)
    requires forall g :: g in UniqueByUrl(a + p)[|UniqueByUrl(a)|..] ==> g in p && g.url !in UrlsOf(a)
    ensures UniqueByUrl(a) <= UniqueByUrl(a + p + [x])
    ensures forall g :: g in UniqueByUrl(a + p + [x])[|UniqueByUrl(a)|..] ==> g in p + [x] && g.url !in UrlsOf(a)
  {
    UniqueByUrlSnoc(a + p, x);
    var u := UniqueByUrl(a + p);
    var k := |UniqueByUrl(a)|;
    assert UrlsOf(a) <= UrlsOf(a + p) by {
      assert forall g :: g in a ==> g in a + p;
    }
    forall g | g in UniqueByUrl(a + p + [x])[k..]
      ensures g in p + [x] && g.url !in UrlsOf(a)
    {
      if g !in u[k..] {
        assert g == x;
      }
    }
  }

  lemma QueryAfterBase(base: string, q: string)
    ensures (base + "?" + q)[|base| + 1..] == q
  {
  }

  /** URLs that differ only in their query string are different URLs here: both grants stay. */
  lemma QueryVariantsBothKept(first: Grant, second: Grant, base: string, q1: string, q2: string)
    requires q1 != q2
    requires first.url == base + "?" + q1 && second.url == base + "?" + q2
    ensures UniqueByUrl([first, second]) == [first, second]
  {
    QueryAfterBase(base, q1);
    QueryAfterBase(base, q2);
    UniqueByUrlSnoc([], first);
    assert [] + [first] == [first];
    assert UrlsOf([first]) == {first.url};
    UniqueByUrlSnoc([first], second);
    assert [first] + [second] == [first, second];
  }
}
