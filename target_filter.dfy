/** `filter_grants_for_target_business`: the rule-based keep/drop pass that
    narrows the merged grant list to the target business (an information and
    communications company in Shiojiri, Nagano). */
module TargetFilter {
  import opened Strings
  import opened Grants
  import opened Subsequences

  /** Keywords that mark a grant as relevant to the information and communications industry. */
  const ItKeywords: seq<string> :=
    ["IT", "システム", "デジタル", "情報通信", "DX", "セキュリティ", "アプリ", "ソフトウェア", "ICT", "クラウド", "AI", "IoT"]

  /** Every prefecture except Nagano, in the rows of the source list. */
  const PrefecturesRow1: seq<string> := ["北海道", "青森", "岩手", "宮城", "秋田"]
  const PrefecturesRow2: seq<string> := ["山形", "福島", "茨城", "栃木", "群馬"]
  const PrefecturesRow3: seq<string> := ["埼玉", "千葉", "東京", "神奈川", "新潟"]
  const PrefecturesRow4: seq<string> := ["富山", "石川", "福井", "山梨", "岐阜"]
  const PrefecturesRow5: seq<string> := ["静岡", "愛知", "三重", "滋賀", "京都"]
  const PrefecturesRow6: seq<string> := ["大阪", "兵庫", "奈良", "和歌山", "鳥取"]
  const PrefecturesRow7: seq<string> := ["島根", "岡山", "広島", "山口", "徳島"]
  const PrefecturesRow8: seq<string> := ["香川", "愛媛", "高知", "福岡", "佐賀"]
  const PrefecturesRow9: seq<string> := ["長崎", "熊本", "大分", "宮崎", "鹿児島"]
  const PrefecturesRow10: seq<string> := ["沖縄"]

  const OtherPrefectures: seq<string> :=
    PrefecturesRow1 + PrefecturesRow2 + PrefecturesRow3 + PrefecturesRow4 + PrefecturesRow5 +
    PrefecturesRow6 + PrefecturesRow7 + PrefecturesRow8 + PrefecturesRow9 + PrefecturesRow10

  const HomePrefecture: string := "長野"

  /** Words that mark a grant as meant for agriculture, forestry or fishery. */
  const PrimaryIndustryWords: seq<string> := ["農業", "農林", "漁業"]

  /** `any(kw.lower() in title.lower() or kw.lower() in desc.lower() for kw in kws)`. */
  predicate MentionsAnyKeyword(title: string, desc: string, kws: seq<string>)
    decreases |kws|
  {
    kws != [] &&
    (Contains(Lower(title), Lower(kws[0])) || Contains(Lower(desc), Lower(kws[0])) ||
     MentionsAnyKeyword(title, desc, kws[1..]))
  }

  lemma {:induction false} MentionsAnyKeywordMember(title: string, desc: string, kws: seq<string>)
    ensures MentionsAnyKeyword(title, desc, kws) <==>
      exists kw :: kw in kws && (Occurs(Lower(title), Lower(kw)) || Occurs(Lower(desc), Lower(kw)))
    decreases |kws|
  {
    if kws != [] {
      MentionsAnyKeywordMember(title, desc, kws[1..]);
      assert kws == [kws[0]] + kws[1..];
    }
  }

  /** The region rule: the lower-cased title names another prefecture and not Nagano. */
  predicate ExcludedByRegion(g: Grant) {
    var title := Lower(g.title);
    ContainsAny(title, OtherPrefectures) && !Contains(title, HomePrefecture)
  }

  /** The industry rule: the lower-cased title names a primary industry and no IT keyword
      occurs in it or in the description. */
  predicate ExcludedByIndustry(g: Grant) {
    var title := Lower(g.title);
    var desc := Lower(DescriptionOrEmpty(g));
    ContainsAny(title, PrimaryIndustryWords) && !MentionsAnyKeyword(title, desc, ItKeywords)
  }

  predicate Included(g: Grant) {
    !ExcludedByRegion(g) && !ExcludedByIndustry(g)
  }

  function IncludedMask(gs: seq<Grant>): (keep: seq<bool>)
    ensures |keep| == |gs|
    ensures forall i :: 0 <= i < |gs| ==> keep[i] == Included(gs[i])
  {
    seq(|gs|, i requires 0 <= i < |gs| => Included(gs[i]))
  }

  lemma IncludedMaskSnoc(gs: seq<Grant>, g: Grant)
    ensures IncludedMask(gs + [g]) == IncludedMask(gs) + [Included(g)]
  {
  }

  /** What the filter returns: the included grants, in input order. */
  function FilteredForTarget(gs: seq<Grant>): seq<Grant> {
    Pick(gs, IncludedMask(gs))
  }

  /** The loop of `filter_grants_for_target_business`. `location`, `industry` and
      `employees` are accepted and never read: the result does not depend on them. */
  method FilterForTargetBusiness(
    grants: seq<Grant>,
    location: string := "長野県塩尻市",
    industry: string := "情報通信業",
    employees: int := 56)
    returns (filtered: seq<Grant>)
    ensures filtered == FilteredForTarget(grants)
    ensures forall g :: g in filtered ==> Included(g)
  {
    filtered := [];
    var i := 0;
    while i < |grants|
      invariant 0 <= i <= |grants|
      invariant filtered == FilteredForTarget(grants[..i])
    {
      var grant := grants[i];
      var keep := true;
      var title := Lower(grant.title);
      var desc := Lower(DescriptionOrEmpty(grant));
      if ContainsAny(title, OtherPrefectures) && !Contains(title, HomePrefecture) {
        keep := false;
      }
      if ContainsAny(title, PrimaryIndustryWords) && !MentionsAnyKeyword(title, desc, ItKeywords) {
        keep := false;
      }
      IncludedByBothRules(grant, title, desc);
      FilteredSnoc(grants[..i], grant, keep);
      if keep {
        filtered := filtered + [grant];
      }
      SliceSnoc(grants, i);
      i := i + 1;
    }
    assert grants[..|grants|] == grants;
    FilteredAllIncluded(grants);
  }

  /** `Included` is the conjunction of the two rules as the loop evaluates them. */
  lemma IncludedByBothRules(g: Grant, title: string, desc: string)
    requires title == Lower(g.title) && desc == Lower(DescriptionOrEmpty(g))
    ensures Included(g) <==>
      !(ContainsAny(title, OtherPrefectures) && !Contains(title, HomePrefecture)) &&
      !(ContainsAny(title, PrimaryIndustryWords) && !MentionsAnyKeyword(title, desc, ItKeywords))
  {
  }

  /** One more grant extends the filtered list exactly when the grant is included. */
  lemma FilteredSnoc(gs: seq<Grant>, g: Grant, keep: bool)
    requires keep == Included(g)
    ensures FilteredForTarget(gs + [g]) == FilteredForTarget(gs) + (if keep then [g] else [])
  {
    IncludedMaskSnoc(gs, g);
    PickSnoc(gs, IncludedMask(gs), g, keep);
  }

  lemma FilteredAllIncluded(gs: seq<Grant>)
    ensures forall g :: g in FilteredForTarget(gs) ==> Included(g)
  {
    forall g | g in FilteredForTarget(gs) ensures Included(g) {
      FilteredMembers(gs, g);
    }
  }

  /** A grant survives the filter exactly when it is in the input and included. */
  lemma FilteredMembers(gs: seq<Grant>, g: Grant)
    ensures g in FilteredForTarget(gs) <==> g in gs && Included(g)
  {
    PickMember(gs, IncludedMask(gs), g);
    if g in gs && Included(g) {
      var j :| 0 <= j < |gs| && gs[j] == g;
      assert IncludedMask(gs)[j];
    }
  }

  /** No prefecture name contains an ASCII letter. */
  lemma PrefecturesLetterFree()
    ensures forall p :: p in OtherPrefectures ==> LetterFree(p)
    ensures LetterFree(HomePrefecture)
  {
    assert forall p :: p in PrefecturesRow1 ==> LetterFree(p);
    assert forall p :: p in PrefecturesRow2 ==> LetterFree(p);
    assert forall p :: p in PrefecturesRow3 ==> LetterFree(p);
    assert forall p :: p in PrefecturesRow4 ==> LetterFree(p);
    assert forall p :: p in PrefecturesRow5 ==> LetterFree(p);
    assert forall p :: p in PrefecturesRow6 ==> LetterFree(p);
    assert forall p :: p in PrefecturesRow7 ==> LetterFree(p);
    assert forall p :: p in PrefecturesRow8 ==> LetterFree(p);
    assert forall p :: p in PrefecturesRow9 ==> LetterFree(p);
    assert forall p :: p in PrefecturesRow10 ==> LetterFree(p);
  }

  lemma PrimaryIndustryWordsLetterFree()
    ensures forall w :: w in PrimaryIndustryWords ==> LetterFree(w)
  {
  }

  /** The region rule read on the title as scraped: lower-casing changes no prefecture match. */
  lemma RegionRuleOnRawTitle(g: Grant)
    ensures ExcludedByRegion(g) <==>
      (exists p :: p in OtherPrefectures && Occurs(g.title, p)) && !Occurs(g.title, HomePrefecture)
  {
    PrefecturesLetterFree();
    ContainsAnyMember(Lower(g.title), OtherPrefectures);
    forall p | p in OtherPrefectures
      ensures Occurs(Lower(g.title), p) <==> Occurs(g.title, p)
    {
      LowerKeepsLetterFreeMatch(g.title, p);
    }
    LowerKeepsLetterFreeMatch(g.title, HomePrefecture);
  }

  /** The industry rule read on the title as scraped, with the IT keywords matched
      case-insensitively and a missing description read as "". */
  lemma IndustryRuleOnRawTitle(g: Grant)
    ensures ExcludedByIndustry(g) <==>
      (exists w :: w in PrimaryIndustryWords && Occurs(g.title, w)) &&
      !(exists kw :: kw in ItKeywords &&
          (Occurs(Lower(g.title), Lower(kw)) || Occurs(Lower(DescriptionOrEmpty(g)), Lower(kw))))
  {
    PrimaryIndustryWordsLetterFree();
    ContainsAnyMember(Lower(g.title), PrimaryIndustryWords);
    MentionsAnyKeywordMember(Lower(g.title), Lower(DescriptionOrEmpty(g)), ItKeywords);
    forall w | w in PrimaryIndustryWords
      ensures Occurs(Lower(g.title), w) <==> Occurs(g.title, w)
    {
      LowerKeepsLetterFreeMatch(g.title, w);
    }
    LowerIdempotent(g.title);
    LowerIdempotent(DescriptionOrEmpty(g));
  }

  /** The whole keep condition on the record as scraped: the region rule and the
      industry rule, and nothing else. */
  lemma IncludedExactly(g: Grant)
    ensures Included(g) <==>
      (!(exists p :: p in OtherPrefectures && Occurs(g.title, p)) || Occurs(g.title, HomePrefecture)) &&
      (!(exists w :: w in PrimaryIndustryWords && Occurs(g.title, w)) ||
       exists kw :: kw in ItKeywords &&
         (Occurs(Lower(g.title), Lower(kw)) || Occurs(Lower(DescriptionOrEmpty(g)), Lower(kw))))
  {
    RegionRuleOnRawTitle(g);
    IndustryRuleOnRawTitle(g);
  }

  /** A title naming another prefecture and not Nagano is dropped, whatever IT
      keywords it carries: there is no override that forces a grant back in. */
  lemma RegionRuleHasNoOverride(gs: seq<Grant>, g: Grant, p: string)
    requires p in OtherPrefectures && Occurs(g.title, p)
    requires !Occurs(g.title, HomePrefecture)
    ensures !Included(g)
    ensures g !in FilteredForTarget(gs)
  {
    RegionRuleOnRawTitle(g);
    FilteredMembers(gs, g);
  }

  /** A primary-industry title survives only with an IT keyword, matched
      case-insensitively, in the title or the description. */
  lemma IndustryRuleNeedsItKeyword(gs: seq<Grant>, g: Grant, w: string)
    requires w in PrimaryIndustryWords && Occurs(g.title, w)
    requires g in FilteredForTarget(gs)
    ensures exists kw :: kw in ItKeywords &&
              (Occurs(Lower(g.title), Lower(kw)) || Occurs(Lower(DescriptionOrEmpty(g)), Lower(kw)))
  {
    FilteredMembers(gs, g);
    IndustryRuleOnRawTitle(g);
  }

  /** The example of a Hokkaido DX grant: the region rule drops it although "DX" is an IT keyword. */
  lemma HokkaidoDxGrantDropped(url: string, date: string, desc: Option<string>, deadline: string, amount: string, ratio: string)
    ensures FilteredForTarget([Grant("北海道中小企業DX補助金", url, date, desc, deadline, amount, ratio)]) == []
  {
    var title := "北海道中小企業DX補助金";
    var g := Grant(title, url, date, desc, deadline, amount, ratio);
    assert title[0..3] == "北海道";
    assert OccursAt(title, "北海道", 0);
    assert '長' !in title;
    AbsentHeadNoOccurrence(title, HomePrefecture);
    RegionRuleHasNoOverride([g], g, "北海道");
    FilteredMembers([g], g);
    assert FilteredForTarget([g]) == [];
  }
}
