/** The tail of `main`: merge the J-Net21 list with the additional sources,
    drop repeated URLs, filter for the target business, and fall back to the
    backup list when fewer than three grants remain. */
module Pipeline {
  import opened Grants
  import opened Subsequences
  import opened Dedup
  import opened TargetFilter

  /** Fewer than this many filtered grants and the backup list is used instead. */
  const MinimumGrants: nat := 3

  /** `if len(grants) < 3: grants = get_national_grants()`. */
  function WithBackup(filtered: seq<Grant>, backup: seq<Grant>): (r: seq<Grant>)
    ensures r == filtered || r == backup
    ensures r == filtered <== |filtered| >= MinimumGrants
    ensures |r| >= MinimumGrants || r == backup
  {
    if |filtered| < MinimumGrants then backup else filtered
  }

  /** What `main` ends up with, as a composition of the passes. `scraped` is the list
      `scrape_additional_sources` collected before its own two-key pass. */
  function PipelineResult(jnet21: seq<Grant>, scraped: seq<Grant>, backup: seq<Grant>,
                          normalize: string -> string): seq<Grant>
  {
    WithBackup(FilteredForTarget(UniqueByUrl(jnet21 + TwoKeyDedup(scraped, normalize))), backup)
  }

  /** The statements of `main` from the two source calls to the backup decision. */
  method CollectGrants(jnet21: seq<Grant>, scraped: seq<Grant>, backup: seq<Grant>,
                       normalize: string -> string)
    returns (grants: seq<Grant>)
    ensures grants == PipelineResult(jnet21, scraped, backup, normalize)
  {
    grants := jnet21;
    var additional := DedupAdditionalSources(scraped, normalize);
    grants := grants + additional;
    grants := DedupByUrl(grants);
    grants := FilterForTargetBusiness(grants);
    if |grants| < MinimumGrants {
      grants := backup;
    }
  }

  /** Either the backup list is used, or at least three grants remain; each of them
      passes the target filter, no two share a URL, and each comes from J-Net21 or
      is an additional-source grant whose URL J-Net21 did not list. */
  lemma PipelineOutcome(jnet21: seq<Grant>, scraped: seq<Grant>, backup: seq<Grant>,
                        normalize: string -> string)
    ensures var r := PipelineResult(jnet21, scraped, backup, normalize);
      r == backup ||
      (|r| >= MinimumGrants &&
       (forall g :: g in r ==> Included(g)) &&
       (forall i, j :: 0 <= i < j < |r| ==> r[i].url != r[j].url) &&
       (forall g :: g in r ==> g in jnet21 || (g in TwoKeyDedup(scraped, normalize) && g.url !in UrlsOf(jnet21))))
  {
    var additional := TwoKeyDedup(scraped, normalize);
    var unique := UniqueByUrl(jnet21 + additional);
    var filtered := FilteredForTarget(unique);
    if |filtered| >= MinimumGrants {
      forall g | g in filtered ensures Included(g) && g in unique {
        FilteredMembers(unique, g);
      }
      UniqueByUrlCovers(jnet21 + additional);
      PickPreservesPairwise(unique, IncludedMask(unique), (a: Grant, b: Grant) => a.url != b.url);
      UniqueByUrlPrefersFirstList(jnet21, additional);
      var head := UniqueByUrl(jnet21);
      assert unique == head + unique[|head|..];
      forall g | g in unique ensures g in jnet21 || (g in additional && g.url !in UrlsOf(jnet21)) {
        if g in head {
          PickMember(jnet21, FirstUrlMask(jnet21), g);
        }
      }
    }
  }
}
