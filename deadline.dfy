/** Deadline extraction for the Nagano SME centre items: the first match of
    `([0-9]{4}年[0-9]{1,2}月[0-9]{1,2}日).*(締切|締め切り|〆切)` found by `re.search`,
    reduced to its date group, or a sentinel when there is no match.

    Python's `.` matches any character except a line feed, so the deadline marker
    must follow the date on the same line. `[0-9]` is the ten ASCII digits. */
module DeadlineRule {
  import opened Grants

  /** The value stored when no deadline could be read. */
  const NotStated: string := "詳細はWebサイトで確認"

  predicate IsDigit(c: char) { '0' <= c <= '9' }

  predicate DigitsBetween(s: string, lo: int, hi: int)
    requires 0 <= lo <= hi <= |s|
  {
    forall k :: lo <= k < hi ==> IsDigit(s[k])
  }

  /** `[0-9]{4}年[0-9]{m}月[0-9]{d}日` matches `s` at `i`; it spans `7 + m + d` characters. */
  predicate DateShape(s: string, i: int, m: int, d: int) {
    0 <= i && 1 <= m <= 2 && 1 <= d <= 2 && i + 7 + m + d <= |s| &&
    DigitsBetween(s, i, i + 4) && s[i + 4] == '年' &&
    DigitsBetween(s, i + 5, i + 5 + m) && s[i + 5 + m] == '月' &&
    DigitsBetween(s, i + 6 + m, i + 6 + m + d) && s[i + 6 + m + d] == '日'
  }

  /** The date group matches `s` at `i` with length `n`. */
  ghost predicate DateAt(s: string, i: int, n: int) {
    exists m, d :: n == 7 + m + d && DateShape(s, i, m, d)
  }

  /** At a given position the date group has at most one shape: a month (or day)
      of two digits leaves a digit where a one-digit month (or day) needs its kanji. */
  lemma DateShapeUnique(s: string, i: int, m: int, d: int, m': int, d': int)
    requires DateShape(s, i, m, d) && DateShape(s, i, m', d')
    ensures m == m' && d == d'
  {
    assert (m == 2) == IsDigit(s[i + 6]) == (m' == 2);
    assert (d == 2) == IsDigit(s[i + 7 + m]) == (d' == 2);
  }

  /** Length of the date group at `i`, or 0 when it does not match there. */
  function DateLengthAt(s: string, i: int): (n: nat)
    requires 0 <= i <= |s|
    ensures n != 0 ==> DateAt(s, i, n) && i + n <= |s|
    ensures forall n' :: DateAt(s, i, n') ==> n' == n
  {
    var n := if DateShape(s, i, 2, 2) then 11
      else if DateShape(s, i, 2, 1) || DateShape(s, i, 1, 2) then 10
      else if DateShape(s, i, 1, 1) then 9
      else 0;
    assert forall m, d :: DateShape(s, i, m, d) ==> n == 7 + m + d by {
      forall m, d | DateShape(s, i, m, d) ensures n == 7 + m + d {
        if DateShape(s, i, 2, 2) { DateShapeUnique(s, i, m, d, 2, 2); }
        else if DateShape(s, i, 2, 1) { DateShapeUnique(s, i, m, d, 2, 1); }
        else if DateShape(s, i, 1, 2) { DateShapeUnique(s, i, m, d, 1, 2); }
      }
    }
    n
  }

  /** `mk` occurs in `s` starting at `k`. */
  predicate StartsAt(s: string, k: int, mk: string)
    requires 0 <= k <= |s|
  {
    k + |mk| <= |s| && s[k..k + |mk|] == mk
  }

  /** One of the alternatives `締切`, `締め切り`, `〆切` of the second group starts at `k`. */
  predicate MarkerAt(s: string, k: int)
    requires 0 <= k <= |s|
  {
    StartsAt(s, k, "締切") || StartsAt(s, k, "締め切り") || StartsAt(s, k, "〆切")
  }

  /** Every marker starts with 締 or 〆. */
  lemma MarkerHead(s: string, k: int)
    requires 0 <= k <= |s| && MarkerAt(s, k)
    ensures k < |s| && (s[k] == '締' || s[k] == '〆')
  {
    if StartsAt(s, k, "締切") {
      assert s[k..k + 2][0] == s[k];
    } else if StartsAt(s, k, "締め切り") {
      assert s[k..k + 4][0] == s[k];
    } else {
      assert s[k..k + 2][0] == s[k];
    }
  }

  predicate NoLineFeed(s: string, lo: int, hi: int)
    requires 0 <= lo <= hi <= |s|
  {
    forall t :: lo <= t < hi ==> s[t] != '\n'
  }

  /** `.*(締切|締め切り|〆切)` matches from `j`: a marker starts at some `k >= j`
      and no line feed lies between `j` and `k`. */
  ghost predicate MarkerAfter(s: string, j: int)
    requires 0 <= j <= |s|
  {
    exists k :: j <= k <= |s| && NoLineFeed(s, j, k) && MarkerAt(s, k)
  }

  lemma MarkerAfterStep(s: string, j: int)
    requires 0 <= j < |s| && !MarkerAt(s, j) && s[j] != '\n'
    ensures MarkerAfter(s, j) <==> MarkerAfter(s, j + 1)
  {
    if MarkerAfter(s, j) {
      var k :| j <= k <= |s| && NoLineFeed(s, j, k) && MarkerAt(s, k);
      assert k != j;
      assert NoLineFeed(s, j + 1, k);
    }
    if MarkerAfter(s, j + 1) {
      var k :| j + 1 <= k <= |s| && NoLineFeed(s, j + 1, k) && MarkerAt(s, k);
      assert NoLineFeed(s, j, k);
    }
  }

  /** Scans forward from `j` for a marker, stopping at the end of the line. */
  function MarkerFollows(s: string, j: int): (r: bool)
    requires 0 <= j <= |s|
    ensures r <==> MarkerAfter(s, j)
    decreases |s| - j
  {
    if MarkerAt(s, j) then
      assert NoLineFeed(s, j, j);
      true
    else if j == |s| then false
    else if s[j] == '\n' then
      assert forall k :: j < k <= |s| ==> !NoLineFeed(s, j, k);
      false
    else
      MarkerAfterStep(s, j);
      MarkerFollows(s, j + 1)
  }

  /** A line feed ends the search for a marker. */
  lemma LineFeedStopsMarker(s: string, j: int)
    requires 0 <= j < |s| && s[j] == '\n'
    ensures !MarkerFollows(s, j)
  {
    if MarkerAt(s, j) {
      MarkerHead(s, j);
    }
  }

  /** The whole pattern matches starting at `i`. */
  ghost predicate MatchesAt(s: string, i: int)
    requires 0 <= i <= |s|
  {
    exists n :: DateAt(s, i, n) && 0 < n && i + n <= |s| && MarkerAfter(s, i + n)
  }

  /** The pattern matches at `i` exactly when a date starts there and a marker follows it on its line. */
  lemma MatchesAtByLength(s: string, i: int)
    requires 0 <= i <= |s|
    ensures MatchesAt(s, i) <==> DateLengthAt(s, i) != 0 && MarkerFollows(s, i + DateLengthAt(s, i))
  {
  }

  /** `re.search` from position `i`: the first position at or after `i` where the pattern matches. */
  function FirstMatch(s: string, i: int): (r: Option<nat>)
    requires 0 <= i <= |s|
    ensures r.None? ==> forall k :: i <= k <= |s| ==> !MatchesAt(s, k)
    ensures r.Some? ==> i <= r.value <= |s| && MatchesAt(s, r.value) &&
                        forall k :: i <= k < r.value ==> !MatchesAt(s, k)
    decreases |s| - i
  {
    MatchesAtByLength(s, i);
    var n := DateLengthAt(s, i);
    if n != 0 && MarkerFollows(s, i + n) then Some(i)
    else if i == |s| then None
    else FirstMatch(s, i + 1)
  }

  /** `deadline_match.group(1) if deadline_match else "詳細はWebサイトで確認"`: the sentinel
      is returned exactly when the pattern matches nowhere. */
  function ExtractDeadline(desc: string): (r: string)
    ensures r == NotStated <==> forall k :: 0 <= k <= |desc| ==> !MatchesAt(desc, k)
  {
    match FirstMatch(desc, 0)
    case None => NotStated
    case Some(k) =>
      MatchesAtByLength(desc, k);
      var n := DateLengthAt(desc, k);
      assert n <= 11 < |NotStated| by {
        var m, d :| n == 7 + m + d && DateShape(desc, k, m, d);
      }
      desc[k..k + n]
  }

  /** Otherwise the result is the date text at the leftmost position where a date is
      followed, on its line, by a marker. */
  lemma ExtractDeadlineIsLeftmostMatch(desc: string)
    requires ExtractDeadline(desc) != NotStated
    ensures exists k, n ::
      0 <= k && 0 < n && k + n <= |desc| && ExtractDeadline(desc) == desc[k..k + n] &&
      DateAt(desc, k, n) && MarkerAfter(desc, k + n) &&
      (forall k' :: 0 <= k' < k ==> !MatchesAt(desc, k'))
  {
    match FirstMatch(desc, 0)
    case None =>
    case Some(k) =>
      MatchesAtByLength(desc, k);
      var n := DateLengthAt(desc, k);
      assert ExtractDeadline(desc) == desc[k..k + n];
  }

  /** A date written in full, `NNNN年N{1,2}月N{1,2}日` and nothing else. */
  ghost predicate IsDateText(t: string) {
    exists m, d :: |t| == 7 + m + d && DateShape(t, 0, m, d)
  }

  /** The date text found at `k` is a date text on its own. */
  lemma DateAtSlice(s: string, k: int, n: int)
    requires 0 <= k && DateAt(s, k, n)
    ensures k + n <= |s| && IsDateText(s[k..k + n])
  {
    var m, d :| n == 7 + m + d && DateShape(s, k, m, d);
    var t := s[k..k + n];
    assert forall j :: 0 <= j < |t| ==> t[j] == s[k + j];
    assert DateShape(t, 0, m, d);
  }

  /** The stored deadline is the sentinel or a date text. */
  lemma DeadlineIsSentinelOrDate(desc: string)
    ensures ExtractDeadline(desc) == NotStated || IsDateText(ExtractDeadline(desc))
  {
    match FirstMatch(desc, 0)
    case None =>
    case Some(k) =>
      MatchesAtByLength(desc, k);
      var n := DateLengthAt(desc, k);
      assert ExtractDeadline(desc) == desc[k..k + n];
      DateAtSlice(desc, k, n);
  }

  /** A description without any deadline marker gets the sentinel. */
  lemma NoMarkerGivesSentinel(desc: string)
    requires forall k :: 0 <= k <= |desc| ==> !MarkerAt(desc, k)
    ensures ExtractDeadline(desc) == NotStated
  {
  }

  /** "2025年4月1日開始、2025年5月31日締切" starts with a date of 9 characters. */
  lemma StartDateExampleDate()
    ensures DateLengthAt("2025年4月1日開始、2025年5月31日締切", 0) == 9
  {
    assert DateShape("2025年4月1日開始、2025年5月31日締切", 0, 1, 1);
  }

  /** In "2025年4月1日開始、2025年5月31日締切" a marker follows the first date on its line. */
  lemma StartDateExampleMarker()
    ensures MarkerFollows("2025年4月1日開始、2025年5月31日締切", 9)
  {
    var s := "2025年4月1日開始、2025年5月31日締切";
    assert StartsAt(s, 22, "締切");
    assert NoLineFeed(s, 9, 22);
  }

  /** The first date on the line wins, even when it is a start date and the
      deadline date comes later: "2025年4月1日開始、2025年5月31日締切" yields "2025年4月1日". */
  lemma StartDateTakenBeforeDeadlineDate()
    ensures ExtractDeadline("2025年4月1日開始、2025年5月31日締切") == "2025年4月1日"
  {
    var s := "2025年4月1日開始、2025年5月31日締切";
    StartDateExampleDate();
    StartDateExampleMarker();
    assert FirstMatch(s, 0) == Some(0);
    assert s[0..9] == "2025年4月1日";
  }

  /** In "2025年5月31日\n締切" the date at the start is followed by a line feed. */
  lemma NextLineExampleStart()
    ensures !MatchesAt("2025年5月31日\n締切", 0)
  {
    var s := "2025年5月31日\n締切";
    MatchesAtByLength(s, 0);
    assert DateShape(s, 0, 1, 2);
    assert DateLengthAt(s, 0) == 10;
    LineFeedStopsMarker(s, 10);
  }

  /** In "2025年5月31日\n締切" no date starts after the first character. */
  lemma NextLineExampleRest(k: int)
    requires 1 <= k <= |"2025年5月31日\n締切"|
    ensures !MatchesAt("2025年5月31日\n締切", k)
  {
    var s := "2025年5月31日\n締切";
    MatchesAtByLength(s, k);
    if k <= 4 {
      assert !IsDigit(s[4]);
    } else if k <= 6 {
      assert !IsDigit(s[6]);
    }
  }

  /** A marker on the next line is not seen: "2025年5月31日\n締切" yields the sentinel. */
  lemma MarkerOnNextLineIgnored()
    ensures ExtractDeadline("2025年5月31日\n締切") == NotStated
  {
    var s := "2025年5月31日\n締切";
    NextLineExampleStart();
    forall k | 1 <= k <= |s| ensures !MatchesAt(s, k) {
      NextLineExampleRest(k);
    }
  }
}
