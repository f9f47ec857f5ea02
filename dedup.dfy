/**
 * Which existing issue absorbs a new submission (backend/server.py:268-280).
 * The query returns at most 100 issues of the submission's category whose
 * status is not Resolved, in stored order; the first of them whose
 * lower-cased summary contains the new lower-cased summary wins.
 */
module Dedup {
  import opened Wrappers
  import opened Text
  import opened Records

  /** `to_list(100)` on the candidate query. */
  const DEDUP_SCAN_LIMIT := 100

  /** The query filter: same category, not Resolved. */
  predicate IsCandidate(x: Issue, category: string): (b: bool)
    ensures b ==> x.category == category
    ensures x.status == RESOLVED ==> !b
  {
    x.category == category && x.status != RESOLVED
  }

  function CountCandidates(s: seq<Issue>, category: string): nat {
    if s == [] then 0
    else CountCandidates(s[..|s| - 1], category) + (if IsCandidate(s[|s| - 1], category) then 1 else 0)
  }

  /** Position `k` is among the issues the query returns. */
  predicate Scanned(s: seq<Issue>, category: string, k: nat): (b: bool)
    requires k < |s|
    ensures b ==> IsCandidate(s[k], category)
    ensures b ==> CountCandidates(s[..k + 1], category) <= DEDUP_SCAN_LIMIT
  {
    assert s[..k + 1][..k] == s[..k];
    IsCandidate(s[k], category) && CountCandidates(s[..k], category) < DEDUP_SCAN_LIMIT
  }

  /** `summary.lower() in existing.summary.lower()`. */
  predicate Absorbs(x: Issue, summary: string): (b: bool)
    ensures summary == "" ==> b
    ensures Lower(summary) == Lower(x.summary) ==> b
  {
    Contains(Lower(x.summary), Lower(summary))
  }

  predicate MatchAt(s: seq<Issue>, category: string, summary: string, k: nat)
    requires k < |s|
  {
    Scanned(s, category, k) && Absorbs(s[k], summary)
  }

  function FirstMatchFrom(s: seq<Issue>, category: string, summary: string, from: nat): (k: Option<nat>)
    requires from <= |s|
    ensures k.Some? ==> from <= k.value < |s| && MatchAt(s, category, summary, k.value) &&
                        forall j :: from <= j < k.value ==> !MatchAt(s, category, summary, j)
    ensures k.None? ==> forall j :: from <= j < |s| ==> !MatchAt(s, category, summary, j)
    decreases |s| - from
  {
    if from == |s| then None
    else if MatchAt(s, category, summary, from) then Some(from)
    else FirstMatchFrom(s, category, summary, from + 1)
  }

  /**
   * The position of the issue a submission with `summary` in `category`
   * is counted against, or None when it starts a new issue. The chosen issue
   * is in the category, is not Resolved, is among the first 100 such issues
   * and absorbs the summary; no earlier scanned issue does.
   */
  function DuplicateOf(s: seq<Issue>, category: string, summary: string): (k: Option<nat>)
    ensures k.Some? ==> k.value < |s| && s[k.value].category == category && s[k.value].status != RESOLVED &&
                        Absorbs(s[k.value], summary) && MatchAt(s, category, summary, k.value) &&
                        forall j :: 0 <= j < k.value ==> !MatchAt(s, category, summary, j)
    ensures k.None? <==> forall j :: 0 <= j < |s| ==> !MatchAt(s, category, summary, j)
  {
    FirstMatchFrom(s, category, summary, 0)
  }

  /** Appending an issue does not change which earlier positions are scanned or matched. */
  lemma MatchAtAppend(s: seq<Issue>, x: Issue, category: string, summary: string, k: nat)
    requires k < |s|
    ensures MatchAt(s + [x], category, summary, k) == MatchAt(s, category, summary, k)
  {
    assert (s + [x])[..k] == s[..k];
  }

  /**
   * The same report submitted twice lands on one issue: once a submission
   * has created an issue (nothing absorbed it and the candidate window was
   * not full), resubmitting the same summary, in any letter case, is counted
   * against that new issue.
   */
  lemma RestatementIsAbsorbed(s: seq<Issue>, x: Issue, category: string, summary: string, again: string)
    requires DuplicateOf(s, category, summary) == None
    requires CountCandidates(s, category) < DEDUP_SCAN_LIMIT
    requires x.category == category && x.status == OPEN && x.summary == summary
    requires Lower(again) == Lower(summary)
    ensures DuplicateOf(s + [x], category, again) == Some(|s|)
  {
    var t := s + [x];
    assert t[..|s|] == s;
    ContainsSelf(Lower(summary));
    assert MatchAt(t, category, again, |s|);
    forall j | 0 <= j < |s| ensures !MatchAt(t, category, again, j) {
      MatchAtAppend(s, x, category, again, j);
      assert !MatchAt(s, category, summary, j);
    }
  }

  /** Submissions whose summaries agree up to letter case are routed to the same issue. */
  lemma CaseInsensitive(s: seq<Issue>, category: string, a: string, b: string)
    requires Lower(a) == Lower(b)
    ensures DuplicateOf(s, category, a) == DuplicateOf(s, category, b)
  {
    assert forall j :: 0 <= j < |s| ==> MatchAt(s, category, a, j) == MatchAt(s, category, b, j);
  }

  lemma {:induction false} NoCandidatesCountZero(s: seq<Issue>, category: string)
    requires forall j :: 0 <= j < |s| ==> !IsCandidate(s[j], category)
    ensures CountCandidates(s, category) == 0
  {
    if s != [] {
      NoCandidatesCountZero(s[..|s| - 1], category);
    }
  }

  /**
   * An empty summary is a substring of every summary, so such a submission is
   * counted against the first open issue of its category, whatever that
   * issue is about.
   */
  lemma EmptySummaryJoinsFirstCandidate(s: seq<Issue>, category: string, first: nat)
    requires first < |s| && IsCandidate(s[first], category)
    requires forall j :: 0 <= j < first ==> !IsCandidate(s[j], category)
    ensures DuplicateOf(s, category, "") == Some(first)
  {
    NoCandidatesCountZero(s[..first], category);
    assert Lower("") == "";
    assert MatchAt(s, category, "", first);
  }

  lemma {:induction false} CountCandidatesMonotone(s: seq<Issue>, category: string, i: nat, j: nat)
    requires i <= j <= |s|
    ensures CountCandidates(s[..i], category) <= CountCandidates(s[..j], category)
    decreases j - i
  {
    if i < j {
      CountCandidatesMonotone(s, category, i, j - 1);
      assert s[..j][..j - 1] == s[..j - 1];
    }
  }

  /**
   * The window of `to_list(100)`: once 100 non-Resolved issues of a category
   * are stored, no issue stored after them is scanned, so none of them can
   * absorb a report and a restatement of a later issue opens another one.
   */
  lemma DedupWindowFull(s: seq<Issue>, category: string, summary: string, n: nat)
    requires n <= |s| && CountCandidates(s[..n], category) >= DEDUP_SCAN_LIMIT
    ensures forall k :: n <= k < |s| ==> !Scanned(s, category, k)
    ensures DuplicateOf(s, category, summary).Some? ==> DuplicateOf(s, category, summary).value < n
  {
    forall k | n <= k < |s| ensures !Scanned(s, category, k) {
      CountCandidatesMonotone(s, category, n, k);
    }
  }
}
