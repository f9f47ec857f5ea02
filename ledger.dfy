/**
 * Reading the update ledger of one issue (backend/server.py:337-340): the
 * entries of that issue, newest first, at most 100 of them.
 */
module Ledger {
  import opened Wrappers
  import opened Records

  /** `to_list(100)` on the ledger query. */
  const LIST_LIMIT := 100

  /** The entries for `issueId`, last appended first. */
  function NewestFirst(ledger: seq<IssueUpdate>, issueId: nat): (r: seq<IssueUpdate>)
    ensures forall u :: u in r <==> u in ledger && u.issueId == issueId
    ensures |r| <= |ledger|
  {
    if ledger == [] then []
    else
      var last := ledger[|ledger| - 1];
      var rest := NewestFirst(ledger[..|ledger| - 1], issueId);
      assert ledger == ledger[..|ledger| - 1] + [last];
      if last.issueId == issueId then [last] + rest else rest
  }

  /**
   * The update list `get_issue` returns: only entries of the issue, every
   * entry of the issue when it has at most 100, otherwise the newest 100.
   */
  function ListUpdates(ledger: seq<IssueUpdate>, issueId: nat): (r: seq<IssueUpdate>)
    ensures |r| == Min(|NewestFirst(ledger, issueId)|, LIST_LIMIT)
    ensures r <= NewestFirst(ledger, issueId)
    ensures forall u :: u in r ==> u in ledger && u.issueId == issueId
    ensures |NewestFirst(ledger, issueId)| <= LIST_LIMIT ==>
              forall u :: u in ledger && u.issueId == issueId ==> u in r
  {
    var all := NewestFirst(ledger, issueId);
    if |all| <= LIST_LIMIT then all else all[..LIST_LIMIT]
  }

  ghost predicate Chronological(ledger: seq<IssueUpdate>) {
    forall i, j :: 0 <= i < j < |ledger| ==> ledger[i].timestamp <= ledger[j].timestamp
  }

  ghost predicate NewestFirstOrder(r: seq<IssueUpdate>) {
    forall i, j :: 0 <= i < j < |r| ==> r[i].timestamp >= r[j].timestamp
  }

  lemma {:induction false} NewestFirstSorted(ledger: seq<IssueUpdate>, issueId: nat)
    requires Chronological(ledger)
    ensures NewestFirstOrder(NewestFirst(ledger, issueId))
  {
    if ledger != [] {
      var init := ledger[..|ledger| - 1];
      NewestFirstSorted(init, issueId);
      var rest := NewestFirst(init, issueId);
      forall u | u in rest ensures u.timestamp <= ledger[|ledger| - 1].timestamp {
        var i :| 0 <= i < |init| && init[i] == u;
      }
    }
  }

  /**
   * When the ledger was appended in clock order, the list is sorted by
   * timestamp, newest first, as the query's `sort("timestamp", -1)` asks.
   */
  lemma ListUpdatesSorted(ledger: seq<IssueUpdate>, issueId: nat)
    requires Chronological(ledger)
    ensures NewestFirstOrder(ListUpdates(ledger, issueId))
  {
    NewestFirstSorted(ledger, issueId);
  }
}
