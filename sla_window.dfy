/**
 * The window of the SLA sweep. The breach query of `check_escalation`
 * (backend/server.py:442-448) matches every Open or In Progress issue past
 * its deadline, those assigned to Principal included, and keeps the first
 * 1000 in stored order; the loop then skips the Principal ones
 * (backend/server.py:455). Breached Principal issues therefore keep their
 * places in the window on every run. Such issues arise in normal use: an
 * issue escalated to Principal and then updated is In Progress again, and
 * no escalation resets its deadline.
 *
 * `SweepWindowBlocked` shows the sweep as written doing nothing at all once
 * 1000 such issues come first. `FixedSweep` is the sweep with the terminal
 * role left out of the query; it always escalates the earliest breached
 * issue below Principal, and it agrees with the sweep as written whenever
 * no breached issue sits at Principal.
 */
module SlaWindow {
  import opened Wrappers
  import opened Hierarchy
  import opened Records
  import opened SlaSweep

  lemma {:induction false} AllBreachedCount(s: seq<Issue>, now: int, n: nat)
    requires n <= |s|
    requires forall k :: 0 <= k < n ==> Breached(s[k], now)
    ensures CountBreached(s[..n], now) == n
  {
    if n > 0 {
      AllBreachedCount(s, now, n - 1);
      assert s[..n][..n - 1] == s[..n - 1];
    }
  }

  /**
   * As written: when the first 1000 stored issues are breached and at
   * Principal, the sweep changes nothing, whatever follows them, and so
   * does every later sweep.
   */
  lemma SweepWindowBlocked(s: seq<Issue>, now: int)
    requires |s| >= SWEEP_LIMIT
    requires forall k :: 0 <= k < SWEEP_LIMIT ==> Breached(s[k], now) && s[k].assignedRole == PRINCIPAL
    ensures Sweep(s, now) == s
  {
    AllBreachedCount(s, now, SWEEP_LIMIT);
    forall k | SWEEP_LIMIT <= k < |s| ensures Sweep(s, now)[k] == s[k] {
      CountBreachedMonotone(s, now, SWEEP_LIMIT, k);
    }
  }

  /**
   * An Open issue of the Food category with its deadline at time 0. A Food
   * issue starts at Staff and climbs Staff, Admin, Principal.
   */
  function OverdueIssue(id: nat, role: string): (x: Issue)
    ensures Breached(x, 1) && x.assignedRole == role
  {
    Issue(id, "Food", "Cold lunch", "Cold lunch", OPEN, 5, role, 1, 0, 0, "", [])
  }

  /**
   * A concrete store that shows it: 1000 overdue Principal issues followed
   * by one overdue Staff issue, all of the Food category: a store the
   * handlers reach (two escalations and an update make a Food issue In
   * Progress at Principal with its first deadline). The Staff issue is
   * breached and its chain goes on to Admin, yet the sweep leaves it
   * untouched.
   */
  lemma SweepStarvesStaffIssue()
    ensures var s := seq(SWEEP_LIMIT + 1, k requires 0 <= k => OverdueIssue(k, if k < SWEEP_LIMIT then PRINCIPAL else "Staff"));
            Breached(s[SWEEP_LIMIT], 1) &&
            s[SWEEP_LIMIT].assignedRole == RoleHierarchy(s[SWEEP_LIMIT].category)[0] &&
            NextRole(s[SWEEP_LIMIT].category, s[SWEEP_LIMIT].assignedRole) == Some("Admin") &&
            Sweep(s, 1)[SWEEP_LIMIT] == s[SWEEP_LIMIT]
  {
    var s := seq(SWEEP_LIMIT + 1, k requires 0 <= k => OverdueIssue(k, if k < SWEEP_LIMIT then PRINCIPAL else "Staff"));
    forall k | 0 <= k < SWEEP_LIMIT ensures Breached(s[k], 1) && s[k].assignedRole == PRINCIPAL {
      assert s[k] == OverdueIssue(k, PRINCIPAL);
    }
    SweepWindowBlocked(s, 1);
    assert s[SWEEP_LIMIT] == OverdueIssue(SWEEP_LIMIT, "Staff");
  }

  /** The breach query with `assigned_role` different from Principal added. */
  predicate Eligible(x: Issue, now: int) {
    Breached(x, now) && x.assignedRole != PRINCIPAL
  }

  function CountEligible(s: seq<Issue>, now: int): nat {
    if s == [] then 0
    else CountEligible(s[..|s| - 1], now) + (if Eligible(s[|s| - 1], now) then 1 else 0)
  }

  /** Position `k` is among the first 1000 eligible issues. */
  predicate FixedSelected(s: seq<Issue>, now: int, k: nat)
    requires k < |s|
  {
    Eligible(s[k], now) && CountEligible(s[..k], now) < SWEEP_LIMIT
  }

  function FixedSweepOne(s: seq<Issue>, now: int, k: nat): Issue
    requires k < |s|
  {
    if FixedSelected(s, now, k) then Escalate(s[k], NextRole(s[k].category, s[k].assignedRole).value) else s[k]
  }

  /**
   * The corrected sweep: the first 1000 breached issues below Principal each
   * move one step up their chain and become Escalated; nothing else changes.
   */
  function FixedSweep(s: seq<Issue>, now: int): (r: seq<Issue>)
    ensures SameIds(s, r)
    ensures forall k :: 0 <= k < |s| && !Eligible(s[k], now) ==> r[k] == s[k]
    ensures forall k :: 0 <= k < |s| && r[k] != s[k] ==>
              NextRole(s[k].category, s[k].assignedRole) == Some(r[k].assignedRole) &&
              r[k] == Escalate(s[k], r[k].assignedRole)
  {
    seq(|s|, k requires 0 <= k < |s| => FixedSweepOne(s, now, k))
  }

  /** Some position below `n` is eligible: the first one has no eligible issue before it. */
  lemma {:induction false} FirstEligible(s: seq<Issue>, now: int, n: nat) returns (m: nat)
    requires n <= |s| && CountEligible(s[..n], now) > 0
    ensures m < n && Eligible(s[m], now) && CountEligible(s[..m], now) == 0
  {
    assert s[..n] != [];
    assert s[..n][..n - 1] == s[..n - 1];
    if CountEligible(s[..n - 1], now) > 0 {
      m := FirstEligible(s, now, n - 1);
    } else {
      m := n - 1;
    }
  }

  /**
   * Corrected: whenever some breached issue is below Principal, the sweep
   * escalates the earliest such issue, so it always makes progress.
   */
  lemma FixedSweepProgress(s: seq<Issue>, now: int, k: nat) returns (m: nat)
    requires k < |s| && Eligible(s[k], now)
    ensures m <= k && Eligible(s[m], now)
    ensures FixedSweep(s, now)[m] == Escalate(s[m], NextRole(s[m].category, s[m].assignedRole).value)
    ensures FixedSweep(s, now) != s
  {
    assert s[..k + 1][..k] == s[..k];
    m := FirstEligible(s, now, k + 1);
    assert FixedSweep(s, now)[m].status == ESCALATED != s[m].status;
  }

  lemma {:induction false} CountEligibleIsBreached(s: seq<Issue>, now: int, n: nat)
    requires n <= |s|
    requires forall k :: 0 <= k < n && Breached(s[k], now) ==> s[k].assignedRole != PRINCIPAL
    ensures CountEligible(s[..n], now) == CountBreached(s[..n], now)
  {
    if n > 0 {
      CountEligibleIsBreached(s, now, n - 1);
      assert s[..n][..n - 1] == s[..n - 1];
    }
  }

  /** The correction changes nothing while no breached issue sits at Principal. */
  lemma FixedSweepAgrees(s: seq<Issue>, now: int)
    requires forall k :: 0 <= k < |s| && Breached(s[k], now) ==> s[k].assignedRole != PRINCIPAL
    ensures FixedSweep(s, now) == Sweep(s, now)
  {
    forall k | 0 <= k < |s| ensures FixedSweep(s, now)[k] == Sweep(s, now)[k] {
      CountEligibleIsBreached(s, now, k);
    }
  }
}
