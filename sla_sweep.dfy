/**
 * The SLA sweep `check_escalation` (backend/server.py:437-472) as a
 * function of the stored issues and the current time. The query returns at
 * most 1000 issues whose status is Open or In Progress and whose deadline
 * has passed, in stored order; each of them not at the terminal role moves
 * one step up its chain, becomes Escalated and gets a System audit entry.
 */
module SlaSweep {
  import opened Wrappers
  import opened Hierarchy
  import opened Records

  /** `to_list(1000)` on the breach query. */
  const SWEEP_LIMIT := 1000

  /** The breach query's filter. */
  predicate Breached(x: Issue, now: int): (b: bool)
    ensures b ==> x.slaDeadline < now
    ensures x.status == ESCALATED || x.status == RESOLVED ==> !b
  {
    (x.status == OPEN || x.status == IN_PROGRESS) && x.slaDeadline < now
  }

  function CountBreached(s: seq<Issue>, now: int): nat {
    if s == [] then 0
    else CountBreached(s[..|s| - 1], now) + (if Breached(s[|s| - 1], now) then 1 else 0)
  }

  /** Position `k` is among the issues the breach query returns. */
  predicate Selected(s: seq<Issue>, now: int, k: nat): (b: bool)
    requires k < |s|
    ensures b ==> Breached(s[k], now)
    ensures b ==> CountBreached(s[..k + 1], now) <= SWEEP_LIMIT
  {
    assert s[..k + 1][..k] == s[..k];
    Breached(s[k], now) && CountBreached(s[..k], now) < SWEEP_LIMIT
  }

  /**
   * Position `k` is selected and its role has somewhere to go: the test
   * `current_index < len(hierarchy) - 1` fails exactly for the last role of
   * the chain, and every chain ends at Principal (the first ensures of
   * `NextRole`).
   */
  predicate Escalates(s: seq<Issue>, now: int, k: nat)
    requires k < |s|
  {
    Selected(s, now, k) && s[k].assignedRole != PRINCIPAL
  }

  /** What the sweep leaves at position `k`. */
  function SweepOne(s: seq<Issue>, now: int, k: nat): Issue
    requires k < |s|
  {
    if Escalates(s, now, k) then Escalate(s[k], NextRole(s[k].category, s[k].assignedRole).value) else s[k]
  }

  /**
   * The issues after one sweep at time `now`. Only issues that are Open or
   * In Progress with a passed deadline change; a changed issue has moved to
   * the next role of its chain and is Escalated, with the same deadline and
   * every other field as before; Principal issues never change.
   */
  function Sweep(s: seq<Issue>, now: int): (r: seq<Issue>)
    ensures SameIds(s, r)
    ensures forall k :: 0 <= k < |s| && !Breached(s[k], now) ==> r[k] == s[k]
    ensures forall k :: 0 <= k < |s| && s[k].assignedRole == PRINCIPAL ==> r[k] == s[k]
    ensures forall k :: 0 <= k < |s| && Selected(s, now, k) && s[k].assignedRole != PRINCIPAL ==>
              r[k] == Escalate(s[k], NextRole(s[k].category, s[k].assignedRole).value)
    ensures forall k :: 0 <= k < |s| && r[k] != s[k] ==>
              NextRole(s[k].category, s[k].assignedRole) == Some(r[k].assignedRole) &&
              r[k] == Escalate(s[k], r[k].assignedRole) && r[k].slaDeadline == s[k].slaDeadline
  {
    seq(|s|, k requires 0 <= k < |s| => SweepOne(s, now, k))
  }

  /** The number of positions below `n` the sweep escalates. */
  function CountEscalated(s: seq<Issue>, now: int, n: nat): nat
    requires n <= |s|
  {
    if n == 0 then 0 else CountEscalated(s, now, n - 1) + (if Escalates(s, now, n - 1) then 1 else 0)
  }

  /** The `escalated_count` the sweep reports. */
  function EscalationCount(s: seq<Issue>, now: int): (c: nat)
    ensures c <= SWEEP_LIMIT && c <= CountBreached(s, now)
  {
    CountEscalatedBounded(s, now, |s|);
    assert s[..|s|] == s;
    CountEscalated(s, now, |s|)
  }

  /** The audit entry an automatic escalation of `x` to `next` appends. */
  function AutoEntry(id: nat, x: Issue, next: string, now: int): (e: IssueUpdate)
    ensures e.role == SYSTEM && e.issueId == x.id && e.contentText == Some(AutoEscalationText(next))
  {
    IssueUpdate(id, x.id, SYSTEM, "text", Some(AutoEscalationText(next)), None, now)
  }

  /** The audit entries for the positions below `n`, in the order the sweep appends them. */
  function SweepLog(s: seq<Issue>, now: int, firstId: nat, n: nat): (log: seq<IssueUpdate>)
    requires n <= |s|
    ensures |log| <= n
  {
    if n == 0 then []
    else
      SweepLog(s, now, firstId, n - 1) +
      if Escalates(s, now, n - 1)
      then [AutoEntry(firstId + CountEscalated(s, now, n - 1), s[n - 1],
                      NextRole(s[n - 1].category, s[n - 1].assignedRole).value, now)]
      else []
  }

  /** One position further: how each part of the specification grows. */
  lemma SweepStep(s: seq<Issue>, now: int, firstId: nat, i: nat)
    requires i < |s|
    ensures CountBreached(s[..i + 1], now) == CountBreached(s[..i], now) + if Breached(s[i], now) then 1 else 0
    ensures Escalates(s, now, i) <==>
              Breached(s[i], now) && CountBreached(s[..i], now) < SWEEP_LIMIT &&
              NextRole(s[i].category, s[i].assignedRole).Some?
    ensures CountEscalated(s, now, i + 1) == CountEscalated(s, now, i) + if Escalates(s, now, i) then 1 else 0
    ensures SweepOne(s, now, i) ==
              if Escalates(s, now, i) then Escalate(s[i], NextRole(s[i].category, s[i].assignedRole).value) else s[i]
    ensures SweepLog(s, now, firstId, i + 1) ==
              SweepLog(s, now, firstId, i) +
              if Escalates(s, now, i)
              then [AutoEntry(firstId + CountEscalated(s, now, i), s[i], NextRole(s[i].category, s[i].assignedRole).value, now)]
              else []
  {
    assert s[..i + 1][..i] == s[..i];
  }

  /**
   * The state of the sweep loop after the first `i` positions: `t` holds the
   * swept issues below `i` and the untouched ones from `i` on, `log` the audit
   * entries so far, `id` the next free id, `count` the escalations and `seen`
   * the breached issues met so far.
   */
  ghost predicate SweepState(s: seq<Issue>, now: int, firstId: nat, log0: seq<IssueUpdate>, i: nat,
                             t: seq<Issue>, log: seq<IssueUpdate>, id: nat, count: nat, seen: nat)
  {
    i <= |s| && |t| == |s| &&
    seen == CountBreached(s[..i], now) &&
    count == CountEscalated(s, now, i) &&
    id == firstId + count &&
    (forall k :: 0 <= k < i ==> t[k] == SweepOne(s, now, k)) &&
    (forall k :: i <= k < |s| ==> t[k] == s[k]) &&
    log == log0 + SweepLog(s, now, firstId, i)
  }

  /** A turn of the sweep loop that escalates position `i` keeps its state. */
  lemma SweepStateEscalate(s: seq<Issue>, now: int, firstId: nat, log0: seq<IssueUpdate>, i: nat,
                           t: seq<Issue>, log: seq<IssueUpdate>, id: nat, count: nat, seen: nat)
    requires SweepState(s, now, firstId, log0, i, t, log, id, count, seen) && i < |s|
    requires Breached(s[i], now) && seen < SWEEP_LIMIT && NextRole(s[i].category, s[i].assignedRole).Some?
    ensures var next := NextRole(s[i].category, s[i].assignedRole).value;
            SweepState(s, now, firstId, log0, i + 1, t[i := Escalate(s[i], next)],
                       log + [AutoEntry(id, s[i], next, now)], id + 1, count + 1, seen + 1)
  {
    SweepStep(s, now, firstId, i);
  }

  /** A turn of the sweep loop that leaves position `i` alone keeps its state. */
  lemma SweepStateSkip(s: seq<Issue>, now: int, firstId: nat, log0: seq<IssueUpdate>, i: nat,
                       t: seq<Issue>, log: seq<IssueUpdate>, id: nat, count: nat, seen: nat)
    requires SweepState(s, now, firstId, log0, i, t, log, id, count, seen) && i < |s|
    requires !(Breached(s[i], now) && seen < SWEEP_LIMIT && NextRole(s[i].category, s[i].assignedRole).Some?)
    ensures SweepState(s, now, firstId, log0, i + 1, t, log, id, count,
                       if Breached(s[i], now) then seen + 1 else seen)
  {
    SweepStep(s, now, firstId, i);
  }

  /** At the end of the loop its state is the sweep's result. */
  lemma SweepStateDone(s: seq<Issue>, now: int, firstId: nat, log0: seq<IssueUpdate>,
                       t: seq<Issue>, log: seq<IssueUpdate>, id: nat, count: nat, seen: nat)
    requires SweepState(s, now, firstId, log0, |s|, t, log, id, count, seen)
    ensures t == Sweep(s, now)
    ensures count == EscalationCount(s, now)
    ensures log == log0 + SweepLog(s, now, firstId, |s|)
  {
  }

  /** The number of positions below `n` where `a` and `b` differ. */
  function CountChanged(a: seq<Issue>, b: seq<Issue>, n: nat): nat
    requires n <= |a| && n <= |b|
  {
    if n == 0 then 0 else CountChanged(a, b, n - 1) + (if a[n - 1] != b[n - 1] then 1 else 0)
  }

  lemma {:induction false} CountBreachedMonotone(s: seq<Issue>, now: int, i: nat, j: nat)
    requires i <= j <= |s|
    ensures CountBreached(s[..i], now) <= CountBreached(s[..j], now)
    decreases j - i
  {
    if i < j {
      CountBreachedMonotone(s, now, i, j - 1);
      assert s[..j][..j - 1] == s[..j - 1];
    }
  }

  /** When no more than 1000 issues are breached, each one is selected. */
  lemma SelectedWhenWithinLimit(s: seq<Issue>, now: int, k: nat)
    requires k < |s| && Breached(s[k], now)
    requires CountBreached(s, now) <= SWEEP_LIMIT
    ensures Selected(s, now, k)
  {
    CountBreachedMonotone(s, now, k + 1, |s|);
    assert s[..k + 1][..k] == s[..k];
    assert s[..|s|] == s;
  }

  /**
   * When no more than 1000 issues are breached, every breached issue not at
   * Principal is escalated one step.
   */
  lemma SweepEscalatesEveryBreach(s: seq<Issue>, now: int, k: nat)
    requires k < |s| && Breached(s[k], now) && s[k].assignedRole != PRINCIPAL
    requires CountBreached(s, now) <= SWEEP_LIMIT
    ensures Sweep(s, now)[k] == Escalate(s[k], NextRole(s[k].category, s[k].assignedRole).value)
  {
    SelectedWhenWithinLimit(s, now, k);
  }

  lemma {:induction false} NothingEscalatesCountsZero(s: seq<Issue>, now: int, n: nat)
    requires n <= |s|
    requires forall k :: 0 <= k < n ==> !Escalates(s, now, k)
    ensures CountEscalated(s, now, n) == 0
  {
    if n > 0 {
      NothingEscalatesCountsZero(s, now, n - 1);
    }
  }

  /**
   * Running the sweep again at the same time escalates nothing and changes
   * nothing, provided the first run saw every breached issue (at most 1000).
   * No deadline is reset: what protects an escalated issue is its status,
   * which the breach query no longer matches.
   */
  lemma SweepIdempotent(s: seq<Issue>, now: int)
    requires CountBreached(s, now) <= SWEEP_LIMIT
    ensures EscalationCount(Sweep(s, now), now) == 0
    ensures Sweep(Sweep(s, now), now) == Sweep(s, now)
  {
    var r := Sweep(s, now);
    forall k | 0 <= k < |r| ensures !Escalates(r, now, k) {
      if Breached(r[k], now) {
        assert r[k] == s[k];
        SelectedWhenWithinLimit(s, now, k);
      }
    }
    NothingEscalatesCountsZero(r, now, |r|);
  }

  /** `escalated_count` is exactly the number of issues the sweep changed. */
  lemma {:induction false} CountIsChanges(s: seq<Issue>, now: int, n: nat)
    requires n <= |s|
    ensures CountEscalated(s, now, n) == CountChanged(s, Sweep(s, now), n)
  {
    if n > 0 {
      CountIsChanges(s, now, n - 1);
      var r := Sweep(s, now);
      assert Escalates(s, now, n - 1) <==> r[n - 1] != s[n - 1];
    }
  }

  lemma SweepCountIsChanges(s: seq<Issue>, now: int)
    ensures EscalationCount(s, now) == CountChanged(s, Sweep(s, now), |s|)
  {
    CountIsChanges(s, now, |s|);
  }

  lemma {:induction false} CountEscalatedBounded(s: seq<Issue>, now: int, n: nat)
    requires n <= |s|
    ensures CountEscalated(s, now, n) <= CountBreached(s[..n], now)
    ensures CountEscalated(s, now, n) <= SWEEP_LIMIT
  {
    if n > 0 {
      CountEscalatedBounded(s, now, n - 1);
      assert s[..n][..n - 1] == s[..n - 1];
    }
  }

  /** Later positions have a higher rank among the escalations. */
  lemma {:induction false} CountEscalatedStrict(s: seq<Issue>, now: int, k1: nat, k2: nat)
    requires k1 < k2 <= |s| && Escalates(s, now, k1)
    ensures CountEscalated(s, now, k1) < CountEscalated(s, now, k2)
    decreases k2
  {
    if k2 > k1 + 1 {
      CountEscalatedStrict(s, now, k1, k2 - 1);
    }
  }

  /**
   * Every escalated position has its entry, at its rank among the
   * escalations: numbered on from `firstId`, by System, stamped `now`, naming
   * the issue and reading "Auto-escalated to <role> due to SLA breach".
   */
  lemma {:induction false} SweepLogEntry(s: seq<Issue>, now: int, firstId: nat, n: nat, k: nat)
    requires k < n <= |s| && Escalates(s, now, k)
    ensures CountEscalated(s, now, k) < |SweepLog(s, now, firstId, n)|
    ensures SweepLog(s, now, firstId, n)[CountEscalated(s, now, k)] ==
              AutoEntry(firstId + CountEscalated(s, now, k), s[k], NextRole(s[k].category, s[k].assignedRole).value, now)
  {
    SweepLogLength(s, now, firstId, n);
    CountEscalatedStrict(s, now, k, n);
    if k < n - 1 {
      SweepLogEntry(s, now, firstId, n - 1, k);
      SweepLogPrefix(s, now, firstId, n, CountEscalated(s, now, k));
    } else {
      SweepLogLast(s, now, firstId, n);
      SweepLogLength(s, now, firstId, n - 1);
    }
  }

  /** The sweep appends exactly one entry per escalation. */
  lemma {:induction false} SweepLogLength(s: seq<Issue>, now: int, firstId: nat, n: nat)
    requires n <= |s|
    ensures |SweepLog(s, now, firstId, n)| == CountEscalated(s, now, n)
  {
    if n > 0 {
      SweepLogLength(s, now, firstId, n - 1);
    }
  }

  /** Extending the log keeps the entries already there. */
  lemma SweepLogPrefix(s: seq<Issue>, now: int, firstId: nat, n: nat, j: nat)
    requires 0 < n <= |s| && j < |SweepLog(s, now, firstId, n - 1)|
    ensures SweepLog(s, now, firstId, n)[j] == SweepLog(s, now, firstId, n - 1)[j]
  {
  }

  /** An escalated position appends its entry at the end. */
  lemma SweepLogLast(s: seq<Issue>, now: int, firstId: nat, n: nat)
    requires 0 < n <= |s| && Escalates(s, now, n - 1)
    ensures SweepLog(s, now, firstId, n) ==
              SweepLog(s, now, firstId, n - 1) +
              [AutoEntry(firstId + CountEscalated(s, now, n - 1), s[n - 1],
                         NextRole(s[n - 1].category, s[n - 1].assignedRole).value, now)]
  {
  }

  /** Every entry is the entry of the escalated position whose rank it has. */
  lemma {:induction false} SweepLogOwner(s: seq<Issue>, now: int, firstId: nat, n: nat, j: nat) returns (k: nat)
    requires n <= |s| && j < |SweepLog(s, now, firstId, n)|
    ensures k < n && Escalates(s, now, k) && CountEscalated(s, now, k) == j
    ensures SweepLog(s, now, firstId, n)[j] ==
              AutoEntry(firstId + j, s[k], NextRole(s[k].category, s[k].assignedRole).value, now)
  {
    var prev, log := SweepLog(s, now, firstId, n - 1), SweepLog(s, now, firstId, n);
    SweepLogLength(s, now, firstId, n - 1);
    if j < |prev| {
      k := SweepLogOwner(s, now, firstId, n - 1, j);
      assert log[j] == prev[j];
    } else {
      k := n - 1;
      assert Escalates(s, now, k) by {
        assert |log| > |prev|;
      }
      assert j == CountEscalated(s, now, k);
    }
  }

  /** Distinct escalated positions have distinct ranks, hence distinct entries. */
  lemma SweepLogRanks(s: seq<Issue>, now: int, n: nat)
    requires n <= |s|
    ensures forall k1, k2 :: 0 <= k1 < k2 < n && Escalates(s, now, k1) ==>
              CountEscalated(s, now, k1) < CountEscalated(s, now, k2)
  {
    forall k1, k2 | 0 <= k1 < k2 < n && Escalates(s, now, k1)
      ensures CountEscalated(s, now, k1) < CountEscalated(s, now, k2)
    {
      CountEscalatedStrict(s, now, k1, k2);
    }
  }

  /** The sweep appends no other entries: each one is the System entry of some escalated position. */
  lemma SweepLogOwners(s: seq<Issue>, now: int, firstId: nat, n: nat)
    requires n <= |s|
    ensures forall j :: 0 <= j < |SweepLog(s, now, firstId, n)| ==>
              var e := SweepLog(s, now, firstId, n)[j];
              e.id == firstId + j && e.role == SYSTEM && e.timestamp == now &&
              exists k :: 0 <= k < n && Escalates(s, now, k) && CountEscalated(s, now, k) == j && e.issueId == s[k].id
  {
    forall j | 0 <= j < |SweepLog(s, now, firstId, n)|
      ensures var e := SweepLog(s, now, firstId, n)[j];
              e.id == firstId + j && e.role == SYSTEM && e.timestamp == now &&
              exists k :: 0 <= k < n && Escalates(s, now, k) && CountEscalated(s, now, k) == j && e.issueId == s[k].id
    {
      var k := SweepLogOwner(s, now, firstId, n, j);
    }
  }
}
