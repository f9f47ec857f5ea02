/**
 * The issue store the request handlers change in place: the issues
 * collection, the update ledger and the id counter that stands in for
 * `uuid4`. Each method is one handler of backend/server.py with the
 * database calls replaced by updates of these fields; the caller's role,
 * the moderation verdict, the hash, the day and the time are arguments.
 */
module Store {
  import opened Wrappers
  import opened Hierarchy
  import opened Identity
  import opened Text
  import opened Records
  import opened Dedup
  import opened SlaSweep
  import opened Ledger

  /** What `submit_feedback` answers: the issue the report was filed under and whether it is new. */
  datatype Submission = Submission(issueId: nat, isNew: bool)

  /**
   * The store invariant: issue ids and update ids increase along their
   * sequences and are below the counter, and every update belongs to a
   * stored issue.
   */
  ghost predicate Consistent(issues: seq<Issue>, updates: seq<IssueUpdate>, nextId: nat) {
    (forall a, b :: 0 <= a < b < |issues| ==> issues[a].id < issues[b].id) &&
    (forall a :: 0 <= a < |issues| ==> issues[a].id < nextId) &&
    (forall a, b :: 0 <= a < b < |updates| ==> updates[a].id < updates[b].id) &&
    (forall a :: 0 <= a < |updates| ==> updates[a].id < nextId) &&
    (forall a :: 0 <= a < |updates| ==> Find(issues, updates[a].issueId).Some?)
  }

  lemma ConsistentSameIds(a: seq<Issue>, b: seq<Issue>, updates: seq<IssueUpdate>, nextId: nat)
    requires Consistent(a, updates, nextId) && SameIds(a, b)
    ensures Consistent(b, updates, nextId)
  {
    forall u | 0 <= u < |updates| ensures Find(b, updates[u].issueId).Some? {
      FindSameIds(a, b, updates[u].issueId);
    }
  }

  lemma ConsistentAddIssue(issues: seq<Issue>, updates: seq<IssueUpdate>, nextId: nat, x: Issue)
    requires Consistent(issues, updates, nextId) && x.id == nextId
    ensures Consistent(issues + [x], updates, nextId + 1)
  {
    forall u | 0 <= u < |updates| ensures Find(issues + [x], updates[u].issueId).Some? {
      var k := Find(issues, updates[u].issueId).value;
      assert (issues + [x])[k] == issues[k];
    }
  }

  lemma ConsistentAddUpdate(issues: seq<Issue>, updates: seq<IssueUpdate>, nextId: nat, e: IssueUpdate)
    requires Consistent(issues, updates, nextId) && e.id == nextId && Find(issues, e.issueId).Some?
    ensures Consistent(issues, updates + [e], nextId + 1)
  {
  }

  /** Appending entries numbered on from the counter, each for a stored issue, keeps the invariant. */
  lemma ConsistentAddEntries(issues: seq<Issue>, updates: seq<IssueUpdate>, nextId: nat, log: seq<IssueUpdate>)
    requires Consistent(issues, updates, nextId)
    requires forall j :: 0 <= j < |log| ==> log[j].id == nextId + j && Find(issues, log[j].issueId).Some?
    ensures Consistent(issues, updates + log, nextId + |log|)
  {
    var all := updates + log;
    forall a, b | 0 <= a < b < |all| ensures all[a].id < all[b].id {
      if b < |updates| {
        assert all[a] == updates[a] && all[b] == updates[b];
      } else if a < |updates| {
        assert all[a] == updates[a] && all[b] == log[b - |updates|];
      } else {
        assert all[a] == log[a - |updates|] && all[b] == log[b - |updates|];
      }
    }
  }

  /** The sweep keeps the store invariant. */
  lemma SweepConsistent(s: seq<Issue>, updates: seq<IssueUpdate>, nextId: nat, now: int)
    requires Consistent(s, updates, nextId)
    ensures Consistent(Sweep(s, now), updates + SweepLog(s, now, nextId, |s|), nextId + EscalationCount(s, now))
  {
    var r := Sweep(s, now);
    ConsistentSameIds(s, r, updates, nextId);
    var log := SweepLog(s, now, nextId, |s|);
    SweepLogLength(s, now, nextId, |s|);
    forall j | 0 <= j < |log| ensures log[j].id == nextId + j && Find(r, log[j].issueId).Some? {
      var k := SweepLogOwner(s, now, nextId, |s|, j);
      assert r[k].id == log[j].issueId;
    }
    ConsistentAddEntries(r, updates, nextId, log);
  }

  /** With ascending ids, looking up the id of position k finds position k. */
  lemma FindAscending(s: seq<Issue>, k: nat)
    requires forall a, b :: 0 <= a < b < |s| ==> s[a].id < s[b].id
    requires k < |s|
    ensures Find(s, s[k].id) == Some(k)
  {
  }

  /**
   * The scan of `submit_feedback` over the stored issues `s`: the position of
   * the first of the first 100 non-Resolved issues of `category` whose
   * lower-cased summary contains the lower-cased `summary`, if any.
   */
  method ScanForDuplicate(s: seq<Issue>, category: string, summary: string) returns (dup: Option<nat>)
    ensures dup == DuplicateOf(s, category, summary)
  {
    var needle := Lower(summary);
    var i, seen := 0, 0;
    while i < |s|
      invariant 0 <= i <= |s|
      invariant seen == CountCandidates(s[..i], category)
      invariant forall k :: 0 <= k < i ==> !MatchAt(s, category, summary, k)
    {
      var existing := s[i];
      assert s[..i + 1][..i] == s[..i];
      if IsCandidate(existing, category) {
        if seen < DEDUP_SCAN_LIMIT && Contains(Lower(existing.summary), needle) {
          assert MatchAt(s, category, summary, i);
          return Some(i);
        }
        seen := seen + 1;
      }
      i := i + 1;
    }
    return None;
  }

  /**
   * The loop of `check_escalation` over the issues `s`, the ledger `log0` and
   * the id counter `id0`: the swept issues, the extended ledger and the
   * number of escalations, as the sweep specification gives them.
   */
  method RunSweep(s: seq<Issue>, log0: seq<IssueUpdate>, id0: nat, now: int)
    returns (t: seq<Issue>, log: seq<IssueUpdate>, escalatedCount: nat)
    ensures t == Sweep(s, now)
    ensures escalatedCount == EscalationCount(s, now)
    ensures log == log0 + SweepLog(s, now, id0, |s|)
  {
    t, log := s, log0;
    var id := id0;
    var i, seen := 0, 0;
    escalatedCount := 0;
    while i < |t|
      invariant i <= |t| == |s|
      invariant SweepState(s, now, id0, log0, i, t, log, id, escalatedCount, seen)
    {
      var x := t[i];
      var next := NextRole(x.category, x.assignedRole);
      if Breached(x, now) && seen < SWEEP_LIMIT && next.Some? {
        SweepStateEscalate(s, now, id0, log0, i, t, log, id, escalatedCount, seen);
        t := t[i := Escalate(x, next.value)];
        log := log + [AutoEntry(id, x, next.value, now)];
        id := id + 1;
        escalatedCount := escalatedCount + 1;
        seen := seen + 1;
      } else {
        SweepStateSkip(s, now, id0, log0, i, t, log, id, escalatedCount, seen);
        if Breached(x, now) {
          seen := seen + 1;
        }
      }
      i := i + 1;
    }
    SweepStateDone(s, now, id0, log0, t, log, id, escalatedCount, seen);
  }

  class IssueStore {
    var issues: seq<Issue>
    var updates: seq<IssueUpdate>
    var nextId: nat

    ghost predicate Valid()
      reads this
    {
      Consistent(issues, updates, nextId)
    }

    constructor ()
      ensures Valid() && issues == [] && updates == []
    {
      issues, updates, nextId := [], [], 0;
    }

    /**
     * `submit_feedback` (backend/server.py:256-302). Only students submit; an
     * inappropriate verdict stops the submission; otherwise the report is
     * filed as `FileReport` describes. The returned id always finds the issue
     * the report was filed under; a new issue's id was free before.
     */
    method SubmitFeedback(role: string, uid: string, feedback: Feedback, verdict: Verdict,
                          hash: string -> Digest, day: Date, now: int) returns (r: Response<Submission>)
      requires Valid() && ValidDate(day)
      modifies this
      ensures Valid()
      ensures updates == old(updates)
      ensures role != STUDENT ==> r == Err(Forbidden) && issues == old(issues) && nextId == old(nextId)
      ensures role == STUDENT && !verdict.isAppropriate ==>
                r == Err(InappropriateContent) && issues == old(issues) && nextId == old(nextId)
      ensures role == STUDENT && verdict.isAppropriate ==>
                var dup := DuplicateOf(old(issues), feedback.category, verdict.summary);
                if dup.Some? then
                  r == Ok(Submission(old(issues)[dup.value].id, false)) &&
                  issues == old(issues)[dup.value := Absorb(old(issues)[dup.value])] &&
                  nextId == old(nextId) &&
                  Find(issues, old(issues)[dup.value].id) == dup
                else
                  r == Ok(Submission(old(nextId), true)) &&
                  issues == old(issues) + [NewIssue(old(nextId), feedback, verdict, AnonToken(hash, uid, day), now)] &&
                  nextId == old(nextId) + 1 &&
                  Find(old(issues), old(nextId)).None? && Find(issues, old(nextId)) == Some(|old(issues)|)
    {
      if role != STUDENT {
        return Err(Forbidden);
      }
      if !verdict.isAppropriate {
        return Err(InappropriateContent);
      }
      var sub := FileReport(uid, feedback, verdict, hash, day, now);
      r := Ok(sub);
    }

    /**
     * The part of `submit_feedback` after both checks (backend/server.py:268-302):
     * the first scanned issue that absorbs the summary has its frequency
     * count raised by one; when there is none a new Open issue is appended
     * under the next free id.
     */
    method FileReport(uid: string, feedback: Feedback, verdict: Verdict,
                      hash: string -> Digest, day: Date, now: int) returns (sub: Submission)
      requires Valid() && ValidDate(day)
      modifies this
      ensures Valid()
      ensures updates == old(updates)
      ensures var dup := DuplicateOf(old(issues), feedback.category, verdict.summary);
              if dup.Some? then
                sub == Submission(old(issues)[dup.value].id, false) &&
                issues == old(issues)[dup.value := Absorb(old(issues)[dup.value])] &&
                nextId == old(nextId) &&
                Find(issues, sub.issueId) == dup
              else
                sub == Submission(old(nextId), true) &&
                issues == old(issues) + [NewIssue(old(nextId), feedback, verdict, AnonToken(hash, uid, day), now)] &&
                nextId == old(nextId) + 1 &&
                Find(old(issues), old(nextId)).None? && Find(issues, old(nextId)) == Some(|old(issues)|)
    {
      var dup := ScanForDuplicate(issues, feedback.category, verdict.summary);
      if dup.Some? {
        sub := Submission(issues[dup.value].id, false);
        AbsorbAt(dup.value);
      } else {
        sub := Submission(nextId, true);
        Insert(NewIssue(nextId, feedback, verdict, AnonToken(hash, uid, day), now));
      }
    }

    /** `update_one(..., {"$inc": {"frequency_count": 1}})` on the issue at position `k`. */
    method AbsorbAt(k: nat)
      requires Valid() && k < |issues|
      modifies this
      ensures Valid()
      ensures issues == old(issues)[k := Absorb(old(issues)[k])]
      ensures updates == old(updates) && nextId == old(nextId)
      ensures Find(issues, old(issues)[k].id) == Some(k)
    {
      ConsistentSameIds(issues, issues[k := Absorb(issues[k])], updates, nextId);
      issues := issues[k := Absorb(issues[k])];
      FindAscending(issues, k);
    }

    /** `insert_one` of a new issue carrying the next free id. */
    method Insert(x: Issue)
      requires Valid() && x.id == nextId
      modifies this
      ensures Valid()
      ensures issues == old(issues) + [x]
      ensures updates == old(updates) && nextId == old(nextId) + 1
      ensures Find(old(issues), x.id).None? && Find(issues, x.id) == Some(|old(issues)|)
    {
      ConsistentAddIssue(issues, updates, nextId, x);
      issues := issues + [x];
      FindAscending(issues, |issues| - 1);
      nextId := nextId + 1;
    }

    /**
     * `add_update` (backend/server.py:344-367). Students are refused; a
     * missing issue is NotFound; otherwise one entry with the caller's role is
     * appended and the issue's status becomes In Progress, whatever it was.
     */
    method AddUpdate(issueId: nat, callerRole: string, contentType: string, contentText: Option<string>, now: int)
      returns (r: Response<()>)
      requires Valid()
      modifies this
      ensures Valid()
      ensures callerRole == STUDENT ==> r == Err(Forbidden) && unchanged(this)
      ensures callerRole != STUDENT && Find(old(issues), issueId).None? ==> r == Err(NotFound) && unchanged(this)
      ensures callerRole != STUDENT && Find(old(issues), issueId).Some? ==>
                var k := Find(old(issues), issueId).value;
                r == Ok(()) &&
                issues == old(issues)[k := old(issues)[k].(status := IN_PROGRESS)] &&
                updates == old(updates) + [IssueUpdate(old(nextId), issueId, callerRole, contentType, contentText, None, now)] &&
                nextId == old(nextId) + 1
    {
      if callerRole == STUDENT {
        return Err(Forbidden);
      }
      var found := Find(issues, issueId);
      if found.None? {
        return Err(NotFound);
      }
      var k := found.value;
      var entry := IssueUpdate(nextId, issueId, callerRole, contentType, contentText, None, now);
      ConsistentAddUpdate(issues, updates, nextId, entry);
      updates := updates + [entry];
      nextId := nextId + 1;
      ConsistentSameIds(issues, issues[k := issues[k].(status := IN_PROGRESS)], updates, nextId);
      issues := issues[k := issues[k].(status := IN_PROGRESS)];
      r := Ok(());
    }

    /**
     * `escalate_issue` (backend/server.py:369-400). Students are refused; a
     * missing issue is NotFound; an issue at Principal stays as it is and the
     * call fails; otherwise the issue moves to the next role, becomes
     * Escalated (its deadline unchanged, whatever its status was) and one
     * text entry in the caller's role records the step and the reason.
     */
    method EscalateIssue(issueId: nat, callerRole: string, reason: Option<string>, now: int)
      returns (r: Response<string>)
      requires Valid()
      modifies this
      ensures Valid()
      ensures callerRole == STUDENT ==> r == Err(Forbidden) && unchanged(this)
      ensures callerRole != STUDENT && Find(old(issues), issueId).None? ==> r == Err(NotFound) && unchanged(this)
      ensures callerRole != STUDENT && Find(old(issues), issueId).Some? ==>
                var k := Find(old(issues), issueId).value;
                var x := old(issues)[k];
                match NextRole(x.category, x.assignedRole)
                case None => r == Err(AlreadyAtHighestLevel) && unchanged(this)
                case Some(next) =>
                  r == Ok(next) &&
                  issues == old(issues)[k := Escalate(x, next)] &&
                  updates == old(updates) +
                    [IssueUpdate(old(nextId), issueId, callerRole, "text", Some(ManualEscalationText(next, reason)), None, now)] &&
                  nextId == old(nextId) + 1
    {
      if callerRole == STUDENT {
        return Err(Forbidden);
      }
      var found := Find(issues, issueId);
      if found.None? {
        return Err(NotFound);
      }
      var k := found.value;
      var x := issues[k];
      var next := NextRole(x.category, x.assignedRole);
      if next.None? {
        return Err(AlreadyAtHighestLevel);
      }
      ConsistentSameIds(issues, issues[k := Escalate(x, next.value)], updates, nextId);
      issues := issues[k := Escalate(x, next.value)];
      var entry := IssueUpdate(nextId, issueId, callerRole, "text", Some(ManualEscalationText(next.value, reason)), None, now);
      ConsistentAddUpdate(issues, updates, nextId, entry);
      updates := updates + [entry];
      nextId := nextId + 1;
      r := Ok(next.value);
    }

    /**
     * `update_status` (backend/server.py:402-413). Only the five staff roles
     * may call it; they may set any status string. An unknown issue id
     * matches nothing and the call still succeeds.
     */
    method UpdateStatus(issueId: nat, callerRole: string, status: string) returns (r: Response<()>)
      requires Valid()
      modifies this
      ensures Valid()
      ensures updates == old(updates) && nextId == old(nextId)
      ensures callerRole !in STAFF_ROLES ==> r == Err(Forbidden) && issues == old(issues)
      ensures callerRole in STAFF_ROLES ==>
                r == Ok(()) &&
                match Find(old(issues), issueId)
                case None => issues == old(issues)
                case Some(k) => issues == old(issues)[k := old(issues)[k].(status := status)]
    {
      if callerRole !in STAFF_ROLES {
        return Err(Forbidden);
      }
      var found := Find(issues, issueId);
      if found.Some? {
        var k := found.value;
        ConsistentSameIds(issues, issues[k := issues[k].(status := status)], updates, nextId);
        issues := issues[k := issues[k].(status := status)];
      }
      r := Ok(());
    }

    /**
     * `check_escalation` (backend/server.py:437-472): the sweep at time
     * `now`. The new issues, the appended audit entries and the reported
     * count are those of the sweep specification.
     */
    method CheckEscalation(now: int) returns (escalatedCount: nat)
      requires Valid()
      modifies this
      ensures Valid()
      ensures issues == Sweep(old(issues), now)
      ensures escalatedCount == EscalationCount(old(issues), now)
      ensures updates == old(updates) + SweepLog(old(issues), now, old(nextId), |old(issues)|)
      ensures nextId == old(nextId) + escalatedCount
    {
      var swept, log, count := RunSweep(issues, updates, nextId, now);
      SweepConsistent(issues, updates, nextId, now);
      issues, updates, nextId, escalatedCount := swept, log, nextId + count, count;
    }

    /**
     * `get_issue` (backend/server.py:330-342): the issue without its
     * anonymous token, and its update list.
     */
    function GetIssue(issueId: nat): (r: Response<(Issue, seq<IssueUpdate>)>)
      reads this
      ensures Find(issues, issueId).None? <==> r == Err(NotFound)
      ensures r.Ok? ==>
                var x := issues[Find(issues, issueId).value];
                r.value.0 == x.(anonToken := "") && r.value.0.anonToken == "" &&
                r.value.1 == ListUpdates(updates, issueId)
    {
      match Find(issues, issueId)
      case None => Err(NotFound)
      case Some(k) => Ok((issues[k].(anonToken := ""), ListUpdates(updates, issueId)))
    }
  }
}
