/**
 * The stored records (backend/server.py:63-101) and the small pure pieces
 * of the lifecycle shared by several operations. Times are integers
 * (seconds of the UTC clock); an issue's id is a natural number drawn from
 * a counter instead of a random UUID.
 */
module Records {
  import opened Wrappers
  import opened Hierarchy

  const OPEN := "Open"
  const IN_PROGRESS := "In Progress"
  const ESCALATED := "Escalated"
  const RESOLVED := "Resolved"

  const STUDENT := "Student"
  /** The acting role recorded on automatic escalations. */
  const SYSTEM := "System"
  /** The roles `update_status` admits. */
  const STAFF_ROLES: seq<string> := ["Admin", "Principal", "HoD", "Warden", "Staff"]

  const DAY := 86400
  /** The SLA window given to a new issue: two days. */
  const SLA_WINDOW := 2 * DAY

  datatype Issue = Issue(
    id: nat,
    category: string,
    summary: string,
    originalText: string,
    status: string,
    urgencyScore: int,
    assignedRole: string,
    frequencyCount: int,
    createdAt: int,
    slaDeadline: int,
    anonToken: string,
    evidenceUrls: seq<string>)

  datatype IssueUpdate = IssueUpdate(
    id: nat,
    issueId: nat,
    role: string,
    contentType: string,
    contentText: Option<string>,
    contentUrl: Option<string>,
    timestamp: int)

  /** A submission as the student sends it; a missing evidence list is the empty one. */
  datatype Feedback = Feedback(category: string, text: string, evidenceUrls: seq<string>)

  /** The moderation service's answer, an input of the model. */
  datatype Verdict = Verdict(isAppropriate: bool, rewrittenText: string, urgencyScore: int, summary: string)

  /** The errors the operations raise as HTTP exceptions. */
  datatype Error =
    | Forbidden              // 403
    | NotFound               // 404
    | InappropriateContent   // 400
    | AlreadyAtHighestLevel  // 400

  datatype Response<T> = Ok(value: T) | Err(error: Error)

  /** The record a first, non-duplicate submission creates. */
  function NewIssue(id: nat, feedback: Feedback, verdict: Verdict, token: string, now: int): (x: Issue)
    ensures x.id == id && x.status == OPEN && x.frequencyCount == 1
    ensures x.assignedRole == RoleHierarchy(feedback.category)[0]
    ensures x.slaDeadline == now + SLA_WINDOW && x.createdAt == now
    ensures x.category == feedback.category && x.summary == verdict.summary && x.anonToken == token
  {
    var hierarchy := RoleHierarchy(feedback.category);
    var assignedRole := if |hierarchy| > 0 then hierarchy[0] else "Staff";
    Issue(id, feedback.category, verdict.summary, feedback.text, OPEN, verdict.urgencyScore,
          assignedRole, 1, now, now + SLA_WINDOW, token, feedback.evidenceUrls)
  }

  /** A duplicate report: the frequency count goes up by one and nothing else changes. */
  function Absorb(x: Issue): (r: Issue)
    ensures r.frequencyCount == x.frequencyCount + 1 && r.(frequencyCount := x.frequencyCount) == x
  {
    x.(frequencyCount := x.frequencyCount + 1)
  }

  /** One escalation step: the new role and status Escalated; the SLA deadline is left as it was. */
  function Escalate(x: Issue, next: string): (r: Issue)
    ensures r.assignedRole == next && r.status == ESCALATED && r.slaDeadline == x.slaDeadline
    ensures r.(assignedRole := x.assignedRole, status := x.status) == x
  {
    x.(assignedRole := next, status := ESCALATED)
  }

  /** `escalate_req.reason or 'Manual escalation'`: a missing or empty reason is replaced. */
  function ReasonText(reason: Option<string>): (t: string)
    ensures t != ""
    ensures reason.Some? && reason.value != "" ==> t == reason.value
  {
    if reason.Some? && reason.value != "" then reason.value else "Manual escalation"
  }

  /** The text of a manual escalation entry: the new role can be read back from it, and so can the reason. */
  function ManualEscalationText(next: string, reason: Option<string>): (t: string)
    ensures |t| == 23 + |next| + |ReasonText(reason)|
    ensures t[..13] == "Escalated to " && t[13..13 + |next|] == next
    ensures t[13 + |next|..23 + |next|] == ". Reason: " && t[23 + |next|..] == ReasonText(reason)
  {
    "Escalated to " + next + ". Reason: " + ReasonText(reason)
  }

  /** The text of an automatic escalation entry: the new role can be read back from it. */
  function AutoEscalationText(next: string): (t: string)
    ensures |t| == 36 + |next|
    ensures t[..18] == "Auto-escalated to " && t[18..18 + |next|] == next && t[18 + |next|..] == " due to SLA breach"
  {
    "Auto-escalated to " + next + " due to SLA breach"
  }

  /** The first position, at `from` or later, of an issue with id `id`. */
  function FindFrom(s: seq<Issue>, id: nat, from: nat): (k: Option<nat>)
    requires from <= |s|
    ensures k.Some? ==> from <= k.value < |s| && s[k.value].id == id &&
                        forall j :: from <= j < k.value ==> s[j].id != id
    ensures k.None? ==> forall j :: from <= j < |s| ==> s[j].id != id
    decreases |s| - from
  {
    if from == |s| then None
    else if s[from].id == id then Some(from)
    else FindFrom(s, id, from + 1)
  }

  /** `find_one({"issue_id": id})`: the position of the first issue with that id, if any. */
  function Find(s: seq<Issue>, id: nat): (k: Option<nat>)
    ensures k.Some? ==> k.value < |s| && s[k.value].id == id && forall j :: 0 <= j < k.value ==> s[j].id != id
    ensures k.None? <==> forall j :: 0 <= j < |s| ==> s[j].id != id
  {
    FindFrom(s, id, 0)
  }

  /** Two issue lists that hold the same ids at the same positions. */
  ghost predicate SameIds(a: seq<Issue>, b: seq<Issue>) {
    |a| == |b| && forall k :: 0 <= k < |a| ==> a[k].id == b[k].id
  }

  lemma FindSameIds(a: seq<Issue>, b: seq<Issue>, id: nat)
    requires SameIds(a, b)
    ensures Find(a, id) == Find(b, id)
  {
  }
}
