/**
 * The static role hierarchy (backend/server.py:141-151) and the one-step
 * escalation target that both escalation paths compute from it
 * (backend/server.py:379-385 and 452-456).
 */
module Hierarchy {
  import opened Wrappers

  /** The terminal role of every chain. */
  const PRINCIPAL := "Principal"

  /** The chain for a category the table does not list. */
  const DEFAULT_CHAIN: seq<string> := ["Staff", "Admin", "Principal"]

  /** The category -> chain table, as the source spells it out. */
  const TABLE: map<string, seq<string>> := map[
    "Academics" := ["Staff", "HoD", "Admin", "Principal"],
    "Hostel" := ["Warden", "Admin", "Principal"],
    "Infrastructure" := ["Staff", "Admin", "Principal"],
    "Food" := ["Staff", "Admin", "Principal"],
    "Transportation" := ["Staff", "Admin", "Principal"],
    "Other" := ["Staff", "Admin", "Principal"]
  ]

  ghost predicate Distinct(chain: seq<string>) {
    forall i, j :: 0 <= i < j < |chain| ==> chain[i] != chain[j]
  }

  /**
   * The ordered chain of roles an issue of `category` climbs. Every chain is
   * non-empty, has no repeated role, ends in Principal and mentions Principal
   * nowhere else; unknown categories get the default chain.
   */
  function RoleHierarchy(category: string): (chain: seq<string>)
    ensures |chain| > 0
    ensures chain[|chain| - 1] == PRINCIPAL
    ensures forall i :: 0 <= i < |chain| - 1 ==> chain[i] != PRINCIPAL
    ensures Distinct(chain)
    ensures chain[0] == "Staff" || chain[0] == "Warden"
    ensures category !in TABLE ==> chain == DEFAULT_CHAIN
  {
    if category in TABLE then TABLE[category] else DEFAULT_CHAIN
  }

  /**
   * Python's `chain.index(role) if role in chain else -1`: the position of the
   * first occurrence of `role`, or -1 when it does not occur.
   */
  function RoleIndex(chain: seq<string>, role: string): (i: int)
    ensures -1 <= i < |chain|
    ensures i == -1 <==> role !in chain
    ensures 0 <= i ==> chain[i] == role && forall k :: 0 <= k < i ==> chain[k] != role
  {
    if |chain| == 0 then -1
    else if chain[0] == role then 0
    else
      var j := RoleIndex(chain[1..], role);
      if j == -1 then -1 else j + 1
  }

  /**
   * One escalation step along `chain`, as both escalation paths compute it:
   * refused exactly at the last role; a role at position i < last moves to
   * i + 1; a role outside the chain (index -1) moves to the first role.
   */
  function NextInChain(chain: seq<string>, role: string): (next: Option<string>)
    requires |chain| > 0 && Distinct(chain)
    ensures next.None? <==> role == chain[|chain| - 1]
    ensures role !in chain ==> next == Some(chain[0])
    ensures forall i :: 0 <= i < |chain| - 1 && chain[i] == role ==> next == Some(chain[i + 1])
  {
    var index := RoleIndex(chain, role);
    if index >= |chain| - 1 then None else Some(chain[index + 1])
  }

  /**
   * The role an issue of `category` assigned to `role` is escalated to, or
   * None when the index check `current_index >= len(hierarchy) - 1` refuses.
   * The only role that cannot be escalated is Principal.
   */
  function NextRole(category: string, role: string): (next: Option<string>)
    ensures next.None? <==> role == PRINCIPAL
    ensures role !in RoleHierarchy(category) ==> next == Some(RoleHierarchy(category)[0])
    ensures forall i :: 0 <= i < |RoleHierarchy(category)| - 1 && RoleHierarchy(category)[i] == role ==>
              next == Some(RoleHierarchy(category)[i + 1])
  {
    NextInChain(RoleHierarchy(category), role)
  }

  /** The role reached after `n` escalation attempts, each refused one leaving the role as it is. */
  function Climb(category: string, role: string, n: nat): string
    decreases n
  {
    if n == 0 then role
    else match NextRole(category, role)
      case None => role
      case Some(next) => Climb(category, next, n - 1)
  }

  /** From position `i` of the chain, `n` escalations reach position min(i + n, |chain| - 1). */
  lemma {:induction false} ClimbAlongChain(category: string, i: nat, n: nat)
    requires i < |RoleHierarchy(category)|
    ensures var chain := RoleHierarchy(category);
            Climb(category, chain[i], n) == chain[Min(i + n, |chain| - 1)]
    decreases n
  {
    var chain := RoleHierarchy(category);
    if n > 0 && i < |chain| - 1 {
      assert NextRole(category, chain[i]) == Some(chain[i + 1]);
      ClimbAlongChain(category, i + 1, n - 1);
    }
  }

  /** A new issue (assigned to the chain's first role) sits at entry min(n, |chain| - 1) after n escalations. */
  lemma ClimbFromEntry(category: string, n: nat)
    ensures var chain := RoleHierarchy(category);
            Climb(category, chain[0], n) == chain[Min(n, |chain| - 1)]
  {
    ClimbAlongChain(category, 0, n);
  }

  /** Whatever role an issue holds, |chain| escalations bring it to Principal and no further. */
  lemma ClimbReachesPrincipal(category: string, role: string, extra: nat)
    ensures Climb(category, role, |RoleHierarchy(category)| + extra) == PRINCIPAL
  {
    var chain := RoleHierarchy(category);
    var k := |chain| + extra;
    if role in chain {
      var i := RoleIndex(chain, role);
      ClimbAlongChain(category, i, k);
    } else {
      assert NextRole(category, role) == Some(chain[0]);
      ClimbAlongChain(category, 0, k - 1);
    }
  }
}
