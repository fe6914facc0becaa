/**
 * The small part of Drupal's AccessResult value that the access checkers rely on:
 * a three-valued outcome plus the set of things the decision depends on
 * (what `addCacheableDependency` and `allowedIfHasPermission` attach).
 */
module AccessResults {

  datatype Outcome = Allowed | Neutral | Forbidden

  /** What a decision must be invalidated on. */
  datatype Dependency =
    | OnEntity        // the moderated node itself
    | OnParticipants  // the participant set of that node
    | OnPermissions   // the permissions of the current user

  datatype AccessResult = AccessResult(outcome: Outcome, deps: set<Dependency>)

  /** A fresh result with no dependencies. */
  function Of(o: Outcome): (r: AccessResult)
    ensures r.outcome == o && r.deps == {}
  {
    AccessResult(o, {})
  }

  /** `AccessResult::allowedIf($cond)`: allowed when the condition holds, neutral otherwise. */
  function AllowedIf(cond: bool): (r: AccessResult)
    ensures r.outcome == Allowed <==> cond
    ensures r.outcome != Forbidden
    ensures r.deps == {}
  {
    AccessResult(if cond then Allowed else Neutral, {})
  }

  /** `$result->addCacheableDependency($x)`: same outcome, one more dependency. */
  function AddDependency(a: AccessResult, d: Dependency): (r: AccessResult)
    ensures r.outcome == a.outcome
    ensures r.deps == a.deps + {d}
  {
    a.(deps := a.deps + {d})
  }

  /** `$a->orIf($b)`: Forbidden dominates, then Allowed, then Neutral. */
  function OrIf(a: AccessResult, b: AccessResult): (r: AccessResult)
    ensures r.outcome == Forbidden <==> a.outcome == Forbidden || b.outcome == Forbidden
    ensures r.outcome == Allowed <==> r.outcome != Forbidden && (a.outcome == Allowed || b.outcome == Allowed)
    ensures r.deps == a.deps + b.deps
  {
    var o :=
      if a.outcome == Forbidden || b.outcome == Forbidden then Forbidden
      else if a.outcome == Allowed || b.outcome == Allowed then Allowed
      else Neutral;
    AccessResult(o, a.deps + b.deps)
  }

  /** `$a->andIf($b)`: Forbidden dominates; Allowed only when both are Allowed. */
  function AndIf(a: AccessResult, b: AccessResult): (r: AccessResult)
    ensures r.outcome == Forbidden <==> a.outcome == Forbidden || b.outcome == Forbidden
    ensures r.outcome == Allowed <==> a.outcome == Allowed && b.outcome == Allowed
    ensures r.deps == a.deps + b.deps
  {
    var o :=
      if a.outcome == Forbidden || b.outcome == Forbidden then Forbidden
      else if a.outcome == Allowed && b.outcome == Allowed then Allowed
      else Neutral;
    AccessResult(o, a.deps + b.deps)
  }

  /** `AccessResult::allowedIfHasPermission($account, $p)`. */
  function AllowedIfHasPermission(permissions: set<string>, p: string): (r: AccessResult)
    ensures r.outcome == Allowed <==> p in permissions
    ensures r.outcome != Forbidden
    ensures r.deps == {OnPermissions}
  {
    AccessResult(if p in permissions then Allowed else Neutral, {OnPermissions})
  }

  /**
   * `AccessResult::allowedIfHasPermissions($account, $ps)` with its default 'AND'
   * conjunction: allowed when the list is non-empty and every permission is held.
   * Only a non-empty list makes the result depend on the user's permissions.
   */
  function AllowedIfHasAllPermissions(permissions: set<string>, ps: seq<string>): (r: AccessResult)
    ensures r.outcome == Allowed <==> |ps| > 0 && forall i :: 0 <= i < |ps| ==> ps[i] in permissions
    ensures r.outcome != Forbidden
    ensures |ps| > 0 ==> r.deps == {OnPermissions}
    ensures |ps| == 0 ==> r.deps == {}
  {
    var all := |ps| > 0 && forall p | p in ps :: p in permissions;
    AccessResult(if all then Allowed else Neutral, if |ps| > 0 then {OnPermissions} else {})
  }
}
