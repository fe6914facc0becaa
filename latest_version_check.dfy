/** Access to the latest-version tab of a node for editors and reviewers. */
module LatestVersionCheck {
  import opened AccessResults
  import opened Participants
  import ParticipantsAccessChecker

  const ViewLatest := "view latest version"
  const ViewUnpublished := "view any unpublished content"

  /** The permissions the route normally requires, re-checked here. */
  const RoutePermissions: seq<string> := [ViewLatest, ViewUnpublished]

  /** Allowed when the account holds both route permissions or participates in the node. */
  function Access(account: Account, node: Entity, storage: Storage): (r: AccessResult)
    ensures r.outcome != Forbidden
    ensures r.outcome == Allowed <==>
      (HasPermission(account, ViewLatest) && HasPermission(account, ViewUnpublished)) ||
      IsParticipant(storage(node), account)
    ensures OnParticipants in r.deps
    ensures r.deps == {OnPermissions, OnParticipants}
  {
    var participants := storage(node);
    AddDependency(
      OrIf(AllowedIfHasAllPermissions(account.permissions, RoutePermissions),
           AddDependency(AllowedIf(IsEditor(participants, account) || IsReviewer(participants, account)), OnParticipants)),
      OnParticipants)
  }

  /** One of the two permissions alone opens nothing for a non-participant. */
  lemma OnePermissionIsNotEnough(account: Account, node: Entity, storage: Storage)
    requires !IsParticipant(storage(node), account)
    requires !HasPermission(account, ViewLatest) || !HasPermission(account, ViewUnpublished)
    ensures Access(account, node, storage).outcome == Neutral
  {
  }

  /** Adding the account to editors or reviewers can only turn neutral into allowed. */
  lemma MonotoneInMembership(account: Account, node: Entity, storage: Storage, storage': Storage)
    requires storage(node).editorIds <= storage'(node).editorIds
    requires storage(node).reviewerIds <= storage'(node).reviewerIds
    ensures Access(account, node, storage).outcome == Allowed ==> Access(account, node, storage').outcome == Allowed
  {
  }

  /**
   * A participant allowed to view the unpublished node or to update it can also
   * see its latest version.
   */
  lemma EntityAccessImpliesLatestVersion(node: Entity, operation: string, account: Account, storage: Storage)
    requires ParticipantsAccessChecker.HasEntityAccess(node, operation, account, storage).outcome == Allowed
    ensures Access(account, node, storage).outcome == Allowed
  {
  }
}
