/**
 * The access checker for the "manage participants" route and the entity
 * view/update decision for participants of a moderated node.
 */
module ParticipantsAccessChecker {
  import opened Wrappers
  import opened AccessResults
  import opened Participants

  const ManageAll := "manage workflow participants"
  const ManageOwn := "manage own workflow participants"

  /**
   * Route access to the participant management form of `node`. Checked in order:
   * moderation, the sitewide permission, participation, then ownership together
   * with the "own" permission.
   */
  function ManageAccess(account: Account, node: Entity, storage: Storage): (r: AccessResult)
    // An entity that cannot be moderated is always forbidden.
    ensures !node.isModerated ==> r == AccessResult(Forbidden, {OnEntity})
    // Otherwise the sitewide permission always opens the route.
    ensures node.isModerated && HasPermission(account, ManageAll) ==> r == AccessResult(Allowed, {OnEntity})
    // The full case table of the outcome.
    ensures r.outcome == Allowed <==>
      node.isModerated &&
      (HasPermission(account, ManageAll) ||
       (node.hasOwner &&
        (IsParticipant(storage(node), account) ||
         (HasPermission(account, ManageOwn) && node.ownerId == account.id))))
    ensures r.outcome == Forbidden <==>
      !node.isModerated || (!HasPermission(account, ManageAll) && !node.hasOwner)
    // The node is always a dependency; the participant set only on the branch
    // that granted access because of membership.
    ensures OnEntity in r.deps
    ensures OnParticipants in r.deps <==>
      node.isModerated && !HasPermission(account, ManageAll) && node.hasOwner &&
      IsParticipant(storage(node), account)
  {
    if !node.isModerated then
      AddDependency(Of(Forbidden), OnEntity)
    else if HasPermission(account, ManageAll) then
      AddDependency(Of(Allowed), OnEntity)
    else if node.hasOwner then
      var participants := storage(node);
      if IsEditor(participants, account) || IsReviewer(participants, account) then
        AddDependency(AddDependency(Of(Allowed), OnEntity), OnParticipants)
      else
        AddDependency(
          AndIf(AllowedIfHasPermission(account.permissions, ManageOwn),
                AllowedIf(node.ownerId == account.id)),
          OnEntity)
    else
      // `$participants` is never assigned on this path, so only the node is a dependency.
      AddDependency(Of(Forbidden), OnEntity)
  }

  /**
   * Entity access for participants: view of unpublished content for editors and
   * reviewers, update for editors, neutral otherwise.
   */
  function HasEntityAccess(entity: Entity, operation: string, account: Account, storage: Storage): (r: AccessResult)
    // Participants never cause a denial.
    ensures r.outcome != Forbidden
    ensures r.outcome == Allowed <==>
      entity.isNode && IsSaved(storage(entity)) && !HasNoParticipants(storage(entity)) &&
      ((operation == "view" && !entity.isPublished && IsParticipant(storage(entity), account)) ||
       (operation == "update" && IsEditor(storage(entity), account)))
    // The participant set is a dependency exactly when a saved one was consulted.
    ensures r.deps <= {OnParticipants}
    ensures OnParticipants in r.deps <==> entity.isNode && IsSaved(storage(entity))
  {
    if !entity.isNode then
      Of(Neutral)
    else
      var participants := storage(entity);
      if !IsSaved(participants) || HasNoParticipants(participants) then
        if IsSaved(participants) then AddDependency(Of(Neutral), OnParticipants) else Of(Neutral)
      else if operation == "view" && !entity.isPublished then
        AddDependency(AllowedIf(IsReviewer(participants, account) || IsEditor(participants, account)), OnParticipants)
      else if operation == "update" then
        AddDependency(AllowedIf(IsEditor(participants, account)), OnParticipants)
      else
        AddDependency(Of(Neutral), OnParticipants)
  }

  /** Without a saved, non-empty participant set every operation is neutral for everyone. */
  lemma NeutralWithoutParticipants(entity: Entity, operation: string, account: Account, storage: Storage)
    requires !entity.isNode || !IsSaved(storage(entity)) || HasNoParticipants(storage(entity))
    ensures HasEntityAccess(entity, operation, account, storage).outcome == Neutral
  {
  }

  /** Delete, view of published content and any other operation are never granted. */
  lemma NeverGrantsOtherOperations(entity: Entity, operation: string, account: Account, storage: Storage)
    requires operation != "update"
    requires operation != "view" || entity.isPublished
    ensures HasEntityAccess(entity, operation, account, storage).outcome == Neutral
  {
  }

  /** A reviewer who is not also an editor never gets update. */
  lemma ReviewerNeverUpdates(entity: Entity, account: Account, storage: Storage)
    requires !IsEditor(storage(entity), account)
    ensures HasEntityAccess(entity, "update", account, storage).outcome == Neutral
  {
  }

  /**
   * Whoever participant access lets see or edit a moderated node can also open
   * that node's participant management route.
   */
  lemma EntityAccessImpliesManageAccess(node: Entity, operation: string, account: Account, storage: Storage)
    requires node.isModerated && node.hasOwner
    requires HasEntityAccess(node, operation, account, storage).outcome == Allowed
    ensures ManageAccess(account, node, storage).outcome == Allowed
  {
  }

  /**
   * On the ownership branch the outcome depends on membership, yet the participant
   * set is not recorded as a dependency: adding the account as a reviewer turns the
   * cached neutral into allowed without invalidating it.
   */
  lemma OwnerBranchOmitsParticipantsDependency(account: Account, node: Entity, storage: Storage)
    requires node.isModerated && node.hasOwner && !HasPermission(account, ManageAll)
    requires !IsParticipant(storage(node), account)
    requires !(HasPermission(account, ManageOwn) && node.ownerId == account.id)
    ensures ManageAccess(account, node, storage).outcome == Neutral
    ensures OnParticipants !in ManageAccess(account, node, storage).deps
    ensures
      var p := storage(node);
      var joined := p.(reviewerIds := p.reviewerIds + {account.id});
      ManageAccess(account, node, e => if e == node then joined else storage(e)).outcome == Allowed
  {
  }

  /**
   * A reviewer who removes themself from the reviewers, and holds neither
   * management permission route, loses access to the management form while
   * the remaining reviewers keep it.
   */
  lemma RemovedReviewerLosesManageAccess(account: Account, other: Account, node: Entity, storage: Storage)
    requires node.isModerated && node.hasOwner
    requires !HasPermission(account, ManageAll) && !HasPermission(account, ManageOwn)
    requires !IsEditor(storage(node), account) && IsReviewer(storage(node), account)
    requires other.id != account.id && IsReviewer(storage(node), other)
    ensures ManageAccess(account, node, storage).outcome == Allowed
    ensures
      var after := WithoutReviewer(storage(node), account);
      var storage' := e => if e == node then after else storage(e);
      ManageAccess(account, node, storage').outcome == Neutral &&
      ManageAccess(other, node, storage').outcome == Allowed
  {
  }
}
