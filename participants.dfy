/**
 * Accounts, moderated entities and the per-entity participant set
 * (editors and reviewers) that the access checkers consult.
 */
module Participants {
  import opened Wrappers

  type UserId = int

  /** The current user: an id and the permissions its roles grant. */
  datatype Account = Account(id: UserId, permissions: set<string>)

  predicate HasPermission(a: Account, p: string) {
    p in a.permissions
  }

  /**
   * The entity an access decision is about. `hasOwner` says whether the entity
   * implements the owner interface; `id` is None for an entity never saved.
   */
  datatype Entity = Entity(
    isNode: bool,
    isModerated: bool,
    hasOwner: bool,
    ownerId: UserId,
    isPublished: bool,
    id: Option<nat>,
    moderationState: Option<string>)

  /** A PHP integer id is truthy when it is set and not 0. */
  predicate IdIsSet(id: Option<nat>) {
    id.Some? && id.value != 0
  }

  /** The participant set of one moderated entity; ids are user ids. */
  datatype ParticipantSet = ParticipantSet(id: Option<nat>, editorIds: set<UserId>, reviewerIds: set<UserId>)

  predicate IsEditor(p: ParticipantSet, a: Account) {
    a.id in p.editorIds
  }

  predicate IsReviewer(p: ParticipantSet, a: Account) {
    a.id in p.reviewerIds
  }

  predicate IsParticipant(p: ParticipantSet, a: Account) {
    IsEditor(p, a) || IsReviewer(p, a)
  }

  /** `$participants->id()` is truthy: the set has been saved. */
  predicate IsSaved(p: ParticipantSet) {
    IdIsSet(p.id)
  }

  /** Both `getEditorIds()` and `getReviewerIds()` are empty. */
  predicate HasNoParticipants(p: ParticipantSet) {
    p.editorIds == {} && p.reviewerIds == {}
  }

  /** `loadForModeratedEntity`: the participant set stored for an entity. */
  type Storage = Entity -> ParticipantSet

  /** `p` with `a` removed from the reviewers (unchanged when `a` was not a reviewer). */
  function WithoutReviewer(p: ParticipantSet, a: Account): (q: ParticipantSet)
    ensures !IsReviewer(q, a)
    ensures q.editorIds == p.editorIds && q.id == p.id
    ensures forall u :: u in q.reviewerIds <==> u in p.reviewerIds && u != a.id
  {
    p.(reviewerIds := p.reviewerIds - {a.id})
  }
}
