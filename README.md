# Workflow participants: access decisions

A Dafny model of the participant-scoped access decisions of the Drupal
`workflow_participants` module. Each moderated node has a participant set of
editors and reviewers. The model covers the three places that consult it:

- the route gate of the "manage participants" form, and the view/update
  decision on the node itself (`ParticipantsAccessChecker`,
  from `src/Access/WorkflowParticipantsAccessChecker.php`);
- the gate of the "latest version" tab (`LatestVersionCheck`,
  from `src/Access/LatestVersionCheck.php`);
- the transition validator, which joins the base content-moderation
  transitions with the participant transitions (`StateTransitionValidation`,
  from `src/StateTransitionValidation.php`).

Supporting modules:

- `AccessResults` encodes the part of Drupal's access result these files use.
  An outcome is `Allowed`, `Neutral` or `Forbidden`. It carries a set of
  dependencies: the node, the participant set, and the user's permissions.
- `Participants` holds accounts, entities and participant sets. Membership
  is set inclusion of the account id.
- `PhpArrays` holds keyed PHP arrays as ordered entry sequences. It defines
  the left-biased union `+` and `array_filter`.

All three source files are pure decision code, so everything is a function.
The participant storage, the workflow lookup, the base validator and
`userMayTransition` are function parameters.

PHP truthiness is written out. An id of 0 counts as unset. A
`moderation_state` of `""` or `"0"` counts as unset.

Two gates fall back to `Neutral` rather than `Forbidden`:

- the manage-participants gate, for a non-participant who is not the owner
  with the "own" permission (line 75 builds it with `andIf`);
- the latest-version gate, when neither condition holds.

Drupal refuses a route unless its result is `Allowed`.

The code has no reviewer-specific transition policy. Whether a participant
may take a transition is decided by `userMayTransition` alone.

## Model

| member | source | states |
|---|---|---|
| `AccessResults.AllowedIf` | src/Access/WorkflowParticipantsAccessChecker.php:116 | allowed exactly when the condition holds, never forbidden, no dependencies |
| `AccessResults.AndIf` | src/Access/WorkflowParticipantsAccessChecker.php:75 | forbidden if either side is; allowed only if both are; dependencies of both |
| `AccessResults.OrIf` | src/Access/LatestVersionCheck.php:38-39 | forbidden if either side is; otherwise allowed if either side is; dependencies of both |
| `AccessResults.AllowedIfHasPermission` | src/Access/WorkflowParticipantsAccessChecker.php:75 | allowed exactly when the account holds the permission; depends on the user's permissions |
| `AccessResults.AllowedIfHasAllPermissions` | src/Access/LatestVersionCheck.php:36-38 | AND conjunction: allowed exactly when the list is non-empty and every permission is held; never forbidden; depends on the user's permissions exactly when the list is non-empty |
| `AccessResults.AddDependency` | src/Access/WorkflowParticipantsAccessChecker.php:71 | keeps the outcome and adds exactly one dependency |
| `Participants.WithoutReviewer` | tests/src/Functional/AdminUiTest.php:150-158 | "remove me as reviewer": the account is no longer a reviewer, all other reviewers and editors are kept |
| `ParticipantsAccessChecker.ManageAccess` | src/Access/WorkflowParticipantsAccessChecker.php:56-83 | forbidden for unmoderated entities; allowed with the sitewide permission; otherwise allowed iff the entity has an owner and the account participates or owns it with the "own" permission; forbidden iff unmoderated or (no permission and no owner interface); node always a dependency, participant set only on the membership branch |
| `ParticipantsAccessChecker.HasEntityAccess` | src/Access/WorkflowParticipantsAccessChecker.php:98-126 | never forbidden; allowed iff node with saved non-empty participant set and (view of unpublished by an editor or reviewer, or update by an editor); participant set is a dependency iff it is saved |
| `ParticipantsAccessChecker.NeutralWithoutParticipants` | src/Access/WorkflowParticipantsAccessChecker.php:99-112 | not a node, unsaved set, or no editors and no reviewers: neutral for every operation and account |
| `ParticipantsAccessChecker.NeverGrantsOtherOperations` | src/Access/WorkflowParticipantsAccessChecker.php:114-125 | delete, view of published content and any other operation are neutral |
| `ParticipantsAccessChecker.ReviewerNeverUpdates` | src/Access/WorkflowParticipantsAccessChecker.php:119-122 | an account that is not an editor never gets update |
| `ParticipantsAccessChecker.EntityAccessImpliesManageAccess` | src/Access/WorkflowParticipantsAccessChecker.php:66-72 | whoever participant access lets view or update a moderated node may open its management route |
| `ParticipantsAccessChecker.OwnerBranchOmitsParticipantsDependency` | src/Access/WorkflowParticipantsAccessChecker.php:69-75 | on the ownership branch the result is neutral without a participant-set dependency, although adding the account as reviewer makes it allowed |
| `ParticipantsAccessChecker.RemovedReviewerLosesManageAccess` | tests/src/Functional/AdminUiTest.php:127-161 | a reviewer without management permissions has route access, loses it after removing themself, and another reviewer keeps it |
| `LatestVersionCheck.Access` | src/Access/LatestVersionCheck.php:33-41 | never forbidden; allowed iff the account holds both route permissions or is an editor or reviewer; always depends on the participant set and the permissions |
| `LatestVersionCheck.OnePermissionIsNotEnough` | src/Access/LatestVersionCheck.php:36-38 | a non-participant holding only one of the two permissions gets neutral |
| `LatestVersionCheck.MonotoneInMembership` | src/Access/LatestVersionCheck.php:38-39 | growing the editor and reviewer sets never takes an allowed result away |
| `LatestVersionCheck.EntityAccessImpliesLatestVersion` | src/Access/LatestVersionCheck.php:39 | a participant allowed to view or update the node through entity access may also see its latest version |
| `PhpArrays.Lookup` | src/StateTransitionValidation.php:57 | finds a key exactly when the array has it, and the found entry is in the array |
| `PhpArrays.LookupAppend` | src/StateTransitionValidation.php:57 | a lookup in a concatenation takes the left part's entry when the left part has the key |
| `PhpArrays.WithoutKeys` | src/StateTransitionValidation.php:57 | keeps exactly the entries whose key is not excluded, in their order, with unchanged lookups and distinct keys |
| `PhpArrays.Union` | src/StateTransitionValidation.php:57 | `+`: the left array is a prefix of the result, followed by the entries of the right array whose key the left lacks, in the right array's order; keys are the union; a key the left side has keeps the left value, other keys take the right value; distinct keys stay distinct |
| `PhpArrays.Filter` | src/StateTransitionValidation.php:84-86 | `array_filter`: exactly the entries whose value the callback maps to a truthy value, in their original order; never longer; distinct keys stay distinct |
| `PhpArrays.FilterIsSubArray` | src/StateTransitionValidation.php:84-88 | with distinct keys a filtered array is a sub-array: same value under every kept key, and the callback was truthy for it |
| `PhpArrays.FilterNothingKept` | src/StateTransitionValidation.php:84-86 | a callback that is never truthy leaves the empty array |
| `StateTransitionValidation.GetState` | src/StateTransitionValidation.php:78 | succeeds iff the workflow defines the state, otherwise fails with an unknown-state error |
| `StateTransitionValidation.CurrentState` | src/StateTransitionValidation.php:77-78 | the state named by a truthy `moderation_state`, an error if the workflow lacks it, and the initial state otherwise |
| `StateTransitionValidation.Callback` | src/StateTransitionValidation.php:84-86 | the closure as written is never truthy; the corrected closure is truthy exactly when `userMayTransition` holds |
| `StateTransitionValidation.GetParticipantTransitions` | src/StateTransitionValidation.php:71-89 | empty for an entity without id; otherwise fails iff the current state does not resolve; every kept entry is a transition of the current state; as written always empty; corrected, exactly the current state's transitions the participant may take |
| `StateTransitionValidation.GetValidTransitions` | src/StateTransitionValidation.php:52-58 | a base failure propagates; on success the base transitions are a prefix with their values unchanged, the keys are the union, and participant transitions appear only under new keys |
| `StateTransitionValidation.ParticipantTransitionsAreSubArray` | src/StateTransitionValidation.php:84-88 | each participant transition has the same value as in the current state's transitions |
| `StateTransitionValidation.ValidTransitionsHaveNoDuplicates` | src/StateTransitionValidation.php:57 | when the base result and, for a saved entity, the current state's transitions have distinct keys, so does the joined result |
| `StateTransitionValidation.AsWrittenIsBaseOnly` | src/StateTransitionValidation.php:53-57 | as written, a successful result equals the base validator's result |
| `StateTransitionValidation.CorrectedAddsPermittedTransitions` | src/StateTransitionValidation.php:55-57 | corrected, a current-state transition the participant may take, under a key the base lacks, is in the result |
| `StateTransitionValidation.EditorPublishCounterexample` | src/StateTransitionValidation.php:84-86 | an editor on a saved draft with a "publish" transition gets no participant transition as written and gets "publish" when corrected |

## Findings

| source | as written | input that shows it | evidently intended | confidence | as-written member | corrected member |
|---|---|---|---|---|---|---|
| src/StateTransitionValidation.php:84-86 | the `array_filter` closure calls `userMayTransition` but has no `return`, so it yields null and every transition is dropped | a saved node in state "draft" with a "publish" transition, an editor for whom `userMayTransition` holds, and an empty base result: the result is empty | keep the transitions for which `userMayTransition` holds, as the comment at lines 55-56 says | high (not executed) | `StateTransitionValidation.AsWrittenIsBaseOnly` | `StateTransitionValidation.CorrectedAddsPermittedTransitions` |

`GetParticipantTransitions` and `GetValidTransitions` take the closure variant
(`AsWritten` or `Corrected`) as a parameter. `EditorPublishCounterexample`
shows both variants on the same input.

## Left out

- The participant storage is not modelled. `loadForModeratedEntity` is an
  arbitrary function from entity to participant set. Saving, the cache,
  cache resets and the delete cascade are not part of this model.
- How `isEditor` and `isReviewer` are implemented is not part of this model.
  Membership is the account id being in the id set. Dangling user references
  and the anonymous account are not treated specially.
- `userMayTransition` is an arbitrary predicate. The call site passes three
  arguments where the interface declares two. The model gives the predicate
  the participant set, the workflow, the transition and the account.
- `StateTransitionValidation.Callback`: the model assumes the call to
  `userMayTransition` returns normally. The call passes the workflow where
  the interface declares a transition, so an implementation with that
  signature would throw a type error instead. Either way no participant
  transition is ever added.
- The base content-moderation validator is an arbitrary function that may
  fail. The workflow lookup is arbitrary too.
- The workflow's initial state is a plain field of the workflow. How Drupal
  picks the initial state is not part of this model.
- `AccessResults.OrIf`: the dependencies are always the union of both sides.
  Drupal merges the right side's cacheability mainly when that side decides
  the outcome. At the one call site the union is exact, because
  LatestVersionCheck.php:40 adds the participant set again.
- `AccessResults.AndIf`: the dependencies are always the union of both sides.
  Drupal merges the right side's cacheability only when that side is used.
  At the one call site the union is exact, because `allowedIf` on the right
  adds no dependencies.
- Access-result reasons, cache contexts other than user permissions, and
  max-age are left out.
- The PHP type hint `NodeInterface` on the route gate is not checked. The
  owner-interface test is the `hasOwner` flag, which real nodes always set.
- Node-access grant rows, notification recipients, the route subscriber and
  the management form are not part of this model.
- Transitions carry only their id and target state. Their labels and weights
  are left out.
