/**
 * The transition validator that adds participant transitions to the ones the
 * base content-moderation validator grants.
 */
module StateTransitionValidation {
  import opened Wrappers
  import opened PhpArrays
  import opened Participants

  type StateId = string
  type TransitionId = string

  datatype Transition = Transition(id: TransitionId, to: StateId)

  /** A workflow state and the transitions out of it, keyed by transition id. */
  datatype State = State(id: StateId, transitions: PhpArray<TransitionId, Transition>)

  datatype Workflow = Workflow(states: map<StateId, State>, initialState: State)

  type Transitions = PhpArray<TransitionId, Transition>

  /** `Workflow::getState` throws for a state id the workflow does not define. */
  datatype Error = UnknownState(id: StateId)

  /** The external collaborators: workflow lookup, base validator and `userMayTransition`. */
  type WorkflowLookup = Entity -> Workflow
  type BaseValidator = (Entity, Account) -> Result<Transitions, Error>
  type MayTransition = (ParticipantSet, Workflow, Transition, Account) -> bool

  function GetState(w: Workflow, id: StateId): (r: Result<State, Error>)
    ensures r.Success? <==> id in w.states
    ensures r.Success? ==> r.value == w.states[id]
    ensures r.Failure? ==> r.error == UnknownState(id)
  {
    if id in w.states then Success(w.states[id]) else Failure(UnknownState(id))
  }

  /** A PHP string is truthy unless it is empty or "0". */
  predicate StringIsTruthy(s: string) {
    s != "" && s != "0"
  }

  predicate ModerationStateIsSet(e: Entity) {
    e.moderationState.Some? && StringIsTruthy(e.moderationState.value)
  }

  /** The state named by `moderation_state` when it is set, the initial state otherwise. */
  function CurrentState(e: Entity, w: Workflow): (r: Result<State, Error>)
    ensures ModerationStateIsSet(e) ==>
      (r.Success? <==> e.moderationState.value in w.states) &&
      (r.Success? ==> r.value == w.states[e.moderationState.value])
    ensures !ModerationStateIsSet(e) ==> r == Success(w.initialState)
  {
    if ModerationStateIsSet(e) then GetState(w, e.moderationState.value) else Success(w.initialState)
  }

  /**
   * Which filter closure is used: the one in the code, whose body calls
   * `userMayTransition` but returns nothing, or the one that returns that call's value.
   * Both assume the call itself returns normally.
   */
  datatype FilterClosure = AsWritten | Corrected

  function Callback(closure: FilterClosure, may: MayTransition, p: ParticipantSet, w: Workflow, a: Account): (f: Transition -> PhpValue)
    ensures closure == AsWritten ==> forall t :: !f(t).Truthy()
    ensures closure == Corrected ==> forall t :: f(t).Truthy() <==> may(p, w, t, a)
  {
    match closure
    case AsWritten => t => Null
    case Corrected => t => Bool(may(p, w, t, a))
  }

  /**
   * Transitions the account gets as a participant: none for an unsaved entity,
   * otherwise those of the current state that the filter closure keeps.
   */
  function GetParticipantTransitions(
    closure: FilterClosure, entity: Entity, account: Account,
    workflowFor: WorkflowLookup, storage: Storage, may: MayTransition): (r: Result<Transitions, Error>)
    ensures !IdIsSet(entity.id) ==> r == Success([])
    ensures IdIsSet(entity.id) ==>
      var current := CurrentState(entity, workflowFor(entity));
      (r.Failure? <==> current.Failure?) &&
      (r.Failure? ==> r.error == current.error) &&
      (r.Success? ==> forall e :: e in r.value ==> e in current.value.transitions) &&
      (r.Success? && closure == Corrected ==>
        forall e :: e in r.value <==>
          e in current.value.transitions && may(storage(entity), workflowFor(entity), e.1, account))
    ensures r.Success? && closure == AsWritten ==> r.value == []
  {
    if !IdIsSet(entity.id) then Success([])
    else
      var workflow := workflowFor(entity);
      match CurrentState(entity, workflow)
      case Failure(err) => Failure(err)
      case Success(current) =>
        var participants := storage(entity);
        var kept := Filter(current.transitions, Callback(closure, may, participants, workflow, account));
        assert closure == AsWritten ==> kept == [] by {
          if closure == AsWritten {
            FilterNothingKept(current.transitions, Callback(closure, may, participants, workflow, account));
          }
        }
        Success(kept)
  }

  /**
   * The base validator's transitions joined with the participant transitions by
   * PHP's key-preserving union: base transitions are kept with their values and
   * order, and participant transitions are added only under new keys.
   */
  function GetValidTransitions(
    closure: FilterClosure, base: BaseValidator, entity: Entity, user: Account,
    workflowFor: WorkflowLookup, storage: Storage, may: MayTransition): (r: Result<Transitions, Error>)
    ensures base(entity, user).Failure? ==> r == base(entity, user)
    ensures r.Success? ==>
      var b := base(entity, user).value;
      var p := GetParticipantTransitions(closure, entity, user, workflowFor, storage, may);
      base(entity, user).Success? && p.Success? &&
      |b| <= |r.value| && r.value[..|b|] == b &&
      KeySet(r.value) == KeySet(b) + KeySet(p.value) &&
      forall k :: Lookup(r.value, k) == if k in KeySet(b) then Lookup(b, k) else Lookup(p.value, k)
    ensures base(entity, user).Success? ==>
      (r.Failure? <==> GetParticipantTransitions(closure, entity, user, workflowFor, storage, may).Failure?)
  {
    match base(entity, user)
    case Failure(err) => Failure(err)
    case Success(transitions) =>
      match GetParticipantTransitions(closure, entity, user, workflowFor, storage, may)
      case Failure(err) => Failure(err)
      case Success(participantTransitions) => Success(Union(transitions, participantTransitions))
  }

  /** Participant transitions of distinct keys are a sub-array of the current state's transitions. */
  lemma ParticipantTransitionsAreSubArray(
    closure: FilterClosure, entity: Entity, account: Account,
    workflowFor: WorkflowLookup, storage: Storage, may: MayTransition, k: TransitionId)
    requires IdIsSet(entity.id)
    requires CurrentState(entity, workflowFor(entity)).Success?
    requires DistinctKeys(CurrentState(entity, workflowFor(entity)).value.transitions)
    requires k in KeySet(GetParticipantTransitions(closure, entity, account, workflowFor, storage, may).value)
    ensures
      var transitions := CurrentState(entity, workflowFor(entity)).value.transitions;
      Lookup(GetParticipantTransitions(closure, entity, account, workflowFor, storage, may).value, k) ==
      Lookup(transitions, k)
  {
  }

  /** Neither set has a key twice, so neither does their union. */
  lemma ValidTransitionsHaveNoDuplicates(
    closure: FilterClosure, base: BaseValidator, entity: Entity, user: Account,
    workflowFor: WorkflowLookup, storage: Storage, may: MayTransition)
    requires base(entity, user).Success? && DistinctKeys(base(entity, user).value)
    requires IdIsSet(entity.id) ==> CurrentState(entity, workflowFor(entity)).Success?
    requires IdIsSet(entity.id) ==> DistinctKeys(CurrentState(entity, workflowFor(entity)).value.transitions)
    ensures DistinctKeys(GetValidTransitions(closure, base, entity, user, workflowFor, storage, may).value)
  {
  }

  /**
   * As written, the filter closure keeps nothing, so the validator only ever
   * returns what the base validator returns.
   */
  lemma {:induction false} AsWrittenIsBaseOnly(
    base: BaseValidator, entity: Entity, user: Account,
    workflowFor: WorkflowLookup, storage: Storage, may: MayTransition)
    requires GetValidTransitions(AsWritten, base, entity, user, workflowFor, storage, may).Success?
    ensures GetValidTransitions(AsWritten, base, entity, user, workflowFor, storage, may) == base(entity, user)
  {
    var b := base(entity, user).value;
    var r := GetValidTransitions(AsWritten, base, entity, user, workflowFor, storage, may).value;
    assert r == Union(b, []);
    var none: Transitions := [];
    assert WithoutKeys(none, KeySet(b)) == [];
    assert b + [] == b;
  }

  /**
   * With the corrected closure, a transition out of the current state that the
   * participant may take, under a key the base validator did not grant, is valid.
   */
  lemma CorrectedAddsPermittedTransitions(
    base: BaseValidator, entity: Entity, user: Account,
    workflowFor: WorkflowLookup, storage: Storage, may: MayTransition, k: TransitionId, t: Transition)
    requires IdIsSet(entity.id)
    requires base(entity, user).Success? && k !in KeySet(base(entity, user).value)
    requires CurrentState(entity, workflowFor(entity)).Success?
    requires
      var transitions := CurrentState(entity, workflowFor(entity)).value.transitions;
      DistinctKeys(transitions) && (k, t) in transitions
    requires may(storage(entity), workflowFor(entity), t, user)
    ensures Lookup(GetValidTransitions(Corrected, base, entity, user, workflowFor, storage, may).value, k) == Some(t)
  {
  }

  /**
   * An editor allowed to publish a saved draft: the code as written offers no
   * participant transition, the corrected closure offers "publish".
   */
  lemma EditorPublishCounterexample()
    ensures
      var t := Transition("publish", "published");
      var draft := State("draft", [("publish", t)]);
      var entity := Entity(true, true, true, 1, false, Some(7), Some("draft"));
      var editor := Account(5, {});
      var workflowFor: WorkflowLookup := e => Workflow(map["draft" := draft], draft);
      var storage: Storage := e => ParticipantSet(Some(1), {5}, {});
      var may: MayTransition := (p, w, t, a) => IsEditor(p, a);
      var base: BaseValidator := (e, a) => Success([]);
      GetValidTransitions(AsWritten, base, entity, editor, workflowFor, storage, may) == Success([]) &&
      GetValidTransitions(Corrected, base, entity, editor, workflowFor, storage, may) == Success([("publish", t)])
  {
    var t := Transition("publish", "published");
    var draft := State("draft", [("publish", t)]);
    var entity := Entity(true, true, true, 1, false, Some(7), Some("draft"));
    var editor := Account(5, {});
    var workflow := Workflow(map["draft" := draft], draft);
    var participants := ParticipantSet(Some(1), {5}, {});
    var workflowFor: WorkflowLookup := e => workflow;
    var storage: Storage := e => participants;
    var may: MayTransition := (p, w, t, a) => IsEditor(p, a);
    var base: BaseValidator := (e, a) => Success([]);
    assert ModerationStateIsSet(entity);
    assert CurrentState(entity, workflow) == Success(draft);
    var kept := Filter(draft.transitions, Callback(Corrected, may, participants, workflow, editor));
    assert kept == [("publish", t)] by {
      assert Callback(Corrected, may, participants, workflow, editor)(t) == Bool(true);
      var rest: Transitions := [];
      assert draft.transitions[1..] == rest;
    }
    var none: Transitions := [];
    assert KeySet(none) == {};
    assert WithoutKeys(kept, {}) == kept by {
      assert kept[1..] == none;
    }
    assert Union(none, kept) == kept;
  }
}
