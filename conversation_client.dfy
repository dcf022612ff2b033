/**
 * The operation-id bookkeeping of `ConversationClient` in
 * backend/AI_API/general/conversation_client.py: which interrupted write operations are
 * reported, and how `get_llm_answer` issues, follows and clears the ID of the active one.
 * The assistants, `write_action_to_entity` and `uuid` are inputs.
 */
module ConversationClients {
  import opened Wrappers
  import opened Errors

  /** `DataTypeInDB`. */
  datatype DataType = Apartment | Person | Contract | Tenancy

  /** `CrudOperationData`: whether the operation is requested, on what, and its operation ID. */
  datatype Operation = Operation(value: bool, entity: DataType, operationId: string)

  /** `CrudIntentModel`; the `single` flag of `show` plays no part here. */
  datatype Intent = Intent(create: Operation, show: Operation, update: Operation, delete: Operation)

  /** The write operations, in the order the code visits them. */
  const WriteKinds: seq<string> := ["create", "update", "delete"]

  /** `getattr(intent, kind)` for a write kind. */
  function OpOf(intent: Intent, kind: string): Operation
    requires kind in WriteKinds
  {
    if kind == "create" then intent.create else if kind == "update" then intent.update else intent.delete
  }

  /** The intent with the write operation `kind` replaced. */
  function WithOp(intent: Intent, kind: string, op: Operation): (r: Intent)
    requires kind in WriteKinds
    ensures OpOf(r, kind) == op && r.show == intent.show
    ensures forall k :: k in WriteKinds && k != kind ==> OpOf(r, k) == OpOf(intent, k)
  {
    if kind == "create" then intent.(create := op)
    else if kind == "update" then intent.(update := op)
    else intent.(delete := op)
  }

  /** An entry of the interrupted-operations dictionary. */
  datatype Interrupted = Interrupted(operationId: string, entity: DataType)

  /** An operation is interrupted when it is not requested any more but still has an ID. */
  predicate IsInterrupted(op: Operation) {
    !op.value && op.operationId != ""
  }

  /** The dictionary built from the first `n` write kinds. */
  function InterruptedUpTo(intent: Intent, n: nat): map<string, Interrupted>
    requires n <= |WriteKinds|
  {
    if n == 0 then map[]
    else
      var m := InterruptedUpTo(intent, n - 1);
      var op := OpOf(intent, WriteKinds[n - 1]);
      if IsInterrupted(op) then m[WriteKinds[n - 1] := Interrupted(op.operationId, op.entity)] else m
  }

  /** `ReplaceNew` applied to one operation: a requested operation marked "NEW" gets the first 8 characters of a UUID. */
  function Issued(op: Operation, uuid: string): (r: Operation)
    requires |uuid| >= 8
  {
    if op.value && op.operationId == "NEW" then op.(operationId := uuid[..8]) else op
  }

  /** The intent after the first `n` write kinds had their "NEW" marker replaced. */
  function IssuedUpTo(intent: Intent, uuids: seq<string>, n: nat): (r: Intent)
    requires n <= |WriteKinds| && |uuids| == |WriteKinds|
    requires forall i :: 0 <= i < |uuids| ==> |uuids[i]| == 36
    ensures r.show == intent.show
    ensures r.create.value == intent.create.value && r.create.entity == intent.create.entity
    ensures r.update.value == intent.update.value && r.update.entity == intent.update.entity
    ensures r.delete.value == intent.delete.value && r.delete.entity == intent.delete.entity
  {
    if n == 0 then intent
    else
      var prev := IssuedUpTo(intent, uuids, n - 1);
      var k := WriteKinds[n - 1];
      WithOp(prev, k, Issued(OpOf(prev, k), uuids[n - 1]))
  }

  /** Whether some write operation is requested. */
  predicate IsWrite(intent: Intent) {
    intent.create.value || intent.update.value || intent.delete.value
  }

  /** The first requested write kind, in the order create, update, delete. */
  function ActiveKind(intent: Intent): (r: string)
    requires IsWrite(intent)
    ensures r in WriteKinds && OpOf(intent, r).value
    ensures forall k :: k in WriteKinds && OpOf(intent, k).value ==> r == "create" || (r == "update" && k != "create") || r == k
  {
    if intent.create.value then "create" else if intent.update.value then "update" else "delete"
  }

  /** The client's fields that `get_llm_answer` sets. `result` keeps the envelope and the cycle flag. */
  datatype Snapshot = Snapshot(
    userQuestion: Option<string>,
    crudIntentAnswer: Option<Intent>,
    operationId: Option<string>,
    systemPromptName: string,
    result: Option<(Envelope, bool)>)

  /** An answer envelope, as `model_dump` would give it. */
  datatype Envelope = Envelope(dump: string)

  /** What the code outside the model does on one call of `get_llm_answer`. */
  datatype Inputs = Inputs(
    intentAnswer: Outcome<Intent>,                 // crud_intent_assistant.get_crud_llm_response
    uuids: seq<string>,                            // one str(uuid.uuid4()) per write kind
    writePromptSet: bool,                          // whether write_action_to_entity built a prompt, setting system_prompt_name
    writeAction: Outcome<(Envelope, bool)>,        // write_action_to_entity: envelope and cycle_is_ready
    readAction: Outcome<Envelope>,                 // read_action_to_entity
    generalAnswer: Outcome<Option<Envelope>>)      // general_answer_assistant.answer_general_question

  predicate ValidInputs(inp: Inputs) {
    |inp.uuids| == |WriteKinds| && forall i :: 0 <= i < |inp.uuids| ==> |inp.uuids[i]| == 36
  }

  /** The handlers of `get_llm_answer`: own, Gemini and `requests` errors pass; anything else becomes error 3009. */
  function Surface(e: Exc): (r: Exc)
    ensures r != OtherError
  {
    if e.OtherError? then ApiError(ErrorPerformingCrudOperation) else e
  }

  /** The prompt name the general answer resets. */
  const GetFunctionCall: string := "GET_FUNCTION_CALL"
  /** The prompt names the write action's prompt builders set. */
  const DeleteEntity: string := "DELETE_ENTITY"
  const CreateEntity: string := "CREATE_ENTITY"
  const UpdateEntity: string := "UPDATE_ENTITY"

  /**
   * The prompt `write_action_to_entity` builds for a write intent. It tests delete first, then
   * create, then update; this is not the order `get_llm_answer` uses to pick the active ID.
   */
  function WritePromptName(intent: Intent): string
    requires IsWrite(intent)
  {
    if intent.delete.value then DeleteEntity else if intent.create.value then CreateEntity else UpdateEntity
  }

  /** The new intent once the write cycle reports ready: the active operation's ID is emptied. */
  function Cleared(intent: Intent): (r: Intent)
    requires IsWrite(intent)
  {
    var k := ActiveKind(intent);
    WithOp(intent, k, OpOf(intent, k).(operationId := ""))
  }

  /** `get_llm_answer`: the new fields and the returned envelope or raised exception. */
  function Answer(s: Snapshot, question: string, inp: Inputs): (Snapshot, Outcome<Envelope>)
    requires ValidInputs(inp)
  {
    var s := s.(userQuestion := Some(question));
    match inp.intentAnswer
    case Raises(e) => (s, Raises(Surface(e)))
    case Returns(intent0) =>
      if IsWrite(intent0) then
        var intent := IssuedUpTo(intent0, inp.uuids, 3);
        var s := s.(crudIntentAnswer := Some(intent), operationId := Some(OpOf(intent, ActiveKind(intent)).operationId));
        var s := if inp.writePromptSet then s.(systemPromptName := WritePromptName(intent)) else s;
        match inp.writeAction
        case Raises(e) => (s, Raises(Surface(e)))
        case Returns((env, ready)) =>
          var s := if ready then s.(operationId := Option.None, crudIntentAnswer := Some(Cleared(intent))) else s;
          (s.(result := Some((env, ready))), Returns(env))
      else
        var s := s.(crudIntentAnswer := Some(intent0));
        if intent0.show.value then
          match inp.readAction
          case Raises(e) => (s, Raises(Surface(e)))
          case Returns(env) =>
            (s.(operationId := Option.None, result := Some((env, true))), Returns(env))
        else
          var s := s.(systemPromptName := GetFunctionCall);
          match inp.generalAnswer
          case Raises(e) => (s, Raises(Surface(e)))
          case Returns(answer) =>
            var s := s.(operationId := Option.None);
            if answer.None? then (s, Raises(ApiError(LlmErrorEmptyAnswer)))
            else (s.(result := Some((answer.value, true))), Returns(answer.value))
  }

  /** `ConversationClient`, reduced to the fields the bookkeeping touches. */
  class ConversationClient {
    var userQuestion: Option<string>
    var crudIntentAnswer: Option<Intent>
    var operationId: Option<string>
    var systemPromptName: string
    var result: Option<(Envelope, bool)>

    function State(): Snapshot
      reads this
    {
      Snapshot(userQuestion, crudIntentAnswer, operationId, systemPromptName, result)
    }

    constructor()
      ensures State() == Snapshot(Option.None, Option.None, Option.None, GetFunctionCall, Option.None)
    {
      userQuestion := Option.None;
      crudIntentAnswer := Option.None;
      operationId := Option.None;
      systemPromptName := GetFunctionCall;
      result := Option.None;
    }

    /**
     * `extract_operation_ids_from_crud_answer`: the interrupted write operations of the last
     * intent, by kind; `{}` when there is none.
     */
    method ExtractOperationIds() returns (ops: map<string, Interrupted>)
      ensures crudIntentAnswer.None? ==> ops == map[]
      ensures forall k :: k in ops ==> k in WriteKinds
      ensures crudIntentAnswer.Some? ==>
                forall k :: k in WriteKinds ==>
                  var op := OpOf(crudIntentAnswer.value, k);
                  (k in ops <==> IsInterrupted(op)) && (k in ops ==> ops[k] == Interrupted(op.operationId, op.entity))
    {
      if crudIntentAnswer.None? {
        return map[];
      }
      var intent := crudIntentAnswer.value;
      ops := map[];
      for i := 0 to |WriteKinds|
        invariant ops == InterruptedUpTo(intent, i)
      {
        var kind := WriteKinds[i];
        var op := OpOf(intent, kind);
        if !op.value && op.operationId != "" {
          ops := ops[kind := Interrupted(op.operationId, op.entity)];
        }
      }
      InterruptedMeaning(intent, |WriteKinds|);
    }

    /** The loop that swaps each "NEW" marker for a fresh 8-character ID. */
    method IssueNewIds(uuids: seq<string>)
      requires crudIntentAnswer.Some?
      requires |uuids| == |WriteKinds| && forall i :: 0 <= i < |uuids| ==> |uuids[i]| == 36
      modifies this
      ensures crudIntentAnswer == Some(IssuedUpTo(old(crudIntentAnswer.value), uuids, 3))
      ensures userQuestion == old(userQuestion) && operationId == old(operationId)
      ensures systemPromptName == old(systemPromptName) && result == old(result)
    {
      ghost var intent0 := crudIntentAnswer.value;
      for i := 0 to |WriteKinds|
        invariant crudIntentAnswer == Some(IssuedUpTo(intent0, uuids, i))
        invariant userQuestion == old(userQuestion) && operationId == old(operationId)
        invariant systemPromptName == old(systemPromptName) && result == old(result)
      {
        var kind := WriteKinds[i];
        var op := OpOf(crudIntentAnswer.value, kind);
        if op.value && op.operationId == "NEW" {
          crudIntentAnswer := Some(WithOp(crudIntentAnswer.value, kind, op.(operationId := uuids[i][..8])));
        }
      }
    }

    /** `get_llm_answer(user_question)`. */
    method GetLlmAnswer(question: string, inp: Inputs) returns (r: Outcome<Envelope>)
      requires ValidInputs(inp)
      modifies this
      ensures (State(), r) == Answer(old(State()), question, inp)
    {
      userQuestion := Some(question);
      if inp.intentAnswer.Raises? {
        return Raises(Surface(inp.intentAnswer.exc));
      }
      crudIntentAnswer := Some(inp.intentAnswer.value);
      var intent := crudIntentAnswer.value;
      var cycleIsReady := true;
      var envelope;
      if intent.create.value || intent.update.value || intent.delete.value {
        IssueNewIds(inp.uuids);
        intent := crudIntentAnswer.value;
        if intent.create.value {
          operationId := Some(intent.create.operationId);
        } else if intent.update.value {
          operationId := Some(intent.update.operationId);
        } else if intent.delete.value {
          operationId := Some(intent.delete.operationId);
        }
        if inp.writePromptSet {
          systemPromptName := WritePromptName(intent);
        }
        if inp.writeAction.Raises? {
          return Raises(Surface(inp.writeAction.exc));
        }
        envelope := inp.writeAction.value.0;
        cycleIsReady := inp.writeAction.value.1;
        if cycleIsReady {
          operationId := Option.None;
          if intent.create.value {
            crudIntentAnswer := Some(intent.(create := intent.create.(operationId := "")));
          } else if intent.update.value {
            crudIntentAnswer := Some(intent.(update := intent.update.(operationId := "")));
          } else if intent.delete.value {
            crudIntentAnswer := Some(intent.(delete := intent.delete.(operationId := "")));
          }
        }
      } else if intent.show.value {
        if inp.readAction.Raises? {
          return Raises(Surface(inp.readAction.exc));
        }
        envelope := inp.readAction.value;
        operationId := Option.None;
      } else {
        systemPromptName := GetFunctionCall;
        if inp.generalAnswer.Raises? {
          return Raises(Surface(inp.generalAnswer.exc));
        }
        operationId := Option.None;
        if inp.generalAnswer.value.None? {
          return Raises(ApiError(LlmErrorEmptyAnswer));
        }
        envelope := inp.generalAnswer.value.value;
      }
      result := Some((envelope, cycleIsReady));
      return Returns(envelope);
    }
  }

  // ---------------------------------------------------------------------------------------
  // Properties

  /** What the dictionary built by the loop holds: exactly the interrupted write operations. */
  lemma {:induction false} InterruptedMeaning(intent: Intent, n: nat)
    requires n <= |WriteKinds|
    ensures forall k :: k in InterruptedUpTo(intent, n) ==> k in WriteKinds[..n]
    ensures forall k :: k in WriteKinds[..n] ==>
              var op := OpOf(intent, k);
              (k in InterruptedUpTo(intent, n) <==> IsInterrupted(op)) &&
              (k in InterruptedUpTo(intent, n) ==> InterruptedUpTo(intent, n)[k] == Interrupted(op.operationId, op.entity))
  {
    if n > 0 {
      InterruptedMeaning(intent, n - 1);
      assert WriteKinds[..n] == WriteKinds[..n - 1] + [WriteKinds[n - 1]];
    }
  }

  /** A "show" request is never reported as interrupted. */
  lemma ShowNeverInterrupted(intent: Intent)
    ensures "show" !in InterruptedUpTo(intent, 3)
  {
    InterruptedMeaning(intent, 3);
  }

  /**
   * Issuing IDs changes only requested operations marked "NEW", each to an 8-character ID
   * taken from its UUID, and never touches `show`, requests or entity types.
   */
  lemma {:induction false} IssuedMeaning(intent: Intent, uuids: seq<string>, n: nat)
    requires n <= |WriteKinds| && |uuids| == |WriteKinds|
    requires forall i :: 0 <= i < |uuids| ==> |uuids[i]| == 36
    ensures IssuedUpTo(intent, uuids, n).show == intent.show
    ensures forall i :: 0 <= i < |WriteKinds| ==>
              var before := OpOf(intent, WriteKinds[i]);
              var after := OpOf(IssuedUpTo(intent, uuids, n), WriteKinds[i]);
              && after.value == before.value && after.entity == before.entity
              && after.operationId ==
                   (if i < n && before.value && before.operationId == "NEW" then uuids[i][..8] else before.operationId)
  {
    forall i | 0 <= i < |WriteKinds|
      ensures var before := OpOf(intent, WriteKinds[i]);
              var after := OpOf(IssuedUpTo(intent, uuids, n), WriteKinds[i]);
              && after.value == before.value && after.entity == before.entity
              && after.operationId ==
                   (if i < n && before.value && before.operationId == "NEW" then uuids[i][..8] else before.operationId)
    {
      IssuedMeaningAt(intent, uuids, n, i);
    }
  }

  /** `IssuedMeaning` for the write kind at position `i`. */
  lemma {:induction false} IssuedMeaningAt(intent: Intent, uuids: seq<string>, n: nat, i: nat)
    requires n <= |WriteKinds| && |uuids| == |WriteKinds| && i < |WriteKinds|
    requires forall j :: 0 <= j < |uuids| ==> |uuids[j]| == 36
    ensures var before := OpOf(intent, WriteKinds[i]);
            var after := OpOf(IssuedUpTo(intent, uuids, n), WriteKinds[i]);
            && after.value == before.value && after.entity == before.entity
            && after.operationId ==
                 (if i < n && before.value && before.operationId == "NEW" then uuids[i][..8] else before.operationId)
  {
    if n > 0 {
      IssuedMeaningAt(intent, uuids, n - 1, i);
      IssuedStep(intent, uuids, n);
    }
  }

  /** Step `n` of `IssuedUpTo` touches the `n`-th write kind only. */
  lemma IssuedStep(intent: Intent, uuids: seq<string>, n: nat)
    requires 0 < n <= |WriteKinds| && |uuids| == |WriteKinds|
    requires forall i :: 0 <= i < |uuids| ==> |uuids[i]| == 36
    ensures forall i :: 0 <= i < |WriteKinds| ==>
              OpOf(IssuedUpTo(intent, uuids, n), WriteKinds[i]) ==
              (if i == n - 1 then Issued(OpOf(IssuedUpTo(intent, uuids, n - 1), WriteKinds[i]), uuids[i])
               else OpOf(IssuedUpTo(intent, uuids, n - 1), WriteKinds[i]))
  {
    var k := WriteKinds[n - 1];
    forall i | 0 <= i < |WriteKinds| && i != n - 1 ensures WriteKinds[i] != k {
    }
  }

  /**
   * A failed call keeps the saved result, and only the client's own, Gemini and `requests` errors
   * leave it: a failure of the intent assistant passes through as it is or, when it is any other
   * exception, becomes error 3009 with nothing but the question recorded.
   */
  lemma AnswerErrors(s: Snapshot, question: string, inp: Inputs)
    requires ValidInputs(inp)
    ensures var (s', r) := Answer(s, question, inp);
            && s'.userQuestion == Some(question)
            && (r.Raises? ==> s'.result == s.result && !r.exc.OtherError?)
            && (inp.intentAnswer.Raises? ==> s' == s.(userQuestion := Some(question)))
            && (inp.intentAnswer == Raises(OtherError) ==> r == Raises(ApiError(ErrorPerformingCrudOperation)))
            && (inp.intentAnswer.Raises? && !inp.intentAnswer.exc.OtherError? ==> r == Raises(inp.intentAnswer.exc))
  {
  }

  /**
   * Which prompt name the client ends with: a write intent leaves the name of the prompt the write
   * action built, if it built one, whether the action then returns or raises; a show keeps the
   * old name; a general question resets it to GET_FUNCTION_CALL before the assistant is asked.
   */
  lemma PromptNameCases(s: Snapshot, question: string, inp: Inputs)
    requires ValidInputs(inp) && inp.intentAnswer.Returns?
    ensures var intent := inp.intentAnswer.value;
            var name := Answer(s, question, inp).0.systemPromptName;
            && (IsWrite(intent) && inp.writePromptSet ==>
                  && (name == DeleteEntity <==> intent.delete.value)
                  && (name == CreateEntity <==> !intent.delete.value && intent.create.value)
                  && (name == UpdateEntity <==> !intent.delete.value && !intent.create.value))
            && (IsWrite(intent) && !inp.writePromptSet ==> name == s.systemPromptName)
            && (!IsWrite(intent) && intent.show.value ==> name == s.systemPromptName)
            && (!IsWrite(intent) && !intent.show.value ==> name == GetFunctionCall)
  {
  }

  /**
   * With both create and delete requested, the pending ID follows the create operation while
   * the write action builds the delete prompt.
   */
  lemma WriteOrdersDiffer(s: Snapshot, question: string, inp: Inputs)
    requires ValidInputs(inp) && inp.writePromptSet
    requires inp.intentAnswer.Returns? && inp.intentAnswer.value.create.value && inp.intentAnswer.value.delete.value
    ensures var intent := IssuedUpTo(inp.intentAnswer.value, inp.uuids, 3);
            && ActiveKind(intent) == "create"
            && Answer(s, question, inp).0.systemPromptName == DeleteEntity
            && (!(inp.writeAction.Returns? && inp.writeAction.value.1) ==> Answer(s, question, inp).0.operationId == Some(intent.create.operationId))
  {
  }

  /** A completed write cycle forgets the ID: none is active and the finished operation's ID is empty. */
  lemma ReadyClearsIds(s: Snapshot, question: string, inp: Inputs)
    requires ValidInputs(inp) && inp.intentAnswer.Returns? && IsWrite(inp.intentAnswer.value)
    requires inp.writeAction.Returns? && inp.writeAction.value.1
    ensures var (s', r) := Answer(s, question, inp);
            var issued := IssuedUpTo(inp.intentAnswer.value, inp.uuids, 3);
            && r == Returns(inp.writeAction.value.0)
            && s'.operationId.None?
            && s'.crudIntentAnswer.Some?
            && OpOf(s'.crudIntentAnswer.value, ActiveKind(issued)).operationId == ""
            && (forall k :: k in WriteKinds && k != ActiveKind(issued) ==> OpOf(s'.crudIntentAnswer.value, k) == OpOf(issued, k))
  {
  }

  /**
   * While a write cycle is still collecting data, the client follows the ID of the first
   * requested write operation, after "NEW" was replaced.
   */
  lemma PendingFollowsActiveId(s: Snapshot, question: string, inp: Inputs)
    requires ValidInputs(inp) && inp.intentAnswer.Returns? && IsWrite(inp.intentAnswer.value)
    requires inp.writeAction.Returns? ==> !inp.writeAction.value.1
    ensures var intent0 := inp.intentAnswer.value;
            var k := ActiveKind(intent0);
            var op := OpOf(intent0, k);
            Answer(s, question, inp).0.operationId ==
              Some(if op.operationId == "NEW" then inp.uuids[if k == "create" then 0 else if k == "update" then 1 else 2][..8]
                   else op.operationId)
  {
    var intent0 := inp.intentAnswer.value;
    IssuedMeaning(intent0, inp.uuids, 3);
    var issued := IssuedUpTo(intent0, inp.uuids, 3);
    assert OpOf(issued, "create").value == intent0.create.value by {
      assert WriteKinds[0] == "create";
    }
    assert OpOf(issued, "update").value == intent0.update.value by {
      assert WriteKinds[1] == "update";
    }
    assert ActiveKind(issued) == ActiveKind(intent0);
  }

  /** Show and general answers leave no operation ID behind, also when the general answer is empty. */
  lemma ReadsClearId(s: Snapshot, question: string, inp: Inputs)
    requires ValidInputs(inp) && inp.intentAnswer.Returns? && !IsWrite(inp.intentAnswer.value)
    ensures var (s', r) := Answer(s, question, inp);
            (inp.intentAnswer.value.show.value && inp.readAction.Returns? ==> s'.operationId.None?)
            && (!inp.intentAnswer.value.show.value && inp.generalAnswer.Returns? ==> s'.operationId.None?)
            && (!inp.intentAnswer.value.show.value && inp.generalAnswer == Returns(Option.None) ==>
                  r == Raises(ApiError(LlmErrorEmptyAnswer)))
  {
  }

  /**
   * After a completed write cycle, the next extraction does not report the finished
   * operation as interrupted.
   */
  lemma FinishedNotInterrupted(s: Snapshot, question: string, inp: Inputs)
    requires ValidInputs(inp) && inp.intentAnswer.Returns? && IsWrite(inp.intentAnswer.value)
    requires inp.writeAction.Returns? && inp.writeAction.value.1
    ensures var s' := Answer(s, question, inp).0;
            s'.crudIntentAnswer.Some? &&
            ActiveKind(IssuedUpTo(inp.intentAnswer.value, inp.uuids, 3)) !in InterruptedUpTo(s'.crudIntentAnswer.value, 3)
  {
    var s' := Answer(s, question, inp).0;
    InterruptedMeaning(s'.crudIntentAnswer.value, 3);
  }
}
