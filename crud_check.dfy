/**
 * `ai_set_conversation_state` of backend/AI_API/general/conversation_crud_check.py: when no
 * CRUD operation is active, ask the intent assistant and move to the highest-priority
 * operation it reports (create, update, delete, show); otherwise leave the state alone.
 */
module CrudCheck {
  import opened Errors
  import opened ConversationStates

  /** The Python values the intent assistant can answer with. */
  datatype PyVal =
    | PyNone
    | PyBool(b: bool)
    | PyInt(i: int)
    | PyStr(s: string)
    | PyList(elems: seq<PyVal>)
    | PyDict(entries: seq<(string, PyVal)>)

  /** Python truthiness. */
  predicate PyTruthy(v: PyVal) {
    match v
    case PyNone => false
    case PyBool(b) => b
    case PyInt(i) => i != 0
    case PyStr(s) => s != ""
    case PyList(es) => es != []
    case PyDict(es) => es != []
  }

  const EmptyDict: PyVal := PyDict([])

  /** `d.get(k)`: the entry's value, or `None` when the key is missing. */
  function DictGet(entries: seq<(string, PyVal)>, k: string): (r: PyVal)
    ensures (forall i :: 0 <= i < |entries| ==> entries[i].0 != k) ==> r == PyNone
    ensures r != PyNone ==> exists i :: 0 <= i < |entries| && entries[i] == (k, r)
  {
    if entries == [] then PyNone
    else if entries[0].0 == k then entries[0].1
    else DictGet(entries[1..], k)
  }

  /**
   * `(crud_intent.get(k) or {}).get("value")`, as a truth value. Calling `.get` on something
   * that is not a dictionary raises `AttributeError`.
   */
  function IntentFlag(intent: PyVal, k: string): Outcome<bool> {
    if !intent.PyDict? then Raises(OtherError)
    else
      var entry := DictGet(intent.entries, k);
      var sub := if PyTruthy(entry) then entry else EmptyDict;
      if !sub.PyDict? then Raises(OtherError)
      else Returns(PyTruthy(DictGet(sub.entries, "value")))
  }

  /** The `if`/`elif` chain; a later entry is looked at only when the earlier ones are false. */
  function Decide(intent: PyVal): Outcome<CrudState> {
    match IntentFlag(intent, "create")
    case Raises(e) => Raises(e)
    case Returns(true) => Returns(Create)
    case Returns(false) =>
      match IntentFlag(intent, "update")
      case Raises(e) => Raises(e)
      case Returns(true) => Returns(Update)
      case Returns(false) =>
        match IntentFlag(intent, "delete")
        case Raises(e) => Raises(e)
        case Returns(true) => Returns(Delete)
        case Returns(false) =>
          match IntentFlag(intent, "show")
          case Raises(e) => Raises(e)
          case Returns(b) => Returns(if b then Show else None)
  }

  /** The handlers: `APIError` and Gemini errors pass through; anything else becomes error 1002. */
  function Surface(e: Exc): (r: Exc)
    ensures r.ApiError? || r.GenaiError?
  {
    if e.ApiError? || e.GenaiError? then e else ApiError(LlmErrorGettingCrudResult)
  }

  /**
   * The transition from `state`: the new state, and the returned intent dictionary or the
   * exception raised. `ask` stands for `llm_client.get_crud_in_user_question`.
   */
  function Transition(state: CrudState, ask: string -> Outcome<PyVal>, question: string): (CrudState, Outcome<PyVal>) {
    if state != None then (state, Returns(EmptyDict))
    else
      match ask(question)
      case Raises(e) => (state, Raises(Surface(e)))
      case Returns(answer) =>
        var intent := if PyTruthy(answer) then answer else EmptyDict;
        match Decide(intent)
        case Raises(e) => (state, Raises(Surface(e)))
        case Returns(next) => (next, Returns(intent))
  }

  /** `ai_set_conversation_state(self, user_question)`, acting on the conversation's state object. */
  method AiSetConversationState(cs: ConversationState, ask: string -> Outcome<PyVal>, question: string)
    returns (r: Outcome<PyVal>)
    modifies cs
    ensures (cs.state, r) == Transition(old(cs.state), ask, question)
  {
    var crudIntent := EmptyDict;
    if !cs.IsNone() {
      return Returns(crudIntent);
    }
    var answer := ask(question);
    if answer.Raises? {
      return Raises(Surface(answer.exc));
    }
    crudIntent := if PyTruthy(answer.value) then answer.value else EmptyDict;
    var create := IntentFlag(crudIntent, "create");
    if create.Raises? {
      return Raises(Surface(create.exc));
    }
    if create.value {
      cs.SetState(Create);
      return Returns(crudIntent);
    }
    var update := IntentFlag(crudIntent, "update");
    if update.Raises? {
      return Raises(Surface(update.exc));
    }
    if update.value {
      cs.SetState(Update);
      return Returns(crudIntent);
    }
    var delete := IntentFlag(crudIntent, "delete");
    if delete.Raises? {
      return Raises(Surface(delete.exc));
    }
    if delete.value {
      cs.SetState(Delete);
      return Returns(crudIntent);
    }
    var show := IntentFlag(crudIntent, "show");
    if show.Raises? {
      return Raises(Surface(show.exc));
    }
    if show.value {
      cs.SetState(Show);
    } else {
      cs.SetState(None);
    }
    return Returns(crudIntent);
  }

  // ---------------------------------------------------------------------------------------
  // Properties

  /**
   * While an operation is active the assistant is not consulted: any two assistants give the
   * same outcome, the state stays, and `{}` is returned.
   */
  lemma BusyIgnoresAssistant(state: CrudState, ask1: string -> Outcome<PyVal>, ask2: string -> Outcome<PyVal>, question: string)
    requires state != None
    ensures Transition(state, ask1, question) == Transition(state, ask2, question)
    ensures Transition(state, ask1, question) == (state, Returns(EmptyDict))
  {
  }

  /** An entry is "well formed" when `.get` can be applied to it: a dictionary, or falsy. */
  predicate WellFormedIntent(intent: PyVal) {
    && intent.PyDict?
    && forall k :: k in ["create", "update", "delete", "show"] ==>
         var entry := DictGet(intent.entries, k);
         !PyTruthy(entry) || entry.PyDict?
  }

  /** Whether the entry `k` of a well-formed intent asks for the operation. */
  predicate Active(intent: PyVal, k: string)
    requires intent.PyDict?
  {
    var entry := DictGet(intent.entries, k);
    PyTruthy(entry) && entry.PyDict? && PyTruthy(DictGet(entry.entries, "value"))
  }

  /**
   * From the idle state, a well-formed answer moves to the first operation it asks for,
   * in the order create, update, delete, show, and to `NONE` when it asks for none; the
   * answer itself (or `{}` for a falsy one) is returned.
   */
  lemma IdlePriority(ask: string -> Outcome<PyVal>, question: string)
    requires ask(question).Returns?
    requires var a := ask(question).value; !PyTruthy(a) || WellFormedIntent(a)
    ensures var a := ask(question).value;
            var intent := if PyTruthy(a) then a else EmptyDict;
            var (next, r) := Transition(None, ask, question);
            && r == Returns(intent)
            && (next == Create <==> Active(intent, "create"))
            && (next == Update <==> !Active(intent, "create") && Active(intent, "update"))
            && (next == Delete <==> !Active(intent, "create") && !Active(intent, "update") && Active(intent, "delete"))
            && (next == Show <==> !Active(intent, "create") && !Active(intent, "update") && !Active(intent, "delete") && Active(intent, "show"))
            && (next == None <==> !Active(intent, "create") && !Active(intent, "update") && !Active(intent, "delete") && !Active(intent, "show"))
  {
    var a := ask(question).value;
    var intent := if PyTruthy(a) then a else EmptyDict;
    assert WellFormedIntent(intent);
    WellFormedFlag(intent, "create");
    WellFormedFlag(intent, "update");
    WellFormedFlag(intent, "delete");
    WellFormedFlag(intent, "show");
  }

  /** On a well-formed intent every flag reads without raising. */
  lemma WellFormedFlag(intent: PyVal, k: string)
    requires WellFormedIntent(intent) && k in ["create", "update", "delete", "show"]
    ensures IntentFlag(intent, k) == Returns(Active(intent, k))
  {
  }

  /** A falsy answer (no answer, an empty dictionary, ...) means no operation and returns `{}`. */
  lemma FalsyAnswerMeansNone(ask: string -> Outcome<PyVal>, question: string)
    requires ask(question).Returns? && !PyTruthy(ask(question).value)
    ensures Transition(None, ask, question) == (None, Returns(EmptyDict))
  {
    assert IntentFlag(EmptyDict, "create") == Returns(false);
  }

  /** Missing entries count as false. */
  lemma MissingEntryIsInactive(entries: seq<(string, PyVal)>, k: string)
    requires forall i :: 0 <= i < |entries| ==> entries[i].0 != k
    ensures IntentFlag(PyDict(entries), k) == Returns(false)
  {
  }

  /**
   * Errors: the assistant's own `APIError` and Gemini errors pass through unchanged, any other
   * failure (also a malformed answer) surfaces as `APIError` 1002; the state never changes on error.
   */
  lemma ErrorsSurface(state: CrudState, ask: string -> Outcome<PyVal>, question: string)
    ensures Transition(state, ask, question).1.Raises? ==> Transition(state, ask, question).0 == state
    ensures state == None && ask(question).Raises? ==>
              Transition(state, ask, question).1 ==
                Raises(if ask(question).exc.ApiError? || ask(question).exc.GenaiError? then ask(question).exc
                       else ApiError(LlmErrorGettingCrudResult))
    ensures state == None && ask(question).Returns? && PyTruthy(ask(question).value) && !ask(question).value.PyDict? ==>
              Transition(state, ask, question).1 == Raises(ApiError(LlmErrorGettingCrudResult))
  {
  }

  /** A truthy non-dictionary entry raises only when the chain reaches it: a create request still wins. */
  lemma MalformedLaterEntryIgnored()
    ensures var intent := PyDict([("create", PyDict([("value", PyBool(true))])), ("update", PyStr("yes"))]);
            Decide(intent) == Returns(Create) && IntentFlag(intent, "update") == Raises(OtherError)
  {
    var intent := PyDict([("create", PyDict([("value", PyBool(true))])), ("update", PyStr("yes"))]);
    assert DictGet(intent.entries, "create") == PyDict([("value", PyBool(true))]);
    assert DictGet(intent.entries, "update") == PyStr("yes");
  }
}
