/** backend/AI_API/general/conversation_state.py: the CRUD state of a conversation. */
module ConversationStates {
  /** `CrudState`, in declaration order. */
  datatype CrudState = Show | Update | Delete | Create | None

  /** The enum's value. */
  function Ordinal(s: CrudState): (r: nat)
    ensures 1 <= r <= 5
  {
    match s
    case Show => 1
    case Update => 2
    case Delete => 3
    case Create => 4
    case None => 5
  }

  /** Distinct members carry distinct values. */
  lemma OrdinalInjective(s: CrudState, t: CrudState)
    requires Ordinal(s) == Ordinal(t)
    ensures s == t
  {
  }

  /** `ConversationState`: one mutable `state` field and a read-only flag per member. */
  class ConversationState {
    var state: CrudState

    /** A new conversation has no active CRUD operation. */
    constructor()
      ensures state == None && IsNone()
    {
      state := None;
    }

    method SetState(s: CrudState)
      modifies this
      ensures state == s
      ensures IsCreate() <==> s == Create
      ensures IsUpdate() <==> s == Update
      ensures IsDelete() <==> s == Delete
      ensures IsShow() <==> s == Show
      ensures IsNone() <==> s == None
    {
      state := s;
    }

    method Reset()
      modifies this
      ensures state == None && IsNone()
      ensures !IsCreate() && !IsUpdate() && !IsDelete() && !IsShow()
    {
      state := None;
    }

    predicate IsCreate() reads this { state == Create }
    predicate IsUpdate() reads this { state == Update }
    predicate IsDelete() reads this { state == Delete }
    predicate IsShow() reads this { state == Show }
    predicate IsNone() reads this { state == None }

    /** The five flags in a fixed order. */
    function Flags(): (r: seq<bool>)
      reads this
      ensures |r| == 5
    {
      [IsCreate(), IsUpdate(), IsDelete(), IsShow(), IsNone()]
    }
  }

  function CountTrue(bs: seq<bool>): nat {
    if bs == [] then 0 else (if bs[0] then 1 else 0) + CountTrue(bs[1..])
  }

  /** Exactly one flag holds at any time. */
  lemma ExactlyOneFlag(cs: ConversationState)
    ensures CountTrue(cs.Flags()) == 1
  {
    var f := cs.Flags();
    assert f[1..] == [cs.IsUpdate(), cs.IsDelete(), cs.IsShow(), cs.IsNone()];
    assert f[1..][1..] == [cs.IsDelete(), cs.IsShow(), cs.IsNone()];
    assert f[1..][1..][1..] == [cs.IsShow(), cs.IsNone()];
    assert f[1..][1..][1..][1..] == [cs.IsNone()];
    assert f[1..][1..][1..][1..][1..] == [];
    assert CountTrue([cs.IsNone()]) == (if cs.IsNone() then 1 else 0);
    assert CountTrue([cs.IsShow(), cs.IsNone()]) == (if cs.IsShow() then 1 else 0) + CountTrue([cs.IsNone()]);
    assert CountTrue([cs.IsDelete(), cs.IsShow(), cs.IsNone()]) ==
           (if cs.IsDelete() then 1 else 0) + CountTrue([cs.IsShow(), cs.IsNone()]);
    assert CountTrue(f[1..]) == (if cs.IsUpdate() then 1 else 0) + CountTrue([cs.IsDelete(), cs.IsShow(), cs.IsNone()]);
  }
}
