/** `Event`: the plain list-based publish/subscribe helper. Callbacks are known by an
    identifier; whether one raises when called is given by the caller as a set. */
module Events {
  import opened Common

  type Callback = nat

  /** The callbacks `emit` reaches before an exception leaves it: all of them, or those up
      to and including the first one that raises. */
  function Reached(subs: seq<Callback>, raising: set<Callback>): (r: seq<Callback>)
    ensures |r| <= |subs| && r == subs[..|r|]
    ensures forall i :: 0 <= i < |r| - 1 ==> r[i] !in raising
    ensures |r| < |subs| ==> |r| > 0 && r[|r| - 1] in raising
    ensures (forall c :: c in subs ==> c !in raising) ==> r == subs
  {
    if subs == [] then []
    else if subs[0] in raising then [subs[0]]
    else [subs[0]] + Reached(subs[1..], raising)
  }

  class Event {
    var subscribers: seq<Callback>

    /** A callback is registered at most once. */
    predicate Valid()
      reads this
    {
      Distinct(subscribers)
    }

    constructor ()
      ensures Valid() && subscribers == []
    {
      subscribers := [];
    }

    method Subscribe(callback: Callback)
      requires Valid()
      modifies this
      ensures Valid()
      ensures subscribers == if callback in old(subscribers) then old(subscribers) else old(subscribers) + [callback]
    {
      if callback !in subscribers {
        subscribers := subscribers + [callback];
      }
    }

    method Unsubscribe(callback: Callback)
      requires Valid()
      modifies this
      ensures Valid()
      ensures subscribers == RemoveFirst(old(subscribers), callback)
      ensures callback !in subscribers
      ensures forall c :: c in subscribers <==> c in old(subscribers) && c != callback
    {
      RemoveFirstDistinct(subscribers, callback);
      if callback in subscribers {
        subscribers := RemoveFirst(subscribers, callback);
      }
    }

    /** Calls the callbacks in subscription order. A raising callback ends the loop and the
        exception reaches the caller (`raised`). */
    method Emit(raising: set<Callback>) returns (called: seq<Callback>, raised: bool)
      ensures called == Reached(subscribers, raising)
      ensures raised <==> exists c :: c in subscribers && c in raising
    {
      called := [];
      var i := 0;
      while i < |subscribers|
        invariant 0 <= i <= |subscribers|
        invariant called == subscribers[..i]
        invariant forall j :: 0 <= j < i ==> subscribers[j] !in raising
      {
        var c := subscribers[i];
        called := called + [c];
        assert called == subscribers[..i + 1];
        if c in raising {
          ReachedAfterPrefix(subscribers, raising, i);
          return called, true;
        }
        i := i + 1;
      }
      assert subscribers[..i] == subscribers;
      return called, false;
    }

    method Clear()
      modifies this
      ensures Valid() && subscribers == []
    {
      subscribers := [];
    }
  }

  /** When the first raising callback sits at `i`, emit reaches exactly the first `i + 1`. */
  lemma {:induction false} ReachedAfterPrefix(subs: seq<Callback>, raising: set<Callback>, i: nat)
    requires i < |subs| && subs[i] in raising
    requires forall j :: 0 <= j < i ==> subs[j] !in raising
    ensures Reached(subs, raising) == subs[..i + 1]
    decreases i
  {
    if i > 0 {
      ReachedAfterPrefix(subs[1..], raising, i - 1);
      assert subs[..i + 1] == [subs[0]] + subs[1..][..i];
    }
  }
}
