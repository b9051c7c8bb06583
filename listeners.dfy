/** The listener registry of the memory manager: every event listener the
    overlay attaches is recorded, so that all of them, or those of one
    element, can be detached again. */
module Listeners {
  import opened Js

  /** A DOM node, by identity (`===`). */
  type Element = nat
  /** A callback function, by identity. */
  type Handler = nat

  /** One record `{element, eventType, handler, options}`. */
  datatype Listener = Listener(element: Element, eventType: string, handler: Handler, options: Value)

  /** The records in reverse order: the order `pop()` hands them out. */
  function Reverse(ls: seq<Listener>): (r: seq<Listener>)
    ensures |r| == |ls|
    decreases |ls|
  {
    if ls == [] then [] else Reverse(ls[1..]) + [ls[0]]
  }

  /** The records whose element is not `e`, in their order. */
  function Without(ls: seq<Listener>, e: Element): (r: seq<Listener>)
    ensures |r| <= |ls|
    decreases |ls|
  {
    if ls == [] then []
    else
      var last := ls[|ls| - 1];
      Without(ls[..|ls| - 1], e) + (if last.element == e then [] else [last])
  }

  /** The records whose element is `e`, in their order. */
  function Of(ls: seq<Listener>, e: Element): seq<Listener>
    decreases |ls|
  {
    if ls == [] then []
    else
      var last := ls[|ls| - 1];
      Of(ls[..|ls| - 1], e) + (if last.element == e then [last] else [])
  }

  // ---------------------------------------------------------------------
  // Properties of the specification functions

  /** Last in, first out: the i-th record removed is the i-th from the end. */
  lemma {:induction false} ReverseAt(ls: seq<Listener>)
    ensures forall i | 0 <= i < |ls| :: Reverse(ls)[i] == ls[|ls| - 1 - i]
    decreases |ls|
  {
    if ls != [] {
      ReverseAt(ls[1..]);
    }
  }

  /** Draining removes every record exactly once. */
  lemma {:induction false} ReverseSameRecords(ls: seq<Listener>)
    ensures multiset(Reverse(ls)) == multiset(ls)
    decreases |ls|
  {
    if ls != [] {
      ReverseSameRecords(ls[1..]);
      assert ls == [ls[0]] + ls[1..];
    }
  }

  /** Filtering works piece by piece, so the kept records stay in the order
      they were registered in. */
  lemma {:induction false} WithoutAppend(a: seq<Listener>, b: seq<Listener>, e: Element)
    ensures Without(a + b, e) == Without(a, e) + Without(b, e)
    decreases |b|
  {
    if b == [] {
      assert a + b == a;
    } else {
      var b' := b[..|b| - 1];
      assert (a + b)[..|a + b| - 1] == a + b';
      WithoutAppend(a, b', e);
    }
  }

  /** Exactly the records of element `e` go; every other record stays. */
  lemma {:induction false} WithoutKeeps(ls: seq<Listener>, e: Element, l: Listener)
    ensures l in Without(ls, e) <==> l in ls && l.element != e
    decreases |ls|
  {
    if ls != [] {
      var front := ls[..|ls| - 1];
      WithoutKeeps(front, e, l);
      assert ls == front + [ls[|ls| - 1]];
    }
  }

  /** The kept and the removed records together are the registry: nothing
      is lost and nothing duplicated. */
  lemma {:induction false} WithoutOfSplit(ls: seq<Listener>, e: Element)
    ensures multiset(Without(ls, e)) + multiset(Of(ls, e)) == multiset(ls)
    decreases |ls|
  {
    if ls != [] {
      var front := ls[..|ls| - 1];
      var last := ls[|ls| - 1];
      WithoutOfSplit(front, e);
      assert ls == front + [last];
      assert multiset(ls) == multiset(front) + multiset{last};
      if last.element == e {
        assert multiset(Of(ls, e)) == multiset(Of(front, e)) + multiset{last};
      } else {
        assert multiset(Without(ls, e)) == multiset(Without(front, e)) + multiset{last};
      }
    }
  }

  /** Cleaning an element a second time changes nothing. */
  lemma {:induction false} WithoutTwice(ls: seq<Listener>, e: Element)
    ensures Without(Without(ls, e), e) == Without(ls, e)
    decreases |ls|
  {
    if ls != [] {
      var front := ls[..|ls| - 1];
      var last := ls[|ls| - 1];
      WithoutTwice(front, e);
      WithoutAppend(Without(front, e), if last.element == e then [] else [last], e);
      if last.element != e {
        assert [last][..0] == [];
      }
    }
  }

  // ---------------------------------------------------------------------
  // The registry

  class Registry {
    /** `registeredEventListeners`. */
    var registered: seq<Listener>
    /** The `addEventListener` calls that succeeded, in order. */
    var added: seq<Listener>
    /** The `removeEventListener` calls made, in order. */
    var removed: seq<Listener>

    constructor ()
      ensures registered == [] && added == [] && removed == []
    {
      registered, added, removed := [], [], [];
    }

    /** `registerEventListener(element, eventType, handler, options)`. A
        missing element or handler is `None`, a missing type the empty
        string; `addThrows` says whether `addEventListener` throws. */
    method Register(element: Option<Element>, eventType: string, handler: Option<Handler>,
                    options: Value, addThrows: bool)
      modifies this
      ensures element.None? || eventType == [] || handler.None? || addThrows ==>
              registered == old(registered) && added == old(added)
      ensures element.Some? && eventType != [] && handler.Some? && !addThrows ==>
              var l := Listener(element.value, eventType, handler.value, options);
              registered == old(registered) + [l] && added == old(added) + [l]
      ensures removed == old(removed)
    {
      if element.None? || eventType == [] || handler.None? {
        return;
      }
      if addThrows {
        return;
      }
      var l := Listener(element.value, eventType, handler.value, options);
      added := added + [l];
      registered := registered + [l];
    }

    /** `cleanupAllEventListeners()`: pops records until none is left and
        detaches each one (a failing detach is caught and ignored). */
    method CleanupAll()
      modifies this
      ensures registered == []
      ensures removed == old(removed) + Reverse(old(registered))
      ensures added == old(added)
    {
      ghost var all := registered;
      while |registered| > 0
        invariant registered == all[..|registered|]
        invariant removed == old(removed) + Reverse(all[|registered|..])
        invariant added == old(added)
        decreases |registered|
      {
        var n := |registered|;
        var listener := registered[n - 1];
        registered := registered[..n - 1];
        assert all[n - 1..][1..] == all[n..];
        removed := removed + [listener];
      }
      assert all[0..] == all;
    }

    /** `cleanupElementEventListeners(element)`: detaches the records of
        `element` and keeps the others, in order. */
    method CleanupElement(element: Option<Element>)
      modifies this
      ensures element.None? ==> registered == old(registered) && removed == old(removed)
      ensures element.Some? ==> registered == Without(old(registered), element.value)
      ensures element.Some? ==> removed == old(removed) + Of(old(registered), element.value)
      ensures added == old(added)
    {
      if element.None? {
        return;
      }
      var e := element.value;
      var remaining: seq<Listener> := [];
      var i := 0;
      while i < |registered|
        invariant 0 <= i <= |registered| && registered == old(registered)
        invariant remaining == Without(registered[..i], e)
        invariant removed == old(removed) + Of(registered[..i], e)
        invariant added == old(added)
      {
        var listener := registered[i];
        assert registered[..i + 1][..i] == registered[..i];
        if listener.element == e {
          removed := removed + [listener];
        } else {
          remaining := remaining + [listener];
        }
        i := i + 1;
      }
      assert registered[..i] == registered;
      registered := remaining;
    }
  }
}
