/**
 The event-callback registries of the story controller and the interaction
 handler: a fixed set of event names, each with the callbacks registered
 for it in registration order. `on` appends, `off` removes the first
 registration of that callback, and both ignore names the registry does
 not hold, except the members every plain JavaScript object inherits:
 `this.callbacks[event]` finds one of those, it is truthy, and calling
 `push` or `indexOf` on it throws a TypeError. Callbacks are compared by
 identity, so any type with equality stands for them.
 */
module Callbacks {
  import opened Wrappers
  import opened OrderedMap

  type Registry<C> = Entries<string, seq<C>>

  /** A registry holding the given event names, each with no callback. */
  function Empty<C>(names: seq<string>): (r: Registry<C>)
    ensures Keys(r) == names
    ensures forall i :: 0 <= i < |r| ==> r[i].1 == []
  {
    seq(|names|, i requires 0 <= i < |names| => (names[i], []))
  }

  /** The callbacks registered for `event`, in order; none for an unknown name. */
  function Listeners<C>(r: Registry<C>, event: string): seq<C> {
    Get(r, event).GetOr([])
  }

  /** A fresh registry holds no callback for any name. */
  lemma EmptyListeners<C>(names: seq<string>, event: string)
    ensures Listeners(Empty<C>(names), event) == []
  {
    var r := Empty<C>(names);
    var g := Get(r, event);
    if g.Some? {
      var i :| 0 <= i < |r| && r[i] == (event, g.value);
    }
  }

  /** `Array.prototype.indexOf`, with `None` for -1. */
  function IndexOf<C(==)>(s: seq<C>, x: C): (r: Option<nat>)
    ensures r.None? <==> x !in s
    ensures r.Some? ==> r.value < |s| && s[r.value] == x && forall j :: 0 <= j < r.value ==> s[j] != x
  {
    if |s| == 0 then None
    else if s[0] == x then Some(0)
    else
      var rest := IndexOf(s[1..], x);
      assert s == [s[0]] + s[1..];
      if rest.None? then None else Some(rest.value + 1)
  }

  /** `splice(indexOf(x), 1)` when `x` is present. */
  function RemoveFirst<C(==)>(s: seq<C>, x: C): (r: seq<C>)
    ensures x !in s ==> r == s
    ensures x in s ==> |r| == |s| - 1
    ensures x in s ==> exists i :: 0 <= i < |s| && s[i] == x && (forall j :: 0 <= j < i ==> s[j] != x) && r == s[..i] + s[i + 1..]
  {
    match IndexOf(s, x)
    case None => s
    case Some(i) => s[..i] + s[i + 1..]
  }

  /** The members of `Object.prototype`, which a lookup on a plain object finds when it holds no own key of that name. */
  const InheritedNames: set<string> := {"constructor", "__defineGetter__", "__defineSetter__", "hasOwnProperty",
    "__lookupGetter__", "__lookupSetter__", "isPrototypeOf", "propertyIsEnumerable", "toString", "valueOf",
    "__proto__", "toLocaleString"}

  const PushTypeError: string := "TypeError: this.callbacks[event].push is not a function"
  const IndexOfTypeError: string := "TypeError: this.callbacks[event].indexOf is not a function"

  /** `this.callbacks[event]` is truthy but not a list: an inherited member, for a name the registry does not hold. */
  predicate FindsInherited<C>(r: Registry<C>, event: string) {
    event !in Keys(r) && event in InheritedNames
  }

  /** `on`: append `cb` to the event's list when the event name is known; throw on an inherited name. */
  function On<C>(r: Registry<C>, event: string, cb: C): (res: Result<Registry<C>, string>)
    ensures res.Failure? <==> FindsInherited(r, event)
    ensures res.Failure? ==> res.error == PushTypeError
    ensures res.Success? ==> Keys(res.value) == Keys(r)
    ensures res.Success? && event !in Keys(r) ==> res.value == r
  {
    match Get(r, event)
    case None => if event in InheritedNames then Failure(PushTypeError) else Success(r)
    case Some(cbs) => Success(Put(r, event, cbs + [cb]))
  }

  /** `off`: remove the first registration of `cb` when the event name is known; throw on an inherited name. */
  function Off<C(==)>(r: Registry<C>, event: string, cb: C): (res: Result<Registry<C>, string>)
    ensures res.Failure? <==> FindsInherited(r, event)
    ensures res.Failure? ==> res.error == IndexOfTypeError
    ensures res.Success? ==> Keys(res.value) == Keys(r)
    ensures res.Success? && event !in Keys(r) ==> res.value == r
  {
    match Get(r, event)
    case None => if event in InheritedNames then Failure(IndexOfTypeError) else Success(r)
    case Some(cbs) => Success(Put(r, event, RemoveFirst(cbs, cb)))
  }

  /** `on` adds exactly one registration, at the end, and leaves the other events alone. */
  lemma OnListeners<C>(r: Registry<C>, event: string, cb: C, other: string)
    ensures On(r, event, cb).Success? ==>
      Listeners(On(r, event, cb).value, event) == if event in Keys(r) then Listeners(r, event) + [cb] else []
    ensures On(r, event, cb).Success? && other != event ==>
      Listeners(On(r, event, cb).value, other) == Listeners(r, other)
  {
    if event in Keys(r) {
      PutGet(r, event, Listeners(r, event) + [cb], event);
      PutGet(r, event, Listeners(r, event) + [cb], other);
    }
  }

  /** `off` removes exactly the first registration of `cb` and leaves the other events alone. */
  lemma OffListeners<C>(r: Registry<C>, event: string, cb: C, other: string)
    ensures Off(r, event, cb).Success? ==>
      Listeners(Off(r, event, cb).value, event) == RemoveFirst(Listeners(r, event), cb)
    ensures Off(r, event, cb).Success? && other != event ==>
      Listeners(Off(r, event, cb).value, other) == Listeners(r, other)
  {
    if event in Keys(r) {
      PutGet(r, event, RemoveFirst(Listeners(r, event), cb), event);
      PutGet(r, event, RemoveFirst(Listeners(r, event), cb), other);
    }
  }

  /** `off` undoes an `on` of a callback that was not registered for that event. */
  lemma OffUndoesOn<C>(r: Registry<C>, event: string, cb: C)
    requires cb !in Listeners(r, event)
    ensures On(r, event, cb).Success? ==>
      && Off(On(r, event, cb).value, event, cb).Success?
      && Listeners(Off(On(r, event, cb).value, event, cb).value, event) == Listeners(r, event)
  {
    if FindsInherited(r, event) {
      return;
    }
    OnListeners(r, event, cb, event);
    OffListeners(On(r, event, cb).value, event, cb, event);
    var cbs := Listeners(r, event);
    if event in Keys(r) {
      assert IndexOf(cbs + [cb], cb) == Some(|cbs|) by {
        assert (cbs + [cb])[|cbs|] == cb;
        assert forall j :: 0 <= j < |cbs| ==> (cbs + [cb])[j] == cbs[j];
      }
      assert (cbs + [cb])[..|cbs|] == cbs;
    }
  }
}
