/** `Box<T>` (Helpers/Box.swift): an observable value with at most one
    listener. `bind` installs the listener and calls it at once with the current
    value; every later assignment to `value` calls the listener with the new
    value. The listener calls made so far are recorded in `calls`. */
module Boxes {
  import opened Wrappers

  /** The identity of a listener closure. */
  type ListenerId = nat

  datatype Call<T> = Call(listener: ListenerId, value: T)

  datatype Box<T> = Box(value: T, listener: Option<ListenerId>, calls: seq<Call<T>>)

  /** `Box(value)`: no listener yet, so nobody has been called. */
  function NewBox<T>(v: T): (b: Box<T>)
    ensures b.value == v && b.listener.None? && b.calls == []
  {
    Box(v, None, [])
  }

  /** `bind(listener:)`: replaces any earlier listener, then calls the new one
      once with the current value. */
  function Bind<T>(b: Box<T>, l: ListenerId): (b': Box<T>)
    ensures b'.value == b.value
    ensures b'.listener == Some(l)
    ensures b'.calls == b.calls + [Call(l, b.value)]
  {
    Box(b.value, Some(l), b.calls + [Call(l, b.value)])
  }

  /** Assignment to `value`: the `didSet` observer calls the bound listener, if
      any, with the new value. */
  function Set<T>(b: Box<T>, v: T): (b': Box<T>)
    ensures b'.value == v && b'.listener == b.listener
    ensures b.listener.None? ==> b'.calls == b.calls
    ensures b.listener.Some? ==> b'.calls == b.calls + [Call(b.listener.value, v)]
  {
    Box(v, b.listener, if b.listener.Some? then b.calls + [Call(b.listener.value, v)] else b.calls)
  }

  /** Assigns each of `vs` in turn. */
  function SetAll<T>(b: Box<T>, vs: seq<T>): Box<T>
    decreases |vs|
  {
    if |vs| == 0 then b else SetAll(Set(b, vs[0]), vs[1..])
  }

  /** The listener calls that assigning `vs` makes to listener `l`. */
  function CallsFor<T>(l: ListenerId, vs: seq<T>): (cs: seq<Call<T>>)
    ensures |cs| == |vs|
    ensures forall i :: 0 <= i < |vs| ==> cs[i] == Call(l, vs[i])
  {
    if |vs| == 0 then [] else [Call(l, vs[0])] + CallsFor(l, vs[1..])
  }

  /** After a bind, each assignment notifies the bound listener with the new
      value, in order; the box ends holding the last value assigned. */
  lemma {:induction false} SetAllNotifiesBoundListener<T>(b: Box<T>, vs: seq<T>)
    requires b.listener.Some?
    ensures SetAll(b, vs).calls == b.calls + CallsFor(b.listener.value, vs)
    ensures SetAll(b, vs).listener == b.listener
    ensures SetAll(b, vs).value == if |vs| == 0 then b.value else vs[|vs| - 1]
    decreases |vs|
  {
    if |vs| > 0 {
      var b1 := Set(b, vs[0]);
      SetAllNotifiesBoundListener(b1, vs[1..]);
      assert CallsFor(b.listener.value, vs) == [Call(b.listener.value, vs[0])] + CallsFor(b.listener.value, vs[1..]);
      if |vs| > 1 {
        assert vs[1..][|vs[1..]| - 1] == vs[|vs| - 1];
      }
    }
  }

  /** Assignments before any bind notify no one, and the value is the last one
      assigned. */
  lemma {:induction false} SetAllBeforeBindIsSilent<T>(b: Box<T>, vs: seq<T>)
    requires b.listener.None?
    ensures SetAll(b, vs).calls == b.calls
    ensures SetAll(b, vs).listener.None?
    ensures SetAll(b, vs).value == if |vs| == 0 then b.value else vs[|vs| - 1]
    decreases |vs|
  {
    if |vs| > 0 {
      SetAllBeforeBindIsSilent(Set(b, vs[0]), vs[1..]);
      if |vs| > 1 {
        assert vs[1..][|vs[1..]| - 1] == vs[|vs| - 1];
      }
    }
  }

  /** A second bind replaces the first listener: the first is called once, at
      its bind; the second once at its bind and then on every assignment. */
  lemma RebindReplacesListener<T>(b: Box<T>, l1: ListenerId, l2: ListenerId, vs: seq<T>)
    ensures SetAll(Bind(Bind(b, l1), l2), vs).calls
              == b.calls + [Call(l1, b.value), Call(l2, b.value)] + CallsFor(l2, vs)
  {
    var b2 := Bind(Bind(b, l1), l2);
    SetAllNotifiesBoundListener(b2, vs);
    assert b2.calls == b.calls + [Call(l1, b.value), Call(l2, b.value)];
  }
}
