/**
  Environments. A Go `Tracker` is a map from names to objects and a reference to
  the enclosing tracker. Here every tracker is a frame in one sequence, the heap,
  and a tracker is named by its index; a frame's outer tracker always has a
  smaller index, so the chain of outer trackers ends.
 */
module Tracker {
  import opened Wrappers
  import opened GoLib
  import opened Object

  /** One tracker: its own bindings and its enclosing tracker. */
  datatype Frame = Frame(store: map<Bytes, Value>, outer: Option<nat>)

  type Heap = seq<Frame>

  /** Every outer link goes to an earlier frame. */
  predicate WellFormed(h: Heap)
  {
    forall i | 0 <= i < |h| :: h[i].outer.Some? ==> h[i].outer.value < i
  }

  /** `Get`: the innermost binding of `name` along the chain from tracker `t`. */
  function Lookup(h: Heap, t: nat, name: Bytes): Option<Value>
    requires WellFormed(h) && t < |h|
    decreases t
  {
    if name in h[t].store then Some(h[t].store[name])
    else match h[t].outer
      case None => None
      case Some(o) => Lookup(h, o, name)
  }

  /** The trackers `Get` visits from `t`, innermost first. */
  function Chain(h: Heap, t: nat): (c: seq<nat>)
    requires WellFormed(h) && t < |h|
    ensures |c| > 0 && c[0] == t
    ensures forall i | 0 <= i < |c| :: c[i] < |h|
    decreases t
  {
    match h[t].outer
    case None => [t]
    case Some(o) => [t] + Chain(h, o)
  }

  /** A lookup fails exactly when no tracker on the chain binds the name, and otherwise
      finds the binding of the first tracker on the chain that has one. */
  lemma {:induction false} LookupAlongChain(h: Heap, t: nat, name: Bytes)
    requires WellFormed(h) && t < |h|
    ensures Lookup(h, t, name).None? ==> forall i | 0 <= i < |Chain(h, t)| :: name !in h[Chain(h, t)[i]].store
    ensures (forall i | 0 <= i < |Chain(h, t)| :: name !in h[Chain(h, t)[i]].store) ==> Lookup(h, t, name).None?
    ensures Lookup(h, t, name).Some? ==>
      exists i | 0 <= i < |Chain(h, t)| ::
        && name in h[Chain(h, t)[i]].store
        && Lookup(h, t, name).value == h[Chain(h, t)[i]].store[name]
        && forall j | 0 <= j < i :: name !in h[Chain(h, t)[j]].store
    decreases t
  {
    var c := Chain(h, t);
    if name in h[t].store {
      assert c[0] == t && name in h[c[0]].store;
      assert !(forall i | 0 <= i < |c| :: name !in h[c[i]].store);
      assert Lookup(h, t, name) == Some(h[t].store[name]);
    } else if h[t].outer.Some? {
      var o := h[t].outer.value;
      LookupAlongChain(h, o, name);
      var c1 := Chain(h, o);
      assert c == [t] + c1;
      assert forall i | 1 <= i < |c| :: c[i] == c1[i - 1];
      if Lookup(h, o, name).Some? {
        var i :| 0 <= i < |c1| && name in h[c1[i]].store
          && Lookup(h, o, name).value == h[c1[i]].store[name]
          && forall j | 0 <= j < i :: name !in h[c1[j]].store;
        assert c[i + 1] == c1[i];
        forall j | 0 <= j < i + 1
          ensures name !in h[c[j]].store
        {
          if j > 0 {
            assert c[j] == c1[j - 1];
          }
        }
      }
    }
  }

  /** A name bound in tracker `t` itself hides every outer binding. */
  lemma Shadowing(h: Heap, t: nat, name: Bytes)
    requires WellFormed(h) && t < |h| && name in h[t].store
    ensures Lookup(h, t, name) == Some(h[t].store[name])
  {
  }

  /** `NewTracker`: a new empty tracker with no outer tracker. */
  function Fresh(h: Heap): (r: (Heap, nat))
    requires WellFormed(h)
    ensures |r.0| == |h| + 1 && r.1 == |h| && r.0[..|h|] == h && WellFormed(r.0)
    ensures forall name :: Lookup(r.0, r.1, name).None?
  {
    (h + [Frame(map[], None)], |h|)
  }

  /** `NewEnclosedTracker(outer)`: a new empty tracker enclosed by `outer`. */
  function Enclosed(h: Heap, outer: nat): (r: (Heap, nat))
    requires WellFormed(h) && outer < |h|
    ensures |r.0| == |h| + 1 && r.1 == |h| && r.0[..|h|] == h && WellFormed(r.0)
    ensures r.0[r.1].store == map[] && r.0[r.1].outer == Some(outer)
  {
    (h + [Frame(map[], Some(outer))], |h|)
  }

  /** Adding frames does not change any lookup from an existing tracker. */
  lemma {:induction false} LookupExtend(h: Heap, h2: Heap, t: nat, name: Bytes)
    requires WellFormed(h) && WellFormed(h2) && t < |h| <= |h2| && h2[..|h|] == h
    ensures Lookup(h2, t, name) == Lookup(h, t, name)
    decreases t
  {
    assert h2[t] == h[t];
    if name !in h[t].store && h[t].outer.Some? {
      LookupExtend(h, h2, h[t].outer.value, name);
    }
  }

  /** A new enclosed tracker first sees exactly what its outer tracker sees. */
  lemma EnclosedSeesOuter(h: Heap, outer: nat, name: Bytes)
    requires WellFormed(h) && outer < |h|
    ensures var r := Enclosed(h, outer); Lookup(r.0, r.1, name) == Lookup(h, outer, name)
  {
    var r := Enclosed(h, outer);
    LookupExtend(h, r.0, outer, name);
  }

  /** `Set`: bind `name` in tracker `t` itself; it returns the value it stored. */
  function Bind(h: Heap, t: nat, name: Bytes, v: Value): (r: (Heap, Value))
    requires t < |h|
    ensures r.1 == v && |r.0| == |h|
    ensures r.0[t] == Frame(h[t].store[name := v], h[t].outer)
    ensures forall i | 0 <= i < |h| && i != t :: r.0[i] == h[i]
  {
    (h[t := Frame(h[t].store[name := v], h[t].outer)], v)
  }

  lemma BindKeepsWellFormed(h: Heap, t: nat, name: Bytes, v: Value)
    requires WellFormed(h) && t < |h|
    ensures WellFormed(Bind(h, t, name, v).0)
  {
  }

  /** After `Set(n, v)` a lookup of `n` from the same tracker finds `v`, and the lookups of
      all other names from it are unchanged. */
  lemma {:induction false} LookupAfterBind(h: Heap, t: nat, name: Bytes, v: Value, other: Bytes)
    requires WellFormed(h) && t < |h|
    ensures var h2 := Bind(h, t, name, v).0;
      WellFormed(h2) && Lookup(h2, t, name) == Some(v)
      && (other != name ==> Lookup(h2, t, other) == Lookup(h, t, other))
  {
    var h2 := Bind(h, t, name, v).0;
    if other != name && other !in h[t].store && h[t].outer.Some? {
      LookupUnaffected(h, t, name, v, h[t].outer.value, other);
    }
  }

  /** Trackers before `t` on the heap do not see a binding made in `t`. */
  lemma {:induction false} LookupUnaffected(h: Heap, t: nat, name: Bytes, v: Value, s: nat, other: Bytes)
    requires WellFormed(h) && s < t < |h|
    ensures Lookup(Bind(h, t, name, v).0, s, other) == Lookup(h, s, other)
    decreases s
  {
    var h2 := Bind(h, t, name, v).0;
    if other !in h[s].store && h[s].outer.Some? {
      LookupUnaffected(h, t, name, v, h[s].outer.value, other);
    }
  }

  // ---------------------------------------------------------------------
  // Closed heaps: function values refer to existing trackers
  // ---------------------------------------------------------------------

  /** Every function inside `v` was created in one of the first `n` trackers. */
  predicate ValueIn(v: Value, n: nat)
  {
    match v
    case Function(_, _, env) => env < n
    case ReturnValue(w) => ValueIn(w, n)
    case _ => true
  }

  lemma {:induction false} ValueInGrows(v: Value, n: nat, m: nat)
    requires ValueIn(v, n) && n <= m
    ensures ValueIn(v, m)
  {
    if v.ReturnValue? {
      ValueInGrows(v.inner, n, m);
    }
  }

  /** A well-formed heap all of whose bound values refer to its own trackers. */
  predicate Closed(h: Heap)
  {
    && WellFormed(h)
    && forall i, name | 0 <= i < |h| && name in h[i].store :: ValueIn(h[i].store[name], |h|)
  }

  /** Appending an empty frame keeps a heap closed. */
  lemma ClosedAppend(h: Heap, outer: Option<nat>)
    requires Closed(h) && (outer.Some? ==> outer.value < |h|)
    ensures Closed(h + [Frame(map[], outer)])
  {
    var h2 := h + [Frame(map[], outer)];
    forall i, name | 0 <= i < |h2| && name in h2[i].store
      ensures ValueIn(h2[i].store[name], |h2|)
    {
      ValueInGrows(h2[i].store[name], |h|, |h2|);
    }
  }

  lemma ClosedBind(h: Heap, t: nat, name: Bytes, v: Value)
    requires Closed(h) && t < |h| && ValueIn(v, |h|)
    ensures Closed(Bind(h, t, name, v).0)
  {
  }

  lemma LookupInClosed(h: Heap, t: nat, name: Bytes)
    requires Closed(h) && t < |h|
    ensures Lookup(h, t, name).Some? ==> ValueIn(Lookup(h, t, name).value, |h|)
    decreases t
  {
    if name !in h[t].store && h[t].outer.Some? {
      LookupInClosed(h, h[t].outer.value, name);
    }
  }

  // ---------------------------------------------------------------------
  // The trackers as objects updated in place
  // ---------------------------------------------------------------------

  /** All trackers of a run. `NewTracker`, `NewEnclosedTracker` and `Set` change the
      frames exactly as the functions of the same names say. */
  class Arena {
    var frames: Heap

    ghost predicate Valid()
      reads this
    {
      WellFormed(frames)
    }

    constructor ()
      ensures Valid() && frames == []
    {
      frames := [];
    }

    /** `Get` fails exactly when no tracker on the chain from `t` binds the name, and
        otherwise gives the binding of the first one that does. */
    function Get(t: nat, name: Bytes): (r: Option<Value>)
      requires Valid() && t < |frames|
      reads this
      ensures r.None? <==> forall i | 0 <= i < |Chain(frames, t)| :: name !in frames[Chain(frames, t)[i]].store
      ensures r.Some? ==>
        exists i | 0 <= i < |Chain(frames, t)| ::
          && name in frames[Chain(frames, t)[i]].store
          && r.value == frames[Chain(frames, t)[i]].store[name]
          && forall j | 0 <= j < i :: name !in frames[Chain(frames, t)[j]].store
    {
      LookupAlongChain(frames, t, name);
      Lookup(frames, t, name)
    }

    method NewTracker() returns (t: nat)
      requires Valid()
      modifies this
      ensures Valid() && (frames, t) == Fresh(old(frames))
    {
      t := |frames|;
      frames := frames + [Frame(map[], None)];
    }

    method NewEnclosedTracker(outer: nat) returns (t: nat)
      requires Valid() && outer < |frames|
      modifies this
      ensures Valid() && (frames, t) == Enclosed(old(frames), outer)
    {
      ghost var h := frames;
      t := NewTracker();
      frames := frames[t := frames[t].(outer := Some(outer))];
      assert frames == h + [Frame(map[], Some(outer))];
    }

    method Set(t: nat, name: Bytes, v: Value) returns (r: Value)
      requires Valid() && t < |frames|
      modifies this
      ensures Valid() && (frames, r) == Bind(old(frames), t, name, v)
    {
      frames := frames[t := frames[t].(store := frames[t].store[name := v])];
      return v;
    }
  }
}
