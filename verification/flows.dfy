/**
  The reactive streams of the view-models, reduced to sequences of events.
  A view-model either re-emits what it collects (`Relay`) or folds a list
  stream into its state (`Observe`), stopping at the first upstream error as
  a `catch` operator does.
 */
module Flows {
  import opened Outcomes

  /**
    The most recent value `pick` extracts from `s`, scanning from the end;
    `fallback` when no element of `s` yields one. This is the reference
    meaning of "the last one wins" used throughout the model.
   */
  function Latest<E, V>(fallback: V, s: seq<E>, pick: E -> Option<V>): V
    decreases |s|
  {
    if s == [] then fallback
    else match pick(s[|s| - 1])
      case Some(v) => v
      case None => Latest(fallback, s[..|s| - 1], pick)
  }

  /** Scanning a concatenation from the end is scanning the tail with the head's answer as fallback. */
  lemma {:induction false} LatestConcat<E, V>(fallback: V, a: seq<E>, b: seq<E>, pick: E -> Option<V>)
    ensures Latest(fallback, a + b, pick) == Latest(Latest(fallback, a, pick), b, pick)
    decreases |b|
  {
    if b == [] {
      assert a + b == a;
    } else {
      var ab := a + b;
      assert ab[|ab| - 1] == b[|b| - 1];
      assert ab[..|ab| - 1] == a + b[..|b| - 1];
      match pick(b[|b| - 1])
      case Some(v) =>
      case None =>
        LatestConcat(fallback, a, b[..|b| - 1], pick);
    }
  }

  /** One element followed by the rest: the element's own answer becomes the fallback. */
  lemma LatestCons<E, V>(fallback: V, x: E, t: seq<E>, pick: E -> Option<V>)
    ensures Latest(fallback, [x] + t, pick) == Latest(pick(x).GetOr(fallback), t, pick)
  {
    LatestConcat(fallback, [x], t, pick);
    assert [x][..0] == [];
  }

  /**
    Collecting an upstream and emitting every item on a shared flow: the
    emission log grows by exactly the upstream items, unchanged and in order.
   */
  function Relay<T>(log: seq<T>, upstream: seq<T>): (emitted: seq<T>)
    ensures emitted == log + upstream
    decreases |upstream|
  {
    if upstream == [] then log
    else Relay(log + [upstream[0]], upstream[1..])
  }

  /** One event of an observed list stream: a new snapshot, or the error that ends it. */
  datatype StreamEvent<T> = Emit(items: seq<T>) | Error(message: Option<string>)

  /** The two state flows a list observer writes: the current list and the last error message. */
  datatype ListView<T> = ListView(items: seq<T>, error: Option<string>)

  /**
    `upstream.catch { error := it.message }.collect { items := it }`:
    each snapshot replaces the list; the first error records its message and
    ends the collection.
   */
  function Observe<T>(view: ListView<T>, upstream: seq<StreamEvent<T>>): (r: ListView<T>)
    ensures r.items == view.items || exists i :: 0 <= i < |upstream| && upstream[i] == Emit(r.items)
    ensures r.error == view.error || exists i :: 0 <= i < |upstream| && upstream[i] == Error(r.error)
    decreases |upstream|
  {
    if upstream == [] then view
    else match upstream[0]
      case Emit(items) => Observe(view.(items := items), upstream[1..])
      case Error(m) => view.(error := m)
  }

  /** Position of the first error in the stream, or its length when there is none. */
  function FirstError<T>(upstream: seq<StreamEvent<T>>): (k: nat)
    ensures k <= |upstream|
    ensures forall i :: 0 <= i < k ==> upstream[i].Emit?
    ensures k < |upstream| ==> upstream[k].Error?
    decreases |upstream|
  {
    if upstream == [] then 0
    else if upstream[0].Error? then 0
    else 1 + FirstError(upstream[1..])
  }

  function SnapshotOf<T>(e: StreamEvent<T>): Option<seq<T>> {
    if e.Emit? then Some(e.items) else None
  }

  /**
    Reference meaning of an observation: the list is the last snapshot
    delivered before the first error (or the previous list), and the error
    is that first error's message (or the previous error).
   */
  lemma {:induction false} ObserveIsLastSnapshot<T>(view: ListView<T>, upstream: seq<StreamEvent<T>>)
    ensures var k := FirstError(upstream);
      Observe(view, upstream) ==
        ListView(Latest(view.items, upstream[..k], SnapshotOf),
                 if k < |upstream| then upstream[k].message else view.error)
    decreases |upstream|
  {
    if upstream == [] {
    } else if upstream[0].Error? {
      assert upstream[..0] == [];
    } else {
      var t := upstream[1..];
      var k' := FirstError(t);
      ObserveIsLastSnapshot(view.(items := upstream[0].items), t);
      assert upstream[..k' + 1] == [upstream[0]] + t[..k'];
      LatestCons(view.items, upstream[0], t[..k'], SnapshotOf);
    }
  }

  /** While no error has occurred, a new snapshot replaces the list wholesale and touches nothing else. */
  lemma {:induction false} ObserveSnapshotReplaces<T>(view: ListView<T>, s: seq<StreamEvent<T>>, items: seq<T>)
    requires FirstError(s) == |s|
    ensures Observe(view, s + [Emit(items)]) == Observe(view, s).(items := items)
    decreases |s|
  {
    if s == [] {
      assert s + [Emit(items)] == [Emit(items)];
      assert [Emit(items)][1..] == [];
    } else {
      assert (s + [Emit(items)])[0] == s[0];
      assert (s + [Emit(items)])[1..] == s[1..] + [Emit(items)];
      ObserveSnapshotReplaces(view.(items := s[0].items), s[1..], items);
    }
  }

  /** Nothing the upstream delivers after its first error reaches the state. */
  lemma ObserveIgnoresAfterError<T>(view: ListView<T>, s: seq<StreamEvent<T>>, m: Option<string>, rest: seq<StreamEvent<T>>)
    ensures Observe(view, s + [Error(m)] + rest) == Observe(view, s + [Error(m)])
  {
    var a := s + [Error(m)] + rest;
    var b := s + [Error(m)];
    ObserveIsLastSnapshot(view, a);
    ObserveIsLastSnapshot(view, b);
    FirstErrorPrefix(s + [Error(m)], rest);
    assert a[..FirstError(a)] == b[..FirstError(b)];
  }

  lemma {:induction false} FirstErrorPrefix<T>(s: seq<StreamEvent<T>>, rest: seq<StreamEvent<T>>)
    requires FirstError(s) < |s|
    ensures FirstError(s + rest) == FirstError(s)
    ensures (s + rest)[FirstError(s)] == s[FirstError(s)]
    decreases |s|
  {
    if s[0].Error? {
    } else {
      assert (s + rest)[1..] == s[1..] + rest;
      FirstErrorPrefix(s[1..], rest);
    }
  }

  /** An error appended to an error-free stream is its first error. */
  lemma {:induction false} FirstErrorAtEnd<T>(upstream: seq<StreamEvent<T>>, m: Option<string>)
    requires FirstError(upstream) == |upstream|
    ensures FirstError(upstream + [Error(m)]) == |upstream|
    decreases |upstream|
  {
    if upstream == [] {
    } else {
      assert (upstream + [Error(m)])[1..] == upstream[1..] + [Error(m)];
      FirstErrorAtEnd(upstream[1..], m);
    }
  }
}
