/**
 * The deferred-capture registry: the multimap from world to capture
 * components waiting for the end-of-frame flush, the comparator the flush
 * sorts them with, and the flush itself.
 *
 * A weak pointer to a component is valid exactly when the component's id is
 * a key of the `Liveness` map handed to the flush; the value is the
 * component's current `CaptureSortPriority`.
 */
module DeferredCaptures {
  import opened Common
  import ArrayOps

  /** One (world, component) pair of the multimap. */
  datatype Entry = Entry(world: WorldId, capture: CaptureId)

  /** The components still alive, each with its `CaptureSortPriority`. */
  type Liveness = map<CaptureId, Int32>

  /** `MultiFind`: the components registered under world `w`. */
  function CapturesFor(entries: seq<Entry>, w: WorldId): (r: seq<CaptureId>)
    ensures forall c :: c in r <==> Entry(w, c) in entries
    ensures ArrayOps.NoDup(entries) ==> ArrayOps.NoDup(r)
  {
    if entries == [] then []
    else
      assert entries == [entries[0]] + entries[1..];
      (if entries[0].world == w then [entries[0].capture] else []) + CapturesFor(entries[1..], w)
  }

  /** `Remove(World)`: every entry for `w` is dropped, the others keep their order. */
  function WithoutWorld(entries: seq<Entry>, w: WorldId): (r: seq<Entry>)
    ensures forall e :: e in r <==> e in entries && e.world != w
    ensures ArrayOps.NoDup(entries) ==> ArrayOps.NoDup(r)
  {
    if entries == [] then []
    else
      assert entries == [entries[0]] + entries[1..];
      (if entries[0].world == w then [] else [entries[0]]) + WithoutWorld(entries[1..], w)
  }

  /** After a flush of `w` nothing is pending for `w`, and every other world
      has exactly the captures it had before, in the same order. */
  lemma {:induction false} FlushForgetsOnlyItsWorld(entries: seq<Entry>, w: WorldId, other: WorldId)
    ensures CapturesFor(WithoutWorld(entries, w), w) == []
    ensures other != w ==> CapturesFor(WithoutWorld(entries, w), other) == CapturesFor(entries, other)
  {
    if entries != [] {
      FlushForgetsOnlyItsWorld(entries[1..], w, other);
      var head := if entries[0].world == w then [] else [entries[0]];
      assert WithoutWorld(entries, w) == head + WithoutWorld(entries[1..], w);
      CapturesForAppend(head, WithoutWorld(entries[1..], w), w);
      CapturesForAppend(head, WithoutWorld(entries[1..], w), other);
    }
  }

  /** `MultiFind` distributes over concatenation. */
  lemma {:induction false} CapturesForAppend(a: seq<Entry>, b: seq<Entry>, w: WorldId)
    ensures CapturesFor(a + b, w) == CapturesFor(a, w) + CapturesFor(b, w)
  {
    if a != [] {
      var head := if a[0].world == w then [a[0].capture] else [];
      assert (a + b)[0] == a[0] && (a + b)[1..] == a[1..] + b;
      assert CapturesFor(a + b, w) == head + CapturesFor(a[1..] + b, w);
      assert CapturesFor(a, w) == head + CapturesFor(a[1..], w);
      CapturesForAppend(a[1..], b, w);
    } else {
      assert a + b == b;
    }
  }

  /** The sort comparator: `a` is rendered before `b`. An invalid pointer is
      never before anything; a valid one is before every invalid one; two
      valid ones compare by priority, higher first. */
  function RendersBefore(a: CaptureId, b: CaptureId, live: Liveness): (r: bool)
    ensures r ==> a in live
    ensures a in live && b !in live ==> r
  {
    if a !in live then false
    else if b !in live then true
    else live[a] > live[b]
  }

  /** `RendersBefore` is a strict weak order, as the engine's sort requires
      of its predicate: irreflexive, asymmetric and transitive, with
      incomparability (two invalid pointers, or two valid ones of equal
      priority) transitive too. */
  lemma RendersBeforeStrictWeakOrder(a: CaptureId, b: CaptureId, c: CaptureId, live: Liveness)
    ensures !RendersBefore(a, a, live)
    ensures RendersBefore(a, b, live) ==> !RendersBefore(b, a, live)
    ensures RendersBefore(a, b, live) && RendersBefore(b, c, live) ==> RendersBefore(a, c, live)
    ensures (!RendersBefore(a, b, live) && !RendersBefore(b, a, live)) &&
            (!RendersBefore(b, c, live) && !RendersBefore(c, b, live)) ==>
            !RendersBefore(a, c, live) && !RendersBefore(c, a, live)
  {
  }

  /** Valid components come before invalid ones, in non-increasing priority. */
  predicate PriorityOrdered(s: seq<CaptureId>, live: Liveness) {
    forall i, j :: 0 <= i < j < |s| && s[j] in live ==> s[i] in live && live[s[i]] >= live[s[j]]
  }

  /** A sequence is `PriorityOrdered` exactly when no element is placed after
      one the comparator puts it before. */
  lemma ComparatorAgreesWithOrder(s: seq<CaptureId>, live: Liveness)
    ensures PriorityOrdered(s, live) <==>
            forall i, j :: 0 <= i < j < |s| ==> !RendersBefore(s[j], s[i], live)
  {
  }

  /** Inserting `x` before the first element it renders before keeps the order. */
  lemma InsertKeepsOrder(s: seq<CaptureId>, x: CaptureId, k: nat, live: Liveness)
    requires PriorityOrdered(s, live) && k <= |s|
    requires forall i :: 0 <= i < k ==> !RendersBefore(x, s[i], live)
    requires k < |s| ==> RendersBefore(x, s[k], live)
    ensures PriorityOrdered(s[..k] + [x] + s[k..], live)
  {
  }

  /** The first position whose element `x` renders before, or the end. */
  method InsertionPoint(sorted: seq<CaptureId>, x: CaptureId, live: Liveness) returns (k: nat)
    ensures k <= |sorted|
    ensures forall i :: 0 <= i < k ==> !RendersBefore(x, sorted[i], live)
    ensures k < |sorted| ==> RendersBefore(x, sorted[k], live)
  {
    k := 0;
    while k < |sorted| && !RendersBefore(x, sorted[k], live)
      invariant 0 <= k <= |sorted|
      invariant forall i :: 0 <= i < k ==> !RendersBefore(x, sorted[i], live)
    {
      k := k + 1;
    }
  }

  /** Inserting adds exactly one occurrence of `x`. */
  lemma InsertMultiset(s: seq<CaptureId>, x: CaptureId, k: nat)
    requires k <= |s|
    ensures multiset(s[..k] + [x] + s[k..]) == multiset(s) + multiset{x}
  {
    assert s == s[..k] + s[k..];
  }

  /** Sorts the pending captures with `RendersBefore`. Like the engine's sort
      it promises no particular order among equal priorities. */
  method SortCaptures(captures: seq<CaptureId>, live: Liveness) returns (sorted: seq<CaptureId>)
    ensures multiset(sorted) == multiset(captures)
    ensures PriorityOrdered(sorted, live)
  {
    sorted := [];
    var n := 0;
    while n < |captures|
      invariant 0 <= n <= |captures|
      invariant multiset(sorted) == multiset(captures[..n])
      invariant PriorityOrdered(sorted, live)
    {
      var x := captures[n];
      var k := InsertionPoint(sorted, x, live);
      InsertKeepsOrder(sorted, x, k, live);
      InsertMultiset(sorted, x, k);
      sorted := sorted[..k] + [x] + sorted[k..];
      assert captures[..n + 1] == captures[..n] + [x];
      n := n + 1;
    }
    assert captures[..n] == captures;
  }

  /** The captures of `s` whose pointer is still valid, in order. */
  function LiveOnly(s: seq<CaptureId>, live: Liveness): (r: seq<CaptureId>)
    ensures forall c :: c in r <==> c in s && c in live
    ensures forall c :: multiset(r)[c] == if c in live then multiset(s)[c] else 0
  {
    if s == [] then []
    else
      assert s == s[..|s| - 1] + [s[|s| - 1]];
      LiveOnly(s[..|s| - 1], live) + (if s[|s| - 1] in live then [s[|s| - 1]] else [])
  }

  /** A prefix of an ordered sequence is ordered. */
  lemma PrefixOrdered(s: seq<CaptureId>, n: nat, live: Liveness)
    requires PriorityOrdered(s, live) && n <= |s|
    ensures PriorityOrdered(s[..n], live)
  {
  }

  /** Appending a valid capture of priority no higher than any before it keeps the order. */
  lemma AppendOrdered(r: seq<CaptureId>, x: CaptureId, live: Liveness)
    requires PriorityOrdered(r, live) && x in live
    requires forall y :: y in r ==> y in live && live[y] >= live[x]
    ensures PriorityOrdered(r + [x], live)
  {
  }

  /** Skipping invalid captures keeps the priority order. */
  lemma {:induction false} LiveOnlyKeepsOrder(s: seq<CaptureId>, live: Liveness)
    requires PriorityOrdered(s, live)
    ensures PriorityOrdered(LiveOnly(s, live), live)
  {
    if s != [] {
      var init, last := s[..|s| - 1], s[|s| - 1];
      PrefixOrdered(s, |s| - 1, live);
      LiveOnlyKeepsOrder(init, live);
      var r0 := LiveOnly(init, live);
      if last in live {
        forall y | y in r0
          ensures y in live && live[y] >= live[last]
        {
          var i :| 0 <= i < |init| && init[i] == y;
          assert s[i] == y;
        }
        AppendOrdered(r0, last, live);
      }
    }
  }

  /** The process-wide map of captures waiting for the flush, as an owned object. */
  class Registry {
    var pending: seq<Entry>

    /** `AddUnique` keeps each (world, component) pair at most once. */
    ghost predicate Valid()
      reads this
    {
      ArrayOps.NoDup(pending)
    }

    constructor ()
      ensures Valid() && pending == []
    {
      pending := [];
    }

    /** `SceneCapturesToUpdateMap.AddUnique(World, this)`: afterwards the pair
        is registered exactly once, however often it was added before. */
    method AddUnique(w: WorldId, c: CaptureId)
      requires Valid()
      modifies this
      ensures Valid()
      ensures pending == ArrayOps.AddUnique(old(pending), Entry(w, c))
      ensures multiset(pending)[Entry(w, c)] == 1
    {
      pending := ArrayOps.AddUnique(pending, Entry(w, c));
      ArrayOps.NoDupOccursOnce(pending, Entry(w, c));
    }

    /** `UpdateDeferredCaptures`: for the scene's world, renders the valid
        pending components in non-increasing priority, skips invalid ones,
        then forgets every entry of that world. `rendered` lists the
        `UpdateSceneCaptureContents` calls in the order they are made. */
    method UpdateDeferredCaptures(world: Option<WorldId>, live: Liveness) returns (rendered: seq<CaptureId>)
      requires Valid()
      modifies this
      ensures Valid()
      ensures (world.None? || old(pending) == []) ==> pending == old(pending) && rendered == []
      ensures world.Some? && old(pending) != [] ==>
                && pending == WithoutWorld(old(pending), world.value)
                && CapturesFor(pending, world.value) == []
                && (forall c :: c in rendered ==> c in live)
                && (forall c :: c in live ==> multiset(rendered)[c] == multiset(CapturesFor(old(pending), world.value))[c])
                && (forall c :: c in live && Entry(world.value, c) in old(pending) ==> multiset(rendered)[c] == 1)
                && PriorityOrdered(rendered, live)
    {
      if world.None? || |pending| == 0 {
        rendered := [];
        return;
      }
      var w := world.value;
      var toUpdate := CapturesFor(pending, w);
      var sorted := SortCaptures(toUpdate, live);
      rendered := [];
      for k := 0 to |sorted|
        invariant rendered == LiveOnly(sorted[..k], live)
      {
        assert sorted[..k + 1][..k] == sorted[..k];
        if sorted[k] in live {
          rendered := rendered + [sorted[k]];
        }
      }
      assert sorted[..|sorted|] == sorted;
      LiveOnlyKeepsOrder(sorted, live);
      forall c | c in live && Entry(w, c) in pending
        ensures multiset(rendered)[c] == 1
      {
        ArrayOps.NoDupOccursOnce(toUpdate, c);
      }
      FlushForgetsOnlyItsWorld(pending, w, w);
      pending := WithoutWorld(pending, w);
    }
  }

  /** A sequence holding exactly the two valid captures `hi` and `lo`, once
      each and in priority order, is `[hi, lo]`. */
  lemma TwoInPriorityOrder(r: seq<CaptureId>, hi: CaptureId, lo: CaptureId, live: Liveness)
    requires hi in live && lo in live && live[hi] > live[lo]
    requires forall c :: c in r ==> c in live
    requires multiset(r) == multiset{hi, lo}
    requires PriorityOrdered(r, live)
    ensures r == [hi, lo]
  {
  }

  /** What the first flush of `FlushScenario` promises determines its outcome. */
  lemma ScenarioFirstFlush(w: WorldId, rendered: seq<CaptureId>, after: seq<Entry>, live: Liveness)
    requires live == map[1 := 10, 2 := 20]
    requires after == WithoutWorld([Entry(w, 1), Entry(w, 2), Entry(w, 3)], w)
    requires forall c :: c in rendered ==> c in live
    requires forall c :: c in live ==> multiset(rendered)[c] == multiset(CapturesFor([Entry(w, 1), Entry(w, 2), Entry(w, 3)], w))[c]
    requires PriorityOrdered(rendered, live)
    ensures rendered == [2, 1] && after == []
  {
    var pending := [Entry(w, 1), Entry(w, 2), Entry(w, 3)];
    assert pending[1..] == [Entry(w, 2), Entry(w, 3)] && pending[1..][1..] == [Entry(w, 3)];
    assert CapturesFor([Entry(w, 3)], w) == [3];
    assert CapturesFor(pending, w) == [1, 2, 3];
    assert multiset(rendered) == multiset{2, 1} by {
      forall x ensures multiset(rendered)[x] == multiset{2, 1}[x] {
        if x !in live {
          assert x !in rendered;
        }
      }
    }
    TwoInPriorityOrder(rendered, 2, 1, live);
    assert WithoutWorld([Entry(w, 3)], w) == [];
    assert WithoutWorld(pending[1..], w) == [];
  }

  /** Two captures A (priority 10) and B (priority 20) and a third, C, that is
      destroyed before the flush, all requested for one world: the flush
      renders B then A, skips C, and a second flush renders nothing. */
  method FlushScenario(w: WorldId) returns (first: seq<CaptureId>, second: seq<CaptureId>)
    ensures first == [2, 1]
    ensures second == []
  {
    var a, b, c := 1, 2, 3;
    var registry := new Registry();
    registry.AddUnique(w, a);
    registry.AddUnique(w, b);
    registry.AddUnique(w, a);
    registry.AddUnique(w, c);
    assert registry.pending == [Entry(w, a), Entry(w, b), Entry(w, c)];
    var live: Liveness := map[a := 10, b := 20];
    first := registry.UpdateDeferredCaptures(Some(w), live);
    ScenarioFirstFlush(w, first, registry.pending, live);
    second := registry.UpdateDeferredCaptures(Some(w), live);
  }
}
