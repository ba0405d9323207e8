/** The native engine that applies the policy to batches as they come, and the loop it replaces. */
module EdgeEngines {
  import opened Wrappers
  import opened Layouts
  import opened Sorting
  import opened EdgePolicies

  datatype Refusal = WasCancelled | AlreadyFinished | NotFinished | EdgeLimit

  datatype Reply<T> = Done(value: T) | Refused(why: Refusal)

  /** A library sort: all that is known is what it promises. */
  method SortUnstable(s: seq<Edge>) returns (r: seq<Edge>)
    ensures Ascending(r, EdgeLeq) && multiset(r) == multiset(s)
  {
    r := Sorted(s, EdgeLeq);
    EdgesAreOrdered(s);
    SortedSorts(s, EdgeLeq);
  }

  // ----- the engine's state, as values

  ghost predicate CountsOk(raw: nat, duplicate: nat, seen: set<Edge>, cancelled: bool, input: seq<Edge>) {
    && raw == |input|
    && duplicate == |input| - |Distinct(input)|
    && seen == if cancelled then {} else Members(input)
  }

  /** What was handed out and what is still held make up what the policy keeps. */
  ghost predicate StreamOk(
    order: OutputOrder, duplicates: DuplicatePolicy, finished: bool, cancelled: bool,
    canonical: seq<Edge>, input: seq<Edge>, output: seq<Edge>)
  {
    var kept := Kept(duplicates, input);
    && (cancelled || order.Encounter? ==> canonical == [])
    && (order.Encounter? ==> output == kept)
    && (order.Canonical? && !finished ==> output == [] && (cancelled || canonical == kept))
    && (order.Canonical? && finished && !cancelled ==> output + Reversed(canonical) == Sorted(kept, EdgeLeq))
    && (order.Canonical? ==> output <= Sorted(kept, EdgeLeq))
  }

  lemma {:induction false} AcceptCounts(raw: nat, duplicate: nat, input: seq<Edge>, edge: Edge)
    requires CountsOk(raw, duplicate, Members(input), false, input)
    ensures CountsOk(raw + 1, if edge in Members(input) then duplicate + 1 else duplicate,
                     Members(input) + {edge}, false, input + [edge])
  {
    KeptAppend(Unique, input, edge);
    assert Members(input + [edge]) == Members(input) + {edge};
  }

  lemma {:induction false} AcceptStream(
    order: OutputOrder, duplicates: DuplicatePolicy, canonical: seq<Edge>, input: seq<Edge>, output: seq<Edge>,
    edge: Edge)
    requires StreamOk(order, duplicates, false, false, canonical, input, output)
    ensures var keep := if duplicates.Preserve? || edge !in Members(input) then [edge] else [];
      if order.Canonical?
      then StreamOk(order, duplicates, false, false, canonical + keep, input + [edge], output)
      else StreamOk(order, duplicates, false, false, canonical, input + [edge], output + keep)
  {
    hide Sorted, Distinct;
    KeptAppend(duplicates, input, edge);
  }

  lemma {:induction false} FinishStream(
    order: OutputOrder, duplicates: DuplicatePolicy, canonical: seq<Edge>, input: seq<Edge>, output: seq<Edge>,
    sorted: seq<Edge>)
    requires StreamOk(order, duplicates, false, false, canonical, input, output)
    requires order.Canonical? ==> Ascending(sorted, EdgeLeq) && multiset(sorted) == multiset(canonical)
    ensures StreamOk(order, duplicates, true, false,
                     if order.Canonical? then Reversed(sorted) else canonical, input, output)
  {
    hide Sorted, Distinct, Ascending;
    if order.Canonical? {
      SortedIs(sorted, canonical);
      assert Reversed(Reversed(sorted)) == sorted;
    }
  }

  lemma {:induction false} ReversedSplit(canonical: seq<Edge>, n: nat)
    requires n <= |canonical|
    ensures Reversed(canonical) == Reversed(canonical)[..n] + Reversed(canonical[..|canonical| - n])
  {
  }

  lemma {:induction false} DrainStream(
    order: OutputOrder, duplicates: DuplicatePolicy, canonical: seq<Edge>, input: seq<Edge>, output: seq<Edge>,
    n: nat)
    requires StreamOk(order, duplicates, true, false, canonical, input, output) && n <= |canonical|
    ensures StreamOk(order, duplicates, true, false, canonical[..|canonical| - n], input,
                     output + Reversed(canonical)[..n])
  {
    hide Sorted, Kept;
    ReversedSplit(canonical, n);
    assert output + Reversed(canonical) ==
      (output + Reversed(canonical)[..n]) + Reversed(canonical[..|canonical| - n]);
  }

  lemma {:induction false} SortedIs(sorted: seq<Edge>, s: seq<Edge>)
    requires Ascending(sorted, EdgeLeq) && multiset(sorted) == multiset(s)
    ensures sorted == Sorted(s, EdgeLeq)
  {
    EdgesAreOrdered(s);
    EdgesAreOrdered(sorted);
    SortedSorts(s, EdgeLeq);
    AscendingIsUnique(sorted, Sorted(s, EdgeLeq), EdgeLeq);
  }

  class EdgeEngine {
    const order: OutputOrder
    const duplicates: DuplicatePolicy
    const maxEdges: Option<nat>
    var seen: set<Edge>
    var canonical: seq<Edge>
    var rawEdges: nat
    var duplicateEdges: nat
    var finished: bool
    var cancelled: bool

    /** All edges accepted and all edges handed out, over the life of the engine. */
    ghost var input: seq<Edge>
    ghost var output: seq<Edge>

    ghost predicate Valid()
      reads this
    {
      && CountsOk(rawEdges, duplicateEdges, seen, cancelled, input)
      && StreamOk(order, duplicates, finished, cancelled, canonical, input, output)
      && (maxEdges.Some? ==> rawEdges <= maxEdges.value)
    }

    constructor (order: OutputOrder, duplicates: DuplicatePolicy, maxEdges: Option<nat>)
      ensures Valid() && input == [] && output == [] && !finished && !cancelled
      ensures this.order == order && this.duplicates == duplicates && this.maxEdges == maxEdges
    {
      this.order, this.duplicates, this.maxEdges := order, duplicates, maxEdges;
      seen, canonical, rawEdges, duplicateEdges := {}, [], 0, 0;
      finished, cancelled := false, false;
      input, output := [], [];
      new;
      assert Members([]) == {} && Distinct([]) == [];
    }

    predicate Active()
      reads this
    {
      !cancelled && !finished
    }

    /** Accepts one edge; the result holds it if it is to come out at once. */
    method Accept(edge: Edge) returns (now: seq<Edge>)
      requires Valid() && Active() && (maxEdges.Some? ==> rawEdges < maxEdges.value)
      modifies this
      ensures Valid() && Active()
      ensures rawEdges == old(rawEdges) + 1
      ensures input == old(input) + [edge] && output == old(output) + now
    {
      hide CountsOk, StreamOk;
      SeenIsMembers();
      AcceptCounts(rawEdges, duplicateEdges, input, edge);
      AcceptStream(order, duplicates, canonical, input, output, edge);
      now := [];
      var isNew := edge !in seen;
      rawEdges := rawEdges + 1;
      seen := seen + {edge};
      if !isNew {
        duplicateEdges := duplicateEdges + 1;
      }
      if duplicates.Preserve? || isNew {
        if order.Canonical? {
          canonical := canonical + [edge];
        } else {
          now := [edge];
        }
      }
      assert canonical + [] == canonical && output + [] == output;
      input := input + [edge];
      output := output + now;
    }

    lemma {:induction false} SeenIsMembers()
      requires Valid() && !cancelled
      ensures seen == Members(input) && rawEdges == |input|
    {
    }

    /** Accepts a whole batch or nothing; in encounter order its kept edges come out at once. */
    method Push(batch: seq<Edge>) returns (reply: Reply<seq<Edge>>)
      requires Valid()
      modifies this
      ensures Valid()
      ensures reply.Done? <==>
        old(Active()) && (maxEdges.None? || old(rawEdges) + |batch| <= maxEdges.value)
      ensures old(cancelled) || old(finished) ==> reply.Refused?
      ensures !old(cancelled) && !old(finished) && maxEdges.None? ==> reply.Done?
      ensures reply.Done? ==>
        && input == old(input) + batch
        && output == old(output) + reply.value
      ensures reply.Refused? ==>
        && reply.why == (if old(cancelled) then WasCancelled else if old(finished) then AlreadyFinished else EdgeLimit)
        && input == old(input) && output == old(output) && seen == old(seen) && canonical == old(canonical)
        && rawEdges == old(rawEdges) && duplicateEdges == old(duplicateEdges)
      ensures finished == old(finished) && cancelled == old(cancelled)
    {
      hide Valid;
      if cancelled {
        return Refused(WasCancelled);
      }
      if finished {
        return Refused(AlreadyFinished);
      }
      if maxEdges.Some? && rawEdges + |batch| > maxEdges.value {
        return Refused(EdgeLimit);
      }
      var result: seq<Edge> := [];
      var i := 0;
      assert batch[..0] == [];
      while i < |batch|
        invariant 0 <= i <= |batch|
        invariant input == old(input) + batch[..i]
        invariant output == old(output) + result
        invariant Valid() && Active() && rawEdges == old(rawEdges) + i
      {
        var now := Accept(batch[i]);
        result := result + now;
        assert batch[..i + 1] == batch[..i] + [batch[i]];
        i := i + 1;
      }
      assert batch[..i] == batch;
      reply := Done(result);
    }

    method Finish() returns (reply: Reply<()>)
      requires Valid()
      modifies this
      ensures Valid()
      ensures reply.Done? <==> old(Active())
      ensures reply.Done? <==> !old(cancelled) && !old(finished)
      ensures reply.Refused? ==> reply.why == if old(cancelled) then WasCancelled else AlreadyFinished
      ensures finished == (old(finished) || reply.Done?) && cancelled == old(cancelled)
      ensures input == old(input) && output == old(output)
    {
      hide StreamOk, CountsOk, Sorted;
      if cancelled {
        return Refused(WasCancelled);
      }
      if finished {
        return Refused(AlreadyFinished);
      }
      if order.Canonical? {
        var sorted := SortUnstable(canonical);
        FinishStream(order, duplicates, canonical, input, output, sorted);
        canonical := Reversed(sorted);
      } else {
        FinishStream(order, duplicates, canonical, input, output, []);
      }
      finished := true;
      reply := Done(());
    }

    /** Hands out the next edges of the canonical order. */
    method Drain(maxItems: nat) returns (reply: Reply<seq<Edge>>)
      requires Valid()
      modifies this
      ensures Valid()
      ensures reply.Done? <==> old(finished) && !old(cancelled)
      ensures reply.Refused? ==> reply.why == if old(finished) then WasCancelled else NotFinished
      ensures input == old(input) && finished == old(finished) && cancelled == old(cancelled)
      ensures output == old(output) + if reply.Done? then reply.value else []
      ensures reply.Done? ==>
        && |reply.value| == (if maxItems < |old(canonical)| then maxItems else |old(canonical)|)
        && |canonical| == |old(canonical)| - |reply.value|
    {
      hide StreamOk, CountsOk, Sorted;
      if !finished {
        return Refused(NotFinished);
      }
      if cancelled {
        return Refused(WasCancelled);
      }
      var amount := if maxItems < |canonical| then maxItems else |canonical|;
      DrainStream(order, duplicates, canonical, input, output, amount);
      var result := PopMany(amount);
      output := output + result;
      reply := Done(result);
    }

    method PopMany(amount: nat) returns (result: seq<Edge>)
      requires amount <= |canonical|
      modifies this`canonical
      ensures result == Reversed(old(canonical))[..amount]
      ensures canonical == old(canonical)[..|old(canonical)| - amount]
    {
      result := [];
      var i := 0;
      while i < amount
        invariant 0 <= i <= amount
        invariant canonical == old(canonical)[..|old(canonical)| - i]
        invariant result == Reversed(old(canonical))[..i]
      {
        var edge := canonical[|canonical| - 1];
        canonical := canonical[..|canonical| - 1];
        result := result + [edge];
        i := i + 1;
      }
    }

    /** Drops everything not yet handed out; the counters stay, the set of seen edges does not. */
    method Cancel()
      requires Valid()
      modifies this
      ensures Valid() && cancelled && finished == old(finished)
      ensures input == old(input) && output == old(output)
    {
      cancelled := true;
      canonical := [];
      seen := {};
    }

    /** Raw, distinct and duplicate edges; they add up exactly until a cancel forgets distinct ones. */
    method Stats() returns (raw: nat, distinct: nat, duplicate: nat)
      requires Valid()
      ensures raw == |input| && duplicate == |input| - |Distinct(input)|
      ensures distinct == if cancelled then 0 else |Distinct(input)|
      ensures raw == distinct + duplicate <==> !cancelled || input == []
    {
      raw, distinct, duplicate := rawEdges, |seen|, duplicateEdges;
      DistinctIsOnce(input);
      if input != [] {
        assert input[0] in Members(input);
      }
    }

    /** However the input was split and drained: an emptied engine has applied the policy to all of it. */
    lemma {:induction false} EmptiedIsPolicy()
      requires Valid() && !cancelled && (order.Canonical? ==> finished && canonical == [])
      ensures output == Policy(order, duplicates, input)
    {
      assert Reversed([]) == [];
    }

    /** At any time the edges handed out in canonical order are in byte order. */
    lemma {:induction false} OutputIsInByteOrder()
      requires Valid() && order.Canonical?
      ensures forall i, j | 0 <= i < j < |output| :: EdgesInByteOrder(output[i], output[j])
    {
      hide EdgesInByteOrder, Sorted, Distinct, CountsOk;
      CanonicalIsInByteOrder(duplicates, input);
    }
  }

  /** Cancelling clears the set of seen edges and keeps the counters, so the statistics no longer add up. */
  method CancelForgetsEdges(edge: Edge) returns (raw: nat, distinct: nat, duplicate: nat)
    ensures raw == 1 && distinct + duplicate == 0
  {
    var engine := new EdgeEngine(Encounter, Preserve, None);
    var reply := engine.Push([edge]);
    engine.Cancel();
    assert Distinct([edge]) == [edge] by {
      assert [edge][..0] == [];
    }
    raw, distinct, duplicate := engine.Stats();
  }

  /** The loop over one prepared compilation that the engine stands in for. */
  method IterProjectedEdges(raw: seq<Edge>, order: OutputOrder, duplicates: DuplicatePolicy)
    returns (edges: seq<Edge>, rawEdges: nat, distinct: nat, duplicate: nat)
    ensures edges == Policy(order, duplicates, raw)
    ensures order.Canonical? ==> forall i, j | 0 <= i < j < |edges| :: EdgesInByteOrder(edges[i], edges[j])
    ensures rawEdges == |raw| && distinct == |Distinct(raw)| && rawEdges == distinct + duplicate
  {
    hide Sorted, Distinct, EdgesInByteOrder;
    if order.Encounter? {
      edges, rawEdges, distinct, duplicate := IterEncountered(raw, duplicates);
      return;
    }
    DistinctIsOnce(raw);
    rawEdges, distinct := |raw|, |Members(raw)|;
    duplicate := rawEdges - distinct;
    edges := SortUnstable(if duplicates.Unique? then Distinct(raw) else raw);
    SortedIs(edges, Kept(duplicates, raw));
    CanonicalIsInByteOrder(duplicates, raw);
  }

  method IterEncountered(raw: seq<Edge>, duplicates: DuplicatePolicy)
    returns (edges: seq<Edge>, rawEdges: nat, distinct: nat, duplicate: nat)
    ensures edges == Kept(duplicates, raw)
    ensures rawEdges == |raw| && distinct == |Distinct(raw)| && rawEdges == distinct + duplicate
  {
    hide Distinct, Kept;
    var seen: set<Edge> := {};
    edges, rawEdges, distinct, duplicate := [], 0, 0, 0;
    NothingYet(raw, duplicates);
    while rawEdges < |raw|
      invariant 0 <= rawEdges <= |raw|
      invariant seen == Members(raw[..rawEdges])
      invariant edges == Kept(duplicates, raw[..rawEdges])
      invariant distinct == |Distinct(raw[..rawEdges])| && rawEdges == distinct + duplicate
    {
      var edge := raw[rawEdges];
      var repeated := edge in seen;
      OneMoreEdge(raw, rawEdges, duplicates);
      rawEdges := rawEdges + 1;
      if repeated {
        duplicate := duplicate + 1;
      } else {
        seen := seen + {edge};
        distinct := distinct + 1;
      }
      if duplicates.Preserve? || !repeated {
        edges := edges + [edge];
      }
    }
    assert raw[..rawEdges] == raw;
  }

  lemma {:induction false} NothingYet(raw: seq<Edge>, duplicates: DuplicatePolicy)
    ensures Members(raw[..0]) == {} && Kept(duplicates, raw[..0]) == [] && Distinct(raw[..0]) == []
  {
  }

  lemma {:induction false} OneMoreEdge(raw: seq<Edge>, n: nat, duplicates: DuplicatePolicy)
    requires n < |raw|
    ensures var before, after := raw[..n], raw[..n + 1];
      var isNew := raw[n] !in Members(before);
      && Members(after) == Members(before) + {raw[n]}
      && (!isNew ==> Members(after) == Members(before))
      && Kept(duplicates, after) == Kept(duplicates, before) + (if duplicates.Preserve? || isNew then [raw[n]] else [])
      && |Distinct(after)| == |Distinct(before)| + if isNew then 1 else 0
  {
    var before := raw[..n];
    KeptAppend(duplicates, before, raw[n]);
    KeptAppend(Unique, before, raw[n]);
    assert raw[..n + 1] == before + [raw[n]];
    assert Members(before + [raw[n]]) == Members(before) + {raw[n]};
  }
}
