/**
 The batched output of a compiler: a retained edge stream that is handed out in
 bounded batches, and the record that says how far it has been handed out.
 */
module BatchOutput {
  import opened Wrappers

  datatype Edge = Edge(source: string, relation: string, destination: string)

  /** A prepared stream: all its edges, and how many of them have been handed out. */
  datatype Stream = Stream(edges: seq<Edge>, cursor: nat) {
    predicate Valid() {
      cursor <= |edges|
    }

    function Remaining(): nat {
      if cursor <= |edges| then |edges| - cursor else 0
    }

    /** The next batch; the stream itself does not move. */
    function Next(bound: nat): (batch: seq<Edge>)
      requires Valid()
      ensures |batch| == if bound < Remaining() then bound else Remaining()
      ensures batch <= edges[cursor..]
    {
      edges[cursor..cursor + if bound < Remaining() then bound else Remaining()]
    }

    function Advance(n: nat): Stream {
      Stream(edges, cursor + n)
    }
  }

  /** The fields of the output record. */
  datatype Output = Output(
    stream: Option<Stream>,
    remaining: nat,
    bound: nat,
    boundaryCalls: nat,
    batches: nat,
    peak: nat,
    prepared: bool,
    draining: bool,
    exhausted: bool,
    cancelled: bool)

  const ABSENT: Output := Output(None, 0, 0, 0, 0, 0, false, false, false, false)

  function Installed(stream: Stream, bound: nat): Output {
    var exhausted := stream.Remaining() == 0;
    Output(if exhausted then None else Some(stream), stream.Remaining(), bound, 1, 0, 0, true, false,
           exhausted, false)
  }

  /** Only a prepared output that is neither closed nor exhausted can be closed. */
  predicate Open(o: Output) {
    o.prepared && !o.cancelled && !o.exhausted
  }

  function Closed(o: Output): Output {
    if Open(o) then o.(stream := None, remaining := 0, cancelled := true) else o
  }

  predicate CanDrain(o: Output) {
    Open(o) && !o.draining && o.stream.Some?
  }

  /** The first critical section of a drain takes the stream away. */
  function Taken(o: Output): Output
    requires CanDrain(o)
  {
    o.(stream := None, draining := true)
  }

  /** The last critical section of a drain that failed puts the stream back, unless the output was closed. */
  function Restored(o: Output, stream: Stream): Output {
    o.(draining := false, stream := if o.cancelled then o.stream else Some(stream))
  }

  /** The last critical section of a drain that succeeded moves the cursor, unless the output was closed. */
  function Committed(o: Output, stream: Stream, batch: seq<Edge>): Output {
    if o.cancelled then o.(draining := false) else
      var moved := stream.Advance(|batch|);
      var done := moved.Remaining() == 0;
      o.(draining := false,
         stream := if done then o.stream else Some(moved),
         boundaryCalls := o.boundaryCalls + 1,
         batches := o.batches + 1,
         peak := if |batch| > o.peak then |batch| else o.peak,
         remaining := moved.Remaining(),
         exhausted := o.exhausted || done)
  }

  datatype Status = AbsentStatus | ActiveStatus | ExhaustedStatus | CancelledStatus

  datatype DrainStart = Granted(stream: Stream, bound: nat) | Empty | Unprepared | WasClosed | Busy | Lost

  /** What the first critical section answers. */
  function StartOf(o: Output): DrainStart {
    if !o.prepared then Unprepared
    else if o.cancelled then WasClosed
    else if o.exhausted then Empty
    else if o.draining then Busy
    else if o.stream.None? then Lost
    else Granted(o.stream.value, o.bound)
  }

  /** The record as the compiler keeps it, guarded by a mutex: every method is one critical section. */
  class DirectBatchOutput {
    var stream: Option<Stream>
    var remainingEdges: nat
    var batchEdges: nat
    var boundaryCalls: nat
    var edgeBatches: nat
    var peakBufferedEdges: nat
    var prepared: bool
    var draining: bool
    var exhausted: bool
    var cancelled: bool

    function Value(): Output
      reads this
    {
      Output(stream, remainingEdges, batchEdges, boundaryCalls, edgeBatches, peakBufferedEdges,
             prepared, draining, exhausted, cancelled)
    }

    constructor ()
      ensures Value() == ABSENT
    {
      stream := None;
      remainingEdges, batchEdges, boundaryCalls, edgeBatches, peakBufferedEdges := 0, 0, 0, 0, 0;
      prepared, draining, exhausted, cancelled := false, false, false, false;
    }

    method Install(s: Stream, bound: nat)
      modifies this
      ensures Value() == Installed(s, bound)
      ensures prepared && !draining && !cancelled && batchEdges == bound
      ensures boundaryCalls == 1 && edgeBatches == 0 && peakBufferedEdges == 0
      ensures remainingEdges == if s.cursor < |s.edges| then |s.edges| - s.cursor else 0
      ensures exhausted == (s.cursor >= |s.edges|) && stream == if s.cursor >= |s.edges| then None else Some(s)
    {
      remainingEdges := s.Remaining();
      exhausted := remainingEdges == 0;
      stream := if exhausted then None else Some(s);
      batchEdges, boundaryCalls, edgeBatches, peakBufferedEdges := bound, 1, 0, 0;
      prepared, draining, cancelled := true, false, false;
    }

    method Cancel() returns (closed: bool)
      modifies this
      ensures closed == Open(old(Value()))
      ensures Value() == Closed(old(Value()))
      ensures closed <==> old(prepared) && !old(cancelled) && !old(exhausted)
      ensures Value() == if !closed then old(Value())
        else old(Value()).(stream := None, remaining := 0, cancelled := true)
    {
      if !prepared || cancelled || exhausted {
        return false;
      }
      stream := None;
      remainingEdges := 0;
      cancelled := true;
      closed := true;
    }

    method BeginDrain() returns (start: DrainStart)
      modifies this
      ensures start == StartOf(old(Value()))
      ensures Value() == if CanDrain(old(Value())) then Taken(old(Value())) else old(Value())
      ensures start.Unprepared? <==> !old(prepared)
      ensures start.WasClosed? <==> old(prepared) && old(cancelled)
      ensures start.Empty? <==> old(prepared) && !old(cancelled) && old(exhausted)
      ensures start.Busy? <==> old(prepared) && !old(cancelled) && !old(exhausted) && old(draining)
      ensures start.Granted? <==>
        old(prepared) && !old(cancelled) && !old(exhausted) && !old(draining) && old(stream).Some?
      ensures start.Granted? ==> start.stream == old(stream).value && start.bound == old(batchEdges)
      ensures Value() == if start.Granted? then old(Value()).(stream := None, draining := true) else old(Value())
    {
      if !prepared {
        return Unprepared;
      }
      if cancelled {
        return WasClosed;
      }
      if exhausted {
        return Empty;
      }
      if draining {
        return Busy;
      }
      if stream.None? {
        return Lost;
      }
      start := Granted(stream.value, batchEdges);
      stream := None;
      draining := true;
    }

    /** `batch` is absent when preparing it or building its objects failed. */
    method EndDrain(s: Stream, batch: Option<seq<Edge>>) returns (delivered: Option<seq<Edge>>)
      modifies this
      ensures delivered == if old(Value()).cancelled then None else batch
      ensures Value() == match batch
        case None => Restored(old(Value()), s)
        case Some(edges) => Committed(old(Value()), s, edges)
      ensures delivered.None? ==>
        Value() == old(Value()).(draining := false, stream := if old(cancelled) then old(stream) else Some(s))
      ensures delivered.Some? ==>
        var moved := Stream(s.edges, s.cursor + |delivered.value|);
        var left := if moved.cursor < |s.edges| then |s.edges| - moved.cursor else 0;
        && !draining && !cancelled && prepared == old(prepared) && batchEdges == old(batchEdges)
        && boundaryCalls == old(boundaryCalls) + 1 && edgeBatches == old(edgeBatches) + 1
        && remainingEdges == left && exhausted == (old(exhausted) || left == 0)
        && stream == (if left == 0 then old(stream) else Some(moved))
        && peakBufferedEdges >= old(peakBufferedEdges) && peakBufferedEdges >= |delivered.value|
        && (peakBufferedEdges == old(peakBufferedEdges) || peakBufferedEdges == |delivered.value|)
    {
      draining := false;
      if cancelled {
        return None;
      }
      if batch.None? {
        stream := Some(s);
        return None;
      }
      var moved := s.Advance(|batch.value|);
      remainingEdges := moved.Remaining();
      boundaryCalls := boundaryCalls + 1;
      edgeBatches := edgeBatches + 1;
      if |batch.value| > peakBufferedEdges {
        peakBufferedEdges := |batch.value|;
      }
      if remainingEdges == 0 {
        exhausted := true;
      } else {
        stream := Some(moved);
      }
      delivered := batch;
    }

    method RemainingEdges() returns (n: nat)
      ensures n == if Open(Value()) then Value().remaining else 0
    {
      n := if prepared && !cancelled && !exhausted then remainingEdges else 0;
    }

    method State() returns (status: Status)
      ensures status.AbsentStatus? <==> !Value().prepared
      ensures status.ActiveStatus? <==> Open(Value())
      ensures status.CancelledStatus? <==> Value().prepared && Value().cancelled
      ensures status.ActiveStatus? <==> prepared && !cancelled && !exhausted
      ensures status.ExhaustedStatus? <==> prepared && !cancelled && exhausted
    {
      status := if !prepared then AbsentStatus else if cancelled then CancelledStatus
                else if exhausted then ExhaustedStatus else ActiveStatus;
    }
  }

  // ----- what has been handed out

  function Concat(batches: seq<seq<Edge>>): seq<Edge> {
    if batches == [] then [] else Concat(batches[..|batches| - 1]) + batches[|batches| - 1]
  }

  /** All batches but the last are full, and the last is not empty. */
  ghost predicate WellSized(batches: seq<seq<Edge>>, bound: nat) {
    && (forall k | 0 <= k < |batches| :: 1 <= |batches[k]| <= bound)
    && (forall k | 0 <= k < |batches| - 1 :: |batches[k]| == bound)
  }

  /** A drain in flight: it holds the stream, and after preparing it holds a batch or a failure. */
  datatype Drain =
    | NoDrain
    | Holding(stream: Stream)
    | Ready(stream: Stream, batch: Option<seq<Edge>>)
    | Dropped

  /** The position of the output: what was issued to it and what it delivered. */
  ghost predicate Accounted(o: Output, drain: Drain, issued: seq<Edge>, delivered: seq<seq<Edge>>) {
    var handed := |Concat(delivered)|;
    if !o.prepared then
      o == ABSENT && drain.NoDrain? && delivered == []
    else
      && o.bound > 0
      && Concat(delivered) <= issued
      && WellSized(delivered, o.bound)
      && (o.draining <==> !drain.NoDrain?)
      && o.batches == |delivered| && o.boundaryCalls == |delivered| + 1
      && o.peak == (if delivered == [] then 0 else |delivered[0]|)
      && !(o.cancelled && o.exhausted)
      && (o.exhausted ==> drain.NoDrain?)
      && (!o.cancelled ==> o.remaining == |issued| - handed && (o.exhausted <==> handed == |issued|))
      && (handed < |issued| ==> handed == o.bound * |delivered|)
      && (Open(o) && drain.NoDrain? ==> o.stream == Some(Stream(issued, handed)))
      && (o.cancelled || !drain.NoDrain? ==> handed < |issued|)
      && (drain.Holding? || drain.Ready? ==> drain.stream == Stream(issued, handed))
      && (drain.Ready? && drain.batch.Some? ==>
            drain.batch.value == drain.stream.Next(o.bound))
  }

  lemma {:induction false} InstallAccounts(edges: seq<Edge>, bound: nat)
    requires bound > 0
    ensures Accounted(Installed(Stream(edges, 0), bound), NoDrain, edges, [])
  {
    assert Concat([]) == [];
  }

  lemma {:induction false} CloseAccounts(o: Output, drain: Drain, issued: seq<Edge>, delivered: seq<seq<Edge>>)
    requires Accounted(o, drain, issued, delivered)
    ensures Accounted(Closed(o), drain, issued, delivered)
  {
  }

  lemma {:induction false} TakeAccounts(o: Output, drain: Drain, issued: seq<Edge>, delivered: seq<seq<Edge>>)
    requires Accounted(o, drain, issued, delivered) && CanDrain(o)
    ensures drain.NoDrain? && Accounted(Taken(o), Holding(o.stream.value), issued, delivered)
  {
  }

  lemma {:induction false} PrepareAccounts(
    o: Output, drain: Drain, issued: seq<Edge>, delivered: seq<seq<Edge>>, batch: Option<seq<Edge>>)
    requires Accounted(o, drain, issued, delivered) && drain.Holding?
    requires batch.Some? ==> batch.value == drain.stream.Next(o.bound)
    ensures Accounted(o, Ready(drain.stream, batch), issued, delivered)
  {
  }

  lemma {:induction false} DropAccounts(o: Output, drain: Drain, issued: seq<Edge>, delivered: seq<seq<Edge>>)
    requires Accounted(o, drain, issued, delivered) && drain.Holding?
    ensures Accounted(o, Dropped, issued, delivered)
  {
  }

  lemma {:induction false} RestoreAccounts(o: Output, drain: Drain, issued: seq<Edge>, delivered: seq<seq<Edge>>)
    requires Accounted(o, drain, issued, delivered) && drain.Ready?
    ensures Accounted(Restored(o, drain.stream), NoDrain, issued, delivered)
  {
  }

  lemma {:induction false} CommitAccounts(o: Output, drain: Drain, issued: seq<Edge>, delivered: seq<seq<Edge>>)
    requires Accounted(o, drain, issued, delivered) && drain.Ready? && drain.batch.Some?
    ensures Accounted(Committed(o, drain.stream, drain.batch.value), NoDrain, issued,
                      if o.cancelled then delivered else delivered + [drain.batch.value])
  {
    hide Concat, WellSized;
    if !o.cancelled {
      GrownIsPrefix(issued, delivered, drain.batch.value, o.bound);
    }
  }

  /** One more batch, cut off where the delivered ones end. */
  lemma {:induction false} GrownIsPrefix(issued: seq<Edge>, delivered: seq<seq<Edge>>, batch: seq<Edge>, bound: nat)
    requires bound > 0 && Concat(delivered) <= issued && WellSized(delivered, bound)
    requires |Concat(delivered)| < |issued| && |Concat(delivered)| == bound * |delivered|
    requires batch == Stream(issued, |Concat(delivered)|).Next(bound)
    ensures var more := delivered + [batch];
      && Concat(more) == Concat(delivered) + batch && Concat(more) <= issued
      && WellSized(more, bound) && more[0] == (if delivered == [] then batch else delivered[0])
      && (delivered != [] ==> |delivered[0]| == bound)
      && 1 <= |batch| <= bound
      && (|Concat(more)| < |issued| ==> |Concat(more)| == bound * |more|)
  {
    var handed, more := |Concat(delivered)|, delivered + [batch];
    assert more[..|more| - 1] == delivered;
    assert Concat(delivered) == issued[..handed];
    assert batch == issued[handed..handed + |batch|];
    assert bound * |more| == bound * |delivered| + bound;
    if delivered != [] {
      FirstIsLongest(delivered, bound, batch);
    }
  }

  lemma {:induction false} FirstIsLongest(delivered: seq<seq<Edge>>, bound: nat, batch: seq<Edge>)
    requires WellSized(delivered, bound) && delivered != []
    requires |Concat(delivered)| == bound * |delivered| && |batch| <= bound
    ensures |delivered[0]| == bound && WellSized(delivered, bound)
    ensures forall k | 0 <= k < |delivered| :: |delivered[k]| == bound
  {
    SizesAddUp(delivered, bound);
  }

  lemma {:induction false} SizesAddUp(delivered: seq<seq<Edge>>, bound: nat)
    requires WellSized(delivered, bound) && delivered != []
    ensures |Concat(delivered)| == bound * (|delivered| - 1) + |delivered[|delivered| - 1]|
    decreases |delivered|
  {
    var init := delivered[..|delivered| - 1];
    if init != [] {
      SizesAddUp(init, bound);
      assert bound * |init| == bound * (|init| - 1) + bound;
    }
  }

  // ----- the counters at exhaustion

  lemma {:induction false} MultipleGrows(b: nat, small: nat, large: nat)
    requires small < large
    ensures b * small + b <= b * large
  {
    if small + 1 < large {
      MultipleGrows(b, small, large - 1);
    }
    assert b * large == b * (large - 1) + b;
  }

  lemma {:induction false} QuotientIsUnique(x: nat, b: nat, k: nat)
    requires b > 0 && b * k <= x < b * k + b
    ensures x / b == k
  {
    var q := x / b;
    if q < k {
      MultipleGrows(b, q, k);
    } else if k < q {
      MultipleGrows(b, k, q);
    }
  }

  /** The ceiling of `n / b`. */
  function Ceiling(n: nat, b: nat): nat
    requires b > 0
  {
    (n + b - 1) / b
  }

  /** The least number of batches of size `b` that hold `n` edges. */
  lemma {:induction false} CeilingIsLeast(n: nat, b: nat)
    requires b > 0
    ensures n <= b * Ceiling(n, b) < n + b
  {
    var total := n + b - 1;
    assert total == b * (total / b) + total % b;
  }

  /**
   When everything has been handed out, the counters depend on the number of edges and
   the bound alone, whatever attempts failed in between.
   */
  lemma {:induction false} CountersAtExhaustion(o: Output, drain: Drain, issued: seq<Edge>, delivered: seq<seq<Edge>>)
    requires Accounted(o, drain, issued, delivered) && o.prepared && o.exhausted
    ensures Concat(delivered) == issued
    ensures o.batches == Ceiling(|issued|, o.bound)
    ensures o.boundaryCalls == Ceiling(|issued|, o.bound) + 1
    ensures o.peak == if |issued| < o.bound then |issued| else o.bound
  {
    var n, b, k := |issued|, o.bound, |delivered|;
    if k == 0 {
      assert Concat(delivered) == [];
      QuotientIsUnique(n + b - 1, b, 0);
    } else {
      SizesAddUp(delivered, b);
      assert b * k == b * (k - 1) + b;
      QuotientIsUnique(n + b - 1, b, k);
      if k > 1 {
        assert |delivered[0]| == b;
        assert b * (k - 1) >= b;
      }
    }
  }

  // ----- the coarse path

  const COARSE_CHUNK_EDGES: nat := 256

  /** Hands out a whole stream in fixed chunks, appending each to one list. */
  method CollectCoarse(s: Stream) returns (output: seq<Edge>, chunks: nat, peak: nat)
    requires s.cursor == 0
    ensures output == s.edges
    ensures chunks == Ceiling(|s.edges|, COARSE_CHUNK_EDGES) && peak <= COARSE_CHUNK_EDGES == 256
    ensures peak == if |s.edges| < COARSE_CHUNK_EDGES then |s.edges| else COARSE_CHUNK_EDGES
  {
    var stream := s;
    output, chunks, peak := [], 0, 0;
    while stream.Remaining() != 0
      invariant stream.edges == s.edges && stream.Valid() && output == s.edges[..stream.cursor]
      invariant stream.Remaining() != 0 ==> stream.cursor == COARSE_CHUNK_EDGES * chunks
      invariant stream.Remaining() == 0 ==>
        COARSE_CHUNK_EDGES * chunks < |s.edges| + COARSE_CHUNK_EDGES && |s.edges| <= COARSE_CHUNK_EDGES * chunks
      invariant peak == if stream.cursor < COARSE_CHUNK_EDGES then stream.cursor else COARSE_CHUNK_EDGES
      decreases stream.Remaining()
    {
      var chunk := stream.Next(COARSE_CHUNK_EDGES);
      output := output + chunk;
      stream := stream.Advance(|chunk|);
      chunks := chunks + 1;
      if |chunk| > peak {
        peak := |chunk|;
      }
    }
    QuotientIsUnique(|s.edges| + COARSE_CHUNK_EDGES - 1, COARSE_CHUNK_EDGES, chunks);
  }
}
