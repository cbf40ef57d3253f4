/** `embed_texts_with_progress`: the non-blank texts are cut into batches, the batches run as
    tasks under a semaphore and finish in any order, and the vectors are gathered back by
    position.

    The provider is a function from a text to its vector: a batch call returns one vector per
    input, or raises. */
module Embedding {
  import opened Order
  import opened Text
  import opened Wrappers

  type Vector = seq<real>

  datatype Provider = Provider(embed: string -> Vector, zero: Vector)

  /** A text that is empty or only whitespace is not sent. */
  predicate Blank(text: string) { Strip(text) == "" }

  datatype Batch = Batch(offset: nat, inputs: seq<string>)

  // ---------------------------------------------------------------------------
  // Scatter
  // ---------------------------------------------------------------------------

  /** The positions of the non-blank texts. */
  function KeepFrom(p: Provider, texts: seq<string>, i: nat): seq<nat>
    decreases |texts| - i
  {
    if i >= |texts| then []
    else (if Blank(texts[i]) then [] else [i]) + KeepFrom(p, texts, i + 1)
  }

  function Keep(p: Provider, texts: seq<string>): seq<nat> {
    KeepFrom(p, texts, 0)
  }

  ghost predicate KeptFrom(p: Provider, texts: seq<string>, i: nat, keep: seq<nat>) {
    forall j :: 0 <= j < |keep| ==> i <= keep[j] < |texts| && !Blank(texts[keep[j]])
  }

  lemma KeepCons(p: Provider, texts: seq<string>, i: nat, later: seq<nat>)
    requires i < |texts| && !Blank(texts[i]) && KeptFrom(p, texts, i + 1, later) && Ascends(later)
    ensures KeptFrom(p, texts, i, [i] + later) && Ascends([i] + later)
  {
  }

  lemma {:induction false} KeepIsOrdered(p: Provider, texts: seq<string>, i: nat)
    requires i <= |texts|
    ensures KeptFrom(p, texts, i, KeepFrom(p, texts, i)) && Ascends(KeepFrom(p, texts, i))
    decreases |texts| - i
  {
    if i < |texts| {
      var later := KeepFrom(p, texts, i + 1);
      KeepIsOrdered(p, texts, i + 1);
      if Blank(texts[i]) {
        assert [] + later == later;
      } else {
        KeepCons(p, texts, i, later);
      }
    }
  }

  lemma {:induction false} KeepsAll(p: Provider, texts: seq<string>, i: nat, t: nat)
    requires i <= t < |texts| && !Blank(texts[t])
    ensures t in KeepFrom(p, texts, i)
    decreases |texts| - i
  {
    hide Blank;
    var later := KeepFrom(p, texts, i + 1);
    if i < t {
      KeepsAll(p, texts, i + 1, t);
      assert later[|later|..] == [];
    } else {
      assert ([i] + later)[0] == t;
    }
  }

  /** Exactly the positions of non-blank texts, in increasing order. */
  lemma KeepProperties(p: Provider, texts: seq<string>)
    ensures KeptFrom(p, texts, 0, Keep(p, texts)) && Ascends(Keep(p, texts))
    ensures forall t :: 0 <= t < |texts| && !Blank(texts[t]) ==> t in Keep(p, texts)
  {
    KeepIsOrdered(p, texts, 0);
    forall t: nat | t < |texts| && !Blank(texts[t]) ensures t in Keep(p, texts) {
      KeepsAll(p, texts, 0, t);
    }
  }

  function Gathered(p: Provider, texts: seq<string>): (kept: seq<string>)
    ensures |kept| == |Keep(p, texts)|
    ensures forall j :: 0 <= j < |kept| ==> Keep(p, texts)[j] < |texts| && kept[j] == texts[Keep(p, texts)[j]]
  {
    KeepProperties(p, texts);
    var keep := Keep(p, texts);
    seq(|keep|, j requires 0 <= j < |keep| && keep[j] < |texts| => texts[keep[j]])
  }

  function Split(kept: seq<string>, offset: nat, size: nat): seq<Batch>
    requires 0 < size
    decreases if offset < |kept| then |kept| - offset else 0
  {
    if offset >= |kept| then []
    else
      var end := if offset + size < |kept| then offset + size else |kept|;
      [Batch(offset, kept[offset..end])] + Split(kept, offset + size, size)
  }

  method SplitBatches(kept: seq<string>, size: nat) returns (batches: seq<Batch>)
    requires 0 < size
    ensures batches == Split(kept, 0, size)
  {
    batches := [];
    var offset := 0;
    while offset < |kept|
      invariant batches + Split(kept, offset, size) == Split(kept, 0, size)
    {
      hide Split;
      var end := if offset + size < |kept| then offset + size else |kept|;
      var batch := Batch(offset, kept[offset..end]);
      SplitNext(kept, offset, size, batches);
      batches := batches + [batch];
      offset := offset + size;
    }
  }

  lemma SplitNext(kept: seq<string>, offset: nat, size: nat, before: seq<Batch>)
    requires 0 < size && offset < |kept|
    ensures var end := if offset + size < |kept| then offset + size else |kept|;
            var batch := Batch(offset, kept[offset..end]);
            && Split(kept, offset, size) == [batch] + Split(kept, offset + size, size)
            && before + Split(kept, offset, size) == before + [batch] + Split(kept, offset + size, size)
  {
  }

  predicate Covers(b: Batch, j: nat) {
    b.offset <= j < b.offset + |b.inputs|
  }

  ghost predicate Covered(batches: seq<Batch>, j: nat) {
    exists b :: 0 <= b < |batches| && Covers(batches[b], j)
  }

  predicate Slice(b: Batch, kept: seq<string>) {
    b.offset + |b.inputs| <= |kept| && b.inputs == kept[b.offset..b.offset + |b.inputs|]
  }

  /** Every batch is a slice of the kept texts, and every position from `offset` on is in one. */
  ghost predicate TilesFrom(batches: seq<Batch>, kept: seq<string>, offset: nat) {
    && (forall b :: 0 <= b < |batches| ==> Slice(batches[b], kept))
    && (forall j: nat :: offset <= j < |kept| ==> Covered(batches, j))
  }

  lemma TilesCons(first: Batch, rest: seq<Batch>, kept: seq<string>, next: nat)
    requires Slice(first, kept) && TilesFrom(rest, kept, next)
        && (first.offset + |first.inputs| == next || |kept| <= next)
    requires |kept| <= next ==> first.offset + |first.inputs| == |kept|
    ensures TilesFrom([first] + rest, kept, first.offset)
  {
    var batches := [first] + rest;
    forall j: nat | first.offset <= j < |kept| ensures Covered(batches, j) {
      if j < next {
        assert Covers(batches[0], j);
      } else {
        assert Covered(rest, j);
        var b :| 0 <= b < |rest| && Covers(rest[b], j);
        assert Covers(batches[b + 1], j);
      }
    }
  }

  lemma {:induction false} SplitTiles(kept: seq<string>, offset: nat, size: nat)
    requires 0 < size
    ensures TilesFrom(Split(kept, offset, size), kept, offset)
    decreases if offset < |kept| then |kept| - offset else 0
  {
    if offset < |kept| {
      SplitTiles(kept, offset + size, size);
      var end := if offset + size < |kept| then offset + size else |kept|;
      TilesCons(Batch(offset, kept[offset..end]), Split(kept, offset + size, size), kept, offset + size);
    }
  }

  /** The batch at each place, read off the texts: it starts at its number times the size and
      takes `size` texts, or what is left. */
  lemma {:induction false} SplitExactly(kept: seq<string>, offset: nat, size: nat, b: nat)
    requires 0 < size
    ensures b < |Split(kept, offset, size)| <==> offset + b * size < |kept|
    ensures b < |Split(kept, offset, size)| ==>
              var start, next := offset + b * size, offset + b * size + size;
              Split(kept, offset, size)[b] == Batch(start, kept[start..if next < |kept| then next else |kept|])
    decreases if offset < |kept| then |kept| - offset else 0
  {
    hide Split;
    if offset < |kept| {
      SplitNext(kept, offset, size, []);
      if b > 0 {
        SplitExactly(kept, offset + size, size, b - 1);
        Successor(b, size);
      }
    } else {
      NoSplit(kept, offset, size);
    }
  }

  lemma Successor(b: nat, size: nat)
    requires 0 < b
    ensures (b - 1) * size + size == b * size
  {
  }

  lemma NoSplit(kept: seq<string>, offset: nat, size: nat)
    requires 0 < size && |kept| <= offset
    ensures Split(kept, offset, size) == []
  {
  }

  // ---------------------------------------------------------------------------
  // The tasks
  // ---------------------------------------------------------------------------

  datatype TaskState = Waiting | InFlight | Done | Failed | Cancelled

  datatype Phase = Gathering | Cancelling | Returned | Raised

  datatype Run = Run(tasks: seq<TaskState>, results: map<nat, Vector>, completed: nat, progress: seq<(nat, nat)>,
      phase: Phase)

  /** What the event loop may do next: a task takes a semaphore slot, its batch call returns or
      raises, the caller is cancelled from outside or the gather notices a failed task, a
      cancelled task unwinds, or the gather settles. */
  datatype Event =
    | Acquire(task: nat) | Complete(task: nat) | Fail(task: nat)
    | Interrupt | Notice | Unwind(task: nat) | Settle

  function Tasks(run: Run, state: TaskState): set<nat> {
    set t | 0 <= t < |run.tasks| && run.tasks[t] == state
  }

  function Vectors(p: Provider, inputs: seq<string>): seq<Vector> {
    if inputs == [] then [] else Vectors(p, inputs[..|inputs| - 1]) + [p.embed(inputs[|inputs| - 1])]
  }

  function Fill(results: map<nat, Vector>, offset: nat, vectors: seq<Vector>): map<nat, Vector> {
    if vectors == [] then results
    else Fill(results, offset, vectors[..|vectors| - 1])[offset + |vectors| - 1 := vectors[|vectors| - 1]]
  }

  predicate Live(state: TaskState) {
    state == Waiting || state == InFlight
  }

  predicate AllEnded(run: Run) {
    forall t :: 0 <= t < |run.tasks| ==> !Live(run.tasks[t])
  }

  predicate AllDone(run: Run) {
    forall t :: 0 <= t < |run.tasks| ==> run.tasks[t] == Done
  }

  predicate Enabled(run: Run, limit: nat, e: Event) {
    match e
    case Acquire(t) =>
      t < |run.tasks| && run.tasks[t] == Waiting && |Tasks(run, InFlight)| < limit
      && (run.phase == Gathering || run.phase == Cancelling)
    case Complete(t) => t < |run.tasks| && run.tasks[t] == InFlight
    case Fail(t) => t < |run.tasks| && run.tasks[t] == InFlight
    case Interrupt => run.phase == Gathering
    case Notice => run.phase == Gathering && Tasks(run, Failed) != {}
    case Unwind(t) => t < |run.tasks| && Live(run.tasks[t]) && run.phase == Cancelling
    case Settle => if run.phase == Gathering then AllDone(run) else run.phase == Cancelling && AllEnded(run)
  }

  function Next(p: Provider, batches: seq<Batch>, limit: nat, run: Run, e: Event): Run
    requires |run.tasks| == |batches|
  {
    if !Enabled(run, limit, e) then run
    else
      match e
      case Acquire(t) => run.(tasks := run.tasks[t := InFlight])
      case Complete(t) =>
        run.(tasks := run.tasks[t := Done],
             results := Fill(run.results, batches[t].offset, Vectors(p, batches[t].inputs)),
             completed := run.completed + 1,
             progress := run.progress + [(run.completed + 1, |batches|)])
      case Fail(t) => run.(tasks := run.tasks[t := Failed])
      case Interrupt => run.(phase := Cancelling)
      case Notice => run.(phase := Cancelling)
      case Unwind(t) => run.(tasks := run.tasks[t := Cancelled])
      case Settle => run.(phase := if run.phase == Gathering then Returned else Raised)
  }

  function Start(n: nat): Run {
    Run(seq(n, i => Waiting), map[], 0, [], Gathering)
  }

  function Play(p: Provider, batches: seq<Batch>, limit: nat, events: seq<Event>): (run: Run)
    ensures |run.tasks| == |batches|
  {
    if events == [] then Start(|batches|)
    else Next(p, batches, limit, Play(p, batches, limit, events[..|events| - 1]), events[|events| - 1])
  }

  // ---------------------------------------------------------------------------
  // What every interleaving keeps
  // ---------------------------------------------------------------------------

  lemma {:induction false} VectorsAt(p: Provider, inputs: seq<string>)
    ensures |Vectors(p, inputs)| == |inputs|
    ensures forall i :: 0 <= i < |inputs| ==> Vectors(p, inputs)[i] == p.embed(inputs[i])
  {
    if inputs != [] {
      VectorsAt(p, inputs[..|inputs| - 1]);
    }
  }

  lemma {:induction false} FillAt(results: map<nat, Vector>, offset: nat, vectors: seq<Vector>)
    ensures var filled := Fill(results, offset, vectors);
            && (forall j :: j in filled <==> j in results || offset <= j < offset + |vectors|)
            && (forall j :: offset <= j < offset + |vectors| ==> filled[j] == vectors[j - offset])
            && (forall j :: j in results && !(offset <= j < offset + |vectors|) ==> filled[j] == results[j])
  {
    if vectors != [] {
      FillAt(results, offset, vectors[..|vectors| - 1]);
    }
  }

  lemma FillHas(results: map<nat, Vector>, offset: nat, vectors: seq<Vector>, j: nat)
    requires j in results || offset <= j < offset + |vectors|
    ensures j in Fill(results, offset, vectors)
  {
    FillAt(results, offset, vectors);
  }

  /** Finished batches have put the right vectors in place, and nothing else is stored. */
  ghost predicate ResultsOk(p: Provider, batches: seq<Batch>, kept: seq<string>, run: Run) {
    && (forall j :: Right(p, kept, run.results, j))
    && (forall t, j: nat :: 0 <= t < |batches| && t < |run.tasks| && run.tasks[t] == Done && Covers(batches[t], j) ==>
        j in run.results)
  }

  ghost predicate ProgressOk(run: Run, total: nat) {
    && run.completed == |Tasks(run, Done)|
    && |run.progress| == run.completed
    && forall i :: 0 <= i < |run.progress| ==> run.progress[i] == (i + 1, total)
  }

  ghost predicate PhaseOk(run: Run) {
    && (run.phase == Returned ==> AllDone(run))
    && (run.phase == Raised ==> AllEnded(run))
    && (run.phase == Gathering ==> Tasks(run, Cancelled) == {})
  }

  ghost predicate Inv(p: Provider, batches: seq<Batch>, kept: seq<string>, limit: nat, run: Run) {
    && |run.tasks| == |batches|
    && |Tasks(run, InFlight)| <= limit
    && ResultsOk(p, batches, kept, run)
    && ProgressOk(run, |batches|)
    && PhaseOk(run)
  }

  lemma TaskMoves(before: Run, after: Run, t: nat, to: TaskState, state: TaskState)
    requires t < |before.tasks| && after.tasks == before.tasks[t := to]
    ensures Tasks(after, state)
            == if state == to then (Tasks(before, state) - {t}) + {t} else Tasks(before, state) - {t}
  {
  }

  lemma CountsStep(p: Provider, batches: seq<Batch>, limit: nat, run: Run, e: Event)
    requires |run.tasks| == |batches| && |Tasks(run, InFlight)| <= limit && ProgressOk(run, |batches|)
    ensures |Tasks(Next(p, batches, limit, run, e), InFlight)| <= limit
    ensures ProgressOk(Next(p, batches, limit, run, e), |batches|)
  {
    var after := Next(p, batches, limit, run, e);
    if after.tasks == run.tasks {
      assert Tasks(after, InFlight) == Tasks(run, InFlight);
      assert Tasks(after, Done) == Tasks(run, Done);
    }
    match e
    case Acquire(t) => if Enabled(run, limit, e) { TaskCounts(run, after, t, InFlight); }
    case Complete(t) => if Enabled(run, limit, e) { TaskCounts(run, after, t, Done); }
    case Fail(t) => if Enabled(run, limit, e) { TaskCounts(run, after, t, Failed); }
    case Unwind(t) => if Enabled(run, limit, e) { TaskCounts(run, after, t, Cancelled); }
    case _ =>
  }

  /** A task that moves leaves one state and enters another. */
  lemma StateCount(before: Run, after: Run, t: nat, to: TaskState, state: TaskState)
    requires t < |before.tasks| && after.tasks == before.tasks[t := to]
    ensures |Tasks(after, state)|
            == |Tasks(before, state)| - (if before.tasks[t] == state then 1 else 0) + (if to == state then 1 else 0)
  {
    var was := Tasks(before, state);
    TaskMoves(before, after, t, to, state);
    if before.tasks[t] == state {
      assert was == (was - {t}) + {t};
    } else {
      assert was - {t} == was;
    }
  }

  lemma TaskCounts(before: Run, after: Run, t: nat, to: TaskState)
    requires t < |before.tasks| && Live(before.tasks[t]) && after.tasks == before.tasks[t := to]
    ensures |Tasks(after, InFlight)| <= |Tasks(before, InFlight)| + if to == InFlight then 1 else 0
    ensures |Tasks(after, Done)| == |Tasks(before, Done)| + if to == Done then 1 else 0
  {
    hide Tasks;
    StateCount(before, after, t, to, InFlight);
    StateCount(before, after, t, to, Done);
  }

  predicate Right(p: Provider, kept: seq<string>, results: map<nat, Vector>, j: nat) {
    j in results ==> j < |kept| && results[j] == p.embed(kept[j])
  }

  lemma FillIsRight(p: Provider, kept: seq<string>, results: map<nat, Vector>, batch: Batch)
    requires Slice(batch, kept) && forall j :: Right(p, kept, results, j)
    ensures forall j :: Right(p, kept, Fill(results, batch.offset, Vectors(p, batch.inputs)), j)
  {
    VectorsAt(p, batch.inputs);
    FillAt(results, batch.offset, Vectors(p, batch.inputs));
    var filled := Fill(results, batch.offset, Vectors(p, batch.inputs));
    forall j: nat ensures Right(p, kept, filled, j) {
      if Covers(batch, j) {
        assert filled[j] == Vectors(p, batch.inputs)[j - batch.offset];
      } else {
        assert Right(p, kept, results, j);
      }
    }
  }

  lemma ResultsStep(p: Provider, batches: seq<Batch>, kept: seq<string>, limit: nat, run: Run, e: Event)
    requires |run.tasks| == |batches| && ResultsOk(p, batches, kept, run) && TilesFrom(batches, kept, 0)
    ensures ResultsOk(p, batches, kept, Next(p, batches, limit, run, e))
  {
    if e.Complete? && Enabled(run, limit, e) {
      var done, after := batches[e.task], Next(p, batches, limit, run, e);
      FillIsRight(p, kept, run.results, done);
      VectorsAt(p, done.inputs);
      var vectors := Vectors(p, done.inputs);
      assert after.results == Fill(run.results, done.offset, vectors);
      forall t, j: nat | 0 <= t < |batches| && t < |after.tasks| && after.tasks[t] == Done && Covers(batches[t], j)
        ensures j in after.results
      {
        if t != e.task {
          assert run.tasks[t] == Done;
        }
        FillHas(run.results, done.offset, vectors, j);
      }
    }
  }

  lemma {:induction false} InvHolds(p: Provider, batches: seq<Batch>, kept: seq<string>, limit: nat, events: seq<Event>)
    requires TilesFrom(batches, kept, 0)
    ensures Inv(p, batches, kept, limit, Play(p, batches, limit, events))
  {
    if events == [] {
      assert Tasks(Start(|batches|), InFlight) == {} && Tasks(Start(|batches|), Done) == {};
    } else {
      var init := events[..|events| - 1];
      InvHolds(p, batches, kept, limit, init);
      var run := Play(p, batches, limit, init);
      CountsStep(p, batches, limit, run, events[|events| - 1]);
      ResultsStep(p, batches, kept, limit, run, events[|events| - 1]);
    }
  }

  /** The concurrency bound, over every schedule; progress is reported as 1..completed out of
      the number of batches, each once; a call that raised leaves no task waiting or running;
      and a failed batch means the call never returns. */
  lemma EveryScheduleIsOrderly(p: Provider, batches: seq<Batch>, kept: seq<string>, limit: nat, events: seq<Event>)
    requires TilesFrom(batches, kept, 0)
    ensures var run := Play(p, batches, limit, events);
            && |Tasks(run, InFlight)| <= limit
            && run.progress == seq(|Tasks(run, Done)|, i => (i + 1, |batches|))
            && (run.phase == Raised ==> Tasks(run, Waiting) == {} && Tasks(run, InFlight) == {})
            && (run.phase == Returned ==> |Tasks(run, Done)| == |batches|)
            && (Tasks(run, Failed) != {} ==> run.phase != Returned)
  {
    InvHolds(p, batches, kept, limit, events);
    var run := Play(p, batches, limit, events);
    if run.phase == Returned {
      AllTasks(run);
    }
  }

  lemma AllTasks(run: Run)
    requires AllDone(run)
    ensures |Tasks(run, Done)| == |run.tasks|
  {
    Prefix(run.tasks, |run.tasks|, Done);
    assert Tasks(run, Done) == set t | 0 <= t < |run.tasks| && run.tasks[t] == Done;
  }

  lemma {:induction false} Prefix(tasks: seq<TaskState>, n: nat, state: TaskState)
    requires n <= |tasks| && forall t :: 0 <= t < |tasks| ==> tasks[t] == state
    ensures |set t | 0 <= t < n && tasks[t] == state| == n
  {
    var all := set t | 0 <= t < n && tasks[t] == state;
    if n > 0 {
      Prefix(tasks, n - 1, state);
      var fewer := set t | 0 <= t < n - 1 && tasks[t] == state;
      assert tasks[n - 1] == state;
      assert all == fewer + {n - 1};
    } else {
      assert all == {};
    }
  }

  // ---------------------------------------------------------------------------
  // Progress and termination
  // ---------------------------------------------------------------------------

  predicate Settled(run: Run) { run.phase == Returned || run.phase == Raised }

  /** No reachable run is stuck: until the call has settled, some step is possible that does
      not come from outside. */
  lemma NeverStuck(
    p: Provider, batches: seq<Batch>, kept: seq<string>, limit: nat, events: seq<Event>)
    returns (e: Event)
    requires TilesFrom(batches, kept, 0) && 0 < limit && !Settled(Play(p, batches, limit, events))
    ensures Enabled(Play(p, batches, limit, events), limit, e) && !e.Interrupt?
  {
    InvHolds(p, batches, kept, limit, events);
    var run := Play(p, batches, limit, events);
    hide Play, TilesFrom, ResultsOk, ProgressOk;
    if t :| 0 <= t < |run.tasks| && run.tasks[t] == InFlight {
      e := Complete(t);
    } else if t :| 0 <= t < |run.tasks| && run.tasks[t] == Waiting {
      assert Tasks(run, InFlight) == {};
      e := Acquire(t);
    } else if t :| run.phase == Gathering && 0 <= t < |run.tasks| && run.tasks[t] != Done {
      assert t !in Tasks(run, Cancelled);
      assert t in Tasks(run, Failed);
      e := Notice;
    } else {
      e := Settle;
    }
  }

  /** What is left to do: two steps for a waiting task, one for a running one, and the end. */
  function Remaining(run: Run): nat {
    2 * |Tasks(run, Waiting)| + |Tasks(run, InFlight)|
    + match run.phase case Gathering => 2 case Cancelling => 1 case _ => 0
  }

  lemma StepsAreProgress(p: Provider, batches: seq<Batch>, limit: nat, run: Run, e: Event)
    requires |run.tasks| == |batches| && Enabled(run, limit, e)
    ensures Remaining(Next(p, batches, limit, run, e)) < Remaining(run)
  {
    var after := Next(p, batches, limit, run, e);
    match e
    case Acquire(t) => MoveIsProgress(run, after, t, InFlight);
    case Complete(t) => MoveIsProgress(run, after, t, Done);
    case Fail(t) => MoveIsProgress(run, after, t, Failed);
    case Unwind(t) => MoveIsProgress(run, after, t, Cancelled);
    case _ =>
      assert Tasks(after, Waiting) == Tasks(run, Waiting) && Tasks(after, InFlight) == Tasks(run, InFlight);
  }

  lemma MoveIsProgress(run: Run, after: Run, t: nat, to: TaskState)
    requires t < |run.tasks| && Live(run.tasks[t]) && to != Waiting && (to == InFlight ==> run.tasks[t] == Waiting)
    requires after.tasks == run.tasks[t := to] && after.phase == run.phase
    ensures Remaining(after) < Remaining(run)
  {
    hide Tasks;
    StateCount(run, after, t, to, Waiting);
    StateCount(run, after, t, to, InFlight);
  }

  /** Every event of the schedule was possible when it came. */
  ghost predicate Effective(p: Provider, batches: seq<Batch>, limit: nat, events: seq<Event>) {
    events != [] ==>
      var init := events[..|events| - 1];
      Effective(p, batches, limit, init) && Enabled(Play(p, batches, limit, init), limit, events[|events| - 1])
  }

  /** Every schedule is finite: at most two steps a batch, and two more. */
  lemma {:induction false} SchedulesEnd(p: Provider, batches: seq<Batch>, limit: nat, events: seq<Event>)
    requires Effective(p, batches, limit, events)
    ensures |events| + Remaining(Play(p, batches, limit, events)) <= 2 * |batches| + 2
  {
    if events == [] {
      var run := Start(|batches|);
      assert Tasks(run, InFlight) == {};
      AllWaiting(|batches|);
    } else {
      hide Next, Remaining;
      var init := events[..|events| - 1];
      SchedulesEnd(p, batches, limit, init);
      StepsAreProgress(p, batches, limit, Play(p, batches, limit, init), events[|events| - 1]);
    }
  }

  lemma AllWaiting(n: nat)
    ensures |Tasks(Start(n), Waiting)| == n
  {
    var run := Start(n);
    Prefix(run.tasks, n, Waiting);
    assert Tasks(run, Waiting) == set t | 0 <= t < |run.tasks| && run.tasks[t] == Waiting;
  }

  /** Nothing can happen any more, short of a call from outside. */
  ghost predicate Quiet(run: Run, limit: nat) {
    forall e: Event :: Enabled(run, limit, e) ==> e.Interrupt?
  }

  ghost predicate NoTrouble(events: seq<Event>) {
    forall i :: 0 <= i < |events| ==> !events[i].Fail? && !events[i].Interrupt?
  }

  lemma {:induction false} NoTroubleNoFailure(p: Provider, batches: seq<Batch>, limit: nat, events: seq<Event>)
    requires NoTrouble(events)
    ensures var run := Play(p, batches, limit, events);
            Tasks(run, Failed) == {} && (run.phase == Gathering || run.phase == Returned)
  {
    if events != [] {
      var init := events[..|events| - 1];
      assert forall i :: 0 <= i < |init| ==> init[i] == events[i];
      NoTroubleNoFailure(p, batches, limit, init);
      assert !events[|events| - 1].Fail?;
      var before, after := Play(p, batches, limit, init), Play(p, batches, limit, events);
      forall t | t in Tasks(after, Failed) ensures t in Tasks(before, Failed) {
      }
    }
  }

  /** A schedule that has run its course has settled; and when no batch failed and nobody
      interrupted, it has returned. */
  lemma EveryScheduleSettles(p: Provider, batches: seq<Batch>, kept: seq<string>, limit: nat, events: seq<Event>)
    requires TilesFrom(batches, kept, 0) && 0 < limit && Quiet(Play(p, batches, limit, events), limit)
    ensures Settled(Play(p, batches, limit, events))
    ensures NoTrouble(events) ==> Play(p, batches, limit, events).phase == Returned
  {
    if !Settled(Play(p, batches, limit, events)) {
      var e := NeverStuck(p, batches, kept, limit, events);
    }
    if NoTrouble(events) {
      NoTroubleNoFailure(p, batches, limit, events);
    }
  }

  /** The call has been interrupted, or one of its batches has failed. */
  ghost predicate InTrouble(run: Run) {
    run.phase == Cancelling || run.phase == Raised || (run.phase == Gathering && Tasks(run, Failed) != {})
  }

  lemma TroubleStays(p: Provider, batches: seq<Batch>, limit: nat, run: Run, e: Event)
    requires |run.tasks| == |batches| && InTrouble(run)
    ensures InTrouble(Next(p, batches, limit, run, e))
  {
    var after := Next(p, batches, limit, run, e);
    if run.phase == Gathering {
      var t :| t in Tasks(run, Failed);
      assert after.phase == Gathering ==> t in Tasks(after, Failed);
    }
  }

  lemma {:induction false} TroubleLasts(
    p: Provider, batches: seq<Batch>, limit: nat, events: seq<Event>, more: seq<Event>)
    requires InTrouble(Play(p, batches, limit, events))
    ensures InTrouble(Play(p, batches, limit, events + more))
  {
    if more == [] {
      assert events + more == events;
    } else {
      hide InTrouble, Next;
      var init, last := more[..|more| - 1], more[|more| - 1];
      TroubleLasts(p, batches, limit, events, init);
      TroubleStays(p, batches, limit, Play(p, batches, limit, events + init), last);
      assert (events + more)[..|events + more| - 1] == events + init;
    }
  }

  /** When a batch call raises, or the caller is cancelled while it gathers, the call never returns,
      however the schedule goes on; and when nothing is left to do it has raised. */
  lemma TroubleRaises(
    p: Provider, batches: seq<Batch>, kept: seq<string>, limit: nat, events: seq<Event>, e: Event, more: seq<Event>)
    requires TilesFrom(batches, kept, 0) && 0 < limit
    requires var run := Play(p, batches, limit, events);
             run.phase == Gathering
             && (e.Interrupt? || (e.Fail? && e.task < |batches| && run.tasks[e.task] == InFlight))
    ensures var end := Play(p, batches, limit, events + [e] + more);
            end.phase != Returned && (Quiet(end, limit) ==> end.phase == Raised)
  {
    assert (events + [e])[..|events|] == events;
    var run := Play(p, batches, limit, events + [e]);
    assert e.Fail? ==> e.task in Tasks(run, Failed);
    assert InTrouble(run);
    TroubleLasts(p, batches, limit, events + [e], more);
    hide Play, Next, TilesFrom;
    if Quiet(Play(p, batches, limit, events + [e] + more), limit) {
      EveryScheduleSettles(p, batches, kept, limit, events + [e] + more);
    }
  }

  // ---------------------------------------------------------------------------
  // Gather
  // ---------------------------------------------------------------------------

  /** The specification: one vector per text, zero for a blank one. */
  function PerText(p: Provider, texts: seq<string>): (out: seq<Vector>)
    ensures |out| == |texts|
    ensures forall i :: 0 <= i < |texts| ==> out[i] == if Blank(texts[i]) then p.zero else p.embed(texts[i])
  {
    if texts == [] then []
    else [if Blank(texts[0]) then p.zero else p.embed(texts[0])] + PerText(p, texts[1..])
  }

  /** A zero vector stands in exactly for the texts of nothing but whitespace. */
  lemma ZeroForWhitespace(p: Provider, texts: seq<string>, i: nat)
    requires i < |texts|
    ensures PerText(p, texts)[i]
            == if forall k :: 0 <= k < |texts[i]| ==> IsSpace(texts[i][k]) then p.zero else p.embed(texts[i])
  {
    BlankExactly(texts[i]);
  }

  /** Where the j-th kept position is, or the end. */
  function Frontier(p: Provider, texts: seq<string>, j: nat): nat {
    if j < |Keep(p, texts)| then Keep(p, texts)[j] else |texts|
  }

  /** Between two consecutive kept positions every text is blank. */
  lemma BlankBetween(p: Provider, texts: seq<string>, j: nat, i: nat)
    requires j <= |Keep(p, texts)| && i < |texts| && i < Frontier(p, texts, j)
    requires j > 0 ==> Keep(p, texts)[j - 1] < i
    ensures Blank(texts[i])
  {
    KeepProperties(p, texts);
    var keep := Keep(p, texts);
    forall m | 0 <= m < |keep| ensures keep[m] != i {
      if m + 1 < j {
        assert keep[m] < keep[j - 1];
      } else if j < m {
        assert keep[j] < keep[m];
      }
    }
  }

  /** Right below the frontier, still zero from there on. */
  ghost predicate Placed(p: Provider, texts: seq<string>, out: seq<Vector>, frontier: nat) {
    && |out| == |texts|
    && (forall i :: 0 <= i < |texts| && i < frontier ==> out[i] == PerText(p, texts)[i])
    && (forall i :: 0 <= i < |texts| && frontier <= i ==> out[i] == p.zero)
  }

  lemma PlacedStart(p: Provider, texts: seq<string>)
    ensures Placed(p, texts, seq(|texts|, i => p.zero), Frontier(p, texts, 0))
  {
    forall i | 0 <= i < |texts| && i < Frontier(p, texts, 0) ensures PerText(p, texts)[i] == p.zero {
      BlankBetween(p, texts, 0, i);
    }
  }

  lemma FrontierMoves(p: Provider, texts: seq<string>, j: nat)
    requires j < |Keep(p, texts)|
    ensures Keep(p, texts)[j] < |texts| && Keep(p, texts)[j] == Frontier(p, texts, j) < Frontier(p, texts, j + 1)
    ensures !Blank(texts[Keep(p, texts)[j]])
    ensures forall i :: Keep(p, texts)[j] < i < Frontier(p, texts, j + 1) && i < |texts| ==> Blank(texts[i])
  {
    KeepProperties(p, texts);
    forall i | Keep(p, texts)[j] < i < Frontier(p, texts, j + 1) && i < |texts| ensures Blank(texts[i]) {
      BlankBetween(p, texts, j + 1, i);
    }
  }

  lemma PlacedNext(p: Provider, texts: seq<string>, out: seq<Vector>, j: nat, vector: Vector)
    requires j < |Keep(p, texts)| && Placed(p, texts, out, Frontier(p, texts, j))
    requires vector == p.embed(Gathered(p, texts)[j])
    ensures Keep(p, texts)[j] < |texts|
    ensures Placed(p, texts, out[Keep(p, texts)[j] := vector], Frontier(p, texts, j + 1))
  {
    FrontierMoves(p, texts, j);
    var at := Keep(p, texts)[j];
    assert vector == p.embed(texts[at]);
    PlacedOne(p, texts, out, at, Frontier(p, texts, j + 1), vector);
  }

  lemma PlacedOne(p: Provider, texts: seq<string>, out: seq<Vector>, at: nat, next: nat, vector: Vector)
    requires at < |texts| && at < next && Placed(p, texts, out, at)
    requires !Blank(texts[at]) && vector == p.embed(texts[at])
    requires forall i :: at < i < next && i < |texts| ==> Blank(texts[i])
    ensures Placed(p, texts, out[at := vector], next)
  {
  }

  /** Writes the vectors back by position. */
  method Gather(p: Provider, texts: seq<string>, results: map<nat, Vector>) returns (out: seq<Vector>)
    requires forall j :: 0 <= j < |Gathered(p, texts)| ==> j in results && results[j] == p.embed(Gathered(p, texts)[j])
    ensures out == PerText(p, texts)
  {
    var keep := Keep(p, texts);
    out := seq(|texts|, i => p.zero);
    PlacedStart(p, texts);
    for j := 0 to |keep|
      invariant Placed(p, texts, out, Frontier(p, texts, j))
    {
      PlacedNext(p, texts, out, j, results[j]);
      out := out[keep[j] := results[j]];
    }
  }

  lemma ReturnedHasAll(p: Provider, batches: seq<Batch>, kept: seq<string>, limit: nat, events: seq<Event>)
    requires TilesFrom(batches, kept, 0) && Play(p, batches, limit, events).phase == Returned
    ensures var results := Play(p, batches, limit, events).results;
            forall j :: 0 <= j < |kept| ==> j in results && results[j] == p.embed(kept[j])
  {
    InvHolds(p, batches, kept, limit, events);
    var run := Play(p, batches, limit, events);
    forall j: nat | j < |kept| ensures j in run.results && run.results[j] == p.embed(kept[j]) {
      assert Covered(batches, j);
      var b :| 0 <= b < |batches| && Covers(batches[b], j);
      assert run.tasks[b] == Done;
      assert Right(p, kept, run.results, j);
    }
  }

  lemma PrefixPlays(p: Provider, batches: seq<Batch>, kept: seq<string>, maxConcurrency: nat, events: seq<Event>,
      n: nat)
    requires TilesFrom(batches, kept, 0) && n <= |events|
    ensures |Tasks(Play(p, batches, Limit(maxConcurrency, batches), events[..n]), InFlight)| <= maxConcurrency
  {
    hide Play;
    EveryScheduleIsOrderly(p, batches, kept, Limit(maxConcurrency, batches), events[..n]);
  }

  /** Whom the semaphore lets in: at every moment of a call that has not settled, a waiting task
      gets a slot exactly when fewer than `maxConcurrency` batches are in flight. */
  lemma AdmittedExactly(p: Provider, batches: seq<Batch>, maxConcurrency: nat, events: seq<Event>, t: nat)
    requires t < |batches| && Play(p, batches, Limit(maxConcurrency, batches), events).tasks[t] == Waiting
    requires !Settled(Play(p, batches, Limit(maxConcurrency, batches), events))
    ensures var run := Play(p, batches, Limit(maxConcurrency, batches), events);
            Play(p, batches, Limit(maxConcurrency, batches), events + [Acquire(t)])
            == if |Tasks(run, InFlight)| < maxConcurrency then run.(tasks := run.tasks[t := InFlight]) else run
  {
    var limit := Limit(maxConcurrency, batches);
    var run := Play(p, batches, limit, events);
    assert (events + [Acquire(t)])[..|events|] == events;
    FewerThanAll(run, t);
  }

  lemma FewerThanAll(run: Run, t: nat)
    requires t < |run.tasks| && run.tasks[t] == Waiting
    ensures |Tasks(run, InFlight)| < |run.tasks|
  {
    var all := run.(tasks := seq(|run.tasks|, i => InFlight));
    AllInFlight(all);
    SubsetSize(Tasks(run, InFlight), Tasks(all, InFlight) - {t});
  }

  lemma AllInFlight(run: Run)
    requires forall t :: 0 <= t < |run.tasks| ==> run.tasks[t] == InFlight
    ensures |Tasks(run, InFlight)| == |run.tasks|
  {
    Prefix(run.tasks, |run.tasks|, InFlight);
    assert Tasks(run, InFlight) == set t | 0 <= t < |run.tasks| && run.tasks[t] == InFlight;
  }

  method RunTasks(p: Provider, batches: seq<Batch>, limit: nat, events: seq<Event>) returns (run: Run)
    ensures run == Play(p, batches, limit, events)
  {
    run := Start(|batches|);
    for i := 0 to |events|
      invariant run == Play(p, batches, limit, events[..i])
    {
      assert events[..i + 1][..i] == events[..i];
      run := Next(p, batches, limit, run, events[i]);
    }
    assert events[..|events|] == events;
  }

  /** The whole call, for one schedule of the event loop: the vectors, or `None` when it raised
      or is still running. For every schedule, what is returned is the per-text map, and at no
      moment are more than `maxConcurrency` batches in flight. */
  method EmbedTextsWithProgress(p: Provider, texts: seq<string>, size: nat, maxConcurrency: nat, events: seq<Event>)
    returns (out: Option<seq<Vector>>)
    requires 0 < size
    ensures out.Some? ==> out.value == PerText(p, texts)
    ensures var batches := Split(Gathered(p, texts), 0, size);
            out.Some? <==> batches == [] || Play(p, batches, Limit(maxConcurrency, batches), events).phase == Returned
    ensures var batches := Split(Gathered(p, texts), 0, size);
            forall n :: 0 <= n <= |events| ==>
              |Tasks(Play(p, batches, Limit(maxConcurrency, batches), events[..n]), InFlight)| <= maxConcurrency
  {
    ghost var split := Split(Gathered(p, texts), 0, size);
    SplitTiles(Gathered(p, texts), 0, size);
    forall n | 0 <= n <= |events|
      ensures |Tasks(Play(p, split, Limit(maxConcurrency, split), events[..n]), InFlight)| <= maxConcurrency
    {
      PrefixPlays(p, split, Gathered(p, texts), maxConcurrency, events, n);
    }
    var kept := Gathered(p, texts);
    KeepProperties(p, texts);
    if kept == [] {
      out := Some(seq(|texts|, i => p.zero));
      return;
    }
    var batches := SplitBatches(kept, size);
    var run := RunTasks(p, batches, Limit(maxConcurrency, batches), events);
    if run.phase != Returned {
      return None;
    }
    ReturnedHasAll(p, batches, kept, Limit(maxConcurrency, batches), events);
    var vectors := Gather(p, texts, run.results);
    out := Some(vectors);
  }

  /** The semaphore's size. */
  function Limit(maxConcurrency: nat, batches: seq<Batch>): nat {
    if maxConcurrency < |batches| then maxConcurrency else |batches|
  }
}
