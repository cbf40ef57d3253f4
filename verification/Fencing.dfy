/** The document-row protocol: any number of workflow runs claim, store and write status for
    the same documents, and every activity a superseded run has already dispatched still
    lands, at any later moment.

    A world is the set of runs ever started, the run currently open for each document, and
    the tables. A step starts or closes a run, or commits one transaction of one run. */
module Fencing {
  import opened Wrappers
  import opened Tables

  /** What a started run is known by: its document and its Temporal start time. */
  datatype Run = Run(document: string, start: Time)

  datatype World = World(runs: map<RunId, Run>, open: map<string, RunId>, db: Database)

  datatype Step =
    | Trigger(run: RunId, document: string, at: Time, supersede: bool)
    | Close(document: string)
    | Perform(op: Operation)

  /** An activity carries the id, the document and, for a claim, the start time of its run. */
  predicate Dispatched(runs: map<RunId, Run>, op: Operation) {
    match op
    case OpClaim(upload, run, start) => run in runs && runs[run] == Run(upload.document, start)
    case OpStore(upload, _, _, run, _, _) => run in runs && runs[run].document == upload.document
    case OpStatus(document, _, tag, _) => tag.Some? ==> tag.value in runs && runs[tag.value].document == document
    case _ => true
  }

  /** Starting a run whose id is taken cannot happen; starting over an open run of the same
      document is refused unless the caller supersedes it. A superseded run is only no longer
      open: its operations stay enabled. */
  function Next(w: World, s: Step): World {
    match s
    case Trigger(run, document, at, supersede) =>
      if run in w.runs || (document in w.open && !supersede) then w
      else w.(runs := w.runs[run := Run(document, at)], open := w.open[document := run])
    case Close(document) => w.(open := w.open - {document})
    case Perform(op) => if Dispatched(w.runs, op) then w.(db := Execute(w.db, op)) else w
  }

  function Play(w: World, steps: seq<Step>): World {
    if steps == [] then w else Next(Play(w, steps[..|steps| - 1]), steps[|steps| - 1])
  }

  // ---------------------------------------------------------------------------
  // The claim-order invariant
  // ---------------------------------------------------------------------------

  /** 'processed' and `processed_at` go together, and a recorded claim names a started run of
      this document together with exactly that run's start time. */
  ghost predicate RowOk(runs: map<RunId, Run>, document: string, row: Document) {
    && (row.status == Processed <==> row.processedAt.Some?)
    && (row.claimedAt.Some? ==>
          row.activeRun.Some? && row.activeRun.value in runs
          && runs[row.activeRun.value] == Run(document, row.claimedAt.value))
  }

  ghost predicate Inv(w: World) {
    forall d :: d in w.db.documents ==> RowOk(w.runs, d, w.db.documents[d])
  }

  predicate Removes(op: Operation, db: Database, document: string) {
    match op
    case OpDelete(d, workspace) => d == document && MayDelete(db, d, workspace)
    case OpPurgeData(workspace) => document in DocumentsOf(db, workspace)
    case _ => false
  }

  /** One transaction seen from one document row: created by a claim or a store, dropped by a
      delete, claimed in start order, re-asserted by an unfenced store, given a status by an
      unfenced write, or left as it was. */
  ghost predicate RowStep(before: Database, op: Operation, after: Database, d: string) {
    if d in before.documents then
      var row := before.documents[d];
      if Removes(op, before, d) then d !in after.documents
      else
        && d in after.documents
        && var now := after.documents[d];
           || now == row
           || (op.OpClaim? && op.upload.document == d && MayClaim(row, op.start)
               && now == row.(activeRun := Some(op.run), claimedAt := Some(op.start)))
           || (op.OpStore? && op.upload.document == d && Unfenced(before, d, op.run)
               && now.activeRun == Some(op.run) && now.claimedAt == row.claimedAt
               && now.status == Processed && now.processedAt.Some?)
           || (op.OpStatus? && op.document == d && MaySetStatus(before, d, op.tag)
               && now == row.(status := op.status,
                              processedAt := if op.status == Processed then Some(op.now) else None))
    else
      d in after.documents ==>
        var now := after.documents[d];
        || (op.OpClaim? && op.upload.document == d && now.activeRun == Some(op.run) && now.claimedAt == Some(op.start)
            && now.status == Processing && now.processedAt.None?)
        || (op.OpStore? && op.upload.document == d && now.activeRun == Some(op.run) && now.claimedAt.None?
            && now.status == Processed && now.processedAt.Some?)
  }

  lemma StoreRowStep(db: Database, op: Operation, d: string)
    requires op.OpStore?
    ensures RowStep(db, op, Execute(db, op), d)
  {
    if d != op.upload.document {
      StoreFrame(db, op.upload, op.batch, op.textLength, op.run, op.append, op.now, d);
    }
  }

  lemma ExecuteRowStep(db: Database, op: Operation, d: string)
    ensures RowStep(db, op, Execute(db, op), d)
  {
    if op.OpStore? {
      StoreRowStep(db, op, d);
    }
  }

  lemma InvStep(w: World, s: Step)
    requires Inv(w)
    ensures Inv(Next(w, s))
    ensures forall r :: r in w.runs ==> r in Next(w, s).runs && Next(w, s).runs[r] == w.runs[r]
  {
    if s.Perform? && Dispatched(w.runs, s.op) {
      hide Execute;
      forall d | d in Next(w, s).db.documents ensures RowOk(w.runs, d, Next(w, s).db.documents[d]) {
        ExecuteRowStep(w.db, s.op, d);
        if d in w.db.documents {
          assert RowOk(w.runs, d, w.db.documents[d]);
        }
        RowStaysOk(w, s.op, Execute(w.db, s.op), d);
      }
    }
  }

  lemma RowStaysOk(w: World, op: Operation, after: Database, d: string)
    requires Dispatched(w.runs, op) && RowStep(w.db, op, after, d) && d in after.documents
    requires d in w.db.documents ==> RowOk(w.runs, d, w.db.documents[d])
    ensures RowOk(w.runs, d, after.documents[d])
  {
  }

  /** Every reachable state satisfies the invariant, and runs are never forgotten. */
  lemma {:induction false} InvHolds(w: World, steps: seq<Step>)
    requires Inv(w)
    ensures Inv(Play(w, steps))
    ensures forall r :: r in w.runs ==> r in Play(w, steps).runs && Play(w, steps).runs[r] == w.runs[r]
  {
    if steps != [] {
      InvHolds(w, steps[..|steps| - 1]);
      InvStep(Play(w, steps[..|steps| - 1]), steps[|steps| - 1]);
    }
  }

  // ---------------------------------------------------------------------------
  // Claims only move forward, and fence every earlier-started run
  // ---------------------------------------------------------------------------

  /** The row of `d` exists after every step of the history. */
  ghost predicate Lives(w: World, steps: seq<Step>, d: string) {
    d in Play(w, steps).db.documents && (steps != [] ==> Lives(w, steps[..|steps| - 1], d))
  }

  /** Some run started at `t` or later has claimed `d`. */
  predicate ClaimedFrom(db: Database, d: string, t: Time) {
    d in db.documents && db.documents[d].claimedAt.Some? && t <= db.documents[d].claimedAt.value
  }

  lemma {:induction false} ClaimsMoveForward(w: World, steps: seq<Step>, d: string, t: Time)
    requires Inv(w) && Lives(w, steps, d) && ClaimedFrom(w.db, d, t)
    ensures ClaimedFrom(Play(w, steps).db, d, t)
  {
    if steps != [] {
      var init, last := steps[..|steps| - 1], steps[|steps| - 1];
      ClaimsMoveForward(w, init, d, t);
      if last.Perform? {
        ExecuteRowStep(Play(w, init).db, last.op, d);
      }
    }
  }

  /** A claim that has been attempted leaves a claim at least as late, whether it applied or not. */
  lemma ClaimLeavesClaim(db: Database, upload: Upload, run: RunId, start: Time)
    ensures ClaimedFrom(Claim(db, upload, run, start), upload.document, start)
  {
  }

  /** The run on whose behalf an operation writes the row of `d`. */
  function Writer(op: Operation, d: string): Option<RunId> {
    match op
    case OpClaim(upload, run, _) => if upload.document == d then Some(run) else None
    case OpStore(upload, _, _, run, _, _) => if upload.document == d then Some(run) else None
    case OpStatus(document, _, tag, _) => if document == d then tag else None
    case _ => None
  }

  /** Once a run started at `t` has claimed, and for as long as the row lives, no claim, store
      or tagged status write by an earlier-started run changes anything at all. */
  lemma EarlierRunsChangeNothing(w: World, steps: seq<Step>, d: string, t: Time, op: Operation)
    requires Inv(w) && Lives(w, steps, d) && ClaimedFrom(w.db, d, t)
    requires var later := Play(w, steps);
             Writer(op, d).Some? && Dispatched(later.runs, op) && later.runs[Writer(op, d).value].start < t
    ensures Next(Play(w, steps), Perform(op)) == Play(w, steps)
  {
    ClaimsMoveForward(w, steps, d, t);
    InvHolds(w, steps);
    var later := Play(w, steps);
    assert RowOk(later.runs, d, later.db.documents[d]);
    if op.OpClaim? {
      assert Claim(later.db, op.upload, op.run, op.start).documents == later.db.documents;
    }
  }

  // ---------------------------------------------------------------------------
  // The newest run wins
  // ---------------------------------------------------------------------------

  ghost predicate StrictlyNewest(runs: map<RunId, Run>, run: RunId) {
    run in runs && forall r :: r in runs && r != run && runs[r].document == runs[run].document ==>
                     runs[r].start < runs[run].start
  }

  predicate Owns(w: World, run: RunId) {
    run in w.runs
    && var d := w.runs[run].document;
       d in w.db.documents && w.db.documents[d].activeRun == Some(run)
       && w.db.documents[d].claimedAt == Some(w.runs[run].start)
  }

  /** The newest run's claim always applies, whoever claimed before it. */
  lemma NewestClaimApplies(w: World, op: Operation)
    requires Inv(w) && op.OpClaim? && Dispatched(w.runs, op) && StrictlyNewest(w.runs, op.run)
    ensures Owns(Next(w, Perform(op)), op.run)
  {
    if op.upload.document in w.db.documents {
      assert RowOk(w.runs, op.upload.document, w.db.documents[op.upload.document]);
    }
  }

  lemma OwnershipStep(w: World, s: Step, run: RunId)
    requires Inv(w) && Owns(w, run) && StrictlyNewest(Next(w, s).runs, run)
    requires w.runs[run].document in Next(w, s).db.documents
    ensures Owns(Next(w, s), run)
  {
    InvStep(w, s);
    if s.Perform? {
      ExecuteRowStep(w.db, s.op, w.runs[run].document);
    }
  }

  /** A run that is strictly newest in the end is so all along. */
  lemma {:induction false} NewestThroughout(w: World, steps: seq<Step>, run: RunId)
    requires Inv(w) && run in w.runs && StrictlyNewest(Play(w, steps).runs, run)
    ensures StrictlyNewest(w.runs, run)
    ensures steps != [] ==> StrictlyNewest(Play(w, steps[..|steps| - 1]).runs, run)
  {
    InvHolds(w, steps);
    if steps != [] {
      var init := steps[..|steps| - 1];
      InvHolds(w, init);
      InvStep(Play(w, init), steps[|steps| - 1]);
    }
  }

  /** From its claim on, the newest run keeps the document, so its stores are never fenced out. */
  lemma {:induction false} NewestKeepsOwnership(w: World, steps: seq<Step>, run: RunId)
    requires Inv(w) && Owns(w, run) && StrictlyNewest(Play(w, steps).runs, run)
    requires Lives(w, steps, w.runs[run].document)
    ensures Owns(Play(w, steps), run)
    ensures Outcome(Play(w, steps).db, w.runs[run].document, run) == Stored(false)
  {
    InvHolds(w, steps);
    if steps != [] {
      var init := steps[..|steps| - 1];
      NewestThroughout(w, steps, run);
      NewestKeepsOwnership(w, init, run);
      InvHolds(w, init);
      OwnershipStep(Play(w, init), steps[|steps| - 1], run);
    }
  }

  /** What a committed replacing store promises: the chunk rows are its chunks, the counters
      are its counters. */
  ghost predicate Committed(db: Database, store: Operation)
    requires store.OpStore?
  {
    var d := store.upload.document;
    && Holds(db.chunks, d, InsertContents(map[], store.batch))
    && d in db.documents
    && db.documents[d].chunkCount == |store.batch|
    && db.documents[d].textLength == store.textLength
    && db.documents[d].sizeBytes == store.upload.size
  }

  lemma StoreCommits(db: Database, store: Operation)
    requires store.OpStore? && !store.append && Unfenced(db, store.upload.document, store.run)
    ensures Committed(Execute(db, store), store)
  {
    StoreEffect(db, store.upload, store.batch, store.textLength, store.run, false, store.now, map[]);
  }

  /** Afterwards the run itself may retry its claim, its status writes and this very store. */
  predicate Retry(op: Operation, store: Operation)
    requires store.OpStore?
  {
    op.OpStore? && op.upload.document == store.upload.document && op.run == store.run
    ==> op == OpStore(store.upload, store.batch, store.textLength, store.run, store.append, op.now)
  }

  ghost predicate OnlyRetries(steps: seq<Step>, store: Operation)
    requires store.OpStore?
  {
    forall i :: 0 <= i < |steps| && steps[i].Perform? ==> Retry(steps[i].op, store)
  }

  /** Any operation but an unfenced store of the same document leaves its content alone. */
  lemma ContentKept(db: Database, op: Operation, store: Operation)
    requires store.OpStore? && Committed(db, store)
    requires store.upload.document in Execute(db, op).documents
    requires op.OpStore? && op.upload.document == store.upload.document ==> !Unfenced(db, op.upload.document, op.run)
    ensures Committed(Execute(db, op), store)
  {
    var d := store.upload.document;
    ExecuteRowStep(db, op, d);
    if op.OpStore? && op.upload.document != d {
      StoreFrame(db, op.upload, op.batch, op.textLength, op.run, op.append, op.now, d);
      SameChunksHold(db.chunks, Execute(db, op).chunks, d, InsertContents(map[], store.batch));
    }
  }

  lemma {:induction false} CommittedStays(w: World, steps: seq<Step>, store: Operation)
    requires store.OpStore? && !store.append && Inv(w) && Owns(w, store.run)
        && w.runs[store.run].document == store.upload.document
    requires Committed(w.db, store) && Lives(w, steps, store.upload.document)
    requires StrictlyNewest(Play(w, steps).runs, store.run) && OnlyRetries(steps, store)
    ensures Committed(Play(w, steps).db, store)
  {
    if steps != [] {
      hide Committed, Execute;
      var init, last := steps[..|steps| - 1], steps[|steps| - 1];
      InvHolds(w, init);
      NewestThroughout(w, steps, store.run);
      CommittedStays(w, init, store);
      NewestKeepsOwnership(w, init, store.run);
      if last.Perform? && Dispatched(Play(w, init).runs, last.op) {
        assert Retry(steps[|steps| - 1].op, store);
        if last.op.OpStore? && last.op.upload.document == store.upload.document && last.op.run == store.run {
          StoreCommits(Play(w, init).db, last.op);
        } else {
          ContentKept(Play(w, init).db, last.op, store);
        }
      }
    }
  }

  /** Newest run wins. In any interleaving of starts, supersessions, claims, retries, stores,
      appends and status writes: once the strictly newest-started run has claimed its document
      and then committed a replacing store, the chunk rows are that store's chunks for as long
      as the row lives. The store is not fenced out, and `chunk_count` is the number of chunk
      rows exactly when the chunk indices are pairwise distinct. */
  lemma NewestRunWins(w: World, claim: Operation, between: seq<Step>, store: Operation, after: seq<Step>)
    requires Inv(w) && claim.OpClaim? && store.OpStore? && !store.append
    requires store.run == claim.run && store.upload.document == claim.upload.document && Dispatched(w.runs, claim)
    requires var claimed := Next(w, Perform(claim));
             var stored := Next(Play(claimed, between), Perform(store));
             && StrictlyNewest(Play(stored, after).runs, claim.run)
             && Lives(claimed, between, claim.upload.document) && Lives(stored, after, claim.upload.document)
             && OnlyRetries(after, store)
    ensures var claimed := Next(w, Perform(claim));
            var end := Play(Next(Play(claimed, between), Perform(store)), after);
            && Outcome(Play(claimed, between).db, claim.upload.document, claim.run) == Stored(false)
            && Committed(end.db, store) && Owns(end, claim.run)
            && (|InsertContents(map[], store.batch)| == end.db.documents[claim.upload.document].chunkCount
                <==> DistinctIndices(store.batch))
  {
    var claimed := Next(w, Perform(claim));
    var before := Play(claimed, between);
    var stored := Next(before, Perform(store));
    InvStep(w, Perform(claim));
    InvHolds(claimed, between);
    InvStep(before, Perform(store));
    NewestThroughout(stored, after, claim.run);
    NewestThroughout(claimed, between, claim.run);
    NewestClaimApplies(w, claim);
    NewestKeepsOwnership(claimed, between, claim.run);
    OwnershipStep(before, Perform(store), claim.run);
    StoreCommits(before.db, store);
    CommittedStays(stored, after, store);
    NewestKeepsOwnership(stored, after, claim.run);
    InsertIntoEmpty(store.batch);
  }

  // ---------------------------------------------------------------------------
  // The status of the newest run's document
  // ---------------------------------------------------------------------------

  /** Every status write of the document is tagged, and by another run. */
  ghost predicate StatusByOthers(steps: seq<Step>, document: string, run: RunId) {
    forall i :: 0 <= i < |steps| && steps[i].Perform? && steps[i].op.OpStatus? && steps[i].op.document == document ==>
      steps[i].op.tag.Some? && steps[i].op.tag.value != run
  }

  predicate IsProcessed(db: Database, document: string) {
    document in db.documents && db.documents[document].status == Processed && db.documents[document].processedAt.Some?
  }

  lemma ProcessedStep(w: World, s: Step, run: RunId)
    requires Owns(w, run) && IsProcessed(w.db, w.runs[run].document) && StatusByOthers([s], w.runs[run].document, run)
    requires w.runs[run].document in Next(w, s).db.documents
    ensures IsProcessed(Next(w, s).db, w.runs[run].document)
  {
    assert [s][0] == s;
    if s.Perform? {
      ExecuteRowStep(w.db, s.op, w.runs[run].document);
    }
  }

  /** No superseded run can take a document that the newest run has processed back to
      'processing' or 'failed': it stays processed, with its time, whatever else happens. */
  lemma {:induction false} ProcessedStays(w: World, steps: seq<Step>, run: RunId)
    requires Inv(w) && Owns(w, run) && IsProcessed(w.db, w.runs[run].document)
    requires StrictlyNewest(Play(w, steps).runs, run) && Lives(w, steps, w.runs[run].document)
    requires StatusByOthers(steps, w.runs[run].document, run)
    ensures IsProcessed(Play(w, steps).db, w.runs[run].document)
  {
    if steps != [] {
      hide Next;
      var init, last := steps[..|steps| - 1], steps[|steps| - 1];
      InvHolds(w, init);
      NewestThroughout(w, steps, run);
      assert forall i :: 0 <= i < |init| ==> init[i] == steps[i];
      ProcessedStays(w, init, run);
      NewestKeepsOwnership(w, init, run);
      ProcessedStep(Play(w, init), last, run);
    }
  }

  /** The same from the newest run's claim and store on. */
  lemma NewestStaysProcessed(w: World, claim: Operation, between: seq<Step>, store: Operation, after: seq<Step>)
    requires Inv(w) && claim.OpClaim? && store.OpStore?
    requires store.run == claim.run && store.upload.document == claim.upload.document && Dispatched(w.runs, claim)
    requires var claimed := Next(w, Perform(claim));
             var stored := Next(Play(claimed, between), Perform(store));
             && StrictlyNewest(Play(stored, after).runs, claim.run)
             && Lives(claimed, between, claim.upload.document) && Lives(stored, after, claim.upload.document)
             && StatusByOthers(after, claim.upload.document, claim.run)
    ensures var end := Play(Next(Play(Next(w, Perform(claim)), between), Perform(store)), after);
            IsProcessed(end.db, claim.upload.document)
  {
    var claimed := Next(w, Perform(claim));
    var before := Play(claimed, between);
    var stored := Next(before, Perform(store));
    InvStep(w, Perform(claim));
    InvHolds(claimed, between);
    InvStep(before, Perform(store));
    NewestThroughout(stored, after, claim.run);
    NewestThroughout(claimed, between, claim.run);
    NewestClaimApplies(w, claim);
    NewestKeepsOwnership(claimed, between, claim.run);
    OwnershipStep(before, Perform(store), claim.run);
    ExecuteRowStep(before.db, store, claim.upload.document);
    assert IsProcessed(stored.db, claim.upload.document);
    ProcessedStays(stored, after, claim.run);
  }

  // ---------------------------------------------------------------------------
  // Which run is the newest, and what a tie does
  // ---------------------------------------------------------------------------

  /** The clock moves on between two starts of the same document. */
  predicate ClockAdvances(w: World, s: Step) {
    s.Trigger? ==> forall r :: r in w.runs && w.runs[r].document == s.document ==> w.runs[r].start < s.at
  }

  ghost predicate ClockAdvancesThroughout(w: World, steps: seq<Step>) {
    steps != [] ==>
      && ClockAdvancesThroughout(w, steps[..|steps| - 1])
      && ClockAdvances(Play(w, steps[..|steps| - 1]), steps[|steps| - 1])
  }

  ghost predicate OpenIsNewest(w: World) {
    forall d :: d in w.open ==> StrictlyNewest(w.runs, w.open[d]) && w.runs[w.open[d]].document == d
  }

  /** With an advancing clock, the run that superseded the others is the strictly newest one,
      so it is the one that wins. */
  lemma {:induction false} SupersedingRunIsNewest(w: World, steps: seq<Step>)
    requires OpenIsNewest(w) && ClockAdvancesThroughout(w, steps)
    ensures OpenIsNewest(Play(w, steps))
  {
    if steps != [] {
      SupersedingRunIsNewest(w, steps[..|steps| - 1]);
    }
  }

  /** A rival claim displaces the owner exactly when the rival did not start earlier: a run
      with the very same start time takes the document over. */
  lemma RivalClaimDisplaces(w: World, run: RunId, rival: Operation)
    requires Owns(w, run) && rival.OpClaim? && Dispatched(w.runs, rival)
    requires rival.run != run && rival.upload.document == w.runs[run].document
    ensures Owns(Next(w, Perform(rival)), run) <==> rival.start < w.runs[run].start
    ensures w.runs[run].start <= rival.start ==>
              Outcome(Next(w, Perform(rival)).db, w.runs[run].document, run) == FencedOut
  {
  }
}
