/** The migration runner: any number of runners on one database, each with its own list of
    files, failing or being killed at any point.

    Each event is what one statement reads or one commit makes visible. What a migration's SQL
    does to the schema is a parameter of its commit; nothing else creates or drops tables. */
module Migrations {
  import opened Wrappers
  import opened Text

  datatype Phase =
    | Probing
    | SawSchema(present: bool)
    | Backfilling
    | Applying(next: nat)
    | Executing(next: nat)
    | Finished
    | Failed

  /** `ran`: the files whose SQL this runner has committed. */
  datatype Runner = Runner(files: seq<string>, phase: Phase, ran: seq<string>)

  /** `tracked` is the `_migrations` table; `schema` says whether `processed_documents` exists.
      `executed` and `backfilled` record how names got into the table. */
  datatype World = World(
    tracked: set<string>, schema: bool, executed: seq<string>, backfilled: set<string>, runners: map<nat, Runner>)

  datatype Event =
    | Start(id: nat, names: set<string>)
    | ReadSchema(id: nat)
    | ReadCount(id: nat)
    | Backfill(id: nat)
    | Check(id: nat)
    | Commit(id: nat, schemaAfter: bool)
    | Fail(id: nat)

  predicate Live(r: Runner) { !r.phase.Finished? && !r.phase.Failed? }

  predicate Enabled(w: World, e: Event) {
    if e.Start? then e.id !in w.runners && e.names != {}
    else
      e.id in w.runners &&
      var phase := w.runners[e.id].phase;
      match e
      case ReadSchema(_) => phase.Probing?
      case ReadCount(_) => phase.SawSchema?
      case Backfill(_) => phase.Backfilling?
      case Check(_) => phase.Applying?
      case Commit(_, _) => phase.Executing?
      case Fail(_) => Live(w.runners[e.id])
  }

  function Listed(files: seq<string>): set<string> {
    set f | f in files
  }

  function Turn(w: World, id: nat, phase: Phase): World
    requires id in w.runners
  {
    w.(runners := w.runners[id := w.runners[id].(phase := phase)])
  }

  /** A commit of one file: the unique index refuses a name that is tracked by now, and then
      the SQL is rolled back with it. */
  function CommitFile(w: World, id: nat, n: nat, schemaAfter: bool): World
    requires id in w.runners
  {
    var r := w.runners[id];
    if n >= |r.files| || r.files[n] in w.tracked then Turn(w, id, Failed)
    else
      World(w.tracked + {r.files[n]}, schemaAfter, w.executed + [r.files[n]], w.backfilled,
            w.runners[id := Runner(r.files, Applying(n + 1), r.ran + [r.files[n]])])
  }

  function CheckFile(w: World, id: nat, n: nat): World
    requires id in w.runners
  {
    var r := w.runners[id];
    if n >= |r.files| then Turn(w, id, Finished)
    else if r.files[n] in w.tracked then Turn(w, id, Applying(n + 1))
    else Turn(w, id, Executing(n))
  }

  function Next(w: World, e: Event): World {
    if !Enabled(w, e) then w
    else
      match e
      case Start(id, names) => w.(runners := w.runners[id := Runner(Sorted(names), Probing, [])])
      case ReadSchema(id) => Turn(w, id, SawSchema(w.schema))
      case ReadCount(id) =>
        Turn(w, id, if w.runners[id].phase.present && w.tracked == {} then Backfilling else Applying(0))
      case Backfill(id) =>
        var files := Listed(w.runners[id].files);
        Turn(w.(tracked := w.tracked + files, backfilled := w.backfilled + (files - w.tracked)), id, Applying(0))
      case Check(id) => CheckFile(w, id, w.runners[id].phase.next)
      case Commit(id, schemaAfter) => CommitFile(w, id, w.runners[id].phase.next, schemaAfter)
      case Fail(id) => Turn(w, id, Failed)
  }

  function Initial(tracked: set<string>, schema: bool): World {
    World(tracked, schema, [], {}, map[])
  }

  function Play(start: World, events: seq<Event>): World {
    if events == [] then start else Next(Play(start, events[..|events| - 1]), events[|events| - 1])
  }

  // ---------------------------------------------------------------------------
  // What every run keeps
  // ---------------------------------------------------------------------------

  ghost predicate NoRepeats(s: seq<string>) {
    forall i, j :: 0 <= i < j < |s| ==> s[i] != s[j]
  }

  /** How the tracked names came about. */
  ghost predicate LedgerOk(start: World, w: World) {
    && NoRepeats(w.executed)
    && w.tracked == start.tracked + Listed(w.executed) + w.backfilled
    && start.tracked !! Listed(w.executed) && start.tracked !! w.backfilled && Listed(w.executed) !! w.backfilled
    && (w.backfilled != {} ==> start.schema && start.tracked == {})
    && (w.tracked == {} ==> w.schema == start.schema)
  }

  /** How far one runner is: everything before its position is tracked, and what it committed is
      an increasing choice from there. */
  ghost predicate RunnerOk(start: World, w: World, r: Runner) {
    && Increasing(r.files)
    && Increasing(r.ran) && Listed(r.ran) <= Listed(r.files) && Listed(r.ran) <= Listed(w.executed)
    && (r.phase.SawSchema? && r.phase.present && w.tracked == {} ==> start.schema)
    && (r.phase.Backfilling? ==> start.schema && start.tracked == {})
    && (r.phase.Applying? || r.phase.Executing? ==>
          r.phase.next <= |r.files|
          && (forall i :: 0 <= i < r.phase.next ==> r.files[i] in w.tracked)
          && (forall k, i :: 0 <= k < |r.ran| && r.phase.next <= i < |r.files| ==> Precedes(r.ran[k], r.files[i])))
    && (r.phase.Probing? || r.phase.SawSchema? || r.phase.Backfilling? ==> r.ran == [])
    && (r.phase.Finished? ==> forall i :: 0 <= i < |r.files| ==> r.files[i] in w.tracked)
  }

  ghost predicate Inv(start: World, w: World) {
    LedgerOk(start, w) && forall id :: id in w.runners ==> RunnerOk(start, w, w.runners[id])
  }

  /** The table only grows. */
  lemma TrackedGrows(w: World, e: Event)
    ensures w.tracked <= Next(w, e).tracked && Listed(w.executed) <= Listed(Next(w, e).executed)
  {
  }

  lemma ListedSnoc(s: seq<string>, f: string)
    ensures Listed(s + [f]) == Listed(s) + {f}
  {
  }

  lemma CommitKeepsLedger(start: World, w: World, id: nat, schemaAfter: bool)
    requires LedgerOk(start, w) && Enabled(w, Commit(id, schemaAfter))
    ensures LedgerOk(start, Next(w, Commit(id, schemaAfter)))
  {
    var r := w.runners[id];
    var n := r.phase.next;
    if n < |r.files| && r.files[n] !in w.tracked {
      ListedSnoc(w.executed, r.files[n]);
      assert r.files[n] !in Listed(w.executed);
      forall i | 0 <= i < |w.executed| ensures w.executed[i] != r.files[n] {
        assert w.executed[i] in Listed(w.executed);
      }
    }
  }

  lemma BackfillKeepsLedger(start: World, w: World, id: nat)
    requires LedgerOk(start, w) && Enabled(w, Backfill(id)) && RunnerOk(start, w, w.runners[id])
    ensures LedgerOk(start, Next(w, Backfill(id)))
  {
  }

  lemma LedgerStep(start: World, w: World, e: Event)
    requires Inv(start, w)
    ensures LedgerOk(start, Next(w, e))
  {
    if Enabled(w, e) {
      match e
      case Commit(id, schemaAfter) => CommitKeepsLedger(start, w, id, schemaAfter);
      case Backfill(id) =>
        assert RunnerOk(start, w, w.runners[id]);
        BackfillKeepsLedger(start, w, id);
      case _ =>
    }
  }

  /** A runner that does not move stays right while the table grows. */
  lemma BystanderStep(start: World, w: World, after: World, r: Runner)
    requires RunnerOk(start, w, r) && w.tracked <= after.tracked && Listed(w.executed) <= Listed(after.executed)
    ensures RunnerOk(start, after, r)
  {
  }

  lemma NonEmptyIsTracked(start: World, w: World)
    requires LedgerOk(start, w) && w.tracked == {}
    ensures start.tracked == {} && w.schema == start.schema
  {
  }

  lemma CommitMover(start: World, w: World, id: nat, schemaAfter: bool)
    requires Enabled(w, Commit(id, schemaAfter)) && RunnerOk(start, w, w.runners[id])
    ensures var after := Next(w, Commit(id, schemaAfter)); RunnerOk(start, after, after.runners[id])
  {
    var r := w.runners[id];
    var n := r.phase.next;
    if n < |r.files| && r.files[n] !in w.tracked {
      IncreasingSnoc(r.ran, r.files[n]);
      ListedSnoc(r.ran, r.files[n]);
      ListedSnoc(w.executed, r.files[n]);
      forall k, i | 0 <= k < |r.ran + [r.files[n]]| && n + 1 <= i < |r.files|
        ensures Precedes((r.ran + [r.files[n]])[k], r.files[i])
      {
        assert Precedes(r.files[n], r.files[i]);
      }
    }
  }

  lemma IncreasingSnoc(s: seq<string>, last: string)
    requires Increasing(s) && forall k :: 0 <= k < |s| ==> Precedes(s[k], last)
    ensures Increasing(s + [last])
  {
  }

  lemma CheckMover(start: World, w: World, id: nat)
    requires Enabled(w, Check(id)) && RunnerOk(start, w, w.runners[id])
    ensures var after := Next(w, Check(id)); RunnerOk(start, after, after.runners[id])
  {
  }

  lemma ProbeMover(start: World, w: World, e: Event)
    requires LedgerOk(start, w) && Enabled(w, e) && (e.ReadSchema? || e.ReadCount? || e.Backfill? || e.Fail?)
    requires RunnerOk(start, w, w.runners[e.id])
    ensures var after := Next(w, e); RunnerOk(start, after, after.runners[e.id])
  {
    if w.tracked == {} {
      NonEmptyIsTracked(start, w);
    }
  }

  lemma RunnersStep(start: World, w: World, e: Event)
    requires Inv(start, w)
    ensures var after := Next(w, e); forall id :: id in after.runners ==> RunnerOk(start, after, after.runners[id])
  {
    var after := Next(w, e);
    TrackedGrows(w, e);
    forall id | id in after.runners ensures RunnerOk(start, after, after.runners[id]) {
      if Enabled(w, e) && id == e.id {
        if !e.Start? {
          assert RunnerOk(start, w, w.runners[id]);
        }
        match e
        case Start(_, _) =>
        case Check(_) => CheckMover(start, w, id);
        case Commit(_, schemaAfter) => CommitMover(start, w, id, schemaAfter);
        case _ => ProbeMover(start, w, e);
      } else {
        assert after.runners[id] == w.runners[id];
        BystanderStep(start, w, after, w.runners[id]);
      }
    }
  }

  lemma {:induction false} InvHolds(tracked: set<string>, schema: bool, events: seq<Event>)
    ensures Inv(Initial(tracked, schema), Play(Initial(tracked, schema), events))
  {
    var start := Initial(tracked, schema);
    if events != [] {
      var init := events[..|events| - 1];
      InvHolds(tracked, schema, init);
      var w := Play(start, init);
      LedgerStep(start, w, events[|events| - 1]);
      RunnersStep(start, w, events[|events| - 1]);
    }
  }

  /** Over every interleaving of any number of runners with any files and any failures: no
      file's SQL commits twice; a file that was tracked beforehand or back-filled never
      executes; and a backfill happens only when the schema was there before any tracking. */
  lemma CommitsAtMostOnce(tracked: set<string>, schema: bool, events: seq<Event>)
    ensures var w := Play(Initial(tracked, schema), events);
            && (forall i, j :: 0 <= i < j < |w.executed| ==> w.executed[i] != w.executed[j])
            && (forall i :: 0 <= i < |w.executed| ==> w.executed[i] !in tracked && w.executed[i] !in w.backfilled)
            && (w.backfilled != {} ==> schema && tracked == {})
            && (forall f :: f in w.tracked <==> f in tracked || f in w.executed || f in w.backfilled)
  {
    InvHolds(tracked, schema, events);
    var w := Play(Initial(tracked, schema), events);
    forall i | 0 <= i < |w.executed| ensures w.executed[i] !in tracked && w.executed[i] !in w.backfilled {
      assert w.executed[i] in Listed(w.executed);
    }
  }

  /** A runner commits its files in name order, and when it reports success every file on its
      list is tracked, whoever put it there. */
  lemma RunnersKeepOrder(tracked: set<string>, schema: bool, events: seq<Event>, id: nat)
    requires id in Play(Initial(tracked, schema), events).runners
    ensures var w := Play(Initial(tracked, schema), events);
            && (forall i, j :: 0 <= i < j < |w.runners[id].ran| ==>
                CharacterOrder(w.runners[id].ran[i], w.runners[id].ran[j]))
            && (forall f :: f in w.runners[id].ran ==> f in w.runners[id].files && f in w.executed)
            && (w.runners[id].phase.Finished? ==> forall f :: f in w.runners[id].files ==> f in w.tracked)
  {
    InvHolds(tracked, schema, events);
    var w := Play(Initial(tracked, schema), events);
    hide Play;
    RunnerMeans(Initial(tracked, schema), w, w.runners[id]);
  }

  lemma RunnerMeans(start: World, w: World, r: Runner)
    requires RunnerOk(start, w, r)
    ensures forall i, j :: 0 <= i < j < |r.ran| ==> CharacterOrder(r.ran[i], r.ran[j])
    ensures forall f :: f in r.ran ==> f in r.files && f in w.executed
    ensures r.phase.Finished? ==> forall f :: f in r.files ==> f in w.tracked
  {
    IncreasingIsCharacterOrder(r.ran);
    forall f | f in r.ran ensures f in r.files && f in w.executed {
      assert f in Listed(r.ran);
    }
  }

  // ---------------------------------------------------------------------------
  // One runner alone
  // ---------------------------------------------------------------------------

  /** The files that are not tracked, in their order. */
  function Pending(files: seq<string>, tracked: set<string>): seq<string> {
    if files == [] then []
    else Pending(files[..|files| - 1], tracked) + (if files[|files| - 1] in tracked then [] else [files[|files| - 1]])
  }

  /** Those that run before the first whose SQL fails. */
  function BeforeFailure(pending: seq<string>, fails: string -> bool): seq<string> {
    if pending == [] || fails(pending[0]) then [] else [pending[0]] + BeforeFailure(pending[1..], fails)
  }

  /** The schema after the SQL of these files. */
  function SchemaAfter(ran: seq<string>, schema: bool, effect: (string, bool) -> bool): bool {
    if ran == [] then schema else effect(ran[|ran| - 1], SchemaAfter(ran[..|ran| - 1], schema, effect))
  }

  datatype Tables = Tables(tracked: set<string>, schema: bool, executed: seq<string>)

  function AfterOne(t: Tables, file: string, effect: (string, bool) -> bool): Tables {
    Tables(t.tracked + {file}, effect(file, t.schema), t.executed + [file])
  }

  function AfterRun(t: Tables, ran: seq<string>, effect: (string, bool) -> bool): Tables {
    Tables(t.tracked + Listed(ran), SchemaAfter(ran, t.schema, effect), t.executed + ran)
  }

  lemma AfterNone(t: Tables, effect: (string, bool) -> bool)
    ensures AfterRun(t, [], effect) == t
  {
    assert t.executed + [] == t.executed && t.tracked + Listed([]) == t.tracked;
  }

  lemma AfterSnoc(t: Tables, ran: seq<string>, file: string, effect: (string, bool) -> bool)
    ensures AfterRun(t, ran + [file], effect) == AfterOne(AfterRun(t, ran, effect), file, effect)
  {
    ListedSnoc(ran, file);
    assert t.tracked + (Listed(ran) + {file}) == t.tracked + Listed(ran) + {file};
    assert (ran + [file])[..|ran|] == ran;
    assert t.executed + (ran + [file]) == t.executed + ran + [file];
  }

  ghost predicate NoneFails(ran: seq<string>, fails: string -> bool) {
    forall k :: 0 <= k < |ran| ==> !fails(ran[k])
  }

  lemma NoFailure(ran: seq<string>, fails: string -> bool)
    requires NoneFails(ran, fails)
    ensures BeforeFailure(ran, fails) == ran
  {
    BeforeFailureExactly(ran, [], fails);
    assert ran + [] == ran;
  }

  lemma {:induction false} BeforeFailureExactly(done: seq<string>, rest: seq<string>, fails: string -> bool)
    requires NoneFails(done, fails)
    ensures BeforeFailure(done + rest, fails) == done + BeforeFailure(rest, fails)
  {
    if done == [] {
      assert done + rest == rest;
    } else {
      BeforeFailureExactly(done[1..], rest, fails);
      assert (done + rest)[1..] == done[1..] + rest;
    }
  }

  lemma {:induction false} PendingSplit(files: seq<string>, tracked: set<string>, i: nat)
    requires i < |files|
    ensures Pending(files[..i + 1], tracked)
        == Pending(files[..i], tracked) + (if files[i] in tracked then [] else [files[i]])
    ensures Pending(files[..i + 1], tracked) <= Pending(files, tracked)
    decreases |files|
  {
    assert files[..i + 1][..i] == files[..i];
    if i + 1 == |files| {
      assert files[..i + 1] == files;
    } else {
      PendingSplit(files[..|files| - 1], tracked, i);
      assert files[..|files| - 1][..i + 1] == files[..i + 1];
    }
  }

  lemma {:induction false} PendingIsFromFiles(files: seq<string>, tracked: set<string>)
    ensures forall k :: 0 <= k < |Pending(files, tracked)| ==> Pending(files, tracked)[k] in files
  {
    if files != [] {
      PendingIsFromFiles(files[..|files| - 1], tracked);
    }
  }

  class Database {
    var tracked: set<string>
    var schema: bool
    var executed: seq<string>

    function Snapshot(): Tables
      reads this
    {
      Tables(tracked, schema, executed)
    }

    constructor (tracked: set<string>, schema: bool)
      ensures this.tracked == tracked && this.schema == schema && executed == []
    {
      this.tracked, this.schema, executed := tracked, schema, [];
    }

    method BackfillIfPretracking(files: seq<string>)
      modifies this`tracked
      ensures tracked == if schema && old(tracked) == {} then Listed(files) else old(tracked)
    {
      if schema && tracked == {} {
        for i := 0 to |files|
          invariant tracked == Listed(files[..i])
        {
          tracked := tracked + {files[i]};
          ListedSnoc(files[..i], files[i]);
          assert files[..i + 1] == files[..i] + [files[i]];
        }
        assert files[..|files|] == files;
      }
    }

    /** The SQL of one file and its tracking row, in one transaction. */
    method CommitOne(file: string, effect: (string, bool) -> bool)
      modifies this
      ensures Snapshot() == AfterOne(old(Snapshot()), file, effect)
    {
      schema := effect(file, schema);
      executed := executed + [file];
      tracked := tracked + {file};
    }

    /** Runs the pending files in order, each in a transaction with its tracking row, up to the
        first that fails. */
    method ApplyPending(files: seq<string>, fails: string -> bool, effect: (string, bool) -> bool) returns (ok: bool)
      requires Increasing(files)
      modifies this
      ensures var pending := Pending(files, old(tracked));
              && Snapshot() == AfterRun(old(Snapshot()), BeforeFailure(pending, fails), effect)
              && (ok <==> BeforeFailure(pending, fails) == pending)
    {
      hide AfterRun, AfterOne, BeforeFailure, Increasing;
      ghost var first := Snapshot();
      ghost var ran: seq<string> := [];
      AfterNone(first, effect);
      for i := 0 to |files|
        invariant ran == Pending(files[..i], first.tracked) && Snapshot() == AfterRun(first, ran, effect)
        invariant NoneFails(ran, fails)
      {
        PendingSplit(files, first.tracked, i);
        StillPending(first, files, i, effect);
        if files[i] in tracked {
          continue;
        }
        if fails(files[i]) {
          Stops(ran, Pending(files, first.tracked), files[i], fails);
          return false;
        }
        CommitOne(files[i], effect);
        AfterSnoc(first, ran, files[i], effect);
        ran := ran + [files[i]];
      }
      assert files[..|files|] == files;
      NoFailure(ran, fails);
      ok := true;
    }

    /** `None` when the directory is missing. */
    method RunMigrations(directory: Option<set<string>>, fails: string -> bool, effect: (string, bool) -> bool)
      returns (outcome: Result<(), string>)
      modifies this
      ensures directory.None? || directory.value == {} ==>
                outcome.Err? && tracked == old(tracked) && executed == old(executed) && schema == old(schema)
      ensures directory.Some? && directory.value != {} ==>
                var files := Sorted(directory.value);
                var known := if old(schema) && old(tracked) == {} then Listed(files) else old(tracked);
                var ran := BeforeFailure(Pending(files, known), fails);
                && executed == old(executed) + ran && tracked == known + Listed(ran)
                && schema == SchemaAfter(ran, old(schema), effect)
                && (outcome.Ok? <==> ran == Pending(files, known))
                && (outcome.Ok? ==> directory.value <= tracked)
                && (forall f :: f in ran ==> f in directory.value && f !in old(tracked))
                && forall i, j :: 0 <= i < j < |ran| ==> CharacterOrder(ran[i], ran[j])
    {
      if directory.None? || directory.value == {} {
        return Err("no migrations found");
      }
      var files := Sorted(directory.value);
      BackfillIfPretracking(files);
      ghost var known := tracked;
      RunsInNameOrder(files, known, fails);
      var ok := ApplyPending(files, fails, effect);
      if !ok {
        return Err("migration failed");
      }
      forall f | f in directory.value ensures f in tracked {
        assert f in files;
        var i :| 0 <= i < |files| && files[i] == f;
        PendingCovers(files, known, i);
      }
      return Ok(());
    }
  }

  /** A name that is not on the table yet has not been run earlier in the list either. */
  lemma NotYetListed(files: seq<string>, tracked: set<string>, i: nat)
    requires Increasing(files) && i < |files|
    ensures files[i] !in Listed(Pending(files[..i], tracked))
  {
    PendingIsFromFiles(files[..i], tracked);
    var pending := Pending(files[..i], tracked);
    forall k | 0 <= k < |pending| ensures pending[k] != files[i] {
      var j :| 0 <= j < i && files[j] == pending[k];
      assert Precedes(files[j], files[i]);
      Trichotomy(files[j], files[i]);
    }
  }

  lemma {:induction false} FailureIsPrefix(pending: seq<string>, fails: string -> bool)
    ensures BeforeFailure(pending, fails) <= pending
  {
    if pending != [] && !fails(pending[0]) {
      FailureIsPrefix(pending[1..], fails);
      assert pending == [pending[0]] + pending[1..];
    }
  }

  lemma {:induction false} PendingKeepsOrder(files: seq<string>, tracked: set<string>)
    requires Increasing(files)
    ensures Increasing(Pending(files, tracked))
    ensures forall k :: 0 <= k < |Pending(files, tracked)| ==> Pending(files, tracked)[k] !in tracked
  {
    if files != [] {
      var init, last := files[..|files| - 1], files[|files| - 1];
      PendingKeepsOrder(init, tracked);
      PendingIsFromFiles(init, tracked);
      forall k | 0 <= k < |Pending(init, tracked)| ensures Precedes(Pending(init, tracked)[k], last) {
        var i :| 0 <= i < |init| && init[i] == Pending(init, tracked)[k];
        assert files[i] == init[i];
      }
      if last !in tracked {
        IncreasingSnoc(Pending(init, tracked), last);
      }
    }
  }

  /** What runs comes from the list, is not tracked, and runs in the order of characters. */
  lemma RunsInNameOrder(files: seq<string>, known: set<string>, fails: string -> bool)
    requires Increasing(files)
    ensures var ran := BeforeFailure(Pending(files, known), fails);
            && (forall f :: f in ran ==> f in files && f !in known)
            && forall i, j :: 0 <= i < j < |ran| ==> CharacterOrder(ran[i], ran[j])
  {
    var pending := Pending(files, known);
    var ran := BeforeFailure(pending, fails);
    FailureIsPrefix(pending, fails);
    PendingKeepsOrder(files, known);
    PendingIsFromFiles(files, known);
    assert ran == pending[..|ran|];
    IncreasingIsCharacterOrder(ran);
    forall f | f in ran ensures f in files && f !in known {
      var k :| 0 <= k < |ran| && ran[k] == f;
      assert pending[k] == f;
    }
  }

  /** Seen after the earlier files have run, the table answers for a file as it did at the start. */
  lemma StillPending(first: Tables, files: seq<string>, i: nat, effect: (string, bool) -> bool)
    requires Increasing(files) && i < |files|
    ensures files[i] in AfterRun(first, Pending(files[..i], first.tracked), effect).tracked
        <==> files[i] in first.tracked
  {
    NotYetListed(files, first.tracked, i);
  }

  lemma Stops(ran: seq<string>, pending: seq<string>, f: string, fails: string -> bool)
    requires ran + [f] <= pending && fails(f) && NoneFails(ran, fails)
    ensures BeforeFailure(pending, fails) == ran && ran != pending
  {
    var rest := pending[|ran|..];
    assert rest[0] == pending[|ran|] == (ran + [f])[|ran|];
    assert pending == ran + rest;
    BeforeFailureExactly(ran, rest, fails);
    assert ran + [] == ran;
  }

  lemma PendingCovers(files: seq<string>, tracked: set<string>, i: nat)
    requires i < |files|
    ensures files[i] in tracked || files[i] in Listed(Pending(files, tracked))
  {
    PendingSplit(files, tracked, i);
    var upto := Pending(files[..i + 1], tracked);
    if files[i] !in tracked {
      assert upto[|upto| - 1] == files[i] == Pending(files, tracked)[|upto| - 1];
    }
  }

  // ---------------------------------------------------------------------------
  // The run alone is one history of the state machine
  // ---------------------------------------------------------------------------

  lemma {:induction false} PlayAppend(w: World, first: seq<Event>, second: seq<Event>)
    ensures Play(w, first + second) == Play(Play(w, first), second)
  {
    if second == [] {
      assert first + second == first;
    } else {
      PlayAppend(w, first, second[..|second| - 1]);
      assert (first + second)[..|first + second| - 1] == first + second[..|second| - 1];
    }
  }

  lemma PlayOne(w: World, e: Event)
    ensures Play(w, [e]) == Next(w, e)
  {
    assert [e][..0] == [];
  }

  lemma {:induction false} PendingCons(f: string, rest: seq<string>, tracked: set<string>)
    ensures Pending([f] + rest, tracked) == (if f in tracked then [] else [f]) + Pending(rest, tracked)
  {
    if rest == [] {
      assert [f] + rest == [f] && [f][..0] == [];
    } else {
      PendingCons(f, rest[..|rest| - 1], tracked);
      assert ([f] + rest)[..|rest|] == [f] + rest[..|rest| - 1];
    }
  }

  lemma {:induction false} PendingIgnores(files: seq<string>, tracked: set<string>, f: string)
    requires forall i :: 0 <= i < |files| ==> files[i] != f
    ensures Pending(files, tracked + {f}) == Pending(files, tracked)
  {
    if files != [] {
      PendingIgnores(files[..|files| - 1], tracked, f);
    }
  }

  lemma {:induction false} SchemaAfterCons(f: string, ran: seq<string>, schema: bool, effect: (string, bool) -> bool)
    ensures SchemaAfter([f] + ran, schema, effect) == SchemaAfter(ran, effect(f, schema), effect)
  {
    if ran == [] {
      assert [f] + ran == [f] && [f][..0] == [];
    } else {
      SchemaAfterCons(f, ran[..|ran| - 1], schema, effect);
      assert ([f] + ran)[..|ran|] == [f] + ran[..|ran| - 1];
    }
  }

  function TablesOf(w: World): Tables {
    Tables(w.tracked, w.schema, w.executed)
  }

  lemma AfterCons(t: Tables, f: string, ran: seq<string>, effect: (string, bool) -> bool)
    ensures AfterRun(t, [f] + ran, effect) == AfterRun(AfterOne(t, f, effect), ran, effect)
  {
    SchemaAfterCons(f, ran, t.schema, effect);
    assert Listed([f] + ran) == {f} + Listed(ran);
    assert t.executed + ([f] + ran) == t.executed + [f] + ran;
  }

  /** Runner 0 stands before its n-th file. */
  predicate At(w: World, files: seq<string>, n: nat) {
    0 in w.runners && w.runners[0].files == files && w.runners[0].phase == Applying(n) && n <= |files|
  }

  /** What runner 0 has done once it has finished, or failed. */
  ghost predicate Ends(
    w: World, after: World, pending: seq<string>, fails: string -> bool, effect: (string, bool) -> bool)
  {
    && TablesOf(after) == AfterRun(TablesOf(w), BeforeFailure(pending, fails), effect)
    && 0 in after.runners
    && after.runners[0].phase == if BeforeFailure(pending, fails) == pending then Finished else Failed
  }

  /** One file: skipped, failed, or committed. */
  lemma OneFile(
    w: World, files: seq<string>, n: nat, fails: string -> bool, effect: (string, bool) -> bool)
    returns (events: seq<Event>)
    requires At(w, files, n) && n < |files|
    ensures var after := Play(w, events);
            if files[n] in w.tracked then after == Turn(w, 0, Applying(n + 1))
            else if fails(files[n]) then TablesOf(after) == TablesOf(w) && 0 in after.runners
                && after.runners[0].phase == Failed
            else TablesOf(after) == AfterOne(TablesOf(w), files[n], effect) && At(after, files, n + 1)
  {
    PlayOne(w, Check(0));
    if files[n] in w.tracked {
      events := [Check(0)];
    } else {
      var last := if fails(files[n]) then Fail(0) else Commit(0, effect(files[n], w.schema));
      events := [Check(0)] + [last];
      PlayAppend(w, [Check(0)], [last]);
      PlayOne(Next(w, Check(0)), last);
    }
  }

  lemma {:induction false} FilesFrom(
    w: World, files: seq<string>, n: nat, fails: string -> bool, effect: (string, bool) -> bool)
    returns (events: seq<Event>)
    requires At(w, files, n) && Increasing(files)
    ensures Ends(w, Play(w, events), Pending(files[n..], w.tracked), fails, effect)
    decreases |files| - n
  {
    hide Next, Play, BeforeFailure, AfterRun, AfterOne;
    if n == |files| {
      events := [Check(0)];
      LastFile(w, files, fails, effect);
      assert files[n..] == [];
    } else {
      var f, rest := files[n], files[n + 1..];
      assert files[n..] == [f] + rest;
      PendingCons(f, rest, w.tracked);
      var first := OneFile(w, files, n, fails, effect);
      var mid := Play(w, first);
      if f in w.tracked {
        assert [] + Pending(rest, w.tracked) == Pending(rest, w.tracked);
        var later := FilesFrom(mid, files, n + 1, fails, effect);
        events := first + later;
        PlayAppend(w, first, later);
      } else if fails(f) {
        events := first;
        Broken(w, mid, f, Pending(rest, w.tracked), fails, effect);
      } else {
        var later := FilesFrom(mid, files, n + 1, fails, effect);
        events := first + later;
        PlayAppend(w, first, later);
        LaterNamesDiffer(files, n, rest);
        PendingIgnores(rest, w.tracked, f);
        AfterOneTracks(w, mid, f, effect);
        Committed(w, Play(w, events), f, Pending(rest, w.tracked), fails, effect, TablesOf(mid));
      }
    }
  }

  lemma LastFile(w: World, files: seq<string>, fails: string -> bool, effect: (string, bool) -> bool)
    requires At(w, files, |files|)
    ensures Ends(w, Play(w, [Check(0)]), [], fails, effect)
  {
    PlayOne(w, Check(0));
    AfterNone(TablesOf(w), effect);
  }

  lemma LaterNamesDiffer(files: seq<string>, n: nat, rest: seq<string>)
    requires Increasing(files) && n < |files| && rest == files[n + 1..]
    ensures forall i :: 0 <= i < |rest| ==> rest[i] != files[n]
  {
    forall i | 0 <= i < |rest| ensures rest[i] != files[n] {
      assert Precedes(files[n], files[n + 1 + i]);
      Trichotomy(files[n], files[n + 1 + i]);
    }
  }

  lemma AfterOneTracks(w: World, mid: World, f: string, effect: (string, bool) -> bool)
    requires TablesOf(mid) == AfterOne(TablesOf(w), f, effect)
    ensures mid.tracked == w.tracked + {f}
  {
    assert mid.tracked == TablesOf(mid).tracked;
  }

  lemma Broken(
    w: World, after: World, f: string, pending: seq<string>, fails: string -> bool, effect: (string, bool) -> bool)
    requires fails(f) && TablesOf(after) == TablesOf(w) && 0 in after.runners && after.runners[0].phase == Failed
    ensures Ends(w, after, [f] + pending, fails, effect)
  {
    AfterNone(TablesOf(w), effect);
    assert ([f] + pending)[0] == f;
  }

  lemma Committed(
    w: World, after: World, f: string, pending: seq<string>, fails: string -> bool, effect: (string, bool) -> bool,
    mid: Tables)
    requires !fails(f) && mid == AfterOne(TablesOf(w), f, effect)
    requires TablesOf(after) == AfterRun(mid, BeforeFailure(pending, fails), effect) && 0 in after.runners
    requires after.runners[0].phase == if BeforeFailure(pending, fails) == pending then Finished else Failed
    ensures Ends(w, after, [f] + pending, fails, effect)
  {
    var ran := BeforeFailure(pending, fails);
    AfterCons(TablesOf(w), f, ran, effect);
    assert ([f] + pending)[1..] == pending;
    assert BeforeFailure([f] + pending, fails) == [f] + ran;
    assert [f] + ran == [f] + pending ==> ran == pending by {
      assert ([f] + ran)[1..] == ran;
    }
  }

  /** Probing, and the backfill if it is due. */
  lemma Probe(names: set<string>, tracked: set<string>, schema: bool) returns (events: seq<Event>)
    requires names != {}
    ensures var w := Play(Initial(tracked, schema), events);
            && At(w, Sorted(names), 0)
            && TablesOf(w) == Tables(if schema && tracked == {} then Listed(Sorted(names)) else tracked, schema, [])
  {
    var w0 := Initial(tracked, schema);
    var w1 := Next(w0, Start(0, names));
    var w2 := Next(w1, ReadSchema(0));
    var w3 := Next(w2, ReadCount(0));
    PlayOne(w0, Start(0, names));
    PlayAppend(w0, [Start(0, names)], [ReadSchema(0)]);
    PlayOne(w1, ReadSchema(0));
    events := [Start(0, names)] + [ReadSchema(0)];
    PlayAppend(w0, events, [ReadCount(0)]);
    PlayOne(w2, ReadCount(0));
    events := events + [ReadCount(0)];
    if schema && tracked == {} {
      PlayAppend(w0, events, [Backfill(0)]);
      PlayOne(w3, Backfill(0));
      events := events + [Backfill(0)];
    }
  }

  /** `Database.RunMigrations` is one history of the state machine: what it leaves in the tables
      is what a runner that is alone leaves, so the theorems over histories hold of it. */
  lemma RunAloneIsAHistory(
    names: set<string>, tracked: set<string>, schema: bool, fails: string -> bool, effect: (string, bool) -> bool)
    returns (events: seq<Event>)
    requires names != {}
    ensures var known := if schema && tracked == {} then Listed(Sorted(names)) else tracked;
            var pending := Pending(Sorted(names), known);
            var after := Play(Initial(tracked, schema), events);
            && TablesOf(after) == AfterRun(Tables(known, schema, []), BeforeFailure(pending, fails), effect)
            && 0 in after.runners
            && after.runners[0].phase == if BeforeFailure(pending, fails) == pending then Finished else Failed
  {
    var first := Probe(names, tracked, schema);
    var w := Play(Initial(tracked, schema), first);
    var later := FilesFrom(w, Sorted(names), 0, fails, effect);
    events := first + later;
    PlayAppend(Initial(tracked, schema), first, later);
    assert Sorted(names)[0..] == Sorted(names);
  }
}
