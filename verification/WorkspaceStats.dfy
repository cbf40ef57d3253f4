/** Workspace counters under retries: each run id is counted at most once, whatever is
    repeated, reordered between workspaces, or sent without a run id. */
module WorkspaceStats {
  import opened Wrappers
  import opened Tables

  function Play(db: Database, calls: seq<Delta>): Database {
    if calls == [] then db else UpdateStats(Play(db, calls[..|calls| - 1]), calls[|calls| - 1])
  }

  /** The run ids a list of calls carries. */
  function Runs(calls: seq<Delta>): set<RunId> {
    set i | 0 <= i < |calls| && calls[i].run.Some? :: calls[i].run.value
  }

  /** The calls that count: those without a run id, and the first one of each run id that the
      ledger does not know yet. */
  predicate Repeats(known: set<RunId>, init: seq<Delta>, last: Delta) {
    last.run.Some? && last.run.value in known + Runs(init)
  }

  function Counting(known: set<RunId>, calls: seq<Delta>): seq<Delta> {
    if calls == [] then []
    else
      var init, last := calls[..|calls| - 1], calls[|calls| - 1];
      Counting(known, init) + if Repeats(known, init, last) then [] else [last]
  }

  lemma RunsSnoc(calls: seq<Delta>)
    requires calls != []
    ensures var last := calls[|calls| - 1];
            Runs(calls) == Runs(calls[..|calls| - 1]) + if last.run.Some? then {last.run.value} else {}
  {
    var init, last := calls[..|calls| - 1], calls[|calls| - 1];
    forall r | r in Runs(calls) ensures r in Runs(init) + if last.run.Some? then {last.run.value} else {} {
      var i :| 0 <= i < |calls| && calls[i].run.Some? && calls[i].run.value == r;
      assert i < |init| ==> init[i] == calls[i];
    }
    forall r | r in Runs(init) ensures r in Runs(calls) {
      var i :| 0 <= i < |init| && init[i].run.Some? && init[i].run.value == r;
      assert calls[i] == init[i];
    }
  }

  lemma {:induction false} LedgerGrows(db: Database, calls: seq<Delta>)
    ensures Play(db, calls).ledger.Keys == db.ledger.Keys + Runs(calls)
    ensures Play(db, calls).workspaces.Keys == db.workspaces.Keys
  {
    if calls != [] {
      LedgerGrows(db, calls[..|calls| - 1]);
      RunsSnoc(calls);
    }
  }

  lemma PlaySnoc(db: Database, calls: seq<Delta>, last: Delta)
    ensures Play(db, calls + [last]) == UpdateStats(Play(db, calls), last)
  {
    assert (calls + [last])[..|calls|] == calls;
  }

  /** The ledger recognises exactly the repeated calls. */
  lemma LedgerKnowsRepeats(db: Database, init: seq<Delta>, last: Delta)
    ensures AlreadyCounted(Play(db, init), last) <==> Repeats(db.ledger.Keys, init, last)
  {
    LedgerGrows(db, init);
  }

  /** The counting calls alone have the very same effect on the whole database. */
  lemma {:induction false} RepeatsChangeNothing(db: Database, calls: seq<Delta>)
    ensures Play(db, calls) == Play(db, Counting(db.ledger.Keys, calls))
  {
    if calls != [] {
      var init, last := calls[..|calls| - 1], calls[|calls| - 1];
      RepeatsChangeNothing(db, init);
      LedgerKnowsRepeats(db, init, last);
      if Repeats(db.ledger.Keys, init, last) {
        assert Counting(db.ledger.Keys, calls) == Counting(db.ledger.Keys, init);
      } else {
        PlaySnoc(db, Counting(db.ledger.Keys, init), last);
      }
    }
  }

  // ---------------------------------------------------------------------------
  // The counters of one workspace
  // ---------------------------------------------------------------------------

  function ForWorkspace(calls: seq<Delta>, workspace: string): seq<Delta> {
    if calls == [] then []
    else
      var last := calls[|calls| - 1];
      ForWorkspace(calls[..|calls| - 1], workspace) + if last.workspace == workspace then [last] else []
  }

  /** The clamped fold of the counters over a list of deltas. */
  function Fold(s: Stats, calls: seq<Delta>): Stats {
    if calls == [] then s else Bump(Fold(s, calls[..|calls| - 1]), calls[|calls| - 1])
  }

  lemma ForWorkspaceSnoc(calls: seq<Delta>, last: Delta, workspace: string)
    ensures ForWorkspace(calls + [last], workspace)
            == ForWorkspace(calls, workspace) + if last.workspace == workspace then [last] else []
  {
    assert (calls + [last])[..|calls|] == calls;
  }

  lemma FoldSnoc(s: Stats, calls: seq<Delta>, last: Delta)
    ensures Fold(s, calls + [last]) == Bump(Fold(s, calls), last)
  {
    assert (calls + [last])[..|calls|] == calls;
  }

  lemma UpdateIsBump(db: Database, d: Delta, workspace: string)
    requires workspace in db.workspaces
    ensures workspace in UpdateStats(db, d).workspaces
    ensures UpdateStats(db, d).workspaces[workspace]
            == if AlreadyCounted(db, d) || d.workspace != workspace then db.workspaces[workspace]
               else Bump(db.workspaces[workspace], d)
  {
  }

  /** While its row exists, a workspace's counters are the clamped fold over the counting
      calls that name it. */
  lemma {:induction false} CountersCountOnce(db: Database, calls: seq<Delta>, workspace: string)
    requires workspace in db.workspaces
    ensures workspace in Play(db, calls).workspaces
    ensures Play(db, calls).workspaces[workspace]
            == Fold(db.workspaces[workspace], ForWorkspace(Counting(db.ledger.Keys, calls), workspace))
  {
    if calls != [] {
      var init, last := calls[..|calls| - 1], calls[|calls| - 1];
      var counting := Counting(db.ledger.Keys, init);
      CountersCountOnce(db, init, workspace);
      LedgerKnowsRepeats(db, init, last);
      UpdateIsBump(Play(db, init), last, workspace);
      if Repeats(db.ledger.Keys, init, last) {
        assert Counting(db.ledger.Keys, calls) == counting;
      } else {
        assert Counting(db.ledger.Keys, calls) == counting + [last];
        ForWorkspaceSnoc(counting, last, workspace);
        assert ForWorkspace(counting, workspace) + [] == ForWorkspace(counting, workspace);
        FoldSnoc(db.workspaces[workspace], ForWorkspace(counting, workspace), last);
      }
    }
  }

  // ---------------------------------------------------------------------------
  // When the clamp does not bite
  // ---------------------------------------------------------------------------

  function Sum(xs: seq<int>): int {
    if xs == [] then 0 else Sum(xs[..|xs| - 1]) + xs[|xs| - 1]
  }

  function ClampedSum(n: nat, xs: seq<int>): nat {
    if xs == [] then n else Clamp(ClampedSum(n, xs[..|xs| - 1]) + xs[|xs| - 1])
  }

  function Column(calls: seq<Delta>, of: Delta -> int): (xs: seq<int>)
    ensures |xs| == |calls|
  {
    if calls == [] then [] else Column(calls[..|calls| - 1], of) + [of(calls[|calls| - 1])]
  }

  /** Each counter folds on its own. */
  lemma {:induction false} FoldIsPerCounter(s: Stats, calls: seq<Delta>)
    ensures Fold(s, calls) == Stats(ClampedSum(s.documents, Column(calls, (d: Delta) => d.documents)),
                                    ClampedSum(s.chunks, Column(calls, (d: Delta) => d.chunks)),
                                    ClampedSum(s.bytes, Column(calls, (d: Delta) => d.bytes)))
  {
    if calls != [] {
      var init := calls[..|calls| - 1];
      FoldIsPerCounter(s, init);
      var docs, chunks, bytes := (d: Delta) => d.documents, (d: Delta) => d.chunks, (d: Delta) => d.bytes;
      assert Column(calls, docs)[..|init|] == Column(init, docs);
      assert Column(calls, chunks)[..|init|] == Column(init, chunks);
      assert Column(calls, bytes)[..|init|] == Column(init, bytes);
    }
  }

  ghost predicate NeverNegative(n: nat, xs: seq<int>) {
    forall i :: 0 <= i <= |xs| ==> 0 <= n + Sum(xs[..i])
  }

  /** A counter is the exact sum of its deltas exactly when no running sum goes below zero;
      otherwise it stays above the exact sum for good. */
  lemma {:induction false} ExactUnlessClamped(n: nat, xs: seq<int>)
    ensures n + Sum(xs) <= ClampedSum(n, xs)
    ensures ClampedSum(n, xs) == n + Sum(xs) <==> NeverNegative(n, xs)
  {
    if xs == [] {
      assert xs[..0] == [];
    } else {
      var init := xs[..|xs| - 1];
      ExactUnlessClamped(n, init);
      assert forall i :: 0 <= i <= |init| ==> xs[..i] == init[..i];
      assert xs[..|xs|] == xs;
      if NeverNegative(n, xs) {
        forall i | 0 <= i <= |init| ensures 0 <= n + Sum(init[..i]) {
          assert xs[..i] == init[..i];
        }
        assert 0 <= n + Sum(xs[..|xs|]);
      } else if NeverNegative(n, init) {
        var i :| 0 <= i <= |xs| && n + Sum(xs[..i]) < 0;
        assert i == |xs|;
      }
    }
  }

  lemma {:induction false} NonNegativeDeltas(n: nat, xs: seq<int>)
    requires forall i :: 0 <= i < |xs| ==> 0 <= xs[i]
    ensures NeverNegative(n, xs)
  {
    forall i | 0 <= i <= |xs| ensures 0 <= n + Sum(xs[..i]) {
      if i > 0 {
        NonNegativeDeltas(n, xs[..i - 1]);
        assert xs[..i][..i - 1] == xs[..i - 1];
        assert xs[..i - 1][..i - 1] == xs[..i - 1];
      }
    }
  }

  // ---------------------------------------------------------------------------
  // Several flushes of one run
  // ---------------------------------------------------------------------------

  /** The ledger key is the run id alone: when a long-lived run reports several flushes, only
      its first report is ever counted, whatever the later ones say. */
  lemma {:induction false} OnlyFirstReportOfRunCounts(db: Database, calls: seq<Delta>, run: RunId)
    requires calls != [] && forall i :: 0 <= i < |calls| ==> calls[i].run == Some(run)
    ensures Play(db, calls) == UpdateStats(db, calls[0])
  {
    var init := calls[..|calls| - 1];
    if init == [] {
      assert Play(db, init) == db;
    } else {
      OnlyFirstReportOfRunCounts(db, init, run);
    }
  }
}
