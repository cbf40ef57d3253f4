/** The backfill of stale content types: a keyset-paged loop over the document rows that
    corrects each row and then the labels of its objects in the vector store.

    The vector store's update is the parameter `sync`: by row id, the number of objects it
    relabels, or an error. */
module ContentTypeBackfill {
  import opened Wrappers
  import opened FileTypes
  import opened Text
  import opened Order

  const STALE := "text/markdown"

  datatype Row = Row(document: string, contentType: string, filename: string)

  /** What the derivation depends on. */
  datatype Context = Context(registry: seq<Spec>, lower: string -> string)

  // ---------------------------------------------------------------------------
  // The plan for one row
  // ---------------------------------------------------------------------------

  /** What follows the last dot. */
  function AfterLastDot(name: string): string {
    if name == "" || name[|name| - 1] == '.' then "" else AfterLastDot(name[..|name| - 1]) + [name[|name| - 1]]
  }

  function DeriveConfident(c: Context, filename: string): Option<string> {
    if '.' !in filename then None
    else
      var extension := "." + AfterLastDot(filename);
      match SpecForExtension(c.registry, c.lower, extension)
      case None => None
      case Some(spec) => if spec.mcp then Some(MimeForExtension(spec, c.lower, extension)) else None
  }

  lemma {:induction false} AfterLastDotOf(stem: string, extension: string)
    requires '.' !in extension
    ensures AfterLastDot(stem + "." + extension) == extension
  {
    var name := stem + "." + extension;
    if extension != "" {
      var init := extension[..|extension| - 1];
      assert name[..|name| - 1] == stem + "." + init;
      assert name[|name| - 1] == extension[|extension| - 1] && extension[|extension| - 1] in extension;
      AfterLastDotOf(stem, init);
    }
  }

  /** What a file name stands for, confidently: nothing without a dot, nothing when no entry
      declares what follows the last dot, and otherwise the first such entry decides: its type for
      that extension if it is one of the MCP's, and nothing if it is not. */
  lemma DeriveExactly(c: Context, stem: string, extension: string, i: nat)
    requires '.' !in extension
    ensures '.' !in stem ==> DeriveConfident(c, stem).None?
    ensures var declared := c.lower(Strip("." + extension));
            var derived := DeriveConfident(c, stem + "." + extension);
            && ((forall j :: 0 <= j < |c.registry| ==> declared !in c.registry[j].extensions) ==> derived.None?)
            && (FirstDeclares(c.registry, declared, i) && !c.registry[i].mcp ==> derived.None?)
            && (FirstDeclares(c.registry, declared, i) && c.registry[i].mcp ==>
                derived == Some(MimeForExtension(c.registry[i], c.lower, "." + extension)))
  {
    AfterLastDotOf(stem, extension);
    assert (stem + "." + extension)[|stem|] == '.';
    FirstExtensionExactly(c.registry, c.lower(Strip("." + extension)));
  }

  /** The confident type, for a row that is labelled "text/markdown" and should not be. */
  function Plan(c: Context, current: string, filename: string): (to: Option<string>)
    ensures to.Some? <==>
            current == "text/markdown" && DeriveConfident(c, filename).Some?
            && DeriveConfident(c, filename).value != "text/markdown"
    ensures to.Some? ==> to == DeriveConfident(c, filename)
  {
    if current != STALE then None
    else
      var derived := DeriveConfident(c, filename);
      if derived.None? || derived.value == current then None else derived
  }

  // ---------------------------------------------------------------------------
  // One row, as a step of the scan
  // ---------------------------------------------------------------------------

  datatype Stats = Stats(scanned: nat, updated: nat, undeterminable: nat, correct: nat, synced: nat,
      failures: seq<string>)

  /** The two stores, the counters, and whether an exception has ended the scan. */
  datatype State = State(rows: map<int, Row>, labels: map<string, string>, stats: Stats, raised: bool)

  type Sync = int -> Result<nat, string>

  function Fresh(rows: map<int, Row>, labels: map<string, string>): State {
    State(rows, labels, Stats(0, 0, 0, 0, 0, []), false)
  }

  /** A dry run counts and asks the vector store to count; an error there is not caught. */
  function Preview(s: State, id: int, sync: Sync): State {
    var counted := s.(stats := s.stats.(updated := s.stats.updated + 1));
    match sync(id)
    case Ok(n) => counted.(stats := counted.stats.(synced := counted.stats.synced + n))
    case Err(_) => counted.(raised := true)
  }

  /** The row first, then the labels; an error there is recorded and the scan goes on. */
  function Correct(s: State, id: int, sync: Sync, to: string): State
    requires id in s.rows
  {
    var row := s.rows[id];
    var written := s.(rows := s.rows[id := row.(contentType := to)], stats := s.stats.(updated := s.stats.updated + 1));
    match sync(id)
    case Ok(n) =>
      written.(labels := written.labels[row.document := to],
          stats := written.stats.(synced := written.stats.synced + n))
    case Err(_) => written.(stats := written.stats.(failures := written.stats.failures + [row.document]))
  }

  function Visit(c: Context, s: State, id: int, sync: Sync, dryRun: bool): State {
    if s.raised || id !in s.rows then s
    else
      var row := s.rows[id];
      var seen := s.(stats := s.stats.(scanned := s.stats.scanned + 1));
      match Plan(c, row.contentType, row.filename)
      case Some(to) => if dryRun then Preview(seen, id, sync) else Correct(seen, id, sync, to)
      case None =>
        if DeriveConfident(c, row.filename).None?
        then seen.(stats := seen.stats.(undeterminable := seen.stats.undeterminable + 1))
        else seen.(stats := seen.stats.(correct := seen.stats.correct + 1))
  }

  function Scan(c: Context, s: State, ids: seq<int>, sync: Sync, dryRun: bool): State {
    if ids == [] then s else Visit(c, Scan(c, s, ids[..|ids| - 1], sync, dryRun), ids[|ids| - 1], sync, dryRun)
  }

  // ---------------------------------------------------------------------------
  // The paged loop
  // ---------------------------------------------------------------------------

  function StaleAfter(rows: map<int, Row>, cursor: int): set<int> {
    set id | id in rows && rows[id].contentType == STALE && cursor < id
  }

  /** One query: the stale rows beyond the cursor, in id order, at most `limit` of them. */
  function Page(rows: map<int, Row>, cursor: int, limit: nat): (page: seq<int>)
    ensures |page| <= limit
  {
    var ids := Ascending(StaleAfter(rows, cursor));
    if |ids| <= limit then ids else ids[..limit]
  }

  /** A visit touches no other row. */
  lemma VisitFrame(c: Context, s: State, id: int, sync: Sync, dryRun: bool)
    ensures Visit(c, s, id, sync, dryRun).rows.Keys == s.rows.Keys
    ensures forall other :: other in s.rows && other != id ==>
        Visit(c, s, id, sync, dryRun).rows[other] == s.rows[other]
  {
  }

  lemma {:induction false} ScanFrame(c: Context, s: State, ids: seq<int>, sync: Sync, dryRun: bool)
    ensures Scan(c, s, ids, sync, dryRun).rows.Keys == s.rows.Keys
    ensures forall other :: other in s.rows && other !in ids ==>
        Scan(c, s, ids, sync, dryRun).rows[other] == s.rows[other]
  {
    if ids != [] {
      var init := ids[..|ids| - 1];
      ScanFrame(c, s, init, sync, dryRun);
      VisitFrame(c, Scan(c, s, init, sync, dryRun), ids[|ids| - 1], sync, dryRun);
    }
  }

  lemma StaleBeyond(c: Context, s: State, ids: seq<int>, cursor: int, sync: Sync, dryRun: bool)
    requires 0 <= cursor && forall i :: 0 <= i < |ids| ==> ids[i] <= cursor
    ensures StaleAfter(Scan(c, s, ids, sync, dryRun).rows, cursor) == Above(StaleAfter(s.rows, 0), cursor)
  {
    var now := Scan(c, s, ids, sync, dryRun).rows;
    ScanFrame(c, s, ids, sync, dryRun);
    forall id | cursor < id ensures id in s.rows ==> now[id] == s.rows[id] {
      assert id !in ids;
    }
  }

  /** Corrections behind the cursor leave the rest of the scan as it was. */
  lemma RestIsUnchanged(c: Context, s: State, ids: seq<int>, k: nat, cursor: int, sync: Sync, dryRun: bool)
    requires ids == Ascending(StaleAfter(s.rows, 0)) && k <= |ids|
    requires cursor == if k == 0 then 0 else ids[k - 1]
    ensures Ascending(StaleAfter(Scan(c, s, ids[..k], sync, dryRun).rows, cursor)) == ids[k..]
  {
    ListedAreStale(s.rows, ids);
    CursorDivides(ids, k, cursor);
    Resume(ids, StaleAfter(s.rows, 0), cursor, k);
    StaleBeyond(c, s, ids[..k], cursor, sync, dryRun);
  }

  lemma CursorDivides(ids: seq<int>, k: nat, cursor: int)
    requires Ascends(ids) && k <= |ids| && forall i :: 0 <= i < |ids| ==> 0 < ids[i]
    requires cursor == if k == 0 then 0 else ids[k - 1]
    ensures 0 <= cursor
    ensures forall i :: 0 <= i < k ==> ids[i] <= cursor
    ensures forall i :: 0 <= i < |ids[..k]| ==> ids[..k][i] <= cursor
    ensures forall i :: k <= i < |ids| ==> cursor < ids[i]
  {
    assert forall i :: 0 <= i < |ids[..k]| ==> ids[..k][i] == ids[i];
  }

  lemma ScanNone(c: Context, s: State, sync: Sync, dryRun: bool)
    ensures Scan(c, s, [], sync, dryRun) == s
  {
  }

  lemma ScanSnoc(c: Context, s: State, ids: seq<int>, k: nat, sync: Sync, dryRun: bool)
    requires k < |ids|
    ensures Scan(c, s, ids[..k + 1], sync, dryRun) == Visit(c, Scan(c, s, ids[..k], sync, dryRun), ids[k], sync, dryRun)
  {
    assert ids[..k + 1][..k] == ids[..k];
  }

  lemma {:induction false} ScanAppend(c: Context, s: State, first: seq<int>, second: seq<int>, sync: Sync, dryRun: bool)
    ensures Scan(c, s, first + second, sync, dryRun) == Scan(c, Scan(c, s, first, sync, dryRun), second, sync, dryRun)
  {
    if second == [] {
      assert first + second == first;
    } else {
      hide Visit, Scan;
      ScanAppend(c, s, first, second[..|second| - 1], sync, dryRun);
      assert (first + second)[..|first + second| - 1] == first + second[..|second| - 1];
      ScanLast(c, s, first + second, sync, dryRun);
      ScanLast(c, Scan(c, s, first, sync, dryRun), second, sync, dryRun);
    }
  }

  lemma {:induction false} RaisedStays(c: Context, s: State, ids: seq<int>, sync: Sync, dryRun: bool)
    requires s.raised
    ensures Scan(c, s, ids, sync, dryRun) == s
  {
    if ids != [] {
      RaisedStays(c, s, ids[..|ids| - 1], sync, dryRun);
    }
  }

  class Stores {
    var rows: map<int, Row>
    var labels: map<string, string>

    constructor (rows: map<int, Row>, labels: map<string, string>)
      ensures this.rows == rows && this.labels == labels
    {
      this.rows, this.labels := rows, labels;
    }

    /** One row of a page, as it was read with its page. */
    method VisitRow(
      c: Context, row: Row, id: int, sync: Sync, dryRun: bool, stats: Stats)
      returns (after: Stats, raised: bool)
      requires id in rows && rows[id] == row
      modifies this
      ensures State(rows, labels, after, raised)
          == Visit(c, State(old(rows), old(labels), stats, false), id, sync, dryRun)
    {
      after, raised := stats.(scanned := stats.scanned + 1), false;
      var to := Plan(c, row.contentType, row.filename);
      if to.None? {
        if DeriveConfident(c, row.filename).None? {
          after := after.(undeterminable := after.undeterminable + 1);
        } else {
          after := after.(correct := after.correct + 1);
        }
        return;
      }
      if !dryRun {
        rows := rows[id := row.(contentType := to.value)];
      }
      after := after.(updated := after.updated + 1);
      match sync(id) {
        case Ok(n) =>
          after := after.(synced := after.synced + n);
          if !dryRun {
            labels := labels[row.document := to.value];
          }
        case Err(_) =>
          if dryRun {
            raised := true;
          } else {
            after := after.(failures := after.failures + [row.document]);
          }
      }
    }

    /** The rows of one page, in their order, until an exception. */
    method VisitPage(c: Context, page: seq<int>, sync: Sync, dryRun: bool, before: Stats, ghost first: State)
      returns (stats: Stats, raised: bool)
      requires first == State(rows, labels, before, false)
      requires Ascends(page) && forall i :: 0 <= i < |page| ==> page[i] in rows
      modifies this
      ensures State(rows, labels, stats, raised) == Scan(c, first, page, sync, dryRun)
    {
      var snapshot := rows;
      stats, raised := before, false;
      ScanNone(c, first, sync, dryRun);
      hide Scan, Visit;
      for i := 0 to |page|
        invariant !raised && State(rows, labels, stats, raised) == Scan(c, first, page[..i], sync, dryRun)
      {
        ScanSnoc(c, first, page, i, sync, dryRun);
        ScanFrame(c, first, page[..i], sync, dryRun);
        assert page[i] !in page[..i];
        stats, raised := VisitRow(c, snapshot[page[i]], page[i], sync, dryRun, stats);
        if raised {
          assert page == page[..i + 1] + page[i + 1..];
          ScanAppend(c, first, page[..i + 1], page[i + 1..], sync, dryRun);
          RaisedStays(c, State(rows, labels, stats, raised), page[i + 1..], sync, dryRun);
          return;
        }
      }
      assert page[..|page|] == page;
    }

    /** The scan visits every stale row with a positive id exactly once, in id order, although
        its own updates take rows out of the query it pages through. */
    method RunBackfill(c: Context, batchSize: nat, sync: Sync, dryRun: bool) returns (stats: Stats, raised: bool)
      requires 0 < batchSize
      modifies this
      ensures var first := Fresh(old(rows), old(labels));
              State(rows, labels, stats, raised) == Scan(c, first, Ascending(StaleAfter(old(rows), 0)), sync, dryRun)
    {
      ghost var first := Fresh(rows, labels);
      ghost var ids := Ascending(StaleAfter(rows, 0));
      ghost var k := 0;
      stats, raised := Stats(0, 0, 0, 0, 0, []), false;
      var cursor := 0;
      assert ids[..0] == [] && ids[..|ids|] == ids;
      while true
        invariant !raised && 0 <= k <= |ids|
        invariant cursor == if k == 0 then 0 else ids[k - 1]
        invariant Reached(c, first, ids, k, sync, dryRun, State(rows, labels, stats, raised))
        decreases |ids| - k
      {
        ghost var at := State(rows, labels, stats, false);
        PageIsNext(c, first, ids, k, cursor, batchSize, sync, dryRun, at);
        var page := Page(rows, cursor, batchSize);
        if page == [] {
          return;
        }
        ghost var next := k + |page|;
        stats, raised := VisitPage(c, page, sync, dryRun, stats, at);
        AfterPage(c, first, ids, k, next, page, at, State(rows, labels, stats, raised), sync, dryRun);
        if raised {
          return;
        }
        cursor := page[|page| - 1];
        k := next;
      }
    }
  }

  /** The scan has visited the first k of the listed rows. */
  ghost predicate Reached(c: Context, first: State, ids: seq<int>, k: nat, sync: Sync, dryRun: bool, s: State) {
    k <= |ids| && s == Scan(c, first, ids[..k], sync, dryRun)
  }

  /** A page is the next stretch of the list; if it raises, the scan is over. */
  lemma AfterPage(
    c: Context, s: State, ids: seq<int>, k: nat, next: nat, page: seq<int>, at: State, after: State, sync: Sync,
    dryRun: bool)
    requires k <= |ids| && page <= ids[k..] && Reached(c, s, ids, k, sync, dryRun, at)
    requires next == k + |page| && after == Scan(c, at, page, sync, dryRun)
    ensures Reached(c, s, ids, next, sync, dryRun, after) && (page != [] ==> page[|page| - 1] == ids[next - 1])
    ensures after.raised ==> Reached(c, s, ids, |ids|, sync, dryRun, after)
  {
    hide Visit, Scan;
    ScanAppend(c, s, ids[..k], page, sync, dryRun);
    assert ids[..k] + page == ids[..next];
    ScanAppend(c, s, ids[..next], ids[next..], sync, dryRun);
    assert ids[..next] + ids[next..] == ids == ids[..|ids|];
    if Scan(c, s, ids[..next], sync, dryRun).raised {
      RaisedStays(c, Scan(c, s, ids[..next], sync, dryRun), ids[next..], sync, dryRun);
    }
  }

  lemma PageRows(rows: map<int, Row>, cursor: int, limit: nat)
    ensures var page := Page(rows, cursor, limit);
            Ascends(page) && (forall i :: 0 <= i < |page| ==> page[i] in rows)
            && page <= Ascending(StaleAfter(rows, cursor))
            && (limit > 0 && page == [] ==> Ascending(StaleAfter(rows, cursor)) == [])
  {
    var ids := Ascending(StaleAfter(rows, cursor));
    assert forall i :: 0 <= i < |ids| ==> ids[i] in ids;
  }

  /** What a page means to a scan that has visited k rows: the next rows of the list, or its end. */
  lemma PageIsNext(
    c: Context, first: State, ids: seq<int>, k: nat, cursor: int, limit: nat, sync: Sync, dryRun: bool, at: State)
    requires 0 < limit && ids == Ascending(StaleAfter(first.rows, 0)) && Reached(c, first, ids, k, sync, dryRun, at)
    requires cursor == if k == 0 then 0 else ids[k - 1]
    ensures var page := Page(at.rows, cursor, limit);
            Ascends(page) && (forall i :: 0 <= i < |page| ==> page[i] in at.rows)
            && page <= ids[k..] && (page == [] ==> k == |ids|)
  {
    RestIsUnchanged(c, first, ids, k, cursor, sync, dryRun);
    PageRows(at.rows, cursor, limit);
  }

  // ---------------------------------------------------------------------------
  // What a run amounts to
  // ---------------------------------------------------------------------------

  /** How many of the listed rows satisfy a test on the row. */
  function Count(rows: map<int, Row>, ids: seq<int>, test: Row -> bool): nat {
    if ids == [] then 0
    else
      Count(rows, ids[..|ids| - 1], test)
      + (if ids[|ids| - 1] in rows && test(rows[ids[|ids| - 1]]) then 1 else 0)
  }

  function Changes(c: Context): Row -> bool {
    (row: Row) =>
      var derived := DeriveConfident(c, row.filename);
      row.contentType == "text/markdown" && derived.Some? && derived.value != "text/markdown"
  }

  function Undeterminable(c: Context): Row -> bool {
    (row: Row) => DeriveConfident(c, row.filename).None?
  }

  function AlreadyCorrect(c: Context): Row -> bool {
    (row: Row) =>
      var derived := DeriveConfident(c, row.filename);
      derived.Some? && (row.contentType == "text/markdown" ==> derived.value == "text/markdown")
  }

  lemma VisitCounts(c: Context, s: State, id: int, sync: Sync, dryRun: bool)
    requires id in s.rows && !s.raised
    ensures var before, after, row := s.stats, Visit(c, s, id, sync, dryRun).stats, s.rows[id];
            && after.scanned == before.scanned + 1
            && after.updated == before.updated + (if Changes(c)(row) then 1 else 0)
            && after.undeterminable == before.undeterminable + (if Undeterminable(c)(row) then 1 else 0)
            && after.correct == before.correct + (if AlreadyCorrect(c)(row) then 1 else 0)
            && after.scanned - after.updated - after.undeterminable - after.correct
               == before.scanned - before.updated - before.undeterminable - before.correct
  {
  }

  lemma NotYetRaised(c: Context, s: State, ids: seq<int>, sync: Sync, dryRun: bool)
    requires ids != [] && !Scan(c, s, ids, sync, dryRun).raised
    ensures !Scan(c, s, ids[..|ids| - 1], sync, dryRun).raised
  {
  }

  /** The counters of a scan that was not ended by an exception, from the rows as they were at
      its start; for a dry run and a real one alike. */
  lemma {:induction false} CountersExactly(c: Context, s: State, ids: seq<int>, sync: Sync, dryRun: bool)
    requires Ascends(ids) && forall i :: 0 <= i < |ids| ==> ids[i] in s.rows
    requires s.stats == Stats(0, 0, 0, 0, 0, []) && !Scan(c, s, ids, sync, dryRun).raised
    ensures var stats := Scan(c, s, ids, sync, dryRun).stats;
            && stats.scanned == |ids|
            && stats.updated == Count(s.rows, ids, Changes(c))
            && stats.undeterminable == Count(s.rows, ids, Undeterminable(c))
            && stats.correct == Count(s.rows, ids, AlreadyCorrect(c))
            && stats.scanned == stats.updated + stats.undeterminable + stats.correct
  {
    if ids != [] {
      hide Visit, Changes, Undeterminable, AlreadyCorrect;
      var init, id := ids[..|ids| - 1], ids[|ids| - 1];
      NotYetRaised(c, s, ids, sync, dryRun);
      ScanFrame(c, s, init, sync, dryRun);
      CountersExactly(c, s, init, sync, dryRun);
      VisitCounts(c, Scan(c, s, init, sync, dryRun), id, sync, dryRun);
    }
  }

  /** The objects that the vector store reports for the rows to change. */
  function Relabelled(c: Context, rows: map<int, Row>, ids: seq<int>, sync: Sync): nat {
    if ids == [] then 0
    else
      var id := ids[|ids| - 1];
      Relabelled(c, rows, ids[..|ids| - 1], sync)
      + (if id in rows && Changes(c)(rows[id]) && sync(id).Ok? then sync(id).value else 0)
  }

  lemma {:induction false} SyncedExactly(c: Context, s: State, ids: seq<int>, sync: Sync, dryRun: bool)
    requires Ascends(ids) && forall i :: 0 <= i < |ids| ==> ids[i] in s.rows
    requires s.stats.synced == 0 && !Scan(c, s, ids, sync, dryRun).raised
    ensures Scan(c, s, ids, sync, dryRun).stats.synced == Relabelled(c, s.rows, ids, sync)
  {
    if ids != [] {
      hide Visit, Changes;
      var init, id := ids[..|ids| - 1], ids[|ids| - 1];
      NotYetRaised(c, s, ids, sync, dryRun);
      ScanFrame(c, s, init, sync, dryRun);
      SyncedExactly(c, s, init, sync, dryRun);
      VisitSyncs(c, Scan(c, s, init, sync, dryRun), id, sync, dryRun);
    }
  }

  lemma VisitSyncs(c: Context, s: State, id: int, sync: Sync, dryRun: bool)
    requires id in s.rows && !s.raised
    ensures Visit(c, s, id, sync, dryRun).stats.synced
            == s.stats.synced + if Changes(c)(s.rows[id]) && sync(id).Ok? then sync(id).value else 0
  {
  }

  /** A row to change for which the vector store raises. */
  predicate Refused(c: Context, rows: map<int, Row>, id: int, sync: Sync) {
    id in rows && Changes(c)(rows[id]) && sync(id).Err?
  }

  /** A dry run is ended by an exception exactly when the vector store refuses to count for one of
      the rows to change; a real run never is, as `NeverRaises` says. */
  lemma {:induction false} DryRunRaisesExactly(c: Context, s: State, ids: seq<int>, sync: Sync)
    requires !s.raised && forall i :: 0 <= i < |ids| ==> ids[i] in s.rows
    ensures Scan(c, s, ids, sync, true).rows == s.rows
    ensures Scan(c, s, ids, sync, true).raised
            <==> exists i :: 0 <= i < |ids| && Refused(c, s.rows, ids[i], sync)
  {
    hide Visit, Refused;
    if ids != [] {
      var init, id := ids[..|ids| - 1], ids[|ids| - 1];
      DryRunRaisesExactly(c, s, init, sync);
      VisitRaises(c, Scan(c, s, init, sync, true), id, sync);
      assert forall i :: 0 <= i < |init| ==> init[i] == ids[i];
      assert Refused(c, s.rows, id, sync) <==> Refused(c, s.rows, ids[|ids| - 1], sync);
    }
  }

  lemma VisitRaises(c: Context, s: State, id: int, sync: Sync)
    requires id in s.rows
    ensures Visit(c, s, id, sync, true).rows == s.rows
    ensures Visit(c, s, id, sync, true).raised <==> s.raised || Refused(c, s.rows, id, sync)
  {
  }

  /** A row after a real run has visited it. */
  function Corrected(c: Context, row: Row): Row {
    match Plan(c, row.contentType, row.filename)
    case Some(to) => row.(contentType := to)
    case None => row
  }

  lemma VisitCorrects(c: Context, s: State, id: int, sync: Sync)
    requires id in s.rows && !s.raised
    ensures !Visit(c, s, id, sync, false).raised
    ensures id in Visit(c, s, id, sync, false).rows && Visit(c, s, id, sync, false).rows[id] == Corrected(c, s.rows[id])
  {
  }

  lemma {:induction false} NeverRaises(c: Context, s: State, ids: seq<int>, sync: Sync)
    requires !s.raised
    ensures !Scan(c, s, ids, sync, false).raised
  {
    if ids != [] {
      NeverRaises(c, s, ids[..|ids| - 1], sync);
    }
  }

  /** A real run gives each listed row the planned type; `ScanFrame` says that it touches no
      other row. */
  lemma {:induction false} RowExactly(c: Context, s: State, ids: seq<int>, i: nat, sync: Sync)
    requires Ascends(ids) && !s.raised && i < |ids| && ids[i] in s.rows
    ensures ids[i] in Scan(c, s, ids, sync, false).rows
        && Scan(c, s, ids, sync, false).rows[ids[i]] == Corrected(c, s.rows[ids[i]])
  {
    var init, id := ids[..|ids| - 1], ids[|ids| - 1];
    ScanFrame(c, s, init, sync, false);
    NeverRaises(c, s, init, sync);
    if i < |ids| - 1 {
      RowExactly(c, s, init, i, sync);
      VisitFrame(c, Scan(c, s, init, sync, false), id, sync, false);
    } else {
      VisitCorrects(c, Scan(c, s, init, sync, false), id, sync);
    }
  }

  /** A dry run changes neither store. */
  lemma {:induction false} DryRunChangesNothing(c: Context, s: State, ids: seq<int>, sync: Sync)
    ensures Scan(c, s, ids, sync, true).rows == s.rows && Scan(c, s, ids, sync, true).labels == s.labels
  {
    if ids != [] {
      DryRunChangesNothing(c, s, ids[..|ids| - 1], sync);
    }
  }

  /** A dry run that gets through forecasts the counts of the real run. */
  lemma DryRunForecasts(c: Context, rows: map<int, Row>, labels: map<string, string>, preview: Sync, sync: Sync)
    requires var ids := Ascending(StaleAfter(rows, 0)); !Scan(c, Fresh(rows, labels), ids, preview, true).raised
    ensures var ids := Ascending(StaleAfter(rows, 0));
            var dry := Scan(c, Fresh(rows, labels), ids, preview, true).stats;
            var live := Scan(c, Fresh(rows, labels), ids, sync, false).stats;
            dry.scanned == live.scanned && dry.updated == live.updated
            && dry.undeterminable == live.undeterminable && dry.correct == live.correct
  {
    var ids := Ascending(StaleAfter(rows, 0));
    ListedAreStale(rows, ids);
    NeverRaises(c, Fresh(rows, labels), ids, sync);
    CountersExactly(c, Fresh(rows, labels), ids, preview, true);
    CountersExactly(c, Fresh(rows, labels), ids, sync, false);
  }

  lemma ListedAreStale(rows: map<int, Row>, ids: seq<int>)
    requires ids == Ascending(StaleAfter(rows, 0))
    ensures forall i :: 0 <= i < |ids| ==> ids[i] in rows && rows[ids[i]].contentType == STALE && ids[i] > 0
    ensures forall id :: id in ids <==> id in rows && rows[id].contentType == "text/markdown" && id > 0
  {
    assert forall i :: 0 <= i < |ids| ==> ids[i] in ids;
  }

  /** After a real run no stale row has a plan any more. */
  lemma NothingLeftToChange(c: Context, rows: map<int, Row>, labels: map<string, string>, sync: Sync, id: int)
    requires var after := Scan(c, Fresh(rows, labels), Ascending(StaleAfter(rows, 0)), sync, false).rows;
             id in StaleAfter(after, 0)
    ensures id in StaleAfter(rows, 0) && Plan(c, rows[id].contentType, rows[id].filename).None?
    ensures var after := Scan(c, Fresh(rows, labels), Ascending(StaleAfter(rows, 0)), sync, false).rows;
            after[id] == rows[id]
  {
    var ids := Ascending(StaleAfter(rows, 0));
    hide Scan, Plan, Corrected;
    ListedAreStale(rows, ids);
    ScanFrame(c, Fresh(rows, labels), ids, sync, false);
    if id in ids {
      var i :| 0 <= i < |ids| && ids[i] == id;
      RowExactly(c, Fresh(rows, labels), ids, i, sync);
      CorrectedIsFresh(c, rows[id]);
    }
  }

  lemma CorrectedIsFresh(c: Context, row: Row)
    ensures Plan(c, row.contentType, row.filename).Some? ==> Corrected(c, row).contentType != STALE
    ensures Plan(c, row.contentType, row.filename).None? ==> Corrected(c, row) == row
  {
  }

  lemma {:induction false} NoPlanNoChange(c: Context, s: State, ids: seq<int>, sync: Sync, dryRun: bool)
    requires !s.raised
    requires forall i :: 0 <= i < |ids| ==>
        ids[i] in s.rows && Plan(c, s.rows[ids[i]].contentType, s.rows[ids[i]].filename).None?
    ensures var after := Scan(c, s, ids, sync, dryRun);
            after.rows == s.rows && after.labels == s.labels && !after.raised
            && after.stats.updated == s.stats.updated && after.stats.failures == s.stats.failures
  {
    if ids != [] {
      NoPlanNoChange(c, s, ids[..|ids| - 1], sync, dryRun);
    }
  }

  /** A second run updates nothing, whatever failed in the first one: not the rows, and not the
      labels either. A failed synchronisation is not retried by running the script again. */
  lemma SecondRunUpdatesNothing(c: Context, rows: map<int, Row>, labels: map<string, string>, first: Sync, second: Sync)
    ensures var once := RealRun(c, rows, labels, first);
            var twice := RealRun(c, once.rows, once.labels, second);
            twice.rows == once.rows && twice.labels == once.labels
            && twice.stats.updated == 0 && twice.stats.failures == []
  {
    var once := RealRun(c, rows, labels, first);
    var ids := Ascending(StaleAfter(once.rows, 0));
    ListedAreStale(once.rows, ids);
    forall i | 0 <= i < |ids|
      ensures ids[i] in once.rows && Plan(c, once.rows[ids[i]].contentType, once.rows[ids[i]].filename).None?
    {
      assert ids[i] in StaleAfter(once.rows, 0);
      NothingLeftToChange(c, rows, labels, first, ids[i]);
    }
    NoPlanNoChange(c, Fresh(once.rows, once.labels), ids, second, false);
  }

  lemma VisitFailures(c: Context, s: State, id: int, sync: Sync)
    requires id in s.rows && !s.raised
    ensures Visit(c, s, id, sync, false).stats.failures == []
            <==> s.stats.failures == [] && (Changes(c)(s.rows[id]) ==> sync(id).Ok?)
  {
  }

  /** The exit code is zero exactly when the vector store took every planned change. */
  lemma {:induction false} FailuresExactly(c: Context, s: State, ids: seq<int>, sync: Sync)
    requires Ascends(ids) && !s.raised && s.stats.failures == [] && forall i :: 0 <= i < |ids| ==> ids[i] in s.rows
    ensures Scan(c, s, ids, sync, false).stats.failures == []
            <==> TakesAll(c, s.rows, ids, sync)
  {
    if ids != [] {
      hide Visit, Scan, Changes;
      var init, id := ids[..|ids| - 1], ids[|ids| - 1];
      var before := Scan(c, s, init, sync, false);
      FailuresExactly(c, s, init, sync);
      NeverRaises(c, s, init, sync);
      ScanFrame(c, s, init, sync, false);
      assert id !in init;
      VisitFailures(c, before, id, sync);
      ScanLast(c, s, ids, sync, false);
      AllTakenSnoc(c, s.rows, ids, sync);
    }
  }

  /** The vector store takes each planned change of the listed rows. */
  ghost predicate TakesAll(c: Context, rows: map<int, Row>, ids: seq<int>, sync: Sync) {
    forall i :: 0 <= i < |ids| && ids[i] in rows && Changes(c)(rows[ids[i]]) ==> sync(ids[i]).Ok?
  }

  lemma AllTakenSnoc(c: Context, rows: map<int, Row>, ids: seq<int>, sync: Sync)
    requires ids != [] && ids[|ids| - 1] in rows
    ensures var id := ids[|ids| - 1];
            TakesAll(c, rows, ids, sync)
            <==> TakesAll(c, rows, ids[..|ids| - 1], sync) && (Changes(c)(rows[id]) ==> sync(id).Ok?)
  {
    hide Changes;
    assert forall i :: 0 <= i < |ids| - 1 ==> ids[..|ids| - 1][i] == ids[i];
  }

  lemma ScanLast(c: Context, s: State, ids: seq<int>, sync: Sync, dryRun: bool)
    requires ids != []
    ensures Scan(c, s, ids, sync, dryRun)
            == Visit(c, Scan(c, s, ids[..|ids| - 1], sync, dryRun), ids[|ids| - 1], sync, dryRun)
  {
  }

  // ---------------------------------------------------------------------------
  // The labels in the vector store
  // ---------------------------------------------------------------------------

  /** `document_id` is unique. */
  ghost predicate DistinctDocuments(rows: map<int, Row>) {
    forall i, j :: i in rows && j in rows && i != j ==> rows[i].document != rows[j].document
  }

  function LabelOf(labels: map<string, string>, document: string): Option<string> {
    if document in labels then Some(labels[document]) else None
  }

  function PlanOf(c: Context, row: Row): Option<string> {
    Plan(c, row.contentType, row.filename)
  }

  /** The label of a row's document after the row has been visited. */
  function LabelAfter(c: Context, labels: map<string, string>, row: Row, synced: bool): Option<string> {
    if PlanOf(c, row).Some? && synced then PlanOf(c, row) else LabelOf(labels, row.document)
  }

  lemma VisitLabel(c: Context, s: State, id: int, sync: Sync, document: string)
    requires id in s.rows && !s.raised
    ensures LabelOf(Visit(c, s, id, sync, false).labels, document)
            == if document == s.rows[id].document then LabelAfter(c, s.labels, s.rows[id], sync(id).Ok?)
               else LabelOf(s.labels, document)
  {
  }

  /** A scan leaves the labels of documents that it does not visit. */
  lemma {:induction false} LabelFrame(c: Context, s: State, ids: seq<int>, sync: Sync, document: string)
    requires Ascends(ids) && !s.raised
    requires forall i :: 0 <= i < |ids| ==> ids[i] in s.rows && s.rows[ids[i]].document != document
    ensures LabelOf(Scan(c, s, ids, sync, false).labels, document) == LabelOf(s.labels, document)
  {
    if ids != [] {
      hide Visit, LabelAfter;
      var init, id := ids[..|ids| - 1], ids[|ids| - 1];
      LabelFrame(c, s, init, sync, document);
      NeverRaises(c, s, init, sync);
      ScanFrame(c, s, init, sync, false);
      assert id !in init;
      VisitLabel(c, Scan(c, s, init, sync, false), id, sync, document);
    }
  }

  /** After a real scan a visited document carries its planned type when there was a plan and
      the vector store took it, and what it carried before otherwise. */
  lemma {:induction false} LabelExactly(c: Context, s: State, ids: seq<int>, i: nat, sync: Sync)
    requires Ascends(ids) && !s.raised && DistinctDocuments(s.rows) && i < |ids|
    requires forall k :: 0 <= k < |ids| ==> ids[k] in s.rows
    ensures LabelOf(Scan(c, s, ids, sync, false).labels, s.rows[ids[i]].document)
            == LabelAfter(c, s.labels, s.rows[ids[i]], sync(ids[i]).Ok?)
  {
    hide Visit;
    var init, id := ids[..|ids| - 1], ids[|ids| - 1];
    var document := s.rows[ids[i]].document;
    var before := Scan(c, s, init, sync, false);
    NeverRaises(c, s, init, sync);
    ScanFrame(c, s, init, sync, false);
    assert id !in init;
    VisitLabel(c, before, id, sync, document);
    if i < |ids| - 1 {
      assert init[i] == ids[i] != id;
      LabelExactly(c, s, init, i, sync);
    } else {
      LabelFrame(c, s, init, sync, document);
    }
  }

  /** The stale rows with a positive id that have a plan: those that a real run changes. */
  predicate Changed(c: Context, rows: map<int, Row>, id: int) {
    id in StaleAfter(rows, 0) && PlanOf(c, rows[id]).Some?
  }

  function RealRun(c: Context, rows: map<int, Row>, labels: map<string, string>, sync: Sync): State {
    Scan(c, Fresh(rows, labels), Ascending(StaleAfter(rows, 0)), sync, false)
  }

  predicate Agree(s: State, id: int) {
    id in s.rows && LabelOf(s.labels, s.rows[id].document) == Some(s.rows[id].contentType)
  }

  /** The two stores agree on a changed row after a run exactly when the vector store took the
      change, or carried the planned type already. */
  lemma AgreesExactly(c: Context, rows: map<int, Row>, labels: map<string, string>, sync: Sync, id: int)
    requires DistinctDocuments(rows) && Changed(c, rows, id)
    ensures Agree(RealRun(c, rows, labels, sync), id)
            <==> sync(id).Ok? || LabelOf(labels, rows[id].document) == PlanOf(c, rows[id])
  {
    hide Scan;
    var ids := Ascending(StaleAfter(rows, 0));
    ListedAreStale(rows, ids);
    assert id in ids;
    var i :| 0 <= i < |ids| && ids[i] == id;
    assert forall k :: 0 <= k < |ids| ==> ids[k] in rows;
    RowExactly(c, Fresh(rows, labels), ids, i, sync);
    LabelExactly(c, Fresh(rows, labels), ids, i, sync);
  }

  ghost predicate AllAgree(c: Context, rows: map<int, Row>, s: State) {
    forall id :: Changed(c, rows, id) ==> Agree(s, id)
  }

  ghost predicate AllTaken(c: Context, rows: map<int, Row>, labels: map<string, string>, sync: Sync) {
    forall id :: Changed(c, rows, id) ==> sync(id).Ok? || LabelOf(labels, rows[id].document) == PlanOf(c, rows[id])
  }

  /** When a second run leaves the stores in agreement on all the rows that the first one
      changed: exactly when each change was taken the first time, or the label was right before.
      How the second run's own calls to the vector store would fare does not matter. */
  lemma SecondRunRepairsExactly(c: Context, rows: map<int, Row>, labels: map<string, string>, first: Sync, second: Sync)
    requires DistinctDocuments(rows)
    ensures var once := RealRun(c, rows, labels, first);
            AllAgree(c, rows, RealRun(c, once.rows, once.labels, second)) <==> AllTaken(c, rows, labels, first)
  {
    var once := RealRun(c, rows, labels, first);
    var twice := RealRun(c, once.rows, once.labels, second);
    SecondRunUpdatesNothing(c, rows, labels, first, second);
    hide RealRun;
    forall id | Changed(c, rows, id)
      ensures Agree(twice, id) <==> first(id).Ok? || LabelOf(labels, rows[id].document) == PlanOf(c, rows[id])
    {
      AgreesExactly(c, rows, labels, first, id);
    }
  }

  lemma ScanOne(c: Context, s: State, id: int, sync: Sync)
    ensures Scan(c, s, [id], sync, false) == Visit(c, s, id, sync, false)
  {
    assert [id][..0] == [];
  }

  /** A row, with its document's objects labelled alike, whose change the vector store refuses
      in the first run and would take in the second: the label stays stale. */
  lemma RefusedOnceStaysStale(c: Context, row: Row, to: string, first: Sync, second: Sync)
    requires PlanOf(c, row) == Some(to) && first(1).Err? && second(1).Ok?
    ensures var once := RealRun(c, map[1 := row], map[row.document := STALE], first);
            var twice := RealRun(c, once.rows, once.labels, second);
            && twice.rows == map[1 := row.(contentType := to)]
            && twice.labels == map[row.document := STALE] && to != STALE
            && twice.stats.failures == []
  {
    var rows, labels := map[1 := row], map[row.document := STALE];
    OneStaleRow(row);
    ScanOne(c, Fresh(rows, labels), 1, first);
    RefusedVisit(c, Fresh(rows, labels), 1, first, to);
    SecondRunUpdatesNothing(c, rows, labels, first, second);
    hide Scan, Visit, PlanOf, StaleAfter;
  }

  lemma OneStaleRow(row: Row)
    requires row.contentType == STALE
    ensures Ascending(StaleAfter(map[1 := row], 0)) == [1]
  {
    assert StaleAfter(map[1 := row], 0) == {1};
    AscendingIsUnique([1], {1});
  }

  lemma RefusedVisit(c: Context, s: State, id: int, sync: Sync, to: string)
    requires id in s.rows && !s.raised && PlanOf(c, s.rows[id]) == Some(to) && sync(id).Err?
    ensures Visit(c, s, id, sync, false).rows == s.rows[id := s.rows[id].(contentType := to)]
    ensures Visit(c, s, id, sync, false).labels == s.labels && to != STALE
  {
  }

  lemma PythonExtension()
    ensures AfterLastDot("a.py") == "py"
  {
    assert "a.py"[..3] == "a.p" && "a.p"[..2] == "a.";
    assert AfterLastDot("a.") == "" && AfterLastDot("a.p") == "p";
  }

  lemma PythonIsRegistered(code: Spec, lower: string -> string)
    requires code == Spec("code", "text/x-python", [], [".py"], None, None, true, []) && lower(".py") == ".py"
    ensures SpecForExtension([code], lower, ".py") == Some(code)
    ensures MimeForExtension(code, lower, ".py") == "text/x-python"
  {
    assert NormalExtension(lower, ".py") == ".py";
    assert FirstExtension([code], ".py") == Some(code);
  }

  /** There are such rows: a Python file under the code entry. */
  lemma PythonFileHasPlan() returns (c: Context, row: Row)
    ensures PlanOf(c, row) == Some("text/x-python")
  {
    var code := Spec("code", "text/x-python", [], [".py"], None, None, true, []);
    c := Context([code], (s: string) => s);
    row := Row("doc", STALE, "a.py");
    PythonExtension();
    PythonIsRegistered(code, c.lower);
    hide AfterLastDot, SpecForExtension, MimeForExtension;
    assert "." + "py" == ".py" && "a.py"[1] == '.';
    assert STALE[5] != "text/x-python"[5];
  }
}
