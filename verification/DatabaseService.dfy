/** `DatabaseService`: each public method is one PostgreSQL transaction on the tables it owns.

    Every method is proved to have exactly the effect that `Tables` gives it, so what the
    other modules prove about histories of `Tables.Execute` holds of calls on this class. */
module DatabaseService {
  import opened Text
  import opened Wrappers
  import opened Tables

  class Service {
    var documents: map<string, Document>
    var chunks: map<ChunkKey, Chunk>
    var nextChunkId: nat
    var reuse: set<ReuseEvent>
    var workspaces: map<string, Stats>
    var ledger: map<RunId, string>
    var side: map<SideRow, string>
    var apiKeys: map<nat, ApiKey>

    function Snapshot(): Database
      reads this
    {
      Database(documents, chunks, nextChunkId, reuse, workspaces, ledger, side, apiKeys)
    }

    constructor ()
      ensures Snapshot() == Database(map[], map[], 0, {}, map[], map[], map[], map[])
    {
      documents, chunks, nextChunkId, reuse := map[], map[], 0, {};
      workspaces, ledger, side, apiKeys := map[], map[], map[], map[];
    }

    /** Inserts the row when there is none, then claims it unless a later-started run has. */
    method CreatePendingDocument(upload: Upload, run: RunId, start: Time) returns (created: bool)
      modifies this
      ensures Snapshot() == Claim(old(Snapshot()), upload, run, start)
      ensures created <==> upload.document !in old(documents)
      ensures upload.document in documents
      ensures created ==>
                var row := documents[upload.document];
                && row.workspace == upload.workspace && row.sizeBytes == upload.size
                && row.chunkCount == 0 && row.textLength == 0 && row.status == Processing && row.processedAt.None?
                && row.activeRun == Some(run) && row.claimedAt == Some(start)
      ensures !created ==>
                documents[upload.document].workspace == old(documents)[upload.document].workspace
    {
      created := upload.document !in documents;
      if created {
        var row := Document(upload.workspace, Processing, None, 0, 0, upload.size, Some(run), Some(start));
        documents := documents[upload.document := row];
      }
      var row := documents[upload.document];
      if row.claimedAt.None? || row.claimedAt.value <= start {
        documents := documents[upload.document := row.(activeRun := Some(run), claimedAt := Some(start))];
      }
    }

    /** Cascading delete of chunk rows. */
    method DeleteChunks(drop: set<ChunkKey>)
      modifies this`chunks, this`reuse
      ensures Snapshot() == DropChunks(old(Snapshot()), drop)
    {
      reuse := EventsOutside(reuse, ChunkIds(chunks, drop));
      chunks := chunks - drop;
    }

    /** Cascading delete of document rows. */
    method DeleteDocuments(drop: set<string>)
      modifies this`documents, this`chunks, this`reuse
      ensures Snapshot() == DropDocuments(old(Snapshot()), drop)
    {
      documents := documents - drop;
      DeleteChunks(ChunkKeysOf(chunks, drop));
    }

    /** INSERT ... ON CONFLICT DO NOTHING of each chunk; the row count is what was really new. */
    method InsertBatch(upload: Upload, batch: seq<NewChunk>) returns (added: nat)
      modifies this`chunks, this`nextChunkId
      ensures chunks == InsertChunks(old(chunks), old(nextChunkId), upload, batch)
      ensures nextChunkId == old(nextChunkId) + |batch|
      ensures added == |chunks| - |old(chunks)|
    {
      ghost var before, first := chunks, nextChunkId;
      added := 0;
      for i := 0 to |batch|
        invariant chunks == InsertChunks(before, first, upload, batch[..i])
        invariant nextChunkId == first + i && added == |chunks| - |before|
      {
        InsertNext(before, first, upload, batch, i, nextChunkId);
        var key := ChunkKey(upload.document, batch[i].index);
        if key !in chunks {
          chunks := chunks[key := Chunk(nextChunkId, upload.workspace, batch[i].content, 0)];
          added := added + 1;
        }
        nextChunkId := nextChunkId + 1;
      }
      assert batch[..|batch|] == batch;
    }

    /** The chunk half of a store: delete unless appending, insert, then grow the counters. */
    method WriteChunks(upload: Upload, batch: seq<NewChunk>, textLength: nat, append: bool, inserted: bool)
      requires upload.document in documents
      modifies this
      ensures Snapshot() ==
              StoreRows(Cleared(old(Snapshot()), upload.document, append), upload, batch, textLength,
                        old(documents)[upload.document], append, inserted)
    {
      if !append {
        DeleteChunks(ChunkKeysOf(chunks, {upload.document}));
      }
      var added := InsertBatch(upload, batch);
      var row := documents[upload.document];
      if append && added > 0 {
        row := row.(
          chunkCount := row.chunkCount + added,
          textLength := row.textLength + textLength,
          sizeBytes := if inserted then row.sizeBytes else row.sizeBytes + upload.size);
        documents := documents[upload.document := row];
      }
      assert documents == old(documents)[upload.document := row];
    }

    /** The fenced upsert, then the chunk rows, then, for an append, the counters. */
    method StoreProcessedDocument(
      upload: Upload, batch: seq<NewChunk>, textLength: nat, run: RunId, append: bool, now: Time)
      returns (outcome: StoreOutcome)
      modifies this
      ensures Snapshot() == Store(old(Snapshot()), upload, batch, textLength, run, append, now)
      ensures outcome == Outcome(old(Snapshot()), upload.document, run)
    {
      var d := upload.document;
      var inserted := d !in documents;
      if !inserted && documents[d].activeRun.Some? && documents[d].activeRun.value != run {
        return FencedOut;
      }
      var row;
      if inserted {
        row := Document(upload.workspace, Processed, Some(now), if append then 0 else |batch|,
                        if append then 0 else textLength, upload.size, Some(run), None);
      } else {
        row := documents[d].(status := Processed, processedAt := Some(now), activeRun := Some(run));
        if !append {
          row := row.(chunkCount := |batch|, textLength := textLength, sizeBytes := upload.size);
        }
      }
      UpsertThenChunks(Snapshot(), upload, batch, textLength, row, append, inserted);
      documents := documents[d := row];
      WriteChunks(upload, batch, textLength, append, inserted);
      return Stored(inserted);
    }

    method IsActiveRun(document: string, run: RunId) returns (permitted: bool)
      ensures permitted == Unfenced(Snapshot(), document, run)
    {
      if document !in documents {
        return true;
      }
      permitted := documents[document].activeRun.None? || documents[document].activeRun.value == run;
    }

    method GetDocumentChunkCount(document: string) returns (count: nat)
      ensures count == ChunkCount(Snapshot(), document)
    {
      count := if document in documents then documents[document].chunkCount else 0;
    }

    method UpdateDocumentStatus(document: string, status: Status, run: Option<RunId>, now: Time) returns (updated: bool)
      modifies this`documents
      ensures Snapshot() == SetStatus(old(Snapshot()), document, status, run, now)
      ensures updated == MaySetStatus(old(Snapshot()), document, run)
    {
      updated := false;
      if document in documents {
        var row := documents[document];
        if run.None? || row.activeRun.None? || row.activeRun == run {
          var at := if status == Processed then Some(now) else None;
          documents := documents[document := row.(status := status, processedAt := at)];
          updated := true;
        }
      }
    }

    /** A blank workspace is refused before the table is touched. */
    method DeleteDocument(document: string, workspace: string) returns (deleted: Result<bool, string>)
      modifies this`documents, this`chunks, this`reuse
      ensures Snapshot() == Tables.DeleteDocument(old(Snapshot()), document, workspace)
      ensures deleted.Err? <==> Strip(workspace) == ""
      ensures deleted.Ok? ==> deleted.value == MayDelete(old(Snapshot()), document, workspace)
    {
      if workspace == "" || Strip(workspace) == "" {
        return Err("a non-blank workspace is required");
      }
      var found := document in documents && documents[document].workspace == workspace;
      if found {
        DeleteDocuments({document});
      }
      return Ok(found);
    }

    /** The id and the counter of a chunk row; the id is one that a reuse event may name. */
    method GetChunkForReuse(document: string, index: nat) returns (found: Option<(nat, nat)>)
      ensures found.Some? <==> ChunkKey(document, index) in chunks
      ensures found.Some? ==>
                HasId(chunks, ChunkKey(document, index), found.value.0) && NamesChunk(chunks, found.value.0)
                && found.value.1 == chunks[ChunkKey(document, index)].reuseCount
    {
      var key := ChunkKey(document, index);
      if key !in chunks {
        return None;
      }
      assert HasId(chunks, key, chunks[key].id);
      return Some((chunks[key].id, chunks[key].reuseCount));
    }

    /** The new count of a first recording, `None` for a known triple, and an error when the
        event names no chunk row. */
    method RecordChunkReuse(event: ReuseEvent) returns (count: Result<Option<nat>, string>)
      modifies this`chunks, this`reuse
      ensures Snapshot() == RecordReuse(old(Snapshot()), event)
      ensures event in old(reuse) ==> count == Ok(None)
      ensures event !in old(reuse) ==> (count.Ok? <==> NamesChunk(old(chunks), event.source))
      ensures event !in old(reuse) && count.Ok? ==>
                exists k :: k in chunks && HasId(chunks, k, event.source) && count.value == Some(chunks[k].reuseCount)
    {
      if event in reuse {
        return Ok(None);
      }
      var hits := set k | k in chunks && HasId(chunks, k, event.source);
      if hits == {} {
        assert forall k :: k in chunks && HasId(chunks, k, event.source) ==> k in hits;
        return Err("foreign key violation");
      }
      reuse := reuse + {event};
      var hit :| hit in hits;
      chunks := Reused(chunks, event.source);
      return Ok(Some(chunks[hit].reuseCount));
    }

    method UpdateWorkspaceStats(delta: Delta) returns (applied: bool)
      modifies this`workspaces, this`ledger
      ensures Snapshot() == UpdateStats(old(Snapshot()), delta)
      ensures applied <==> !AlreadyCounted(old(Snapshot()), delta) && delta.workspace in old(workspaces)
    {
      if delta.run.Some? {
        if delta.run.value in ledger {
          return false;
        }
        ledger := ledger[delta.run.value := delta.workspace];
      }
      applied := delta.workspace in workspaces;
      if applied {
        workspaces := workspaces[delta.workspace := Bump(workspaces[delta.workspace], delta)];
      }
    }

    method DeleteWorkspaceData(workspace: string) returns (count: nat)
      modifies this`documents, this`chunks, this`reuse, this`workspaces
      ensures Snapshot() == Tables.DeleteWorkspaceData(old(Snapshot()), workspace)
      ensures count == |DocumentsOf(old(Snapshot()), workspace)|
    {
      var drop := DocumentsOf(Snapshot(), workspace);
      count := |drop|;
      DeleteDocuments(drop);
      workspaces := workspaces - {workspace};
    }

    /** One DELETE per table, in a loop; how many rows each one took. */
    method DeleteSideRows(tables: seq<SideTable>, workspace: string) returns (deleted: map<SideTable, nat>)
      requires forall i, j :: 0 <= i < j < |tables| ==> tables[i] != tables[j]
      modifies this`side
      ensures side == WithoutSideRows(old(side), (set t | t in tables), workspace)
      ensures deleted == map t | t in tables :: |SideRowsOf(old(side), t, workspace)|
    {
      ghost var before := side;
      deleted := map[];
      assert WithoutSideRows(before, {}, workspace) == before;
      for i := 0 to |tables|
        invariant side == WithoutSideRows(before, FirstOf(tables, i), workspace)
        invariant deleted.Keys == FirstOf(tables, i)
        invariant forall t :: t in deleted ==> deleted[t] == |SideRowsOf(before, t, workspace)|
      {
        var table := tables[i];
        FirstNext(tables, i);
        SideRowsLeft(before, FirstOf(tables, i), table, workspace);
        SideRowsTwice(before, workspace, FirstOf(tables, i), {table});
        hide WithoutSideRows, SideRowsOf, FirstOf;
        deleted := deleted[table := |SideRowsOf(side, table, workspace)|];
        side := WithoutSideRows(side, {table}, workspace);
      }
      assert FirstOf(tables, |tables|) == set t | t in tables;
    }

    method DeleteWorkspaceSideTables(workspace: string) returns (deleted: map<SideTable, nat>, runs: nat)
      modifies this`side, this`ledger
      ensures Snapshot() == DeleteSideTables(old(Snapshot()), workspace)
      ensures deleted == map t | t in PipelineTables :: |SideRowsOf(old(side), t, workspace)|
      ensures runs == |RunsOf(old(ledger), workspace)|
    {
      var tables := [DeadLetterJobs, IngestionEvents, RedactionAudit];
      assert (set t | t in tables) == PipelineTables;
      deleted := DeleteSideRows(tables, workspace);
      runs := |RunsOf(ledger, workspace)|;
      ledger := WithoutRuns(ledger, workspace);
    }

    method DeleteWorkspaceEvalData(workspace: string) returns (deleted: map<SideTable, nat>)
      modifies this`side
      ensures Snapshot() == DeleteEvalData(old(Snapshot()), workspace)
      ensures deleted == map t | t in EvalTables :: |SideRowsOf(old(side), t, workspace)|
    {
      var tables := [EvalQueryEvents, EvalFeedback, EvalCases, EvalRuns];
      assert (set t | t in tables) == EvalTables;
      deleted := DeleteSideRows(tables, workspace);
    }

    /** Only active keys are written; how many there were. */
    method RevokeWorkspaceApiKeys(workspace: string) returns (count: nat)
      modifies this`apiKeys
      ensures Snapshot() == RevokeKeys(old(Snapshot()), workspace)
      ensures count == |ActiveKeysOf(old(apiKeys), workspace)|
    {
      var hit := ActiveKeysOf(apiKeys, workspace);
      count := |hit|;
      apiKeys := map k | k in apiKeys :: if k in hit then apiKeys[k].(active := false) else apiKeys[k];
    }
  }

  /** The first i tables of a list. */
  ghost function FirstOf(tables: seq<SideTable>, i: nat): set<SideTable> {
    var prefix := if i <= |tables| then tables[..i] else tables;
    set t | t in prefix
  }

  lemma FirstNext(tables: seq<SideTable>, i: nat)
    requires i < |tables| && forall j :: 0 <= j < i ==> tables[j] != tables[i]
    ensures FirstOf(tables, i + 1) == FirstOf(tables, i) + {tables[i]} && tables[i] !in FirstOf(tables, i)
  {
    assert tables[..i + 1] == tables[..i] + [tables[i]];
  }

  lemma InsertNext(chunks: map<ChunkKey, Chunk>, first: nat, upload: Upload, batch: seq<NewChunk>, i: nat, next: nat)
    requires i < |batch| && next == first + i
    ensures InsertChunks(chunks, first, upload, batch[..i + 1])
            == InsertChunk(InsertChunks(chunks, first, upload, batch[..i]), next, upload, batch[i])
  {
    assert batch[..i + 1][..i] == batch[..i];
  }
}
