/** The PostgreSQL tables that `DatabaseService` writes, as one value, and the effect of
    each of its transactions as a function on that value.

    Only the columns that decide control flow, or that a promise is made about, are kept.
    A chunk row is keyed by its document and index (`uq_document_chunks_doc_idx`); its
    serial `id` is what a reuse event refers to. Dropping a document row drops its chunk
    rows, and dropping a chunk row drops the reuse events that name it: both foreign keys
    are declared ON DELETE CASCADE. */
module Tables {
  import opened Text
  import opened Wrappers

  type Time = int
  type RunId = string

  /** `size_bytes`: the upload contract and the CHECK constraint both demand a positive value. */
  type Size = n: int | 0 < n witness 1

  datatype Status = Pending | Processing | Processed | Failed | Deleted

  datatype Document = Document(
    workspace: string,
    status: Status,
    processedAt: Option<Time>,
    chunkCount: nat,
    textLength: nat,
    sizeBytes: Size,
    activeRun: Option<RunId>,
    claimedAt: Option<Time>)

  datatype ChunkKey = ChunkKey(document: string, index: nat)

  datatype Chunk = Chunk(id: nat, workspace: string, content: string, reuseCount: nat)

  /** One row of `chunk_reuse_events`, reduced to its UNIQUE key. */
  datatype ReuseEvent = ReuseEvent(source: nat, reusingDocument: string, contentHash: string)

  datatype Stats = Stats(documents: nat, chunks: nat, bytes: nat)

  /** The tables a purge empties besides documents, chunks, metadata and the stats ledger. */
  datatype SideTable =
    | DeadLetterJobs | IngestionEvents | RedactionAudit
    | EvalQueryEvents | EvalFeedback | EvalCases | EvalRuns

  datatype SideRow = SideRow(table: SideTable, id: nat)

  datatype ApiKey = ApiKey(workspace: string, active: bool)

  datatype Database = Database(
    documents: map<string, Document>,
    chunks: map<ChunkKey, Chunk>,
    nextChunkId: nat,
    reuse: set<ReuseEvent>,
    workspaces: map<string, Stats>,
    ledger: map<RunId, string>,
    side: map<SideRow, string>,
    apiKeys: map<nat, ApiKey>)

  /** What the pipeline hands to the store step: the upload message and one chunk of it. */
  datatype Upload = Upload(document: string, workspace: string, size: Size)

  datatype NewChunk = NewChunk(index: nat, content: string)

  datatype StoreOutcome = Stored(inserted: bool) | FencedOut

  // ---------------------------------------------------------------------------
  // Rows of one document
  // ---------------------------------------------------------------------------

  /** The chunk rows of one document are exactly `contents`, by index. */
  ghost predicate Holds(chunks: map<ChunkKey, Chunk>, document: string, contents: map<nat, string>) {
    && (forall i :: i in contents <==> ChunkKey(document, i) in chunks)
    && (forall i :: i in contents ==> chunks[ChunkKey(document, i)].content == contents[i])
  }

  /** `get_document_chunk_count`: zero when the document has no row yet. */
  function ChunkCount(db: Database, document: string): nat {
    if document in db.documents then db.documents[document].chunkCount else 0
  }

  // ---------------------------------------------------------------------------
  // Cascading deletes
  // ---------------------------------------------------------------------------

  function ChunkIds(chunks: map<ChunkKey, Chunk>, keys: set<ChunkKey>): set<nat> {
    set k | k in keys && k in chunks :: chunks[k].id
  }

  function EventsOutside(reuse: set<ReuseEvent>, ids: set<nat>): set<ReuseEvent> {
    set e | e in reuse && e.source !in ids
  }

  /** Deletes chunk rows; reuse events naming a deleted row go with it. */
  function DropChunks(db: Database, drop: set<ChunkKey>): Database {
    db.(chunks := db.chunks - drop, reuse := EventsOutside(db.reuse, ChunkIds(db.chunks, drop)))
  }

  function ChunkKeysOf(chunks: map<ChunkKey, Chunk>, documents: set<string>): set<ChunkKey> {
    set k | k in chunks && k.document in documents
  }

  /** Deletes document rows together with their chunk rows. */
  function DropDocuments(db: Database, documents: set<string>): Database {
    DropChunks(db.(documents := db.documents - documents), ChunkKeysOf(db.chunks, documents))
  }

  // ---------------------------------------------------------------------------
  // create_pending_document
  // ---------------------------------------------------------------------------

  predicate MayClaim(row: Document, start: Time) {
    row.claimedAt.None? || row.claimedAt.value <= start
  }

  function Claim(db: Database, upload: Upload, run: RunId, start: Time): Database {
    var rows :=
      if upload.document in db.documents then db.documents
      else db.documents[upload.document :=
               Document(upload.workspace, Processing, None, 0, 0, upload.size, Some(run), Some(start))];
    var row := rows[upload.document];
    db.(documents :=
          if MayClaim(row, start)
          then rows[upload.document := row.(activeRun := Some(run), claimedAt := Some(start))]
          else rows)
  }

  // ---------------------------------------------------------------------------
  // store_processed_document
  // ---------------------------------------------------------------------------

  /** The fencing predicate shared by the store upsert, the tagged status write and
      `is_active_run`: unclaimed, or claimed by this very run. */
  predicate Unfenced(db: Database, document: string, run: RunId) {
    document in db.documents ==>
      db.documents[document].activeRun.None? || db.documents[document].activeRun.value == run
  }

  /** INSERT ... ON CONFLICT DO NOTHING of one chunk row. */
  function InsertChunk(chunks: map<ChunkKey, Chunk>, id: nat, upload: Upload, chunk: NewChunk): map<ChunkKey, Chunk> {
    var key := ChunkKey(upload.document, chunk.index);
    if key in chunks then chunks else chunks[key := Chunk(id, upload.workspace, chunk.content, 0)]
  }

  /** The same insert for a batch. The serial counter advances for every
      attempted row, as `nextval` does. */
  function InsertChunks(chunks: map<ChunkKey, Chunk>, nextId: nat, upload: Upload, batch: seq<NewChunk>)
    : map<ChunkKey, Chunk>
  {
    if batch == [] then chunks
    else
      InsertChunk(InsertChunks(chunks, nextId, upload, batch[..|batch| - 1]),
                  nextId + |batch| - 1, upload, batch[|batch| - 1])
  }

  /** The document row after the upsert: inserted, or updated in place. An append leaves the
      three counters to the later step that knows how many chunk rows were really new. */
  function Upsert(db: Database, upload: Upload, count: nat, textLength: nat, run: RunId, append: bool, now: Time)
    : Document
  {
    if upload.document in db.documents then
      var row := db.documents[upload.document].(status := Processed, processedAt := Some(now), activeRun := Some(run));
      if append then row
      else row.(chunkCount := count, textLength := textLength, sizeBytes := upload.size)
    else
      Document(upload.workspace, Processed, Some(now), if append then 0 else count,
               if append then 0 else textLength, upload.size, Some(run), None)
  }

  /** The growth step of an append: nothing when no chunk row was new, and no second
      `size_bytes` when this very call created the row with it. */
  function Grow(row: Document, added: nat, textLength: nat, size: Size, inserted: bool): Document {
    if added == 0 then row
    else row.(chunkCount := row.chunkCount + added,
              textLength := row.textLength + textLength,
              sizeBytes := if inserted then row.sizeBytes else row.sizeBytes + size)
  }

  /** A replacing store first deletes the document's chunk rows; an append keeps them. */
  function Cleared(db: Database, document: string, append: bool): Database {
    if append then db else DropChunks(db, ChunkKeysOf(db.chunks, {document}))
  }

  function Store(
    db: Database, upload: Upload, batch: seq<NewChunk>, textLength: nat, run: RunId, append: bool, now: Time)
    : Database
  {
    var d := upload.document;
    if !Unfenced(db, d, run) then db
    else
      var row := Upsert(db, upload, |batch|, textLength, run, append, now);
      StoreRows(Cleared(db, d, append), upload, batch, textLength, row, append, d !in db.documents)
  }

  /** The chunk rows go in, and the document row is completed with how many were new. */
  function StoreRows(
    cleared: Database, upload: Upload, batch: seq<NewChunk>, textLength: nat, row: Document, append: bool,
    inserted: bool)
    : Database
  {
    var rows := InsertChunks(cleared.chunks, cleared.nextChunkId, upload, batch);
    var added := Clamp(|rows| - |cleared.chunks|);
    var final := if append then Grow(row, added, textLength, upload.size, inserted) else row;
    cleared.(documents := cleared.documents[upload.document := final], chunks := rows,
             nextChunkId := cleared.nextChunkId + |batch|)
  }

  function Outcome(db: Database, document: string, run: RunId): StoreOutcome {
    if Unfenced(db, document, run) then Stored(document !in db.documents) else FencedOut
  }

  // ---------------------------------------------------------------------------
  // update_document_status and delete_document
  // ---------------------------------------------------------------------------

  /** A write without a run id skips the fence. */
  predicate MaySetStatus(db: Database, document: string, run: Option<RunId>) {
    document in db.documents && (run.Some? ==> Unfenced(db, document, run.value))
  }

  function SetStatus(db: Database, document: string, status: Status, run: Option<RunId>, now: Time): Database {
    if !MaySetStatus(db, document, run) then db
    else
      var row := db.documents[document].(
        status := status, processedAt := if status == Processed then Some(now) else None);
      db.(documents := db.documents[document := row])
  }

  /** A blank workspace is an error before any row is looked at. */
  predicate MayDelete(db: Database, document: string, workspace: string) {
    Strip(workspace) != "" && document in db.documents && db.documents[document].workspace == workspace
  }

  function DeleteDocument(db: Database, document: string, workspace: string): Database {
    if MayDelete(db, document, workspace) then DropDocuments(db, {document}) else db
  }

  // ---------------------------------------------------------------------------
  // record_chunk_reuse
  // ---------------------------------------------------------------------------

  predicate HasId(chunks: map<ChunkKey, Chunk>, key: ChunkKey, id: nat) {
    key in chunks && chunks[key].id == id
  }

  predicate NamesChunk(chunks: map<ChunkKey, Chunk>, id: nat) {
    exists k :: k in chunks && HasId(chunks, k, id)
  }

  /** A known triple changes nothing; a new one for a vanished chunk breaks the foreign key
      and rolls back; otherwise the event and the increment commit together. */
  function RecordReuse(db: Database, event: ReuseEvent): Database {
    if event in db.reuse || !NamesChunk(db.chunks, event.source) then db
    else db.(reuse := db.reuse + {event}, chunks := Reused(db.chunks, event.source))
  }

  /** The chunk named by `id`, with one more reuse. */
  function Reused(chunks: map<ChunkKey, Chunk>, id: nat): map<ChunkKey, Chunk> {
    map k | k in chunks ::
      if chunks[k].id == id then chunks[k].(reuseCount := chunks[k].reuseCount + 1) else chunks[k]
  }

  // ---------------------------------------------------------------------------
  // update_workspace_stats
  // ---------------------------------------------------------------------------

  datatype Delta = Delta(workspace: string, documents: int, chunks: int, bytes: int, run: Option<RunId>)

  function Clamp(n: int): nat { if n < 0 then 0 else n }

  function Bump(s: Stats, d: Delta): Stats {
    Stats(Clamp(s.documents + d.documents), Clamp(s.chunks + d.chunks), Clamp(s.bytes + d.bytes))
  }

  predicate AlreadyCounted(db: Database, d: Delta) { d.run.Some? && d.run.value in db.ledger }

  function UpdateStats(db: Database, d: Delta): Database {
    if AlreadyCounted(db, d) then db
    else db.(
      ledger := if d.run.Some? then db.ledger[d.run.value := d.workspace] else db.ledger,
      workspaces := if d.workspace in db.workspaces
                    then db.workspaces[d.workspace := Bump(db.workspaces[d.workspace], d)]
                    else db.workspaces)
  }

  // ---------------------------------------------------------------------------
  // The purge of one workspace
  // ---------------------------------------------------------------------------

  const EvalTables: set<SideTable> := {EvalQueryEvents, EvalFeedback, EvalCases, EvalRuns}
  const PipelineTables: set<SideTable> := {DeadLetterJobs, IngestionEvents, RedactionAudit}

  function DocumentsOf(db: Database, workspace: string): set<string> {
    set d | d in db.documents && db.documents[d].workspace == workspace
  }

  function DeleteWorkspaceData(db: Database, workspace: string): Database {
    var dropped := DropDocuments(db, DocumentsOf(db, workspace));
    dropped.(workspaces := dropped.workspaces - {workspace})
  }

  function SideRowsOf(side: map<SideRow, string>, table: SideTable, workspace: string): set<SideRow> {
    set r | r in side && r.table == table && side[r] == workspace
  }

  function RunsOf(ledger: map<RunId, string>, workspace: string): set<RunId> {
    set r | r in ledger && ledger[r] == workspace
  }

  function ActiveKeysOf(keys: map<nat, ApiKey>, workspace: string): set<nat> {
    set k | k in keys && keys[k].workspace == workspace && keys[k].active
  }

  function WithoutSideRows(
    side: map<SideRow, string>, tables: set<SideTable>, workspace: string)
    : map<SideRow, string>
  {
    map r | r in side && !(r.table in tables && side[r] == workspace) :: side[r]
  }

  function WithoutRuns(ledger: map<RunId, string>, workspace: string): map<RunId, string> {
    map r | r in ledger && ledger[r] != workspace :: ledger[r]
  }

  function Revoked(keys: map<nat, ApiKey>, workspace: string): map<nat, ApiKey> {
    map k | k in keys :: if keys[k].workspace == workspace then keys[k].(active := false) else keys[k]
  }

  function DeleteSideTables(db: Database, workspace: string): Database {
    db.(side := WithoutSideRows(db.side, PipelineTables, workspace), ledger := WithoutRuns(db.ledger, workspace))
  }

  function DeleteEvalData(db: Database, workspace: string): Database {
    db.(side := WithoutSideRows(db.side, EvalTables, workspace))
  }

  function RevokeKeys(db: Database, workspace: string): Database {
    db.(apiKeys := Revoked(db.apiKeys, workspace))
  }

  lemma SideRowsTwice(
    side: map<SideRow, string>, workspace: string, first: set<SideTable>, second: set<SideTable>)
    ensures WithoutSideRows(WithoutSideRows(side, first, workspace), second, workspace)
            == WithoutSideRows(side, first + second, workspace)
  {
  }

  lemma SideRowsLeft(side: map<SideRow, string>, done: set<SideTable>, table: SideTable, workspace: string)
    requires table !in done
    ensures SideRowsOf(WithoutSideRows(side, done, workspace), table, workspace) == SideRowsOf(side, table, workspace)
  {
  }

  // ---------------------------------------------------------------------------
  // Every transaction, as one type
  // ---------------------------------------------------------------------------

  datatype Operation =
    | OpClaim(upload: Upload, run: RunId, start: Time)
    | OpStore(upload: Upload, batch: seq<NewChunk>, textLength: nat, run: RunId, append: bool, now: Time)
    | OpStatus(document: string, status: Status, tag: Option<RunId>, now: Time)
    | OpDelete(document: string, workspace: string)
    | OpReuse(event: ReuseEvent)
    | OpStats(delta: Delta)
    | OpPurgeData(workspace: string)
    | OpPurgeSide(workspace: string)
    | OpPurgeEval(workspace: string)
    | OpRevoke(workspace: string)

  function Execute(db: Database, op: Operation): Database {
    match op
    case OpClaim(upload, run, start) => Claim(db, upload, run, start)
    case OpStore(upload, batch, textLength, run, append, now) => Store(db, upload, batch, textLength, run, append, now)
    case OpStatus(document, status, tag, now) => SetStatus(db, document, status, tag, now)
    case OpDelete(document, workspace) => DeleteDocument(db, document, workspace)
    case OpReuse(event) => RecordReuse(db, event)
    case OpStats(delta) => UpdateStats(db, delta)
    case OpPurgeData(workspace) => DeleteWorkspaceData(db, workspace)
    case OpPurgeSide(workspace) => DeleteSideTables(db, workspace)
    case OpPurgeEval(workspace) => DeleteEvalData(db, workspace)
    case OpRevoke(workspace) => RevokeKeys(db, workspace)
  }

  /** A whole history of transactions, in commit order. */
  function ExecuteAll(db: Database, ops: seq<Operation>): Database {
    if ops == [] then db else Execute(ExecuteAll(db, ops[..|ops| - 1]), ops[|ops| - 1])
  }

  // ---------------------------------------------------------------------------
  // What a batch insert leaves behind
  // ---------------------------------------------------------------------------

  /** The same insert on the contents alone: an index already taken keeps its content. */
  function InsertContent(contents: map<nat, string>, chunk: NewChunk): map<nat, string> {
    if chunk.index in contents then contents else contents[chunk.index := chunk.content]
  }

  function InsertContents(contents: map<nat, string>, batch: seq<NewChunk>): map<nat, string> {
    if batch == [] then contents
    else InsertContent(InsertContents(contents, batch[..|batch| - 1]), batch[|batch| - 1])
  }

  predicate DistinctIndices(batch: seq<NewChunk>) {
    forall i, j :: 0 <= i < j < |batch| ==> batch[i].index != batch[j].index
  }

  lemma {:induction false} InsertChunksFrame(
    chunks: map<ChunkKey, Chunk>, nextId: nat, upload: Upload, batch: seq<NewChunk>)
    ensures var rows := InsertChunks(chunks, nextId, upload, batch);
            && (forall k :: k in chunks ==> k in rows && rows[k] == chunks[k])
            && (forall k :: k in rows && k !in chunks ==>
                  && k.document == upload.document && rows[k].workspace == upload.workspace && rows[k].reuseCount == 0
                  && nextId <= rows[k].id < nextId + |batch|)
  {
    if batch != [] {
      InsertChunksFrame(chunks, nextId, upload, batch[..|batch| - 1]);
    }
  }

  /** The table insert and the insert into the contents agree, and add equally many rows. */
  lemma {:induction false} InsertChunksContents(
    chunks: map<ChunkKey, Chunk>, nextId: nat, upload: Upload, batch: seq<NewChunk>, contents: map<nat, string>)
    requires Holds(chunks, upload.document, contents)
    ensures Holds(InsertChunks(chunks, nextId, upload, batch), upload.document, InsertContents(contents, batch))
    ensures |InsertChunks(chunks, nextId, upload, batch)| - |chunks| == |InsertContents(contents, batch)| - |contents|
  {
    if batch != [] {
      InsertChunksContents(chunks, nextId, upload, batch[..|batch| - 1], contents);
    }
  }

  lemma InsertFits(contents: map<nat, string>, batch: seq<NewChunk>)
    ensures contents.Keys <= InsertContents(contents, batch).Keys
    ensures |contents| <= |InsertContents(contents, batch)| <= |contents| + |batch|
  {
  }

  /** The indices of a batch, inserted into an empty document, are exactly its rows. */
  lemma {:induction false} InsertedIndices(batch: seq<NewChunk>)
    ensures forall i :: i in InsertContents(map[], batch) <==> exists c :: c in batch && c.index == i
  {
    if batch != [] {
      var init := batch[..|batch| - 1];
      InsertedIndices(init);
      assert batch == init + [batch[|batch| - 1]];
    }
  }

  lemma DistinctPrefix(batch: seq<NewChunk>)
    requires batch != []
    ensures var init := batch[..|batch| - 1];
            DistinctIndices(batch) <==>
            DistinctIndices(init) && !exists c :: c in init && c.index == batch[|batch| - 1].index
  {
    var init := batch[..|batch| - 1];
    var last := batch[|batch| - 1];
    if DistinctIndices(batch) {
      forall c | c in init ensures c.index != last.index {
        var i :| 0 <= i < |init| && init[i] == c;
        assert batch[i] == c && i < |batch| - 1;
      }
      forall i, j | 0 <= i < j < |init| ensures init[i].index != init[j].index {
        assert init[i] == batch[i] && init[j] == batch[j];
      }
    } else {
      var i, j :| 0 <= i < j < |batch| && batch[i].index == batch[j].index;
      assert init[i] == batch[i];
      if j < |batch| - 1 {
        assert init[j] == batch[j];
      } else {
        assert init[i] in init;
      }
    }
  }

  /** Into an empty document, the number of rows reaches the number of chunks exactly when
      the indices are pairwise distinct; then each chunk's content is what its index holds. */
  lemma {:induction false} InsertIntoEmpty(batch: seq<NewChunk>)
    ensures |InsertContents(map[], batch)| == |batch| <==> DistinctIndices(batch)
    ensures DistinctIndices(batch) ==>
              forall c :: c in batch ==>
                c.index in InsertContents(map[], batch) && InsertContents(map[], batch)[c.index] == c.content
  {
    hide InsertContents, DistinctIndices;
    InsertLast(batch);
    if batch != [] {
      var init := batch[..|batch| - 1];
      InsertIntoEmpty(init);
      InsertedIndices(init);
      DistinctPrefix(batch);
      InsertFits(map[], init);
      assert batch == init + [batch[|batch| - 1]];
    }
  }

  lemma InsertLast(batch: seq<NewChunk>)
    ensures batch == [] ==> InsertContents(map[], batch) == map[] && DistinctIndices(batch)
    ensures batch != [] ==>
              InsertContents(map[], batch)
              == InsertContent(InsertContents(map[], batch[..|batch| - 1]), batch[|batch| - 1])
  {
  }

  /** What a store that is not fenced out leaves: the document's chunks are replaced, or
      extended, and its row grows by the chunk rows that were really new. */
  lemma StoreEffect(db: Database, upload: Upload, batch: seq<NewChunk>, textLength: nat, run: RunId, append: bool,
                    now: Time, contents: map<nat, string>)
    requires Unfenced(db, upload.document, run)
    requires append ==> Holds(db.chunks, upload.document, contents)
    ensures var after := Store(db, upload, batch, textLength, run, append, now);
            var kept := if append then contents else map[];
            && Holds(after.chunks, upload.document, InsertContents(kept, batch))
            && upload.document in after.documents
            && after.documents[upload.document] ==
               var row := Upsert(db, upload, |batch|, textLength, run, append, now);
               var added := |InsertContents(kept, batch)| - |kept|;
               if append then Grow(row, Clamp(added), textLength, upload.size, upload.document !in db.documents)
               else row
  {
    hide Cleared, Upsert, Holds, InsertContents, StoreRows, Unfenced, Grow, Clamp;
    var cleared := Cleared(db, upload.document, append);
    var kept := if append then contents else map[];
    ClearedHolds(db, upload.document, append, contents);
    var row := Upsert(db, upload, |batch|, textLength, run, append, now);
    RowsEffect(cleared, upload, batch, textLength, row, append, upload.document !in db.documents, kept);
  }

  lemma ClearedHolds(db: Database, document: string, append: bool, contents: map<nat, string>)
    requires append ==> Holds(db.chunks, document, contents)
    ensures Holds(Cleared(db, document, append).chunks, document, if append then contents else map[])
  {
  }

  lemma RowsEffect(
    cleared: Database, upload: Upload, batch: seq<NewChunk>, textLength: nat, row: Document, append: bool,
    inserted: bool, kept: map<nat, string>)
    requires Holds(cleared.chunks, upload.document, kept)
    ensures var after := StoreRows(cleared, upload, batch, textLength, row, append, inserted);
            var added := |InsertContents(kept, batch)| - |kept|;
            && Holds(after.chunks, upload.document, InsertContents(kept, batch))
            && upload.document in after.documents
            && after.documents[upload.document]
               == if append then Grow(row, Clamp(added), textLength, upload.size, inserted) else row
  {
    hide Holds, InsertChunks, InsertContents, Grow;
    InsertChunksContents(cleared.chunks, cleared.nextChunkId, upload, batch, kept);
  }

  /** Writing the document row before or after the chunk rows makes no difference. */
  lemma UpsertThenChunks(
    db: Database, upload: Upload, batch: seq<NewChunk>, textLength: nat, row: Document, append: bool, inserted: bool)
    ensures var d := upload.document;
            StoreRows(Cleared(db.(documents := db.documents[d := row]), d, append), upload, batch, textLength, row,
                append, inserted)
            == StoreRows(Cleared(db, d, append), upload, batch, textLength, row, append, inserted)
  {
    var d := upload.document;
    var rows := InsertChunks(Cleared(db, d, append).chunks, db.nextChunkId, upload, batch);
    var added := Clamp(|rows| - |Cleared(db, d, append).chunks|);
    var final := if append then Grow(row, added, textLength, upload.size, inserted) else row;
    assert db.documents[d := row][d := final] == db.documents[d := final];
  }

  /** A store leaves every other document's row and chunk rows as they are. */
  lemma StoreFrame(
    db: Database, upload: Upload, batch: seq<NewChunk>, textLength: nat, run: RunId, append: bool, now: Time,
    other: string)
    requires other != upload.document
    ensures var after := Store(db, upload, batch, textLength, run, append, now);
            && (other in after.documents <==> other in db.documents)
            && (other in db.documents ==> after.documents[other] == db.documents[other])
            && SameChunks(db.chunks, after.chunks, other)
  {
    hide Cleared, Upsert, StoreRows, SameChunks, Unfenced;
    var cleared := Cleared(db, upload.document, append);
    var row := Upsert(db, upload, |batch|, textLength, run, append, now);
    ClearedOthers(db, upload.document, append, other);
    RowsFrame(cleared, upload, batch, textLength, row, append, upload.document !in db.documents, other);
    SameIsTransitive(db.chunks, cleared.chunks, Store(db, upload, batch, textLength, run, append, now).chunks, other);
  }

  /** Unchanged, then unchanged again; and a table is as it is. */
  lemma SameIsTransitive(a: map<ChunkKey, Chunk>, b: map<ChunkKey, Chunk>, c: map<ChunkKey, Chunk>, document: string)
    ensures SameChunks(a, b, document) && SameChunks(b, c, document) ==> SameChunks(a, c, document)
    ensures SameChunks(a, a, document)
  {
  }

  lemma ClearedOthers(db: Database, document: string, append: bool, other: string)
    requires other != document
    ensures SameChunks(db.chunks, Cleared(db, document, append).chunks, other)
    ensures Cleared(db, document, append).documents == db.documents
  {
  }

  lemma RowsFrame(
    cleared: Database, upload: Upload, batch: seq<NewChunk>, textLength: nat, row: Document, append: bool,
    inserted: bool, other: string)
    requires other != upload.document
    ensures var after := StoreRows(cleared, upload, batch, textLength, row, append, inserted);
            && (other in after.documents <==> other in cleared.documents)
            && (other in cleared.documents ==> after.documents[other] == cleared.documents[other])
            && SameChunks(cleared.chunks, after.chunks, other)
  {
    InsertedOthers(cleared.chunks, cleared.nextChunkId, upload, batch, other);
    hide InsertChunks, Grow;
  }

  lemma InsertedOthers(
    chunks: map<ChunkKey, Chunk>, nextId: nat, upload: Upload, batch: seq<NewChunk>, other: string)
    requires other != upload.document
    ensures SameChunks(chunks, InsertChunks(chunks, nextId, upload, batch), other)
  {
    InsertChunksFrame(chunks, nextId, upload, batch);
  }

  /** The chunk rows of one document are the very same: ids, labels, contents and counters. */
  ghost predicate SameChunks(before: map<ChunkKey, Chunk>, after: map<ChunkKey, Chunk>, document: string) {
    forall k: ChunkKey :: k.document == document ==>
      (k in before <==> k in after) && (k in before ==> before[k] == after[k])
  }

  lemma SameChunksHold(
    before: map<ChunkKey, Chunk>, after: map<ChunkKey, Chunk>, document: string, contents: map<nat, string>)
    requires SameChunks(before, after, document) && Holds(before, document, contents)
    ensures Holds(after, document, contents)
  {
  }

  // ---------------------------------------------------------------------------
  // What each transaction does to the row it names
  // ---------------------------------------------------------------------------

  /** A row inserted by a claim holds what the message says and nothing yet of its content. */
  lemma ClaimInserts(db: Database, upload: Upload, run: RunId, start: Time)
    requires upload.document !in db.documents
    ensures var after := Claim(db, upload, run, start).documents;
            && upload.document in after
            && var row := after[upload.document];
               && row.workspace == upload.workspace && row.sizeBytes == upload.size
               && row.chunkCount == 0 && row.textLength == 0
               && row.status == Processing && row.processedAt.None?
               && row.activeRun == Some(run) && row.claimedAt == Some(start)
  {
  }

  /** An existing row keeps all but its claim, and the claim too when a later start holds it; no
      other row is touched. */
  lemma ClaimKeeps(db: Database, upload: Upload, run: RunId, start: Time, other: string)
    requires other in db.documents
    ensures var after := Claim(db, upload, run, start).documents;
            && other in after
            && var was, row := db.documents[other], after[other];
               && row.workspace == was.workspace && row.sizeBytes == was.sizeBytes
               && row.chunkCount == was.chunkCount && row.textLength == was.textLength
               && row.status == was.status && row.processedAt == was.processedAt
               && (row.activeRun, row.claimedAt)
                  == (if other == upload.document && (was.claimedAt.None? || was.claimedAt.value <= start)
                      then (Some(run), Some(start)) else (was.activeRun, was.claimedAt))
  {
  }

  /** A store is written exactly when the row is absent, unclaimed, or claimed by that run; then
      the row is the run's, and otherwise nothing changes at all. */
  lemma StoreIsWrittenExactly(
    db: Database, upload: Upload, batch: seq<NewChunk>, textLength: nat, run: RunId, append: bool, now: Time)
    ensures var d := upload.document;
            var after := Store(db, upload, batch, textLength, run, append, now);
            if d !in db.documents || db.documents[d].activeRun.None? || db.documents[d].activeRun.value == run
            then d in after.documents && after.documents[d].activeRun == Some(run)
                 && after.documents[d].status == Processed && after.documents[d].processedAt == Some(now)
                 && after.documents[d].workspace
                    == (if d in db.documents then db.documents[d].workspace else upload.workspace)
                 && after.documents[d].claimedAt == (if d in db.documents then db.documents[d].claimedAt else None)
            else after == db
  {
    hide InsertChunks;
  }

  /** What the caller of a store learns. */
  lemma OutcomeExactly(db: Database, document: string, run: RunId)
    ensures Outcome(db, document, run)
            == if document !in db.documents then Stored(true)
               else if db.documents[document].activeRun.None? || db.documents[document].activeRun.value == run
               then Stored(false) else FencedOut
  {
  }

  /** The counters after a store that is written: those of the batch for a replacing one, and for
      an append what the row had and what the really new chunk rows bring. */
  lemma StoreCounts(
    db: Database, upload: Upload, batch: seq<NewChunk>, textLength: nat, run: RunId, append: bool, now: Time)
    requires Unfenced(db, upload.document, run)
    ensures var d := upload.document;
            var after := Store(db, upload, batch, textLength, run, append, now);
            && d in after.documents
            && var row := after.documents[d];
               var added := |after.chunks| - |db.chunks|;
               && (!append ==>
                   row.chunkCount == |batch| && row.textLength == textLength && row.sizeBytes == upload.size)
               && (append && d !in db.documents ==>
                   row.chunkCount == added && row.sizeBytes == upload.size
                   && row.textLength == if added == 0 then 0 else textLength)
               && (append && d in db.documents ==>
                   && row.chunkCount == db.documents[d].chunkCount + added
                   && row.textLength == db.documents[d].textLength + (if added == 0 then 0 else textLength)
                   && row.sizeBytes == db.documents[d].sizeBytes + if added == 0 then 0 else upload.size)
  {
    InsertsOnlyAdd(db.chunks, db.nextChunkId, upload, batch);
    hide InsertChunks;
  }

  lemma {:induction false} InsertsOnlyAdd(
    chunks: map<ChunkKey, Chunk>, nextId: nat, upload: Upload, batch: seq<NewChunk>)
    ensures |chunks| <= |InsertChunks(chunks, nextId, upload, batch)|
  {
    if batch != [] {
      InsertsOnlyAdd(chunks, nextId, upload, batch[..|batch| - 1]);
    }
  }

  /** A status write takes effect exactly on a row that is there and, when it is tagged, is
      unclaimed or claimed by its run; an untagged one always does. */
  lemma StatusIsWrittenExactly(db: Database, document: string, status: Status, run: Option<RunId>, now: Time)
    ensures var after := SetStatus(db, document, status, run, now);
            if document in db.documents
               && (run.None? || db.documents[document].activeRun.None? || db.documents[document].activeRun == run)
            then document in after.documents
                 && after.documents[document].status == status
                 && (after.documents[document].processedAt == if status == Processed then Some(now) else None)
                 && after.documents[document].activeRun == db.documents[document].activeRun
                 && after.documents[document].workspace == db.documents[document].workspace
                 && after.documents[document].chunkCount == db.documents[document].chunkCount
            else after == db
  {
  }

  /** A delete takes exactly a document of that very workspace, which must not be blank. */
  lemma DeleteTakesExactly(db: Database, document: string, workspace: string)
    ensures var after := DeleteDocument(db, document, workspace);
            if document in db.documents && db.documents[document].workspace == workspace
               && exists i :: 0 <= i < |workspace| && !IsSpace(workspace[i])
            then document !in after.documents && (forall k :: k in after.chunks ==> k.document != document)
            else after == db
  {
    BlankExactly(workspace);
  }

  /** A purge of the data takes exactly the documents of that workspace, the chunk rows under them
      and its metadata row; all else stays the very same. */
  lemma PurgeDataExactly(db: Database, workspace: string, d: string, k: ChunkKey)
    ensures var after := DeleteWorkspaceData(db, workspace);
            && (d in after.documents <==> d in db.documents && db.documents[d].workspace != workspace)
            && (d in after.documents ==> after.documents[d] == db.documents[d])
            && (k in after.chunks
                <==> k in db.chunks && (k.document in db.documents ==> db.documents[k.document].workspace != workspace))
            && (k in after.chunks ==> after.chunks[k] == db.chunks[k])
            && after.workspaces == db.workspaces - {workspace}
  {
  }

  /** A side row stays unless it is of that workspace and in one of the purge's tables. */
  lemma PurgeSideExactly(db: Database, workspace: string, row: SideRow)
    ensures row in DeleteSideTables(db, workspace).side
            <==> row in db.side
                 && (row.table in {DeadLetterJobs, IngestionEvents, RedactionAudit} ==> db.side[row] != workspace)
    ensures row in DeleteEvalData(db, workspace).side
            <==> row in db.side
                 && (row.table in {EvalQueryEvents, EvalFeedback, EvalCases, EvalRuns} ==> db.side[row] != workspace)
  {
  }

  /** Revoking deactivates exactly the workspace's keys and removes none. */
  lemma RevokeExactly(db: Database, workspace: string, key: nat)
    ensures var after := RevokeKeys(db, workspace).apiKeys;
            && (key in after <==> key in db.apiKeys)
            && (key in after ==>
                && after[key].workspace == db.apiKeys[key].workspace
                && (after[key].active <==> db.apiKeys[key].active && db.apiKeys[key].workspace != workspace))
  {
  }

  /** The first report of a run leaves a ledger row under the workspace that it names, which is
      where the purge of that workspace finds it. */
  lemma ReportIsPurged(db: Database, d: Delta)
    requires d.run.Some? && d.run.value !in db.ledger
    ensures d.run.value in RunsOf(UpdateStats(db, d).ledger, d.workspace)
    ensures forall w :: w != d.workspace ==> RunsOf(UpdateStats(db, d).ledger, w) == RunsOf(db.ledger, w)
    ensures d.run.value !in DeleteSideTables(UpdateStats(db, d), d.workspace).ledger
  {
    forall w | w != d.workspace ensures RunsOf(UpdateStats(db, d).ledger, w) == RunsOf(db.ledger, w) {
    }
  }
}
