/** The chunk-reuse ledger: one event row per (source chunk, reusing document, content hash),
    and a counter on the source chunk that must always agree with it. */
module ReuseLedger {
  import opened Tables

  function EventsOf(reuse: set<ReuseEvent>, id: nat): set<ReuseEvent> {
    set e | e in reuse && e.source == id
  }

  /** Serial ids are unique and below the counter. */
  ghost predicate IdsOk(chunks: map<ChunkKey, Chunk>, nextId: nat) {
    && (forall k :: k in chunks ==> chunks[k].id < nextId)
    && (forall k, l :: k in chunks && l in chunks && chunks[k].id == chunks[l].id ==> k == l)
  }

  /** Every event names a living chunk. */
  ghost predicate EventsOk(chunks: map<ChunkKey, Chunk>, reuse: set<ReuseEvent>) {
    forall e :: e in reuse ==> NamesChunk(chunks, e.source)
  }

  /** Every chunk's `reuse_count` is the number of events that name it. */
  ghost predicate CountsOk(chunks: map<ChunkKey, Chunk>, reuse: set<ReuseEvent>) {
    forall k :: k in chunks ==> chunks[k].reuseCount == |EventsOf(reuse, chunks[k].id)|
  }

  ghost predicate Conserved(chunks: map<ChunkKey, Chunk>, nextId: nat, reuse: set<ReuseEvent>) {
    IdsOk(chunks, nextId) && EventsOk(chunks, reuse) && CountsOk(chunks, reuse)
  }

  ghost predicate Inv(db: Database) {
    Conserved(db.chunks, db.nextChunkId, db.reuse)
  }

  // ---------------------------------------------------------------------------
  // The three ways the ledger changes
  // ---------------------------------------------------------------------------

  lemma DropKeepsEvents(db: Database, drop: set<ChunkKey>)
    requires EventsOk(db.chunks, db.reuse)
    ensures EventsOk(DropChunks(db, drop).chunks, DropChunks(db, drop).reuse)
  {
    var after := DropChunks(db, drop);
    forall e | e in after.reuse ensures NamesChunk(after.chunks, e.source) {
      var k :| k in db.chunks && HasId(db.chunks, k, e.source);
      assert k !in drop;
      assert HasId(after.chunks, k, e.source);
    }
  }

  lemma DropKeepsCounts(db: Database, drop: set<ChunkKey>)
    requires IdsOk(db.chunks, db.nextChunkId) && CountsOk(db.chunks, db.reuse)
    ensures CountsOk(DropChunks(db, drop).chunks, DropChunks(db, drop).reuse)
  {
    var gone := ChunkIds(db.chunks, drop);
    var after := DropChunks(db, drop);
    forall k | k in after.chunks ensures after.chunks[k].reuseCount == |EventsOf(after.reuse, after.chunks[k].id)| {
      assert after.chunks[k].id !in gone;
      assert EventsOf(after.reuse, after.chunks[k].id) == EventsOf(db.reuse, after.chunks[k].id);
    }
  }

  /** A cascading delete takes the events of the deleted chunks, and no others. */
  lemma DropKeeps(db: Database, drop: set<ChunkKey>)
    requires Inv(db)
    ensures Inv(DropChunks(db, drop))
  {
    DropKeepsEvents(db, drop);
    DropKeepsCounts(db, drop);
  }

  lemma InsertOneKeeps(
    chunks: map<ChunkKey, Chunk>, id: nat, next: nat, reuse: set<ReuseEvent>, upload: Upload, chunk: NewChunk)
    requires Conserved(chunks, id, reuse) && next == id + 1
    ensures Conserved(InsertChunk(chunks, id, upload, chunk), next, reuse)
  {
    var rows := InsertChunk(chunks, id, upload, chunk);
    forall e | e in reuse ensures NamesChunk(rows, e.source) && e.source != id {
      var k :| k in chunks && HasId(chunks, k, e.source);
      assert HasId(rows, k, e.source);
    }
    assert EventsOf(reuse, id) == {};
  }

  lemma InsertLast(chunks: map<ChunkKey, Chunk>, nextId: nat, upload: Upload, batch: seq<NewChunk>, last: nat)
    requires batch != [] && last == nextId + |batch| - 1
    ensures InsertChunks(chunks, nextId, upload, batch)
            == InsertChunk(InsertChunks(chunks, nextId, upload, batch[..|batch| - 1]), last, upload, batch[|batch| - 1])
  {
  }

  /** Freshly inserted chunks have fresh ids, which no event can name yet. */
  lemma {:induction false} InsertKeeps(
    chunks: map<ChunkKey, Chunk>, nextId: nat, reuse: set<ReuseEvent>, upload: Upload, batch: seq<NewChunk>, after: nat)
    requires Conserved(chunks, nextId, reuse) && after == nextId + |batch|
    ensures Conserved(InsertChunks(chunks, nextId, upload, batch), after, reuse)
  {
    if batch != [] {
      hide Conserved, InsertChunks, InsertChunk;
      var init, last := batch[..|batch| - 1], after - 1;
      InsertKeeps(chunks, nextId, reuse, upload, init, last);
      InsertOneKeeps(InsertChunks(chunks, nextId, upload, init), last, after, reuse, upload, batch[|batch| - 1]);
      InsertLast(chunks, nextId, upload, batch, last);
    }
  }

  lemma ReusedKeepsEvents(chunks: map<ChunkKey, Chunk>, reuse: set<ReuseEvent>, event: ReuseEvent)
    requires EventsOk(chunks, reuse) && NamesChunk(chunks, event.source)
    ensures EventsOk(Reused(chunks, event.source), reuse + {event})
  {
    forall e | e in reuse + {event} ensures NamesChunk(Reused(chunks, event.source), e.source) {
      var k :| k in chunks && HasId(chunks, k, e.source);
      assert HasId(Reused(chunks, event.source), k, e.source);
    }
  }

  lemma ReusedKeepsCounts(chunks: map<ChunkKey, Chunk>, reuse: set<ReuseEvent>, event: ReuseEvent)
    requires CountsOk(chunks, reuse) && event !in reuse
    ensures CountsOk(Reused(chunks, event.source), reuse + {event})
  {
    var after := Reused(chunks, event.source);
    forall k | k in after ensures after[k].reuseCount == |EventsOf(reuse + {event}, after[k].id)| {
      var id := after[k].id;
      assert EventsOf(reuse + {event}, id) == EventsOf(reuse, id) + if event.source == id then {event} else {};
    }
  }

  lemma RecordKeeps(db: Database, event: ReuseEvent)
    requires Inv(db)
    ensures Inv(RecordReuse(db, event))
  {
    if event !in db.reuse && NamesChunk(db.chunks, event.source) {
      ReusedKeepsEvents(db.chunks, db.reuse, event);
      ReusedKeepsCounts(db.chunks, db.reuse, event);
    }
  }

  lemma StoreKeeps(db: Database, op: Operation)
    requires Inv(db) && op.OpStore?
    ensures Inv(Execute(db, op))
  {
    var cleared := Cleared(db, op.upload.document, op.append);
    if !op.append {
      DropKeeps(db, ChunkKeysOf(db.chunks, {op.upload.document}));
    }
    var next := cleared.nextChunkId + |op.batch|;
    InsertKeeps(cleared.chunks, cleared.nextChunkId, cleared.reuse, op.upload, op.batch, next);
  }

  lemma DropDocumentsKeeps(db: Database, documents: set<string>)
    requires Inv(db)
    ensures Inv(DropDocuments(db, documents))
  {
    DropKeeps(db.(documents := db.documents - documents), ChunkKeysOf(db.chunks, documents));
  }

  lemma OperationKeeps(db: Database, op: Operation)
    requires Inv(db)
    ensures Inv(Execute(db, op))
  {
    match op
    case OpStore(_, _, _, _, _, _) => StoreKeeps(db, op);
    case OpReuse(event) => RecordKeeps(db, event);
    case OpDelete(document, _) => DropDocumentsKeeps(db, {document});
    case OpPurgeData(workspace) => DropDocumentsKeeps(db, DocumentsOf(db, workspace));
    case _ =>
  }

  /** Conservation in every reachable state: re-ingestion, appends, cascading deletes and
      purges included, each chunk's counter equals the number of events naming it. */
  lemma {:induction false} ReuseConserved(db: Database, ops: seq<Operation>)
    requires Inv(db)
    ensures Inv(ExecuteAll(db, ops))
  {
    if ops != [] {
      ReuseConserved(db, ops[..|ops| - 1]);
      OperationKeeps(ExecuteAll(db, ops[..|ops| - 1]), ops[|ops| - 1]);
    }
  }

  /** Looking a chunk up and recording a reuse of it finds that chunk's row and no other: a new
      event adds one to its counter and leaves every other chunk row as it is. */
  lemma LookupIsWhatIsCounted(db: Database, key: ChunkKey, event: ReuseEvent)
    requires Inv(db) && key in db.chunks && event.source == db.chunks[key].id && event !in db.reuse
    ensures RecordReuse(db, event)
            == db.(reuse := db.reuse + {event},
                   chunks := db.chunks[key := db.chunks[key].(reuseCount := db.chunks[key].reuseCount + 1)])
  {
    assert HasId(db.chunks, key, event.source);
    assert Reused(db.chunks, event.source)
           == db.chunks[key := db.chunks[key].(reuseCount := db.chunks[key].reuseCount + 1)];
  }
}
