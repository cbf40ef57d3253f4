/** The operator-triggered purge of one workspace: four methods, each idempotent by itself,
    run in any order and any number of times by a retried workflow. */
module WorkspacePurge {
  import opened Tables

  datatype Kind = Data | Side | Eval | Keys

  function Purge(db: Database, workspace: string, kind: Kind): Database {
    match kind
    case Data => Execute(db, OpPurgeData(workspace))
    case Side => Execute(db, OpPurgeSide(workspace))
    case Eval => Execute(db, OpPurgeEval(workspace))
    case Keys => Execute(db, OpRevoke(workspace))
  }

  function PurgeAll(db: Database, workspace: string, kinds: seq<Kind>): Database {
    if kinds == [] then db
    else Purge(PurgeAll(db, workspace, kinds[..|kinds| - 1]), workspace, kinds[|kinds| - 1])
  }

  /** The side tables a set of purge methods covers. */
  function Covered(done: set<Kind>): set<SideTable> {
    (if Side in done then PipelineTables else {}) + (if Eval in done then EvalTables else {})
  }

  /** The database once a given set of purge methods has run, however often, in whatever order. */
  function Purged(db: Database, workspace: string, done: set<Kind>): Database {
    var data := if Data in done then DeleteWorkspaceData(db, workspace) else db;
    data.(side := WithoutSideRows(db.side, Covered(done), workspace),
          ledger := if Side in done then WithoutRuns(db.ledger, workspace) else db.ledger,
          apiKeys := if Keys in done then Revoked(db.apiKeys, workspace) else db.apiKeys)
  }

  lemma NothingPurged(db: Database, workspace: string)
    ensures Purged(db, workspace, {}) == db
  {
    assert WithoutSideRows(db.side, {}, workspace) == db.side;
  }

  lemma DataTwice(db: Database, workspace: string)
    ensures DeleteWorkspaceData(DeleteWorkspaceData(db, workspace), workspace) == DeleteWorkspaceData(db, workspace)
  {
    var once := DeleteWorkspaceData(db, workspace);
    assert DocumentsOf(once, workspace) == {};
    assert ChunkKeysOf(once.chunks, {}) == {};
    assert ChunkIds(once.chunks, {}) == {};
    assert EventsOutside(once.reuse, {}) == once.reuse;
    assert once.chunks - {} == once.chunks;
    assert once.documents - {} == once.documents;
    assert once.workspaces - {workspace} == once.workspaces;
  }

  /** The data purge reads and writes none of the columns the other three write. */
  lemma DataIsIndependent(
    db: Database, workspace: string, side: map<SideRow, string>, ledger: map<RunId, string>, keys: map<nat, ApiKey>)
    ensures DeleteWorkspaceData(db.(side := side, ledger := ledger, apiKeys := keys), workspace)
            == DeleteWorkspaceData(db, workspace).(side := side, ledger := ledger, apiKeys := keys)
  {
    assert DocumentsOf(db.(side := side, ledger := ledger, apiKeys := keys), workspace) == DocumentsOf(db, workspace);
  }

  lemma DataStep(db: Database, workspace: string, done: set<Kind>)
    ensures Purge(Purged(db, workspace, done), workspace, Data) == Purged(db, workspace, done + {Data})
  {
    var before := Purged(db, workspace, done);
    DataTwice(db, workspace);
    DataIsIndependent(if Data in done then DeleteWorkspaceData(db, workspace) else db, workspace,
                      before.side, before.ledger, before.apiKeys);
    assert Covered(done + {Data}) == Covered(done);
  }

  lemma SideStep(db: Database, workspace: string, done: set<Kind>)
    ensures Purge(Purged(db, workspace, done), workspace, Side) == Purged(db, workspace, done + {Side})
  {
    assert Covered(done + {Side}) == Covered(done) + PipelineTables;
    SideRowsTwice(db.side, workspace, Covered(done), PipelineTables);
    assert WithoutRuns(WithoutRuns(db.ledger, workspace), workspace) == WithoutRuns(db.ledger, workspace);
    hide Covered, WithoutSideRows, WithoutRuns, DeleteWorkspaceData, Revoked;
  }

  lemma EvalStep(db: Database, workspace: string, done: set<Kind>)
    ensures Purge(Purged(db, workspace, done), workspace, Eval) == Purged(db, workspace, done + {Eval})
  {
    assert Covered(done + {Eval}) == Covered(done) + EvalTables;
    SideRowsTwice(db.side, workspace, Covered(done), EvalTables);
  }

  lemma KeysStep(db: Database, workspace: string, done: set<Kind>)
    ensures Purge(Purged(db, workspace, done), workspace, Keys) == Purged(db, workspace, done + {Keys})
  {
    assert Covered(done + {Keys}) == Covered(done);
    assert Revoked(Revoked(db.apiKeys, workspace), workspace) == Revoked(db.apiKeys, workspace);
  }

  lemma PurgeStep(db: Database, workspace: string, done: set<Kind>, kind: Kind)
    ensures Purge(Purged(db, workspace, done), workspace, kind) == Purged(db, workspace, done + {kind})
  {
    match kind
    case Data => DataStep(db, workspace, done);
    case Side => SideStep(db, workspace, done);
    case Eval => EvalStep(db, workspace, done);
    case Keys => KeysStep(db, workspace, done);
  }

  /** Order and repetition are irrelevant: the outcome depends only on which methods ran. */
  lemma {:induction false} OrderIsIrrelevant(db: Database, workspace: string, kinds: seq<Kind>)
    ensures PurgeAll(db, workspace, kinds) == Purged(db, workspace, set k | k in kinds)
  {
    if kinds == [] {
      NothingPurged(db, workspace);
    } else {
      var init, last := kinds[..|kinds| - 1], kinds[|kinds| - 1];
      OrderIsIrrelevant(db, workspace, init);
      PurgeStep(db, workspace, (set k | k in init), last);
      assert kinds == init + [last];
      assert (set k | k in kinds) == (set k | k in init) + {last};
    }
  }

  /** A repeated purge is a no-op. */
  lemma SecondPurgeIsNoOp(db: Database, workspace: string, kinds: seq<Kind>, again: seq<Kind>)
    requires forall k :: k in again ==> k in kinds
    ensures PurgeAll(PurgeAll(db, workspace, kinds), workspace, again) == PurgeAll(db, workspace, kinds)
  {
    if again != [] {
      var init, last := again[..|again| - 1], again[|again| - 1];
      SecondPurgeIsNoOp(db, workspace, kinds, init);
      OrderIsIrrelevant(db, workspace, kinds);
      var done := set k | k in kinds;
      PurgeStep(db, workspace, done, last);
      assert again[|again| - 1] in again && done + {last} == done;
    }
  }

  // ---------------------------------------------------------------------------
  // count_workspace_residue
  // ---------------------------------------------------------------------------

  datatype Entry = Metadata | Documents | Chunks | StatsLedger | ActiveKeys | SideEntry(table: SideTable)

  function ChunksLabelled(chunks: map<ChunkKey, Chunk>, workspace: string): set<ChunkKey> {
    set k | k in chunks && chunks[k].workspace == workspace
  }

  function Residue(db: Database, workspace: string, entry: Entry): nat {
    match entry
    case Metadata => if workspace in db.workspaces then 1 else 0
    case Documents => |DocumentsOf(db, workspace)|
    case Chunks => |ChunksLabelled(db.chunks, workspace)|
    case StatsLedger => |RunsOf(db.ledger, workspace)|
    case ActiveKeys => |ActiveKeysOf(db.apiKeys, workspace)|
    case SideEntry(table) => |SideRowsOf(db.side, table, workspace)|
  }

  /** Chunk rows labelled with a workspace, under a document row of another workspace or of none. */
  function Mislabelled(db: Database, workspace: string): set<ChunkKey> {
    set k | k in db.chunks && db.chunks[k].workspace == workspace && k.document !in DocumentsOf(db, workspace)
  }

  ghost predicate Complete(kinds: seq<Kind>) {
    Data in kinds && Side in kinds && Eval in kinds && Keys in kinds
  }

  lemma CoveredAll(done: set<Kind>, table: SideTable)
    requires Side in done && Eval in done
    ensures table in Covered(done)
  {
  }

  /** After the four methods, in any order, every entry is zero except that the mislabelled
      chunk rows survive: nothing else can. */
  lemma ResidueAfterPurge(db: Database, workspace: string, kinds: seq<Kind>, entry: Entry)
    requires Complete(kinds)
    ensures Residue(PurgeAll(db, workspace, kinds), workspace, entry)
            == if entry == Chunks then |Mislabelled(db, workspace)| else 0
  {
    OrderIsIrrelevant(db, workspace, kinds);
    var after := Purged(db, workspace, set k | k in kinds);
    match entry
    case Metadata =>
    case Documents => assert DocumentsOf(after, workspace) == {};
    case Chunks => assert ChunksLabelled(after.chunks, workspace) == Mislabelled(db, workspace);
    case StatsLedger => assert RunsOf(after.ledger, workspace) == {};
    case ActiveKeys => assert ActiveKeysOf(after.apiKeys, workspace) == {};
    case SideEntry(table) =>
      CoveredAll((set k | k in kinds), table);
      assert SideRowsOf(after.side, table, workspace) == {};
  }

  /** The purge is verified clean exactly when no chunk row was mislabelled. */
  lemma PurgeIsCompleteExactly(db: Database, workspace: string, kinds: seq<Kind>)
    requires Complete(kinds)
    ensures (forall entry :: Residue(PurgeAll(db, workspace, kinds), workspace, entry) == 0)
            <==> Mislabelled(db, workspace) == {}
  {
    hide PurgeAll, Residue;
    if Mislabelled(db, workspace) == {} {
      forall entry ensures Residue(PurgeAll(db, workspace, kinds), workspace, entry) == 0 {
        ResidueAfterPurge(db, workspace, kinds, entry);
      }
    } else {
      ResidueAfterPurge(db, workspace, kinds, Chunks);
    }
  }

  /** Chunk rows of another workspace that a purge takes along because of their parent. */
  function Foreign(db: Database, purged: string, other: string): set<ChunkKey> {
    set k | k in db.chunks && db.chunks[k].workspace == other && k.document in DocumentsOf(db, purged)
  }

  lemma OthersKeepChunks(db: Database, workspace: string, done: set<Kind>, other: string)
    requires other != workspace
    ensures Residue(Purged(db, workspace, done), other, Chunks)
            == Residue(db, other, Chunks) - if Data in done then |Foreign(db, workspace, other)| else 0
  {
    var foreign := Foreign(db, workspace, other);
    if Data in done {
      assert ChunksLabelled(Purged(db, workspace, done).chunks, other) == ChunksLabelled(db.chunks, other) - foreign;
      assert foreign <= ChunksLabelled(db.chunks, other);
    }
  }

  lemma OthersKeepEntries(db: Database, workspace: string, done: set<Kind>, other: string, entry: Entry)
    requires other != workspace && entry != Chunks
    ensures Residue(Purged(db, workspace, done), other, entry) == Residue(db, other, entry)
  {
    var after := Purged(db, workspace, done);
    match entry
    case Metadata =>
    case Documents => assert DocumentsOf(after, other) == DocumentsOf(db, other);
    case StatsLedger => assert RunsOf(after.ledger, other) == RunsOf(db.ledger, other);
    case ActiveKeys => assert ActiveKeysOf(after.apiKeys, other) == ActiveKeysOf(db.apiKeys, other);
    case SideEntry(table) => assert SideRowsOf(after.side, table, other) == SideRowsOf(db.side, table, other);
  }

  /** Every other workspace keeps every count, whichever methods ran, up to the chunk rows
      labelled with it under a purged document. */
  lemma OthersKeepTheirRows(db: Database, workspace: string, kinds: seq<Kind>, other: string, entry: Entry)
    requires other != workspace
    ensures Residue(PurgeAll(db, workspace, kinds), other, entry)
            == Residue(db, other, entry)
               - if entry == Chunks && Data in kinds then |Foreign(db, workspace, other)| else 0
  {
    OrderIsIrrelevant(db, workspace, kinds);
    if entry == Chunks {
      OthersKeepChunks(db, workspace, (set k | k in kinds), other);
    } else {
      OthersKeepEntries(db, workspace, (set k | k in kinds), other, entry);
    }
  }

  // ---------------------------------------------------------------------------
  // Where labels come from
  // ---------------------------------------------------------------------------

  /** Every chunk row carries its document row's workspace, and has a document row. */
  ghost predicate Labelled(db: Database) {
    forall k :: k in db.chunks ==>
      k.document in db.documents && db.chunks[k].workspace == db.documents[k.document].workspace
  }

  lemma LabelledIsUnmixed(db: Database, workspace: string, other: string)
    requires Labelled(db) && workspace != other
    ensures Mislabelled(db, workspace) == {} && Foreign(db, workspace, other) == {}
  {
    assert forall k :: k in Foreign(db, workspace, other) ==> k in db.chunks;
  }

  /** Every index of the batch is taken: nothing goes in. */
  ghost predicate NothingNew(db: Database, op: Operation)
    requires op.OpStore?
  {
    var kept := Cleared(db, op.upload.document, op.append).chunks;
    forall i :: 0 <= i < |op.batch| ==> ChunkKey(op.upload.document, op.batch[i].index) in kept
  }

  /** The message's workspace is that of the row it writes to, if there is one. */
  predicate RightWorkspace(db: Database, op: Operation)
    requires op.OpStore?
  {
    op.upload.document in db.documents ==> db.documents[op.upload.document].workspace == op.upload.workspace
  }

  lemma {:induction false} NothingNewInserts(
    chunks: map<ChunkKey, Chunk>, nextId: nat, upload: Upload, batch: seq<NewChunk>)
    requires forall i :: 0 <= i < |batch| ==> ChunkKey(upload.document, batch[i].index) in chunks
    ensures InsertChunks(chunks, nextId, upload, batch) == chunks
  {
    if batch != [] {
      NothingNewInserts(chunks, nextId, upload, batch[..|batch| - 1]);
    }
  }

  lemma {:induction false} NewKeyGoesIn(
    chunks: map<ChunkKey, Chunk>, nextId: nat, upload: Upload, batch: seq<NewChunk>, i: nat)
    requires i < |batch|
    ensures ChunkKey(upload.document, batch[i].index) in InsertChunks(chunks, nextId, upload, batch)
  {
    if i < |batch| - 1 {
      NewKeyGoesIn(chunks, nextId, upload, batch[..|batch| - 1], i);
    }
  }

  lemma ClearedIsLabelled(db: Database, op: Operation)
    requires Labelled(db) && op.OpStore?
    ensures var cleared := Cleared(db, op.upload.document, op.append);
            forall k :: k in cleared.chunks ==>
              k in db.chunks && cleared.chunks[k] == db.chunks[k] && (op.append || k.document != op.upload.document)
  {
  }

  /** The document row that a store leaves has the old row's workspace, or the message's. */
  lemma StoredWorkspace(db: Database, op: Operation)
    requires op.OpStore? && Unfenced(db, op.upload.document, op.run)
    ensures var d, after := op.upload.document, Execute(db, op);
            && d in after.documents
            && after.documents[d].workspace
                == (if d in db.documents then db.documents[d].workspace else op.upload.workspace)
            && forall other :: other != d ==>
                 (other in after.documents <==> other in db.documents)
                 && (other in db.documents ==> after.documents[other] == db.documents[other])
  {
  }

  lemma MatchingStoreKeeps(db: Database, op: Operation)
    requires Labelled(db) && op.OpStore? && Unfenced(db, op.upload.document, op.run)
    requires RightWorkspace(db, op) || NothingNew(db, op)
    ensures Labelled(Execute(db, op))
  {
    var d, after := op.upload.document, Execute(db, op);
    var cleared := Cleared(db, d, op.append);
    ClearedIsLabelled(db, op);
    StoredWorkspace(db, op);
    StoredChunks(db, op);
    InsertChunksFrame(cleared.chunks, cleared.nextChunkId, op.upload, op.batch);
    if NothingNew(db, op) {
      NothingNewInserts(cleared.chunks, cleared.nextChunkId, op.upload, op.batch);
    }
    hide Execute, Cleared, InsertChunks, NothingNew;
    forall k | k in after.chunks
      ensures k.document in after.documents && after.chunks[k].workspace == after.documents[k.document].workspace
    {
      if k in cleared.chunks {
        assert k in db.chunks;
      }
    }
  }

  lemma StoredChunks(db: Database, op: Operation)
    requires op.OpStore? && Unfenced(db, op.upload.document, op.run)
    ensures var cleared := Cleared(db, op.upload.document, op.append);
            Execute(db, op).chunks == InsertChunks(cleared.chunks, cleared.nextChunkId, op.upload, op.batch)
  {
  }

  /** A store stamps its chunks with the message's workspace but never changes an existing
      row's: labels stay right exactly when the two agree, or nothing goes in. */
  lemma StoreKeepsLabels(db: Database, op: Operation)
    requires Labelled(db) && op.OpStore? && Unfenced(db, op.upload.document, op.run)
    ensures Labelled(Execute(db, op)) <==> RightWorkspace(db, op) || NothingNew(db, op)
  {
    if RightWorkspace(db, op) || NothingNew(db, op) {
      MatchingStoreKeeps(db, op);
    } else {
      MismatchBreaks(db, op);
    }
  }

  lemma MismatchBreaks(db: Database, op: Operation)
    requires op.OpStore? && Unfenced(db, op.upload.document, op.run) && !RightWorkspace(db, op) && !NothingNew(db, op)
    ensures !Labelled(Execute(db, op))
  {
    var d, after := op.upload.document, Execute(db, op);
    var cleared := Cleared(db, d, op.append);
    var i :| 0 <= i < |op.batch| && ChunkKey(d, op.batch[i].index) !in cleared.chunks;
    NewKeyGoesIn(cleared.chunks, cleared.nextChunkId, op.upload, op.batch, i);
    InsertChunksFrame(cleared.chunks, cleared.nextChunkId, op.upload, op.batch);
    StoredWorkspace(db, op);
    assert ChunkKey(d, op.batch[i].index) in after.chunks;
  }

  /** Every store of a history that is not fenced out carries its row's workspace. */
  ghost predicate AllMatching(db: Database, ops: seq<Operation>) {
    ops != [] ==>
      var before, op := ExecuteAll(db, ops[..|ops| - 1]), ops[|ops| - 1];
      AllMatching(db, ops[..|ops| - 1]) && (op.OpStore? ==> RightWorkspace(before, op))
  }

  lemma DropKeepsLabels(db: Database, documents: set<string>)
    requires Labelled(db)
    ensures Labelled(DropDocuments(db, documents))
  {
  }

  lemma OperationKeepsLabels(db: Database, op: Operation)
    requires Labelled(db) && (op.OpStore? ==> RightWorkspace(db, op))
    ensures Labelled(Execute(db, op))
  {
    match op
    case OpStore(upload, _, _, run, _, _) =>
      if Unfenced(db, upload.document, run) {
        MatchingStoreKeeps(db, op);
      }
    case OpDelete(document, _) => DropKeepsLabels(db, {document});
    case OpPurgeData(workspace) => DropKeepsLabels(db, DocumentsOf(db, workspace));
    case _ =>
  }

  /** In every reachable state the labels are right, so every purge is clean, as long as each
      store carries the workspace of the row it writes to. */
  lemma {:induction false} LabelsStayRight(db: Database, ops: seq<Operation>)
    requires Labelled(db) && AllMatching(db, ops)
    ensures Labelled(ExecuteAll(db, ops))
  {
    if ops != [] {
      LabelsStayRight(db, ops[..|ops| - 1]);
      OperationKeepsLabels(ExecuteAll(db, ops[..|ops| - 1]), ops[|ops| - 1]);
    }
  }

  // ---------------------------------------------------------------------------
  // Histories in which a document's messages agree
  // ---------------------------------------------------------------------------

  const EMPTY := Database(map[], map[], 0, {}, map[], map[], map[], map[])

  /** A claim or a store of the document, in the name of the workspace. */
  predicate Sends(op: Operation, document: string, workspace: string) {
    (op.OpClaim? || op.OpStore?) && op.upload.document == document && op.upload.workspace == workspace
  }

  /** All claims and stores of one document carry the same workspace. */
  ghost predicate MessagesAgree(ops: seq<Operation>) {
    forall i, j :: 0 <= i < |ops| && 0 <= j < |ops|
                   && (ops[i].OpClaim? || ops[i].OpStore?) && (ops[j].OpClaim? || ops[j].OpStore?)
                   && ops[i].upload.document == ops[j].upload.document ==>
                     ops[i].upload.workspace == ops[j].upload.workspace
  }

  ghost predicate SentBefore(ops: seq<Operation>, document: string, workspace: string) {
    exists i :: 0 <= i < |ops| && Sends(ops[i], document, workspace)
  }

  /** An operation keeps a row's workspace, or gives a new row its message's. */
  lemma RowWorkspaceStep(db: Database, op: Operation, document: string)
    requires document in Execute(db, op).documents
    ensures var workspace := Execute(db, op).documents[document].workspace;
            if document in db.documents then workspace == db.documents[document].workspace
            else Sends(op, document, workspace)
  {
    match op
    case OpStore(_, _, _, _, _, _) => StoreGivesWorkspace(db, op, document);
    case _ =>
  }

  lemma StoreGivesWorkspace(db: Database, op: Operation, document: string)
    requires op.OpStore? && document in Execute(db, op).documents
    ensures var workspace := Execute(db, op).documents[document].workspace;
            if document in db.documents then workspace == db.documents[document].workspace
            else Sends(op, document, workspace)
  {
    hide Store;
    if document != op.upload.document {
      StoreFrame(db, op.upload, op.batch, op.textLength, op.run, op.append, op.now, document);
    } else {
      StoreIsWrittenExactly(db, op.upload, op.batch, op.textLength, op.run, op.append, op.now);
    }
  }

  /** Every row's workspace is one that a claim or a store of the document carried. */
  lemma {:induction false} RowsAreSent(ops: seq<Operation>, document: string)
    requires document in ExecuteAll(EMPTY, ops).documents
    ensures SentBefore(ops, document, ExecuteAll(EMPTY, ops).documents[document].workspace)
  {
    hide Execute;
    var init, last := ops[..|ops| - 1], ops[|ops| - 1];
    var before := ExecuteAll(EMPTY, init);
    var workspace := ExecuteAll(EMPTY, ops).documents[document].workspace;
    RowWorkspaceStep(before, last, document);
    if document in before.documents {
      RowsAreSent(init, document);
      var i :| 0 <= i < |init| && Sends(init[i], document, workspace);
      assert Sends(ops[i], document, workspace);
    } else {
      assert Sends(ops[|ops| - 1], document, workspace);
    }
  }

  lemma {:induction false} AgreeingIsMatching(ops: seq<Operation>)
    requires MessagesAgree(ops)
    ensures AllMatching(EMPTY, ops)
  {
    if ops != [] {
      hide Execute;
      var init, last := ops[..|ops| - 1], ops[|ops| - 1];
      assert forall i :: 0 <= i < |init| ==> init[i] == ops[i];
      AgreeingIsMatching(init);
      var before := ExecuteAll(EMPTY, init);
      if last.OpStore? && last.upload.document in before.documents {
        var workspace := before.documents[last.upload.document].workspace;
        RowsAreSent(init, last.upload.document);
        var i :| 0 <= i < |init| && Sends(init[i], last.upload.document, workspace);
        assert ops[i] == init[i] && ops[|ops| - 1] == last;
      }
    }
  }

  /** From the empty database, in every history whose claims and stores of one document carry one
      workspace: each row belongs to the workspace that the document's messages name, each chunk
      row is labelled with its row's workspace, and so a purge of any workspace is clean. */
  lemma AgreeingMessagesKeepLabels(ops: seq<Operation>, workspace: string, kinds: seq<Kind>)
    requires MessagesAgree(ops) && Complete(kinds)
    ensures var db := ExecuteAll(EMPTY, ops);
            && Labelled(db)
            && (forall i :: 0 <= i < |ops| && (ops[i].OpClaim? || ops[i].OpStore?)
                            && ops[i].upload.document in db.documents ==>
                              db.documents[ops[i].upload.document].workspace == ops[i].upload.workspace)
            && forall entry :: Residue(PurgeAll(db, workspace, kinds), workspace, entry) == 0
  {
    hide ExecuteAll, PurgeAll, Residue;
    var db := ExecuteAll(EMPTY, ops);
    AgreeingIsMatching(ops);
    LabelsStayRight(EMPTY, ops);
    LabelledIsUnmixed(db, workspace, workspace + "'");
    PurgeIsCompleteExactly(db, workspace, kinds);
    forall i | 0 <= i < |ops| && (ops[i].OpClaim? || ops[i].OpStore?) && ops[i].upload.document in db.documents
      ensures db.documents[ops[i].upload.document].workspace == ops[i].upload.workspace
    {
      var d := ops[i].upload.document;
      RowsAreSent(ops, d);
      var j :| 0 <= j < |ops| && Sends(ops[j], d, db.documents[d].workspace);
    }
  }

  /** What an entry of zero says: there is no such row. */
  lemma ResidueZeroExactly(db: Database, workspace: string, table: SideTable)
    ensures Residue(db, workspace, Metadata) == 0 <==> workspace !in db.workspaces
    ensures Residue(db, workspace, Documents) == 0
        <==> (forall d :: d in db.documents ==> db.documents[d].workspace != workspace)
    ensures Residue(db, workspace, Chunks) == 0
        <==> (forall k :: k in db.chunks ==> db.chunks[k].workspace != workspace)
    ensures Residue(db, workspace, StatsLedger) == 0
        <==> (forall r :: r in db.ledger ==> db.ledger[r] != workspace)
    ensures Residue(db, workspace, ActiveKeys) == 0
        <==> (forall k :: k in db.apiKeys && db.apiKeys[k].active ==> db.apiKeys[k].workspace != workspace)
    ensures Residue(db, workspace, SideEntry(table)) == 0
        <==> (forall r :: r in db.side && r.table == table ==> db.side[r] != workspace)
  {
    EmptyExactly(DocumentsOf(db, workspace));
    EmptyExactly(ChunksLabelled(db.chunks, workspace));
    EmptyExactly(RunsOf(db.ledger, workspace));
    EmptyExactly(ActiveKeysOf(db.apiKeys, workspace));
    EmptyExactly(SideRowsOf(db.side, table, workspace));
    assert forall d :: d in DocumentsOf(db, workspace) <==> d in db.documents && db.documents[d].workspace == workspace;
    assert forall k :: k in ChunksLabelled(db.chunks, workspace)
                       <==> k in db.chunks && db.chunks[k].workspace == workspace;
    assert forall r :: r in RunsOf(db.ledger, workspace) <==> r in db.ledger && db.ledger[r] == workspace;
    assert forall k :: k in ActiveKeysOf(db.apiKeys, workspace)
                       <==> k in db.apiKeys && db.apiKeys[k].active && db.apiKeys[k].workspace == workspace;
    assert forall r :: r in SideRowsOf(db.side, table, workspace)
                       <==> r in db.side && r.table == table && db.side[r] == workspace;
  }

  lemma EmptyExactly<T>(s: set<T>)
    ensures |s| == 0 <==> forall x :: x !in s
  {
    if |s| == 0 {
      assert s == {};
    }
    if forall x :: x !in s {
      assert s == {};
    }
  }
}
