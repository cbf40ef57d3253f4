/** The append path of a conversation document: flushes stamped with a continuing chunk
    offset, acknowledged one by one, and replayed any number of times by activity retries. */
module AppendFlushes {
  import opened Wrappers
  import opened Tables

  /** One flush of a conversation: its chunk contents and what it adds to the counters. */
  datatype Flush = Flush(contents: seq<string>, textLength: nat, size: Size)

  /** A flush once `chunk_conversation` has stamped its indices. Retries re-send it verbatim. */
  datatype Call = Call(offset: nat, flush: Flush)

  datatype Event = Fresh(flush: Flush) | Replay(call: nat)

  datatype Conversation = Conversation(db: Database, calls: seq<Call>)

  function Stamp(offset: nat, contents: seq<string>): (batch: seq<NewChunk>)
    ensures |batch| == |contents|
    ensures forall i :: 0 <= i < |batch| ==> batch[i] == NewChunk(offset + i, contents[i])
  {
    if contents == [] then []
    else Stamp(offset, contents[..|contents| - 1]) + [NewChunk(offset + |contents| - 1, contents[|contents| - 1])]
  }

  function Send(db: Database, document: string, workspace: string, run: RunId, call: Call): Database {
    Store(db, Upload(document, workspace, call.flush.size), Stamp(call.offset, call.flush.contents),
        call.flush.textLength, run, true, 0)
  }

  /** A fresh flush reads its offset from `get_document_chunk_count`; a replay repeats an
      acknowledged call. */
  function Step(c: Conversation, document: string, workspace: string, run: RunId, event: Event): Conversation {
    match event
    case Fresh(flush) =>
      var call := Call(ChunkCount(c.db, document), flush);
      Conversation(Send(c.db, document, workspace, run, call), c.calls + [call])
    case Replay(k) =>
      if k < |c.calls| then c.(db := Send(c.db, document, workspace, run, c.calls[k])) else c
  }

  function Play(db: Database, document: string, workspace: string, run: RunId, events: seq<Event>): Conversation {
    if events == [] then Conversation(db, [])
    else
      Step(Play(db, document, workspace, run, events[..|events| - 1]), document, workspace, run,
           events[|events| - 1])
  }

  // ---------------------------------------------------------------------------
  // What the distinct flushes amount to
  // ---------------------------------------------------------------------------

  function Flushes(events: seq<Event>): seq<Flush> {
    if events == [] then []
    else
      var last := events[|events| - 1];
      Flushes(events[..|events| - 1]) + if last.Fresh? then [last.flush] else []
  }

  /** All chunk contents, in flush order. */
  function Transcript(flushes: seq<Flush>): seq<string> {
    if flushes == [] then [] else Transcript(flushes[..|flushes| - 1]) + flushes[|flushes| - 1].contents
  }

  /** `text_length` counts every flush that carries a chunk. */
  function TextTotal(flushes: seq<Flush>): nat {
    if flushes == [] then 0
    else
      var last := flushes[|flushes| - 1];
      TextTotal(flushes[..|flushes| - 1]) + if last.contents == [] then 0 else last.textLength
  }

  /** `size_bytes` counts those too, and the first flush even when it carries none, because
      it creates the row. */
  function SizeTotal(flushes: seq<Flush>): nat {
    if flushes == [] then 0
    else
      var last := flushes[|flushes| - 1];
      SizeTotal(flushes[..|flushes| - 1]) + if last.contents == [] && |flushes| > 1 then 0 else last.size
  }

  function TextSum(flushes: seq<Flush>): nat {
    if flushes == [] then 0 else TextSum(flushes[..|flushes| - 1]) + flushes[|flushes| - 1].textLength
  }

  function SizeSum(flushes: seq<Flush>): nat {
    if flushes == [] then 0 else SizeSum(flushes[..|flushes| - 1]) + flushes[|flushes| - 1].size
  }

  function Indexed(contents: seq<string>): map<nat, string> {
    map i: nat | i < |contents| :: contents[i]
  }

  // ---------------------------------------------------------------------------
  // One call
  // ---------------------------------------------------------------------------

  lemma SplitLast<T>(a: seq<T>, b: seq<T>)
    requires b != []
    ensures a + b == (a + b[..|b| - 1]) + [b[|b| - 1]]
  {
  }

  lemma IndexedSnoc(contents: seq<string>, last: string)
    ensures Indexed(contents + [last]) == Indexed(contents)[|contents| := last]
  {
  }

  lemma {:induction false} IndexedSize(contents: seq<string>)
    ensures |Indexed(contents)| == |contents|
  {
    if contents != [] {
      var less, last := contents[..|contents| - 1], contents[|contents| - 1];
      IndexedSize(less);
      assert contents == less + [last];
      IndexedSnoc(less, last);
    }
  }

  /** A fresh batch continues the indexing. */
  lemma {:induction false} FreshInsert(contents: seq<string>, more: seq<string>)
    ensures InsertContents(Indexed(contents), Stamp(|contents|, more)) == Indexed(contents + more)
  {
    if more == [] {
      assert contents + more == contents;
    } else {
      var less, last := more[..|more| - 1], more[|more| - 1];
      FreshInsert(contents, less);
      SplitLast(contents, more);
      IndexedSnoc(contents + less, last);
      var batch := Stamp(|contents|, more);
      assert batch[..|batch| - 1] == Stamp(|contents|, less);
    }
  }

  /** A batch whose indices are all taken inserts nothing. */
  lemma {:induction false} ReplayInsert(contents: map<nat, string>, batch: seq<NewChunk>)
    requires forall c :: c in batch ==> c.index in contents
    ensures InsertContents(contents, batch) == contents
  {
    if batch != [] {
      ReplayInsert(contents, batch[..|batch| - 1]);
    }
  }

  // ---------------------------------------------------------------------------
  // Every history
  // ---------------------------------------------------------------------------

  ghost predicate Counted(row: Document, run: RunId, flushes: seq<Flush>) {
    && row.activeRun == Some(run)
    && row.chunkCount == |Transcript(flushes)|
    && row.textLength == TextTotal(flushes)
    && row.sizeBytes == SizeTotal(flushes)
  }

  ghost predicate Acknowledged(calls: seq<Call>, count: nat) {
    forall k :: 0 <= k < |calls| ==> calls[k].offset + |calls[k].flush.contents| <= count
  }

  /** The row and its chunks say exactly what the distinct flushes amount to. */
  ghost predicate Summarises(db: Database, document: string, run: RunId, flushes: seq<Flush>) {
    && Holds(db.chunks, document, Indexed(Transcript(flushes)))
    && (flushes == [] <==> document !in db.documents)
    && (flushes != [] ==> Counted(db.documents[document], run, flushes))
  }

  lemma TotalsSnoc(flushes: seq<Flush>, flush: Flush)
    ensures var all := flushes + [flush];
            && Transcript(all) == Transcript(flushes) + flush.contents
            && TextTotal(all) == TextTotal(flushes) + (if flush.contents == [] then 0 else flush.textLength)
            && SizeTotal(all) == SizeTotal(flushes) + (if flush.contents == [] && flushes != [] then 0 else flush.size)
  {
    assert (flushes + [flush])[..|flushes|] == flushes;
  }

  /** The chunk rows and the document row after a fresh call. */
  lemma FreshEffect(db: Database, document: string, workspace: string, run: RunId, contents: seq<string>, flush: Flush)
    requires Unfenced(db, document, run) && Holds(db.chunks, document, Indexed(contents))
    ensures var after := Send(db, document, workspace, run, Call(|contents|, flush));
            && Holds(after.chunks, document, Indexed(contents + flush.contents))
            && document in after.documents
            && after.documents[document] ==
               Grow(Upsert(db, Upload(document, workspace, flush.size), |flush.contents|, flush.textLength,
                           run, true, 0),
                    |flush.contents|, flush.textLength, flush.size, document !in db.documents)
  {
    FreshInsert(contents, flush.contents);
    IndexedSize(contents);
    IndexedSize(contents + flush.contents);
    StoreEffect(db, Upload(document, workspace, flush.size), Stamp(|contents|, flush.contents), flush.textLength,
                run, true, 0, Indexed(contents));
  }

  lemma FreshCall(db: Database, document: string, workspace: string, run: RunId, flushes: seq<Flush>, flush: Flush)
    requires Summarises(db, document, run, flushes)
    ensures ChunkCount(db, document) == |Transcript(flushes)|
    ensures var after := Send(db, document, workspace, run, Call(|Transcript(flushes)|, flush));
            Summarises(after, document, run, flushes + [flush])
    ensures |Transcript(flushes + [flush])| == |Transcript(flushes)| + |flush.contents|
  {
    TotalsSnoc(flushes, flush);
    FreshEffect(db, document, workspace, run, Transcript(flushes), flush);
  }

  lemma ReplayCall(db: Database, document: string, workspace: string, run: RunId, flushes: seq<Flush>, call: Call)
    requires Summarises(db, document, run, flushes) && flushes != []
    requires call.offset + |call.flush.contents| <= |Transcript(flushes)|
    ensures Summarises(Send(db, document, workspace, run, call), document, run, flushes)
  {
    var contents := Indexed(Transcript(flushes));
    var batch := Stamp(call.offset, call.flush.contents);
    ReplayInsert(contents, batch);
    StoreEffect(db, Upload(document, workspace, call.flush.size), batch, call.flush.textLength, run, true, 0, contents);
  }

  /** What a conversation must look like after these distinct flushes. */
  ghost predicate Tells(c: Conversation, document: string, run: RunId, flushes: seq<Flush>) {
    && Summarises(c.db, document, run, flushes)
    && |c.calls| == |flushes|
    && Acknowledged(c.calls, |Transcript(flushes)|)
  }

  lemma FreshStep(c: Conversation, document: string, workspace: string, run: RunId, flushes: seq<Flush>, flush: Flush)
    requires Tells(c, document, run, flushes)
    ensures Tells(Step(c, document, workspace, run, Fresh(flush)), document, run, flushes + [flush])
  {
    hide Send, Summarises, ChunkCount, Transcript;
    FreshCall(c.db, document, workspace, run, flushes, flush);
  }

  lemma ReplayStep(c: Conversation, document: string, workspace: string, run: RunId, flushes: seq<Flush>, k: nat)
    requires Tells(c, document, run, flushes)
    ensures Tells(Step(c, document, workspace, run, Replay(k)), document, run, flushes)
  {
    hide Send, Summarises, Transcript;
    if k < |c.calls| {
      ReplayCall(c.db, document, workspace, run, flushes, c.calls[k]);
    }
  }

  /** Whatever is replayed, and how often: the chunk rows are the transcript, indexed
      0..`chunk_count`-1, and the counters count each distinct flush once. */
  lemma {:induction false} FlushesCountOnce(
    db: Database, document: string, workspace: string, run: RunId, events: seq<Event>)
    requires document !in db.documents && Holds(db.chunks, document, map[])
    ensures Tells(Play(db, document, workspace, run, events), document, run, Flushes(events))
  {
    if events != [] {
      hide Tells, Step;
      var init, last := events[..|events| - 1], events[|events| - 1];
      FlushesCountOnce(db, document, workspace, run, init);
      var c := Play(db, document, workspace, run, init);
      if last.Fresh? {
        FreshStep(c, document, workspace, run, Flushes(init), last.flush);
      } else {
        assert Flushes(events) == Flushes(init);
        ReplayStep(c, document, workspace, run, Flushes(init), last.call);
      }
    }
  }

  ghost predicate CarriesText(flushes: seq<Flush>) {
    forall k :: 0 <= k < |flushes| && flushes[k].contents == [] ==> flushes[k].textLength == 0
  }

  /** `text_length` is the plain sum over the distinct flushes exactly when no flush without
      chunks carries text. */
  lemma {:induction false} TextIsSumExactly(flushes: seq<Flush>)
    ensures TextTotal(flushes) <= TextSum(flushes)
    ensures TextTotal(flushes) == TextSum(flushes) <==> CarriesText(flushes)
  {
    if flushes != [] {
      var init := flushes[..|flushes| - 1];
      TextIsSumExactly(init);
      assert forall k :: 0 <= k < |init| ==> init[k] == flushes[k];
    }
  }

  /** `size_bytes` is the plain sum exactly when every flush after the first carries a chunk. */
  lemma {:induction false} SizeIsSumExactly(flushes: seq<Flush>)
    ensures SizeTotal(flushes) <= SizeSum(flushes)
    ensures SizeTotal(flushes) == SizeSum(flushes) <==> forall k :: 1 <= k < |flushes| ==> flushes[k].contents != []
  {
    if flushes != [] {
      var init := flushes[..|flushes| - 1];
      SizeIsSumExactly(init);
      assert forall k :: 0 <= k < |init| ==> init[k] == flushes[k];
    }
  }

  /** The append path never claims, so the run that created the row keeps it: an append sent
      under any other run id, such as the one a continued-as-new workflow gets, is fenced out. */
  lemma OtherRunIsFencedOut(
    db: Database, document: string, workspace: string, run: RunId, events: seq<Event>, other: RunId, call: Call)
    requires document !in db.documents && Holds(db.chunks, document, map[]) && Flushes(events) != []
    ensures var c := Play(db, document, workspace, run, events);
            && (Outcome(c.db, document, other) == FencedOut <==> other != run)
            && (other != run ==> Send(c.db, document, workspace, other, call) == c.db)
  {
    FlushesCountOnce(db, document, workspace, run, events);
  }
}
