/** The reuse-detection pass that runs after a document has been stored: for each of its
    chunks, confirm the nearest neighbours found in other documents and record each match.

    The vector lookup, the text ratio and the content hash are parameters. A lookup, a database
    call and a mirror write to the vector store that raise are inputs too. */
module ReuseDetection {
  import opened Wrappers
  import opened Tables
  import opened DatabaseService

  /** `reached` says whether the candidate's two database calls get through; one that raises is
      rolled back and skipped. `patched` says whether the later write of the new count to the
      vector store succeeds. */
  datatype Candidate =
    Candidate(document: Option<string>, index: Option<nat>, content: string, reached: bool, patched: bool)

  /** One chunk of the new document with what its lookup gave; `None` when it raised. */
  datatype Section = Section(content: string, candidates: Option<seq<Candidate>>)

  datatype Matcher = Matcher(longEnough: string -> bool, similar: (string, string) -> bool, hash: string -> string)

  /** The chunk row a candidate is confirmed to name, if any. */
  function Confirmed(
    chunks: map<ChunkKey, Chunk>, m: Matcher, document: string, content: string, c: Candidate)
    : Option<nat>
  {
    if c.document.None? || c.document.value == "" || c.index.None? || c.document.value == document then None
    else if !m.similar(content, c.content) || !c.reached then None
    else
      var key := ChunkKey(c.document.value, c.index.value);
      if key in chunks then Some(chunks[key].id) else None
  }

  datatype Pass = Pass(db: Database, recorded: nat)

  function Record(p: Pass, m: Matcher, document: string, content: string, c: Candidate): Pass {
    var id := Confirmed(p.db.chunks, m, document, content, c);
    if id.None? then p
    else
      var event := ReuseEvent(id.value, document, m.hash(content));
      Pass(RecordReuse(p.db, event), if event !in p.db.reuse && c.patched then p.recorded + 1 else p.recorded)
  }

  function RecordCandidates(p: Pass, m: Matcher, document: string, content: string, cs: seq<Candidate>): Pass {
    if cs == [] then p
    else Record(RecordCandidates(p, m, document, content, cs[..|cs| - 1]), m, document, content, cs[|cs| - 1])
  }

  function RecordSection(p: Pass, m: Matcher, document: string, s: Section): Pass {
    if !m.longEnough(s.content) || s.candidates.None? then p
    else RecordCandidates(p, m, document, s.content, s.candidates.value)
  }

  function RecordSections(p: Pass, m: Matcher, document: string, ss: seq<Section>): Pass {
    if ss == [] then p
    else RecordSection(RecordSections(p, m, document, ss[..|ss| - 1]), m, document, ss[|ss| - 1])
  }

  // ---------------------------------------------------------------------------
  // The loops, against the service
  // ---------------------------------------------------------------------------

  method ConfirmAndRecord(service: Service, m: Matcher, document: string, content: string, cs: seq<Candidate>)
    returns (recorded: nat)
    modifies service
    ensures Pass(service.Snapshot(), recorded)
        == RecordCandidates(Pass(old(service.Snapshot()), 0), m, document, content, cs)
  {
    recorded := 0;
    for i := 0 to |cs|
      invariant Pass(service.Snapshot(), recorded)
          == RecordCandidates(Pass(old(service.Snapshot()), 0), m, document, content, cs[..i])
    {
      assert cs[..i + 1][..i] == cs[..i];
      var c := cs[i];
      if c.document.None? || c.document.value == "" || c.index.None? || c.document.value == document {
        continue;
      }
      if !m.similar(content, c.content) {
        continue;
      }
      if !c.reached {
        continue;
      }
      var source := service.GetChunkForReuse(c.document.value, c.index.value);
      if source.None? {
        continue;
      }
      var count := service.RecordChunkReuse(ReuseEvent(source.value.0, document, m.hash(content)));
      if count.Ok? && count.value.Some? && c.patched {
        recorded := recorded + 1;
      }
    }
    assert cs[..|cs|] == cs;
  }

  method DetectAndRecord(service: Service, m: Matcher, document: string, ss: seq<Section>) returns (recorded: nat)
    modifies service
    ensures Pass(service.Snapshot(), recorded) == RecordSections(Pass(old(service.Snapshot()), 0), m, document, ss)
  {
    recorded := 0;
    for i := 0 to |ss|
      invariant Pass(service.Snapshot(), recorded)
          == RecordSections(Pass(old(service.Snapshot()), 0), m, document, ss[..i])
    {
      assert ss[..i + 1][..i] == ss[..i];
      if !m.longEnough(ss[i].content) || ss[i].candidates.None? {
        continue;
      }
      ghost var before := Pass(service.Snapshot(), 0);
      var more := ConfirmAndRecord(service, m, document, ss[i].content, ss[i].candidates.value);
      CountShifts(before, recorded, m, document, ss[i].content, ss[i].candidates.value);
      recorded := recorded + more;
    }
    assert ss[..|ss|] == ss;
  }

  lemma {:induction false} CountShifts(
    p: Pass, extra: nat, m: Matcher, document: string, content: string, cs: seq<Candidate>)
    ensures var q := RecordCandidates(p, m, document, content, cs);
            RecordCandidates(Pass(p.db, p.recorded + extra), m, document, content, cs) == Pass(q.db, q.recorded + extra)
  {
    if cs != [] {
      CountShifts(p, extra, m, document, content, cs[..|cs| - 1]);
    }
  }

  // ---------------------------------------------------------------------------
  // A second pass records nothing
  // ---------------------------------------------------------------------------

  /** Same chunk rows up to counters, and no event lost. */
  ghost predicate Extends(before: Database, after: Database) {
    && before.chunks.Keys == after.chunks.Keys
    && (forall k :: k in before.chunks ==> before.chunks[k].id == after.chunks[k].id)
    && before.reuse <= after.reuse
  }

  ghost predicate Known(db: Database, m: Matcher, document: string, content: string, c: Candidate) {
    var id := Confirmed(db.chunks, m, document, content, c);
    id.Some? ==> ReuseEvent(id.value, document, m.hash(content)) in db.reuse
  }

  ghost predicate KnownAll(db: Database, m: Matcher, document: string, content: string, cs: seq<Candidate>) {
    forall i :: 0 <= i < |cs| ==> Known(db, m, document, content, cs[i])
  }

  ghost predicate KnownSections(db: Database, m: Matcher, document: string, ss: seq<Section>) {
    forall i :: 0 <= i < |ss| && m.longEnough(ss[i].content) && ss[i].candidates.Some? ==>
                  KnownAll(db, m, document, ss[i].content, ss[i].candidates.value)
  }

  lemma RecordLearns(p: Pass, m: Matcher, document: string, content: string, c: Candidate)
    ensures var q := Record(p, m, document, content, c);
            Extends(p.db, q.db) && Known(q.db, m, document, content, c)
  {
    var id := Confirmed(p.db.chunks, m, document, content, c);
    if id.Some? {
      assert HasId(p.db.chunks, ChunkKey(c.document.value, c.index.value), id.value);
    }
  }

  lemma {:induction false} CandidatesLearn(p: Pass, m: Matcher, document: string, content: string, cs: seq<Candidate>)
    ensures var q := RecordCandidates(p, m, document, content, cs);
            Extends(p.db, q.db) && KnownAll(q.db, m, document, content, cs)
  {
    if cs != [] {
      var init := cs[..|cs| - 1];
      CandidatesLearn(p, m, document, content, init);
      var mid := RecordCandidates(p, m, document, content, init);
      RecordLearns(mid, m, document, content, cs[|cs| - 1]);
      var after := RecordCandidates(p, m, document, content, cs).db;
      forall i | 0 <= i < |cs| ensures Known(after, m, document, content, cs[i]) {
        if i < |cs| - 1 {
          assert Known(mid.db, m, document, content, init[i]);
        }
      }
    }
  }

  lemma {:induction false} SectionsLearn(p: Pass, m: Matcher, document: string, ss: seq<Section>)
    ensures var q := RecordSections(p, m, document, ss);
            Extends(p.db, q.db) && KnownSections(q.db, m, document, ss)
  {
    if ss != [] {
      var init, last := ss[..|ss| - 1], ss[|ss| - 1];
      SectionsLearn(p, m, document, init);
      var mid := RecordSections(p, m, document, init);
      if m.longEnough(last.content) && last.candidates.Some? {
        CandidatesLearn(mid, m, document, last.content, last.candidates.value);
      }
      var end := RecordSections(p, m, document, ss);
      forall i | 0 <= i < |ss| && m.longEnough(ss[i].content) && ss[i].candidates.Some?
        ensures KnownAll(end.db, m, document, ss[i].content, ss[i].candidates.value)
      {
        if i < |ss| - 1 {
          assert KnownAll(mid.db, m, document, init[i].content, init[i].candidates.value);
          forall j | 0 <= j < |ss[i].candidates.value|
            ensures Known(end.db, m, document, ss[i].content, ss[i].candidates.value[j])
          {
            assert Known(mid.db, m, document, ss[i].content, ss[i].candidates.value[j]);
          }
        }
      }
    }
  }

  lemma {:induction false} KnownCandidatesRecordNothing(
    p: Pass, m: Matcher, document: string, content: string, cs: seq<Candidate>)
    requires KnownAll(p.db, m, document, content, cs)
    ensures RecordCandidates(p, m, document, content, cs) == p
  {
    if cs != [] {
      KnownCandidatesRecordNothing(p, m, document, content, cs[..|cs| - 1]);
      assert Known(p.db, m, document, content, cs[|cs| - 1]);
    }
  }

  lemma {:induction false} KnownSectionsRecordNothing(p: Pass, m: Matcher, document: string, ss: seq<Section>)
    requires KnownSections(p.db, m, document, ss)
    ensures RecordSections(p, m, document, ss) == p
  {
    if ss != [] {
      var last := ss[|ss| - 1];
      KnownSectionsRecordNothing(p, m, document, ss[..|ss| - 1]);
      if m.longEnough(last.content) && last.candidates.Some? {
        KnownCandidatesRecordNothing(p, m, document, last.content, last.candidates.value);
      }
    }
  }

  /** Running the pass again over the same chunks and lookups changes nothing and reports
      zero, even when some mirror writes of the first pass failed. */
  lemma SecondPassRecordsNothing(db: Database, m: Matcher, document: string, ss: seq<Section>)
    ensures var first := RecordSections(Pass(db, 0), m, document, ss);
            RecordSections(Pass(first.db, 0), m, document, ss) == Pass(first.db, 0)
  {
    var first := RecordSections(Pass(db, 0), m, document, ss);
    SectionsLearn(Pass(db, 0), m, document, ss);
    KnownSectionsRecordNothing(Pass(first.db, 0), m, document, ss);
  }

  // ---------------------------------------------------------------------------
  // What a pass reports
  // ---------------------------------------------------------------------------

  ghost predicate AllPatched(ss: seq<Section>) {
    forall i :: 0 <= i < |ss| && ss[i].candidates.Some? ==> AllPatchedCandidates(ss[i].candidates.value)
  }

  ghost predicate AllPatchedCandidates(cs: seq<Candidate>) {
    forall j :: 0 <= j < |cs| ==> cs[j].patched
  }

  lemma {:induction false} CandidatesReport(p: Pass, m: Matcher, document: string, content: string, cs: seq<Candidate>)
    ensures var q := RecordCandidates(p, m, document, content, cs);
            && q.recorded - p.recorded <= |q.db.reuse| - |p.db.reuse|
            && (AllPatchedCandidates(cs) ==> q.recorded - p.recorded == |q.db.reuse| - |p.db.reuse|)
  {
    if cs != [] {
      var init, c := cs[..|cs| - 1], cs[|cs| - 1];
      CandidatesReport(p, m, document, content, init);
      var mid := RecordCandidates(p, m, document, content, init);
      var id := Confirmed(mid.db.chunks, m, document, content, c);
      if id.Some? {
        assert HasId(mid.db.chunks, ChunkKey(c.document.value, c.index.value), id.value);
      }
      assert AllPatchedCandidates(cs) ==> AllPatchedCandidates(init) && cs[|cs| - 1].patched;
    }
  }

  /** The reported number never exceeds the number of new events, and equals it when every
      mirror write succeeds. */
  lemma {:induction false} PassReportsNewEvents(p: Pass, m: Matcher, document: string, ss: seq<Section>)
    ensures var q := RecordSections(p, m, document, ss);
            && q.recorded - p.recorded <= |q.db.reuse| - |p.db.reuse|
            && (AllPatched(ss) ==> q.recorded - p.recorded == |q.db.reuse| - |p.db.reuse|)
  {
    if ss != [] {
      var init, last := ss[..|ss| - 1], ss[|ss| - 1];
      PassReportsNewEvents(p, m, document, init);
      assert AllPatched(ss) ==> AllPatched(init);
      assert AllPatched(ss) && ss[|ss| - 1].candidates.Some? ==> AllPatchedCandidates(ss[|ss| - 1].candidates.value);
      if m.longEnough(last.content) && last.candidates.Some? {
        CandidatesReport(RecordSections(p, m, document, init), m, document, last.content, last.candidates.value);
      }
    }
  }

  /** A candidate is reported exactly when it adds an event and its mirror write succeeds. */
  lemma ReportedExactly(p: Pass, m: Matcher, document: string, content: string, c: Candidate)
    ensures var q := Record(p, m, document, content, c);
            q.recorded == p.recorded + if c.patched && q.db.reuse != p.db.reuse then 1 else 0
  {
    var id := Confirmed(p.db.chunks, m, document, content, c);
    if id.Some? {
      assert HasId(p.db.chunks, ChunkKey(c.document.value, c.index.value), id.value);
      assert ReuseEvent(id.value, document, m.hash(content)) in Record(p, m, document, content, c).db.reuse;
    }
  }

  // ---------------------------------------------------------------------------
  // Which events a pass adds
  // ---------------------------------------------------------------------------

  /** The event that a candidate stands for, if it is confirmed. */
  function EventOf(
    chunks: map<ChunkKey, Chunk>, m: Matcher, document: string, content: string, c: Candidate)
    : Option<ReuseEvent>
  {
    match Confirmed(chunks, m, document, content, c)
    case Some(id) => Some(ReuseEvent(id, document, m.hash(content)))
    case None => None
  }

  ghost predicate Among(
    chunks: map<ChunkKey, Chunk>, m: Matcher, document: string, content: string, cs: seq<Candidate>, e: ReuseEvent)
  {
    exists j :: 0 <= j < |cs| && EventOf(chunks, m, document, content, cs[j]) == Some(e)
  }

  ghost predicate AmongSections(
    chunks: map<ChunkKey, Chunk>, m: Matcher, document: string, ss: seq<Section>, e: ReuseEvent)
  {
    exists i :: 0 <= i < |ss| && InSection(chunks, m, document, ss[i], e)
  }

  ghost predicate InSection(chunks: map<ChunkKey, Chunk>, m: Matcher, document: string, s: Section, e: ReuseEvent) {
    m.longEnough(s.content) && s.candidates.Some? && Among(chunks, m, document, s.content, s.candidates.value, e)
  }

  lemma AmongSnoc(
    chunks: map<ChunkKey, Chunk>, m: Matcher, document: string, content: string, cs: seq<Candidate>, e: ReuseEvent)
    requires cs != []
    ensures Among(chunks, m, document, content, cs, e)
            <==> Among(chunks, m, document, content, cs[..|cs| - 1], e)
                 || EventOf(chunks, m, document, content, cs[|cs| - 1]) == Some(e)
  {
    var init := cs[..|cs| - 1];
    if Among(chunks, m, document, content, init, e) {
      var j :| 0 <= j < |init| && EventOf(chunks, m, document, content, init[j]) == Some(e);
      assert cs[j] == init[j];
    }
    if Among(chunks, m, document, content, cs, e) {
      var j :| 0 <= j < |cs| && EventOf(chunks, m, document, content, cs[j]) == Some(e);
      assert j < |init| ==> init[j] == cs[j];
    }
  }

  /** One candidate adds its event, and no other. */
  lemma RecordAdds(
    p: Pass, chunks: map<ChunkKey, Chunk>, m: Matcher, document: string, content: string, c: Candidate, e: ReuseEvent)
    requires chunks.Keys == p.db.chunks.Keys && forall k :: k in chunks ==> chunks[k].id == p.db.chunks[k].id
    ensures e in Record(p, m, document, content, c).db.reuse
            <==> e in p.db.reuse || EventOf(chunks, m, document, content, c) == Some(e)
  {
    var id := Confirmed(p.db.chunks, m, document, content, c);
    assert Confirmed(chunks, m, document, content, c) == id;
    if id.Some? {
      assert HasId(p.db.chunks, ChunkKey(c.document.value, c.index.value), id.value);
    }
  }

  lemma {:induction false} CandidatesAdd(
    p: Pass, chunks: map<ChunkKey, Chunk>, m: Matcher, document: string, content: string, cs: seq<Candidate>,
    e: ReuseEvent)
    requires chunks.Keys == p.db.chunks.Keys && forall k :: k in chunks ==> chunks[k].id == p.db.chunks[k].id
    ensures e in RecordCandidates(p, m, document, content, cs).db.reuse
            <==> e in p.db.reuse || Among(chunks, m, document, content, cs, e)
  {
    if cs != [] {
      var init := cs[..|cs| - 1];
      CandidatesAdd(p, chunks, m, document, content, init, e);
      CandidatesLearn(p, m, document, content, init);
      RecordAdds(RecordCandidates(p, m, document, content, init), chunks, m, document, content, cs[|cs| - 1], e);
      AmongSnoc(chunks, m, document, content, cs, e);
    }
  }

  /** What has to hold of a section and a candidate for an event to be theirs: the section is
      long enough, the candidate names a chunk of another document by its index, the two texts
      are similar, the database is reached and still has that chunk, and the event names its id,
      the reusing document and the hash of the section's text. */
  predicate Gives(
    chunks: map<ChunkKey, Chunk>, m: Matcher, document: string, s: Section, c: Candidate, e: ReuseEvent)
  {
    && m.longEnough(s.content)
    && m.similar(s.content, c.content)
    && c.document.Some? && c.document.value != "" && c.document.value != document && c.index.Some?
    && c.reached
    && ChunkKey(c.document.value, c.index.value) in chunks
    && e.source == chunks[ChunkKey(c.document.value, c.index.value)].id
    && e.reusingDocument == document
    && e.contentHash == m.hash(s.content)
  }

  ghost predicate Given(chunks: map<ChunkKey, Chunk>, m: Matcher, document: string, ss: seq<Section>, e: ReuseEvent) {
    exists i, j :: 0 <= i < |ss| && ss[i].candidates.Some? && 0 <= j < |ss[i].candidates.value|
                   && Gives(chunks, m, document, ss[i], ss[i].candidates.value[j], e)
  }

  lemma GivenExactly(chunks: map<ChunkKey, Chunk>, m: Matcher, document: string, ss: seq<Section>, e: ReuseEvent)
    ensures AmongSections(chunks, m, document, ss, e) <==> Given(chunks, m, document, ss, e)
  {
    if AmongSections(chunks, m, document, ss, e) {
      var i :| 0 <= i < |ss| && InSection(chunks, m, document, ss[i], e);
      var cs := ss[i].candidates.value;
      var j :| 0 <= j < |cs| && EventOf(chunks, m, document, ss[i].content, cs[j]) == Some(e);
      assert Gives(chunks, m, document, ss[i], ss[i].candidates.value[j], e);
    }
    if Given(chunks, m, document, ss, e) {
      var i, j :| 0 <= i < |ss| && ss[i].candidates.Some? && 0 <= j < |ss[i].candidates.value|
                  && Gives(chunks, m, document, ss[i], ss[i].candidates.value[j], e);
      assert EventOf(chunks, m, document, ss[i].content, ss[i].candidates.value[j]) == Some(e);
      assert InSection(chunks, m, document, ss[i], e);
    }
  }

  /** An event stands after the pass exactly when it stood before or some section and candidate
      give it, by the chunk rows as they were before the pass. */
  lemma PassAddsExactly(p: Pass, m: Matcher, document: string, ss: seq<Section>, e: ReuseEvent)
    ensures e in RecordSections(p, m, document, ss).db.reuse
            <==> e in p.db.reuse || Given(p.db.chunks, m, document, ss, e)
  {
    PassAdds(p, m, document, ss, e);
    GivenExactly(p.db.chunks, m, document, ss, e);
  }

  lemma {:induction false} PassAdds(p: Pass, m: Matcher, document: string, ss: seq<Section>, e: ReuseEvent)
    ensures e in RecordSections(p, m, document, ss).db.reuse
            <==> e in p.db.reuse || AmongSections(p.db.chunks, m, document, ss, e)
  {
    if ss != [] {
      var init, last := ss[..|ss| - 1], ss[|ss| - 1];
      PassAdds(p, m, document, init, e);
      SectionsLearn(p, m, document, init);
      var mid := RecordSections(p, m, document, init);
      if m.longEnough(last.content) && last.candidates.Some? {
        CandidatesAdd(mid, p.db.chunks, m, document, last.content, last.candidates.value, e);
      }
      SectionsSnoc(p.db.chunks, m, document, ss, e);
    }
  }

  lemma SectionsSnoc(chunks: map<ChunkKey, Chunk>, m: Matcher, document: string, ss: seq<Section>, e: ReuseEvent)
    requires ss != []
    ensures AmongSections(chunks, m, document, ss, e)
            <==> AmongSections(chunks, m, document, ss[..|ss| - 1], e)
                 || InSection(chunks, m, document, ss[|ss| - 1], e)
  {
    var init := ss[..|ss| - 1];
    if AmongSections(chunks, m, document, init, e) {
      var i :| 0 <= i < |init| && InSection(chunks, m, document, init[i], e);
      assert ss[i] == init[i];
    }
    if AmongSections(chunks, m, document, ss, e) {
      var i :| 0 <= i < |ss| && InSection(chunks, m, document, ss[i], e);
      assert i < |init| ==> init[i] == ss[i];
    }
  }

  /** A document never counts as reusing itself: behind every new event stands a section of the
      pass and a candidate whose text was found similar to it, which names a chunk of another
      document, and no chunk of the document has the id that the event names. */
  lemma NeverReusesItself(p: Pass, m: Matcher, document: string, ss: seq<Section>, e: ReuseEvent)
    returns (k: ChunkKey, i: nat, j: nat)
    requires forall a, b :: a in p.db.chunks && b in p.db.chunks && p.db.chunks[a].id == p.db.chunks[b].id ==> a == b
    requires e in RecordSections(p, m, document, ss).db.reuse && e !in p.db.reuse
    ensures k in p.db.chunks && p.db.chunks[k].id == e.source && k.document != document
    ensures forall own :: own in p.db.chunks && own.document == document ==> p.db.chunks[own].id != e.source
    ensures i < |ss| && ss[i].candidates.Some? && j < |ss[i].candidates.value|
    ensures var c := ss[i].candidates.value[j];
            c.document == Some(k.document) && c.index == Some(k.index) && m.similar(ss[i].content, c.content)
  {
    PassAddsExactly(p, m, document, ss, e);
    i, j :| 0 <= i < |ss| && ss[i].candidates.Some? && 0 <= j < |ss[i].candidates.value|
            && Gives(p.db.chunks, m, document, ss[i], ss[i].candidates.value[j], e);
    var c := ss[i].candidates.value[j];
    k := ChunkKey(c.document.value, c.index.value);
  }
}
