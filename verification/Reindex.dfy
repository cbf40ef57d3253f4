/** The reindex of a document from PostgreSQL into the vector store: pages of chunk rows, a
    delete that may fail, and a batch write of one object per chunk row.

    An object's uuid is the uuid5 of its name, and is represented by that name. How the vector
    store's equality filter compares document ids is a parameter; it matches an id with itself. */
module Reindex {
  import opened Wrappers
  import opened Tables
  import opened Order
  import Naming

  const PAGE_SIZE: nat := 200

  // ---------------------------------------------------------------------------
  // Reading every chunk row
  // ---------------------------------------------------------------------------

  datatype Row = Row(index: nat, content: string)

  type Chunks = map<ChunkKey, Chunk>

  function Indices(chunks: Chunks, document: string): set<int> {
    set k | k in chunks && k.document == document :: k.index
  }

  lemma IndicesHaveRows(chunks: Chunks, document: string, i: int)
    requires i in Indices(chunks, document)
    ensures 0 <= i && ChunkKey(document, i) in chunks
  {
  }

  /** The document's chunk indices in order. */
  function IndexList(chunks: Chunks, document: string): (list: seq<int>)
    ensures list == Ascending(Indices(chunks, document))
    ensures forall i :: 0 <= i < |list| ==> 0 <= list[i] && ChunkKey(document, list[i]) in chunks
  {
    var list := Ascending(Indices(chunks, document));
    assert forall i :: 0 <= i < |list| ==> 0 <= list[i] && ChunkKey(document, list[i]) in chunks by {
      forall i | 0 <= i < |list| ensures 0 <= list[i] && ChunkKey(document, list[i]) in chunks {
        assert list[i] in list;
        IndicesHaveRows(chunks, document, list[i]);
      }
    }
    list
  }

  /** The document's chunk rows ordered by index. */
  function AllRows(chunks: Chunks, document: string): (rows: seq<Row>)
    ensures |rows| == |Indices(chunks, document)|
    ensures forall i, j :: 0 <= i < j < |rows| ==> rows[i].index < rows[j].index
    ensures forall i :: 0 <= i < |rows| ==>
              ChunkKey(document, rows[i].index) in chunks
                  && rows[i].content == chunks[ChunkKey(document, rows[i].index)].content
  {
    var list := IndexList(chunks, document);
    seq(|list|, i requires 0 <= i < |list| => Row(list[i], chunks[ChunkKey(document, list[i])].content))
  }

  lemma RowOfIndex(chunks: Chunks, document: string, index: nat) returns (i: nat)
    requires ChunkKey(document, index) in chunks
    ensures i < |AllRows(chunks, document)| && AllRows(chunks, document)[i].index == index
  {
    var indices := Ascending(Indices(chunks, document));
    assert index in Indices(chunks, document);
    assert index in indices;
    i :| 0 <= i < |indices| && indices[i] == index;
  }

  /** `get_document_chunks`: a query with LIMIT and OFFSET. */
  function GetDocumentChunks(chunks: Chunks, document: string, limit: nat, offset: nat): seq<Row> {
    var rows := AllRows(chunks, document);
    if |rows| <= offset then []
    else if |rows| - offset <= limit then rows[offset..]
    else rows[offset..offset + limit]
  }

  /** Paging ends, and has then read every row once, in order. */
  method LoadAllChunks(chunks: Chunks, document: string) returns (rows: seq<Row>)
    ensures rows == AllRows(chunks, document)
  {
    ghost var all := AllRows(chunks, document);
    rows := [];
    var offset := 0;
    while true
      invariant offset <= |all| && rows == all[..offset]
      decreases |all| - offset
    {
      var page := GetDocumentChunks(chunks, document, PAGE_SIZE, offset);
      if page == [] {
        break;
      }
      rows := rows + page;
      if |page| < PAGE_SIZE {
        break;
      }
      offset := offset + PAGE_SIZE;
    }
  }

  // ---------------------------------------------------------------------------
  // Object names
  // ---------------------------------------------------------------------------

  function DigitChar(d: nat): char
    requires d < 10
  {
    '0' + d as char
  }

  function Decimal(n: nat): (s: string)
    ensures s != "" && ':' !in s
  {
    if n < 10 then [DigitChar(n)] else Decimal(n / 10) + [DigitChar(n % 10)]
  }

  function NumberOf(s: string): int {
    if s == "" then 0 else NumberOf(s[..|s| - 1]) * 10 + (s[|s| - 1] as int - '0' as int)
  }

  lemma {:induction false} DecimalRoundTrip(n: nat)
    ensures NumberOf(Decimal(n)) == n
  {
    if n >= 10 {
      DecimalRoundTrip(n / 10);
      var s := Decimal(n);
      assert s[..|s| - 1] == Decimal(n / 10);
    } else {
      assert Decimal(n)[..0] == "";
    }
  }

  datatype Owner = Owner(workspace: string, user: string)

  function ObjectName(owner: Owner, document: string, index: nat): string {
    owner.workspace + ":" + owner.user + ":" + document + ":" + Decimal(index)
  }

  lemma LastColon(a: string, p: string, b: string, q: string)
    requires a + ":" + p == b + ":" + q && ':' !in p && ':' !in q
    ensures a == b && p == q
  {
    var s := a + ":" + p;
    assert s[|a|] == ':' && s[|b|] == ':';
    assert s[|a| + 1..] == p && s[|b| + 1..] == q;
    assert |p| == |q|;
    assert s[..|a|] == a && s[..|b|] == b;
  }

  /** Within one tenant an object's name tells its document and index, even when the document
      id holds colons of its own. */
  lemma NameIsInjective(owner: Owner, d: string, i: nat, e: string, j: nat)
    requires ObjectName(owner, d, i) == ObjectName(owner, e, j)
    ensures d == e && i == j
  {
    var prefix := owner.workspace + ":" + owner.user + ":";
    assert ObjectName(owner, d, i) == (prefix + d) + ":" + Decimal(i);
    assert ObjectName(owner, e, j) == (prefix + e) + ":" + Decimal(j);
    LastColon(prefix + d, Decimal(i), prefix + e, Decimal(j));
    assert (prefix + d)[|prefix|..] == d && (prefix + e)[|prefix|..] == e;
    DecimalRoundTrip(i);
    DecimalRoundTrip(j);
  }

  // ---------------------------------------------------------------------------
  // One tenant's objects
  // ---------------------------------------------------------------------------

  datatype Object = Object(document: string, index: nat, content: string)

  type Tenant = map<string, Object>

  /** Every writer names an object after what it holds. */
  ghost predicate Named(owner: Owner, t: Tenant) {
    forall n :: n in t ==> n == ObjectName(owner, t[n].document, t[n].index)
  }

  function Matching(t: Tenant, matches: (string, string) -> bool, document: string): set<string> {
    set n | n in t && matches(t[n].document, document)
  }

  function PutRow(t: Tenant, owner: Owner, document: string, row: Row): Tenant {
    t[ObjectName(owner, document, row.index) := Object(document, row.index, row.content)]
  }

  function PutRows(t: Tenant, owner: Owner, document: string, rows: seq<Row>): Tenant {
    if rows == [] then t else PutRow(PutRows(t, owner, document, rows[..|rows| - 1]), owner, document, rows[|rows| - 1])
  }

  ghost predicate DistinctRows(rows: seq<Row>) {
    forall i, j :: 0 <= i < j < |rows| ==> rows[i].index != rows[j].index
  }

  lemma {:induction false} PutRowsWrites(t: Tenant, owner: Owner, document: string, rows: seq<Row>, i: nat)
    requires DistinctRows(rows) && i < |rows|
    ensures ObjectName(owner, document, rows[i].index) in PutRows(t, owner, document, rows)
    ensures PutRows(t, owner, document, rows)[ObjectName(owner, document, rows[i].index)]
            == Object(document, rows[i].index, rows[i].content)
  {
    var last := rows[|rows| - 1];
    if i < |rows| - 1 {
      PutRowsWrites(t, owner, document, rows[..|rows| - 1], i);
      if ObjectName(owner, document, rows[i].index) == ObjectName(owner, document, last.index) {
        NameIsInjective(owner, document, rows[i].index, document, last.index);
      }
    }
  }

  lemma {:induction false} PutRowsFrame(t: Tenant, owner: Owner, document: string, rows: seq<Row>, name: string)
    requires forall i :: 0 <= i < |rows| ==> name != ObjectName(owner, document, rows[i].index)
    ensures name in PutRows(t, owner, document, rows) <==> name in t
    ensures name in t ==> PutRows(t, owner, document, rows)[name] == t[name]
  {
    if rows != [] {
      PutRowsFrame(t, owner, document, rows[..|rows| - 1], name);
    }
  }

  lemma {:induction false} PutRowsNamed(t: Tenant, owner: Owner, document: string, rows: seq<Row>)
    requires Named(owner, t)
    ensures Named(owner, PutRows(t, owner, document, rows))
  {
    if rows != [] {
      PutRowsNamed(t, owner, document, rows[..|rows| - 1]);
    }
  }

  // ---------------------------------------------------------------------------
  // What a reindex leaves
  // ---------------------------------------------------------------------------

  ghost predicate Reflexive(matches: (string, string) -> bool) {
    forall d :: matches(d, d)
  }

  /** Each chunk row has its object. */
  ghost predicate Covers(t: Tenant, owner: Owner, chunks: Chunks, document: string) {
    forall i: nat :: ChunkKey(document, i) in chunks ==>
      var n := ObjectName(owner, document, i);
      n in t && t[n] == Object(document, i, chunks[ChunkKey(document, i)].content)
  }

  /** The document's objects are exactly one for each chunk row. */
  ghost predicate Agrees(t: Tenant, owner: Owner, chunks: Chunks, document: string) {
    && Covers(t, owner, chunks, document)
    && forall n :: n in t && t[n].document == document ==>
         ChunkKey(document, t[n].index) in chunks && n == ObjectName(owner, document, t[n].index)
  }

  /** Whatever went before, writing all rows covers the document. */
  lemma WritingCovers(t: Tenant, owner: Owner, chunks: Chunks, document: string)
    ensures Covers(PutRows(t, owner, document, AllRows(chunks, document)), owner, chunks, document)
  {
    var rows := AllRows(chunks, document);
    forall i: nat | ChunkKey(document, i) in chunks
      ensures var n := ObjectName(owner, document, i);
              var after := PutRows(t, owner, document, rows);
              n in after && after[n] == Object(document, i, chunks[ChunkKey(document, i)].content)
    {
      var k := RowOfIndex(chunks, document, i);
      PutRowsWrites(t, owner, document, rows, k);
    }
  }

  /** After a delete of everything that matches, writing all rows makes the stores agree. */
  lemma DeleteThenWriteAgrees(
    t: Tenant, owner: Owner, chunks: Chunks, document: string, matches: (string, string) -> bool)
    requires Reflexive(matches) && Named(owner, t)
    ensures var after := PutRows(t - Matching(t, matches, document), owner, document, AllRows(chunks, document));
            Agrees(after, owner, chunks, document)
  {
    var cleared := t - Matching(t, matches, document);
    var rows := AllRows(chunks, document);
    var after := PutRows(cleared, owner, document, rows);
    WritingCovers(cleared, owner, chunks, document);
    PutRowsNamed(cleared, owner, document, rows);
    forall n | n in after && after[n].document == document ensures ChunkKey(document, after[n].index) in chunks {
      if forall i :: 0 <= i < |rows| ==> n != ObjectName(owner, document, rows[i].index) {
        PutRowsFrame(cleared, owner, document, rows, n);
      } else {
        var i :| 0 <= i < |rows| && n == ObjectName(owner, document, rows[i].index);
        PutRowsWrites(cleared, owner, document, rows, i);
      }
    }
  }

  /** Objects of other documents stay as they were, but for those that the delete took. */
  lemma OthersAreUntouched(t: Tenant, owner: Owner, document: string, rows: seq<Row>, gone: set<string>, n: string)
    requires Named(owner, t) && n in t && t[n].document != document && n !in gone
    ensures n in PutRows(t - gone, owner, document, rows) && PutRows(t - gone, owner, document, rows)[n] == t[n]
  {
    forall i | 0 <= i < |rows| ensures n != ObjectName(owner, document, rows[i].index) {
      if n == ObjectName(owner, document, rows[i].index) {
        NameIsInjective(owner, t[n].document, t[n].index, document, rows[i].index);
      }
    }
    PutRowsFrame(t - gone, owner, document, rows, n);
  }

  /** The objects of one document. */
  function OfDocument(t: Tenant, document: string): Tenant {
    map n | n in t && t[n].document == document :: t[n]
  }

  /** Chunk rows determine the objects of a document that agrees with them. */
  lemma AgreementIsUnique(a: Tenant, b: Tenant, owner: Owner, chunks: Chunks, document: string)
    requires Agrees(a, owner, chunks, document) && Agrees(b, owner, chunks, document)
    ensures OfDocument(a, document) == OfDocument(b, document)
  {
    forall n ensures n in OfDocument(a, document) <==> n in OfDocument(b, document) {
    }
  }

  // ---------------------------------------------------------------------------
  // The vector store
  // ---------------------------------------------------------------------------

  /** A failed delete may already have taken some of the matching objects. */
  datatype DeleteOutcome = Deleted | DeleteFailed(taken: set<string>)

  /** The embedding may raise; a batch may refuse objects, by chunk index. */
  datatype WriteOutcome = EmbedFailed | Written(refused: set<nat>)

  datatype ReindexResult = Skipped(reason: string) | Embedded(count: nat)

  function Points(s: string): seq<Naming.CodePoint> {
    seq(|s|, i requires 0 <= i < |s| => s[i] as int)
  }

  datatype Place = Place(collection: Result<string, string>, tenant: Result<string, string>)

  function PlaceOf(owner: Owner): Place {
    Place(Naming.CollectionName(Points(owner.workspace)), Naming.TenantName(Points(owner.user)))
  }

  lemma SamePoints(a: string, b: string)
    requires Points(a) == Points(b)
    ensures a == b
  {
    assert |a| == |Points(a)| == |Points(b)| == |b|;
    forall i | 0 <= i < |a| ensures a[i] == b[i] {
      assert Points(a)[i] == a[i] as int && Points(b)[i] == b[i] as int;
    }
  }

  lemma {:induction false} PointsEncode(s: string)
    ensures forall i :: 0 <= i < |Points(s)| ==> !Naming.IsSurrogate(Points(s)[i])
  {
  }

  /** Two owners never share a tenant. */
  lemma OwnersLiveApart(a: Owner, b: Owner)
    requires PlaceOf(a) == PlaceOf(b)
    ensures a == b
  {
    PointsEncode(a.workspace);
    PointsEncode(a.user);
    Naming.NamesRoundTrip(Points(a.workspace));
    Naming.NamesRoundTrip(Points(a.user));
    Naming.NamesAreInjective(Points(a.workspace), Points(b.workspace));
    Naming.NamesAreInjective(Points(a.user), Points(b.user));
    SamePoints(a.workspace, b.workspace);
    SamePoints(a.user, b.user);
  }

  /** The rows whose objects a write puts in place. */
  function Taken(rows: seq<Row>, write: WriteOutcome): seq<Row> {
    match write
    case EmbedFailed => []
    case Written(refused) => Accepted(rows, refused)
  }

  predicate Complete(rows: seq<Row>, write: WriteOutcome) {
    write.Written? && forall i :: 0 <= i < |rows| ==> rows[i].index !in write.refused
  }

  lemma OwnersApart(owner: Owner)
    ensures forall o :: o != owner ==> PlaceOf(o) != PlaceOf(owner)
  {
    forall o | o != owner ensures PlaceOf(o) != PlaceOf(owner) {
      if PlaceOf(o) == PlaceOf(owner) {
        OwnersLiveApart(o, owner);
      }
    }
  }

  class VectorStore {
    var tenants: map<Place, Tenant>
    const matches: (string, string) -> bool

    constructor (matches: (string, string) -> bool)
      ensures tenants == map[] && this.matches == matches
    {
      tenants := map[];
      this.matches := matches;
    }

    function Objects(owner: Owner): Tenant
      reads this
    {
      if PlaceOf(owner) in tenants then tenants[PlaceOf(owner)] else map[]
    }

    method Put(owner: Owner, t: Tenant)
      modifies this`tenants
      ensures Objects(owner) == t && forall o :: o != owner ==> Objects(o) == old(Objects(o))
    {
      OwnersApart(owner);
      hide PlaceOf;
      tenants := tenants[PlaceOf(owner) := t];
    }

    /** `delete_document_chunks_graceful`: never raises. */
    method DeleteGraceful(owner: Owner, document: string, outcome: DeleteOutcome) returns (ok: bool, count: nat)
      modifies this`tenants
      ensures ok <==> outcome.Deleted?
      ensures var t, hits := old(Objects(owner)), Matching(old(Objects(owner)), matches, document);
              && Objects(owner) == t - (if ok then hits else hits * outcome.taken)
              && count == if ok then |hits| else 0
      ensures forall o :: o != owner ==> Objects(o) == old(Objects(o))
    {
      hide PlaceOf;
      var t := Objects(owner);
      var hits := Matching(t, matches, document);
      ok := outcome.Deleted?;
      count := if ok then |hits| else 0;
      var gone := match outcome case Deleted => hits case DeleteFailed(taken) => hits * taken;
      Put(owner, t - gone);
    }

    /** `store_chunks_with_tenant`: raises when any object was refused. */
    method StoreChunks(
      owner: Owner, document: string, rows: seq<Row>, outcome: WriteOutcome)
      returns (count: Result<nat, string>)
      modifies this`tenants
      ensures count == if Complete(rows, outcome) then Ok(|rows|) else Err("store failed")
      ensures Objects(owner) == PutRows(old(Objects(owner)), owner, document, Taken(rows, outcome))
      ensures forall o :: o != owner ==> Objects(o) == old(Objects(o))
    {
      hide PlaceOf, Accepted;
      count := Err("store failed");
      if outcome.Written? {
        hide PutRows;
        var t, failed := WriteBatch(Objects(owner), owner, document, rows, outcome.refused);
        Put(owner, t);
        if !failed {
          count := Ok(|rows|);
        }
      }
    }
  }

  /** The objects go in one by one; `failed` says whether the batch collected an error. */
  method WriteBatch(before: Tenant, owner: Owner, document: string, rows: seq<Row>, refused: set<nat>)
    returns (t: Tenant, failed: bool)
    ensures t == PutRows(before, owner, document, Accepted(rows, refused))
    ensures failed <==> exists j :: 0 <= j < |rows| && rows[j].index in refused
  {
    hide PutRows, Accepted, PutRow;
    t, failed := before, false;
    BatchStart(before, owner, document, rows, refused);
    for i := 0 to |rows|
      invariant Batched(before, owner, document, rows, i, refused, t)
      invariant failed <==> exists j :: 0 <= j < i && rows[j].index in refused
    {
      BatchStep(before, owner, document, rows, i, refused);
      if rows[i].index in refused {
        failed := true;
      } else {
        t := PutRow(t, owner, document, rows[i]);
      }
    }
    assert rows[..|rows|] == rows;
  }

  /** The objects after the first i rows of a batch. */
  ghost predicate Batched(
    before: Tenant, owner: Owner, document: string, rows: seq<Row>, i: nat, refused: set<nat>, t: Tenant)
  {
    i <= |rows| && t == PutRows(before, owner, document, Accepted(rows[..i], refused))
  }

  lemma BatchStart(t: Tenant, owner: Owner, document: string, rows: seq<Row>, refused: set<nat>)
    ensures Batched(t, owner, document, rows, 0, refused, t)
  {
    assert rows[..0] == [];
  }

  lemma BatchStep(t: Tenant, owner: Owner, document: string, rows: seq<Row>, i: nat, refused: set<nat>)
    requires i < |rows|
    ensures var before := PutRows(t, owner, document, Accepted(rows[..i], refused));
            PutRows(t, owner, document, Accepted(rows[..i + 1], refused))
            == if rows[i].index in refused then before else PutRow(before, owner, document, rows[i])
  {
    var took := Accepted(rows[..i], refused);
    AcceptedNext(rows, i, refused);
    if rows[i].index !in refused {
      assert (took + [rows[i]])[..|took|] == took;
    }
  }

  lemma AcceptedNext(rows: seq<Row>, i: nat, refused: set<nat>)
    requires i < |rows|
    ensures Accepted(rows[..i + 1], refused)
            == if rows[i].index in refused then Accepted(rows[..i], refused)
                else Accepted(rows[..i], refused) + [rows[i]]
  {
    var took := Accepted(rows[..i], refused);
    assert rows[..i + 1][..i] == rows[..i];
    assert took + [] == took;
  }

  function Accepted(rows: seq<Row>, refused: set<nat>): seq<Row> {
    if rows == [] then []
    else Accepted(rows[..|rows| - 1], refused) + (if rows[|rows| - 1].index in refused then [] else [rows[|rows| - 1]])
  }

  lemma {:induction false} AllAccepted(rows: seq<Row>, refused: set<nat>)
    requires forall i :: 0 <= i < |rows| ==> rows[i].index !in refused
    ensures Accepted(rows, refused) == rows
  {
    if rows != [] {
      AllAccepted(rows[..|rows| - 1], refused);
    }
  }

  // ---------------------------------------------------------------------------
  // The whole reindex
  // ---------------------------------------------------------------------------

  function Reindexed(
    t: Tenant, owner: Owner, document: string, rows: seq<Row>, gone: set<string>, write: WriteOutcome)
    : Tenant
  {
    PutRows(t - gone, owner, document, Taken(rows, write))
  }

  lemma ReindexKeepsNames(
    t: Tenant, owner: Owner, document: string, rows: seq<Row>, gone: set<string>, write: WriteOutcome)
    requires Named(owner, t)
    ensures Named(owner, Reindexed(t, owner, document, rows, gone, write))
  {
    PutRowsNamed(t - gone, owner, document, Taken(rows, write));
  }

  /** Objects of other documents that the filter tells apart are as they were. */
  ghost predicate OthersSame(before: Tenant, after: Tenant, matches: (string, string) -> bool, document: string) {
    forall n :: n in before && before[n].document != document && !matches(before[n].document, document) ==>
      n in after && after[n] == before[n]
  }

  lemma ReindexKeepsOthers(
    t: Tenant, owner: Owner, document: string, rows: seq<Row>, gone: set<string>, write: WriteOutcome,
    matches: (string, string) -> bool)
    requires Named(owner, t) && gone <= Matching(t, matches, document)
    ensures OthersSame(t, Reindexed(t, owner, document, rows, gone, write), matches, document)
  {
    var after := Reindexed(t, owner, document, rows, gone, write);
    forall n | n in t && t[n].document != document && !matches(t[n].document, document)
      ensures n in after && after[n] == t[n]
    {
      OthersAreUntouched(t, owner, document, Taken(rows, write), gone, n);
    }
  }

  lemma CompleteReindex(
    t: Tenant, owner: Owner, chunks: Chunks, document: string, gone: set<string>, write: WriteOutcome,
    matches: (string, string) -> bool)
    requires Reflexive(matches) && Named(owner, t) && Complete(AllRows(chunks, document), write)
    ensures var after := Reindexed(t, owner, document, AllRows(chunks, document), gone, write);
            Covers(after, owner, chunks, document)
            && (gone == Matching(t, matches, document) ==> Agrees(after, owner, chunks, document))
  {
    hide Matching;
    AllAccepted(AllRows(chunks, document), write.refused);
    WritingCovers(t - gone, owner, chunks, document);
    DeleteThenWriteAgrees(t, owner, chunks, document, matches);
  }

  /** When the reindex reports success, the document's objects agree with its chunk rows if the
      delete went through, and cover them if it did not. In every case objects of other
      documents that the filter tells apart and every other tenant are untouched, and objects
      stay named after what they hold, so that the next call finds what this one required. */
  method ReindexDocument(
    owners: map<string, Owner>, chunks: Chunks, store: VectorStore, document: string,
    delete: DeleteOutcome, write: WriteOutcome)
    returns (result: Result<ReindexResult, string>)
    requires Reflexive(store.matches) && forall o: Owner :: Named(o, store.Objects(o))
    modifies store`tenants
    ensures forall o: Owner :: Named(o, store.Objects(o))
    ensures result.Ok? && result.value.Skipped? <==> document !in owners || Indices(chunks, document) == {}
    ensures result.Ok? && result.value.Skipped? ==> store.tenants == old(store.tenants)
    ensures document in owners && Indices(chunks, document) != {} ==>
              (result.Ok? <==> Complete(AllRows(chunks, document), write))
    ensures result.Ok? && result.value.Embedded? ==>
              && result.value.count == |Indices(chunks, document)|
              && Covers(store.Objects(owners[document]), owners[document], chunks, document)
              && (delete.Deleted? ==> Agrees(store.Objects(owners[document]), owners[document], chunks, document))
    ensures document in owners ==>
              var owner := owners[document];
              && OthersSame(old(store.Objects(owner)), store.Objects(owner), store.matches, document)
              && forall o :: o != owner ==> store.Objects(o) == old(store.Objects(o))
  {
    hide PlaceOf, PutRows, Accepted, Named, Covers, Agrees, Reflexive;
    if document !in owners {
      return Ok(Skipped("document not found"));
    }
    var owner := owners[document];
    var rows := LoadAllChunks(chunks, document);
    if rows == [] {
      return Ok(Skipped("no chunks stored"));
    }
    ghost var t := store.Objects(owner);
    ghost var hits := Matching(t, store.matches, document);
    var ok, _ := store.DeleteGraceful(owner, document, delete);
    ghost var gone := if ok then hits else hits * delete.taken;
    var count := store.StoreChunks(owner, document, rows, write);
    assert store.Objects(owner) == Reindexed(t, owner, document, rows, gone, write);
    ReindexKeepsNames(t, owner, document, rows, gone, write);
    ReindexKeepsOthers(t, owner, document, rows, gone, write, store.matches);
    if count.Err? {
      return Err(count.error);
    }
    CompleteReindex(t, owner, chunks, document, gone, write, store.matches);
    return Ok(Embedded(count.value));
  }

  /** The reindex is idempotent: of two successful runs in a row whose deletes go through the
      second leaves the document's objects as they are; and a run that succeeds repairs whatever
      an earlier one left, whether its delete or its write had failed. `once` is the tenant
      between the two. */
  method ReindexTwice(
    owners: map<string, Owner>, chunks: Chunks, store: VectorStore, document: string,
    delete: DeleteOutcome, write: WriteOutcome, deleteAgain: DeleteOutcome, writeAgain: WriteOutcome)
    returns (first: Result<ReindexResult, string>, second: Result<ReindexResult, string>, ghost once: Tenant)
    requires document in owners && Reflexive(store.matches) && forall o: Owner :: Named(o, store.Objects(o))
    modifies store`tenants
    ensures second.Ok? && second.value.Embedded? && deleteAgain.Deleted? ==>
              && Agrees(store.Objects(owners[document]), owners[document], chunks, document)
              && (first.Ok? && delete.Deleted? ==>
                    OfDocument(store.Objects(owners[document]), document) == OfDocument(once, document))
    ensures OthersSame(old(store.Objects(owners[document])), once, store.matches, document)
  {
    hide PlaceOf, Named, Covers, Agrees, Reflexive, OthersSame, OfDocument;
    var owner := owners[document];
    first := ReindexDocument(owners, chunks, store, document, delete, write);
    once := store.Objects(owner);
    second := ReindexDocument(owners, chunks, store, document, deleteAgain, writeAgain);
    if first.Ok? && delete.Deleted? && second.Ok? && second.value.Embedded? && deleteAgain.Deleted? {
      AgreementIsUnique(store.Objects(owner), once, owner, chunks, document);
    }
  }
}
