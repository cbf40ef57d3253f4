/** Ranking-quality metrics over a ranked list of document ids.

    Reals stand for floats. The discount 1 / log2(rank + 1) and the gain 2^grade - 1 are
    parameters: all that is used of them is that the discount is positive and decreasing and
    the gain monotone and zero at zero, strictly so where a theorem says so. */
module RankingMetrics {
  import opened Order

  type DocId = string

  /** One entry of the relevance mapping. */
  datatype Graded = Graded(doc: DocId, grade: real)

  predicate DistinctDocs(entries: seq<Graded>) {
    forall i, j :: 0 <= i < j < |entries| ==> entries[i].doc != entries[j].doc
  }

  /** A Python mapping: entries in insertion order, one per document. */
  type Relevance = entries: seq<Graded> | DistinctDocs(entries)

  predicate Distinct(ids: seq<DocId>) {
    forall i, j :: 0 <= i < j < |ids| ==> ids[i] != ids[j]
  }

  // ---------------------------------------------------------------------------
  // _dedupe_preserve_order
  // ---------------------------------------------------------------------------

  /** First occurrences only, in order. */
  function Deduped(ranked: seq<DocId>): seq<DocId> {
    if ranked == [] then []
    else
      var init, last := ranked[..|ranked| - 1], ranked[|ranked| - 1];
      Deduped(init) + if last in init then [] else [last]
  }

  /** The first position of an id, or the length. */
  function FirstAt(ids: seq<DocId>, id: DocId): (p: nat)
    ensures p <= |ids| && (p < |ids| <==> id in ids)
    ensures p < |ids| ==> ids[p] == id
    ensures forall i :: 0 <= i < p ==> ids[i] != id
  {
    if ids == [] || ids[0] == id then 0
    else
      assert forall i :: 1 <= i < |ids| ==> ids[i] == ids[1..][i - 1];
      1 + FirstAt(ids[1..], id)
  }

  /** The ids stand in the order of their first positions in the ranking. */
  ghost predicate ByFirstPosition(ids: seq<DocId>, ranked: seq<DocId>) {
    forall i, j :: 0 <= i < j < |ids| ==> FirstAt(ranked, ids[i]) < FirstAt(ranked, ids[j])
  }

  lemma {:induction false} FirstAtSnoc(init: seq<DocId>, last: DocId, id: DocId)
    ensures id in init ==> FirstAt(init + [last], id) == FirstAt(init, id)
    ensures id !in init && id == last ==> FirstAt(init + [last], id) == |init|
  {
    hide FirstAt;
    var longer := init + [last];
    assert forall i :: 0 <= i < |init| ==> longer[i] == init[i];
    var p := FirstAt(longer, id);
    if id in init {
      var q := FirstAt(init, id);
      assert longer[q] == id;
    } else if id == last {
      assert longer[|init|] == id;
    }
  }

  lemma {:induction false} DedupedMembers(ranked: seq<DocId>)
    ensures forall d :: d in Deduped(ranked) <==> d in ranked
    ensures Distinct(ranked) ==> Deduped(ranked) == ranked
  {
    if ranked != [] {
      var init, last := ranked[..|ranked| - 1], ranked[|ranked| - 1];
      DedupedMembers(init);
      assert ranked == init + [last];
    }
  }

  lemma DedupedSnoc(init: seq<DocId>, last: DocId)
    ensures last in init ==> Deduped(init + [last]) == Deduped(init)
    ensures last !in init ==> Deduped(init + [last]) == Deduped(init) + [last]
  {
    assert (init + [last])[..|init|] == init;
  }

  lemma {:induction false} DedupedOrder(ranked: seq<DocId>)
    ensures ByFirstPosition(Deduped(ranked), ranked)
  {
    if ranked == [] {
      assert Deduped(ranked) == [];
    } else {
      var init, last := ranked[..|ranked| - 1], ranked[|ranked| - 1];
      DedupedOrder(init);
      DedupedOrderStep(init, last);
      assert ranked == init + [last];
    }
  }

  lemma DedupedOrderStep(init: seq<DocId>, last: DocId)
    requires ByFirstPosition(Deduped(init), init)
    ensures ByFirstPosition(Deduped(init + [last]), init + [last])
  {
    hide *;
    DedupedMembers(init);
    OrderSnoc(Deduped(init), init, last);
    DedupedSnoc(init, last);
  }

  lemma OrderSnoc(ids: seq<DocId>, init: seq<DocId>, last: DocId)
    requires ByFirstPosition(ids, init) && forall d :: d in ids ==> d in init
    ensures ByFirstPosition(ids, init + [last])
    ensures last !in init ==> ByFirstPosition(ids + [last], init + [last])
  {
    hide FirstAt;
    forall d | d in init ensures FirstAt(init + [last], d) == FirstAt(init, d) < |init| {
      FirstAtSnoc(init, last, d);
    }
    if last !in init {
      FirstAtSnoc(init, last, last);
    }
  }

  lemma OrderIsDistinct(ids: seq<DocId>, ranked: seq<DocId>)
    requires ByFirstPosition(ids, ranked)
    ensures Distinct(ids)
  {
    hide FirstAt;
  }

  /** Every id of the ranking once, in the order of first positions. */
  lemma DedupedProperties(ranked: seq<DocId>)
    ensures Distinct(Deduped(ranked))
    ensures forall d :: d in Deduped(ranked) <==> d in ranked
    ensures ByFirstPosition(Deduped(ranked), ranked)
    ensures Distinct(ranked) ==> Deduped(ranked) == ranked
  {
    DedupedMembers(ranked);
    DedupedOrder(ranked);
    OrderIsDistinct(Deduped(ranked), ranked);
  }

  /** Keeps of every id its first occurrence, and nothing else, in the order given. */
  method DedupePreserveOrder(ranked: seq<DocId>) returns (out: seq<DocId>)
    ensures out == Deduped(ranked)
    ensures Distinct(out) && forall d :: d in out <==> d in ranked
    ensures forall i, j :: 0 <= i < j < |out| ==> FirstAt(ranked, out[i]) < FirstAt(ranked, out[j])
  {
    hide FirstAt;
    var seen: set<DocId> := {};
    out := [];
    for i := 0 to |ranked|
      invariant out == Deduped(ranked[..i])
      invariant seen == set d | d in ranked[..i]
    {
      assert ranked[..i + 1][..i] == ranked[..i];
      if ranked[i] !in seen {
        seen := seen + {ranked[i]};
        out := out + [ranked[i]];
      }
    }
    assert ranked[..|ranked|] == ranked;
    DedupedProperties(ranked);
  }

  // ---------------------------------------------------------------------------
  // _dcg
  // ---------------------------------------------------------------------------

  /** A discount by rank and a gain by grade. */
  datatype Scale = Scale(discount: nat -> real, gain: real -> real)

  ghost predicate Sound(s: Scale) {
    && (forall r: nat :: 0.0 < s.discount(r))
    && (forall r: nat, q: nat :: r <= q ==> s.discount(q) <= s.discount(r))
    && s.gain(0.0) == 0.0
    && (forall g: real, h: real :: g <= h ==> s.gain(g) <= s.gain(h))
  }

  /** What the actual logarithm and power also satisfy. */
  ghost predicate Strict(s: Scale) {
    && Sound(s)
    && (forall r: nat, q: nat :: r < q ==> s.discount(q) < s.discount(r))
    && (forall g: real, h: real :: g < h ==> s.gain(g) < s.gain(h))
  }

  function Worth(s: Scale, grade: real): real {
    if grade > 0.0 then s.gain(grade) else 0.0
  }

  /** What one grade contributes at a 1-based rank. */
  function Term(s: Scale, grade: real, rank: nat): real {
    Worth(s, grade) * s.discount(rank)
  }

  /** Discounted gain of grades whose first one stands at the given 1-based rank. */
  function DcgFrom(s: Scale, grades: seq<real>, rank: nat): real {
    if grades == [] then 0.0 else Term(s, grades[0], rank) + DcgFrom(s, grades[1..], rank + 1)
  }

  function Dcg(s: Scale, grades: seq<real>): real {
    DcgFrom(s, grades, 1)
  }

  lemma {:induction false} DcgSnoc(s: Scale, grades: seq<real>, rank: nat, last: real)
    ensures DcgFrom(s, grades + [last], rank) == DcgFrom(s, grades, rank) + Term(s, last, rank + |grades|)
  {
    if grades != [] {
      DcgSnoc(s, grades[1..], rank + 1, last);
      assert (grades + [last])[1..] == grades[1..] + [last];
    }
  }

  /** The discounted sum, one grade at a time: a positive grade at rank r adds its gain times the
      discount of rank r, counted from 1, and any other grade adds nothing. */
  lemma DcgExactly(s: Scale, grades: seq<real>, last: real)
    ensures Dcg(s, []) == 0.0
    ensures Dcg(s, grades + [last])
            == Dcg(s, grades) + if last > 0.0 then s.gain(last) * s.discount(|grades| + 1) else 0.0
  {
    DcgSnoc(s, grades, 1, last);
  }

  /** The accumulating loop, which skips grades that are not positive. */
  method AccumulateDcg(s: Scale, grades: seq<real>) returns (total: real)
    ensures total == Dcg(s, grades)
  {
    total := 0.0;
    for i := 0 to |grades|
      invariant total == Dcg(s, grades[..i])
    {
      DcgSnoc(s, grades[..i], 1, grades[i]);
      assert grades[..i + 1] == grades[..i] + [grades[i]];
      if grades[i] > 0.0 {
        total := total + s.gain(grades[i]) * s.discount(i + 1);
      }
    }
    assert grades[..|grades|] == grades;
  }

  // ---------------------------------------------------------------------------
  // ndcg_at_k
  // ---------------------------------------------------------------------------

  function Take<T>(xs: seq<T>, k: int): seq<T> {
    if k <= 0 then [] else if k < |xs| then xs[..k] else xs
  }

  function GradeOf(rel: seq<Graded>, doc: DocId): real {
    if rel == [] then 0.0 else if rel[0].doc == doc then rel[0].grade else GradeOf(rel[1..], doc)
  }

  function GradesOf(rel: seq<Graded>, ids: seq<DocId>): (gs: seq<real>)
    ensures |gs| == |ids|
    ensures forall i :: 0 <= i < |ids| ==> gs[i] == GradeOf(rel, ids[i])
  {
    if ids == [] then [] else [GradeOf(rel, ids[0])] + GradesOf(rel, ids[1..])
  }

  function Values(rel: seq<Graded>): seq<real> {
    if rel == [] then [] else [rel[0].grade] + Values(rel[1..])
  }

  function Positives(xs: seq<real>): seq<real> {
    if xs == [] then [] else (if xs[0] > 0.0 then [xs[0]] else []) + Positives(xs[1..])
  }

  predicate Descending(xs: seq<real>) {
    forall i, j :: 0 <= i < j < |xs| ==> xs[i] >= xs[j]
  }

  predicate AllPositive(xs: seq<real>) {
    forall i :: 0 <= i < |xs| ==> xs[i] > 0.0
  }

  predicate NonePositive(xs: seq<real>) {
    forall i :: 0 <= i < |xs| ==> xs[i] <= 0.0
  }

  function InsertDown(x: real, xs: seq<real>): seq<real> {
    if xs == [] || x >= xs[0] then [x] + xs else [xs[0]] + InsertDown(x, xs[1..])
  }

  function SortDown(xs: seq<real>): seq<real> {
    if xs == [] then [] else InsertDown(xs[0], SortDown(xs[1..]))
  }

  function TopGrades(ranked: seq<DocId>, rel: Relevance, k: int): seq<real> {
    GradesOf(rel, Take(Deduped(ranked), k))
  }

  function IdealGrades(rel: Relevance, k: int): seq<real> {
    Take(SortDown(Positives(Values(rel))), k)
  }

  function Ndcg(s: Scale, ranked: seq<DocId>, rel: Relevance, k: int): real {
    if k <= 0 then 0.0
    else
      var dcg, idcg := Dcg(s, TopGrades(ranked, rel, k)), Dcg(s, IdealGrades(rel, k));
      if idcg == 0.0 then 0.0 else dcg / idcg
  }

  method NdcgAtK(s: Scale, ranked: seq<DocId>, rel: Relevance, k: int) returns (score: real)
    ensures score == Ndcg(s, ranked, rel, k)
  {
    if k <= 0 {
      return 0.0;
    }
    var deduped := DedupePreserveOrder(ranked);
    var dcg := AccumulateDcg(s, GradesOf(rel, Take(deduped, k)));
    var idcg := AccumulateDcg(s, Take(SortDown(Positives(Values(rel))), k));
    if idcg == 0.0 {
      return 0.0;
    }
    return dcg / idcg;
  }

  // ---------------------------------------------------------------------------
  // The sort
  // ---------------------------------------------------------------------------

  lemma DescendingCons(x: real, xs: seq<real>)
    requires Descending(xs) && forall i :: 0 <= i < |xs| ==> x >= xs[i]
    ensures Descending([x] + xs)
  {
    assert forall i :: 0 < i <= |xs| ==> ([x] + xs)[i] == xs[i - 1];
  }

  lemma {:induction false} InsertDownPermutes(x: real, xs: seq<real>)
    ensures multiset(InsertDown(x, xs)) == multiset(xs) + multiset{x}
  {
    if xs != [] && x < xs[0] {
      InsertDownPermutes(x, xs[1..]);
      assert xs == [xs[0]] + xs[1..];
    }
  }

  lemma {:induction false} InsertDownSorts(x: real, xs: seq<real>)
    requires Descending(xs)
    ensures Descending(InsertDown(x, xs))
  {
    if xs != [] && x < xs[0] {
      InsertDownSorts(x, xs[1..]);
      InsertDownPermutes(x, xs[1..]);
      forall i | 0 <= i < |InsertDown(x, xs[1..])| ensures xs[0] >= InsertDown(x, xs[1..])[i] {
        assert InsertDown(x, xs[1..])[i] in multiset(InsertDown(x, xs[1..]));
      }
      DescendingCons(xs[0], InsertDown(x, xs[1..]));
    } else {
      DescendingCons(x, xs);
    }
  }

  lemma {:induction false} SortDownSorts(xs: seq<real>)
    ensures Descending(SortDown(xs))
    ensures multiset(SortDown(xs)) == multiset(xs)
  {
    if xs != [] {
      SortDownSorts(xs[1..]);
      InsertDownSorts(xs[0], SortDown(xs[1..]));
      InsertDownPermutes(xs[0], SortDown(xs[1..]));
      assert xs == [xs[0]] + xs[1..];
    }
  }

  lemma {:induction false} PositivesArePositive(xs: seq<real>)
    ensures AllPositive(Positives(xs))
    ensures Positives(xs) == [] <==> NonePositive(xs)
  {
    if xs != [] {
      PositivesArePositive(xs[1..]);
      NonePositiveCons(xs);
    }
  }

  lemma NonePositiveCons(xs: seq<real>)
    requires xs != []
    ensures NonePositive(xs) <==> xs[0] <= 0.0 && NonePositive(xs[1..])
  {
    assert forall i :: 1 <= i < |xs| ==> xs[i] == xs[1..][i - 1];
  }

  // ---------------------------------------------------------------------------
  // A ranking draws its positive grades from the mapping, each document once
  // ---------------------------------------------------------------------------

  function Without<T>(xs: seq<T>, p: nat): (rest: seq<T>)
    requires p < |xs|
    ensures |rest| == |xs| - 1
    ensures forall i :: 0 <= i < p ==> rest[i] == xs[i]
    ensures forall i :: p <= i < |rest| ==> rest[i] == xs[i + 1]
  {
    xs[..p] + xs[p + 1..]
  }

  lemma WithoutTail<T>(xs: seq<T>, p: nat)
    requires 0 < p < |xs|
    ensures Without(xs, p) == [xs[0]] + Without(xs[1..], p - 1)
  {
  }

  lemma {:induction false} PositivesWithout(rel: seq<Graded>, p: nat)
    requires p < |rel|
    ensures multiset(Positives(Values(rel)))
            == multiset(Positives(Values(Without(rel, p))))
               + if rel[p].grade > 0.0 then multiset{rel[p].grade} else multiset{}
  {
    if p == 0 {
      assert Without(rel, 0) == rel[1..];
    } else {
      WithoutTail(rel, p);
      PositivesWithout(rel[1..], p - 1);
      assert Values(Without(rel, p)) == [rel[0].grade] + Values(Without(rel[1..], p - 1));
    }
  }

  lemma {:induction false} GradeWithout(rel: seq<Graded>, p: nat, doc: DocId)
    requires p < |rel| && rel[p].doc != doc
    ensures GradeOf(Without(rel, p), doc) == GradeOf(rel, doc)
  {
    if p == 0 {
      assert Without(rel, 0) == rel[1..];
    } else {
      WithoutTail(rel, p);
      GradeWithout(rel[1..], p - 1, doc);
    }
  }

  /** The grade of a document: that of its entry, or zero when it has none. */
  lemma {:induction false} GradeFound(rel: seq<Graded>, doc: DocId) returns (p: nat)
    ensures p < |rel| ==> rel[p].doc == doc && GradeOf(rel, doc) == rel[p].grade
    ensures p >= |rel| ==> GradeOf(rel, doc) == 0.0
  {
    if rel == [] {
      p := 0;
    } else if rel[0].doc == doc {
      p := 0;
    } else {
      var q := GradeFound(rel[1..], doc);
      p := q + 1;
    }
  }

  lemma {:induction false} GradesWithout(rel: seq<Graded>, p: nat, ids: seq<DocId>)
    requires p < |rel| && forall d :: d in ids ==> d != rel[p].doc
    ensures GradesOf(Without(rel, p), ids) == GradesOf(rel, ids)
  {
    if ids != [] {
      assert ids[0] in ids && forall d :: d in ids[1..] ==> d in ids;
      GradeWithout(rel, p, ids[0]);
      GradesWithout(rel, p, ids[1..]);
    }
  }

  lemma {:induction false} DrawnFromMapping(rel: seq<Graded>, ids: seq<DocId>)
    requires Distinct(ids)
    ensures multiset(Positives(GradesOf(rel, ids))) <= multiset(Positives(Values(rel)))
  {
    if ids != [] {
      var rest := GradesOf(rel, ids[1..]);
      assert GradesOf(rel, ids)[1..] == rest;
      var p := GradeFound(rel, ids[0]);
      if p < |rel| {
        forall d | d in ids[1..] ensures d != rel[p].doc {
          var i :| 0 <= i < |ids[1..]| && ids[1..][i] == d;
          assert ids[i + 1] == d;
        }
        GradesWithout(rel, p, ids[1..]);
        DrawnFromMapping(Without(rel, p), ids[1..]);
        PositivesWithout(rel, p);
      } else {
        DrawnFromMapping(rel, ids[1..]);
      }
    }
  }

  // ---------------------------------------------------------------------------
  // The rearrangement inequality
  // ---------------------------------------------------------------------------

  lemma Product(a: real, b: real)
    requires a >= 0.0 && b >= 0.0
    ensures a * b >= 0.0
    ensures a > 0.0 && b > 0.0 ==> a * b > 0.0
  {
  }

  /** Putting the larger worth at the larger discount. */
  lemma SwapGain(a: real, b: real, p: real, q: real)
    requires a >= b && p >= q
    ensures b * p + a * q <= a * p + b * q
    ensures a > b && p > q ==> b * p + a * q < a * p + b * q
  {
    var x, y := a - b, p - q;
    Product(x, y);
    assert x * y == a * p + b * q - (b * p + a * q);
  }

  lemma TermMonotone(s: Scale, g: real, h: real, rank: nat)
    requires Sound(s) && g <= h
    ensures 0.0 <= Term(s, g, rank) <= Term(s, h, rank)
    ensures g <= 0.0 ==> Term(s, g, rank) == 0.0
    ensures Strict(s) && g < h && 0.0 < h ==> Term(s, g, rank) < Term(s, h, rank)
  {
    var a, b, d := Worth(s, h), Worth(s, g), s.discount(rank);
    SwapGain(a, b, d, 0.0);
    Product(b, d);
  }

  lemma TermDelayed(s: Scale, g: real, rank: nat)
    requires Sound(s)
    ensures Term(s, g, rank + 1) <= Term(s, g, rank)
    ensures Strict(s) && 0.0 < g ==> Term(s, g, rank + 1) < Term(s, g, rank)
  {
    SwapGain(Worth(s, g), 0.0, s.discount(rank), s.discount(rank + 1));
  }

  lemma TermSwap(s: Scale, g: real, h: real, rank: nat)
    requires Sound(s) && g <= h
    ensures Term(s, g, rank) + Term(s, h, rank + 1) <= Term(s, h, rank) + Term(s, g, rank + 1)
    ensures Strict(s) && g < h && 0.0 < h ==>
              Term(s, g, rank) + Term(s, h, rank + 1) < Term(s, h, rank) + Term(s, g, rank + 1)
  {
    SwapGain(Worth(s, h), Worth(s, g), s.discount(rank), s.discount(rank + 1));
  }

  lemma {:induction false} DcgNonNegative(s: Scale, xs: seq<real>, rank: nat)
    requires Sound(s)
    ensures 0.0 <= DcgFrom(s, xs, rank)
    ensures NonePositive(xs) ==> DcgFrom(s, xs, rank) == 0.0
    ensures Strict(s) && !NonePositive(xs) ==> 0.0 < DcgFrom(s, xs, rank)
  {
    if xs != [] {
      DcgNonNegative(s, xs[1..], rank + 1);
      NonePositiveCons(xs);
      TermMonotone(s, if xs[0] <= 0.0 then xs[0] else 0.0, xs[0], rank);
    }
  }

  /** Moving a whole list one rank down loses. */
  lemma {:induction false} DcgShift(s: Scale, xs: seq<real>, rank: nat)
    requires Sound(s)
    ensures DcgFrom(s, xs, rank + 1) <= DcgFrom(s, xs, rank)
    ensures Strict(s) && xs != [] && 0.0 < xs[0] ==> DcgFrom(s, xs, rank + 1) < DcgFrom(s, xs, rank)
  {
    if xs != [] {
      DcgShift(s, xs[1..], rank + 1);
      TermDelayed(s, xs[0], rank);
    }
  }

  /** The front of a descending list of positive grades, delayed by one rank and one cut
      shorter, is worth less than the list itself. */
  lemma DelayLoses(s: Scale, ideal: seq<real>, k: nat, rank: nat)
    requires Sound(s) && 0 < k && AllPositive(ideal)
    ensures DcgFrom(s, Take(ideal, k - 1), rank + 1) <= DcgFrom(s, Take(ideal, k), rank)
    ensures Strict(s) && ideal != [] ==> DcgFrom(s, Take(ideal, k - 1), rank + 1) < DcgFrom(s, Take(ideal, k), rank)
  {
    hide Term;
    var short, long := Take(ideal, k - 1), Take(ideal, k);
    DcgShift(s, short, rank);
    if |short| < |long| {
      assert long == short + [long[|short|]];
      DcgSnoc(s, short, rank, long[|short|]);
      TermMonotone(s, 0.0, long[|short|], rank + |short|);
    } else {
      assert short == long;
    }
  }

  /** One grade, then the list, against the list's best, then the grade. */
  lemma HeadSwap(s: Scale, x: real, best: real, rest: seq<real>, rank: nat)
    requires Sound(s) && x <= best
    ensures DcgFrom(s, [x, best] + rest, rank) <= DcgFrom(s, [best, x] + rest, rank)
    ensures Strict(s) && x < best && 0.0 < best ==>
        DcgFrom(s, [x, best] + rest, rank) < DcgFrom(s, [best, x] + rest, rank)
  {
    hide Term;
    TermSwap(s, x, best, rank);
    DcgTwo(s, x, best, rest, rank);
    DcgTwo(s, best, x, rest, rank);
  }

  lemma DcgTwo(s: Scale, x: real, y: real, rest: seq<real>, rank: nat)
    ensures DcgFrom(s, [x, y] + rest, rank) == Term(s, x, rank) + Term(s, y, rank + 1) + DcgFrom(s, rest, rank + 2)
  {
    assert ([x, y] + rest)[1..] == [y] + rest;
    assert ([y] + rest)[1..] == rest;
  }

  lemma DcgCons(s: Scale, x: real, rest: seq<real>, rank: nat)
    ensures DcgFrom(s, [x] + rest, rank) == Term(s, x, rank) + DcgFrom(s, rest, rank + 1)
  {
    assert ([x] + rest)[1..] == rest;
  }

  /** The shapes of the lists compared when the p-th best grade is taken to the front. */
  lemma FrontShapes(ideal: seq<real>, p: nat, k: nat)
    requires 0 < p < |ideal| && 1 < k
    ensures var tail := ideal[1..];
            var rest := Take(Without(tail, p - 1), k - 2);
            && [ideal[p]] + Take(Without(ideal, p), k - 1) == [ideal[p], ideal[0]] + rest
            && [ideal[0], ideal[p]] + rest == [ideal[0]] + ([tail[p - 1]] + rest)
            && Take(ideal, k) == [ideal[0]] + Take(tail, k - 1)
  {
    var tail := ideal[1..];
    WithoutTail(ideal, p);
    TakeCons(ideal[0], Without(tail, p - 1), k - 1);
    assert ideal == [ideal[0]] + tail;
    TakeCons(ideal[0], tail, k);
  }

  /** Taking the p-th best grade to the front is never better than leaving it in place. */
  lemma {:induction false} FrontLoses(s: Scale, ideal: seq<real>, p: nat, k: nat, rank: nat)
    requires Sound(s) && 0 < k && p < |ideal| && Descending(ideal) && AllPositive(ideal)
    ensures var front := [ideal[p]] + Take(Without(ideal, p), k - 1);
            && DcgFrom(s, front, rank) <= DcgFrom(s, Take(ideal, k), rank)
            && (Strict(s) && ideal[p] < ideal[0] ==> DcgFrom(s, front, rank) < DcgFrom(s, Take(ideal, k), rank))
    decreases p, 1
  {
    hide Term;
    if p == 0 {
      assert [ideal[p]] + Take(Without(ideal, p), k - 1) == Take(ideal, k);
    } else if k == 1 {
      assert [ideal[p]] + Take(Without(ideal, p), k - 1) == [ideal[p]] + [];
      assert Take(ideal, k) == [ideal[0]] + [];
      DcgCons(s, ideal[p], [], rank);
      DcgCons(s, ideal[0], [], rank);
      TermMonotone(s, ideal[p], ideal[0], rank);
    } else {
      FrontLosesLater(s, ideal, p, k, rank);
    }
  }

  lemma {:induction false} FrontLosesLater(s: Scale, ideal: seq<real>, p: nat, k: nat, rank: nat)
    requires Sound(s) && 1 < k && 0 < p < |ideal| && Descending(ideal) && AllPositive(ideal)
    ensures var front := [ideal[p]] + Take(Without(ideal, p), k - 1);
            && DcgFrom(s, front, rank) <= DcgFrom(s, Take(ideal, k), rank)
            && (Strict(s) && ideal[p] < ideal[0] ==> DcgFrom(s, front, rank) < DcgFrom(s, Take(ideal, k), rank))
    decreases p, 0
  {
    hide Term;
    var tail := ideal[1..];
    var rest := Take(Without(tail, p - 1), k - 2);
    FrontShapes(ideal, p, k);
    HeadSwap(s, ideal[p], ideal[0], rest, rank);
    DcgCons(s, ideal[0], [tail[p - 1]] + rest, rank);
    FrontLoses(s, tail, p - 1, k - 1, rank + 1);
    DcgCons(s, ideal[0], Take(tail, k - 1), rank);
  }

  /** The grades begin with the ideal ones, in order, and none after that is positive. */
  predicate IdealOrder(grades: seq<real>, ideal: seq<real>) {
    && |ideal| <= |grades|
    && grades[..|ideal|] == ideal
    && NonePositive(grades[|ideal|..])
  }

  lemma IdealOrderCons(x: real, grades: seq<real>, ideal: seq<real>)
    requires IdealOrder(grades, ideal)
    ensures IdealOrder([x] + grades, [x] + ideal)
  {
    assert ([x] + grades)[|ideal| + 1..] == grades[|ideal|..];
  }

  /** A ranking in ideal order is worth its ideal. */
  lemma {:induction false} IdealOrderIsWorthIt(s: Scale, grades: seq<real>, ideal: seq<real>, rank: nat)
    requires Sound(s) && IdealOrder(grades, ideal)
    ensures DcgFrom(s, grades, rank) == DcgFrom(s, ideal, rank)
  {
    if ideal == [] {
      assert grades[0..] == grades;
      DcgNonNegative(s, grades, rank);
    } else {
      assert grades[1..][..|ideal| - 1] == ideal[1..];
      assert grades[1..][|ideal| - 1..] == grades[|ideal|..];
      IdealOrderIsWorthIt(s, grades[1..], ideal[1..], rank + 1);
    }
  }

  /** At most k grades, the positive ones drawn from a descending list of positive grades. */
  ghost predicate Draws(xs: seq<real>, ideal: seq<real>, k: nat) {
    |xs| <= k && Descending(ideal) && AllPositive(ideal) && multiset(Positives(xs)) <= multiset(ideal)
  }

  lemma DrawsNothing(xs: seq<real>, k: nat)
    requires Draws(xs, [], k)
    ensures NonePositive(xs)
  {
    PositivesArePositive(xs);
    assert |multiset(Positives(xs))| == |Positives(xs)|;
  }

  /** Any draw is worth at most the k best; with a strict scale it is worth as much only in
      ideal order. */
  lemma {:induction false} DcgBound(s: Scale, xs: seq<real>, ideal: seq<real>, k: nat, rank: nat)
    requires Sound(s) && Draws(xs, ideal, k)
    ensures DcgFrom(s, xs, rank) <= DcgFrom(s, Take(ideal, k), rank)
    ensures Strict(s) && DcgFrom(s, xs, rank) == DcgFrom(s, Take(ideal, k), rank) ==> IdealOrder(xs, Take(ideal, k))
    decreases |xs|, 1
  {
    hide Term;
    if ideal == [] {
      DrawsNothing(xs, k);
      DcgNonNegative(s, xs, rank);
      assert xs[0..] == xs;
    } else if xs == [] {
      DcgNonNegative(s, Take(ideal, k), rank);
    } else if xs[0] <= 0.0 {
      WorthlessHeadDraw(s, xs, ideal, k, rank);
    } else {
      PositiveHeadBound(s, xs, ideal, k, rank);
    }
  }

  lemma {:induction false} WorthlessHeadDraw(s: Scale, xs: seq<real>, ideal: seq<real>, k: nat, rank: nat)
    requires Sound(s) && Draws(xs, ideal, k) && xs != [] && xs[0] <= 0.0 && ideal != []
    ensures DcgFrom(s, xs, rank) <= DcgFrom(s, Take(ideal, k), rank)
    ensures Strict(s) ==> DcgFrom(s, xs, rank) < DcgFrom(s, Take(ideal, k), rank)
    decreases |xs|, 0
  {
    hide *;
    DrawsTail(xs, ideal, k);
    DcgBound(s, xs[1..], ideal, k - 1, rank + 1);
    WorthlessHeadBound(s, xs, ideal, k, rank);
  }

  lemma WorthlessHeadBound(s: Scale, xs: seq<real>, ideal: seq<real>, k: nat, rank: nat)
    requires Sound(s) && AllPositive(ideal) && ideal != [] && 0 < k && xs != [] && xs[0] <= 0.0
    requires DcgFrom(s, xs[1..], rank + 1) <= DcgFrom(s, Take(ideal, k - 1), rank + 1)
    ensures DcgFrom(s, xs, rank) <= DcgFrom(s, Take(ideal, k), rank)
    ensures Strict(s) ==> DcgFrom(s, xs, rank) < DcgFrom(s, Take(ideal, k), rank)
  {
    hide Term;
    DelayLoses(s, ideal, k, rank);
    WorthlessHead(s, xs, rank);
  }

  lemma DrawsTail(xs: seq<real>, ideal: seq<real>, k: nat)
    requires Draws(xs, ideal, k) && xs != [] && xs[0] <= 0.0
    ensures 0 < k && AllPositive(ideal) && Draws(xs[1..], ideal, k - 1)
  {
    assert Positives(xs) == [] + Positives(xs[1..]) == Positives(xs[1..]);
  }

  lemma WorthlessHead(s: Scale, xs: seq<real>, rank: nat)
    requires Sound(s) && xs != [] && xs[0] <= 0.0
    ensures DcgFrom(s, xs, rank) == DcgFrom(s, xs[1..], rank + 1)
  {
    TermMonotone(s, xs[0], 0.0, rank);
  }

  lemma {:induction false} PositiveHeadBound(s: Scale, xs: seq<real>, ideal: seq<real>, k: nat, rank: nat)
    requires Sound(s) && Draws(xs, ideal, k) && xs != [] && 0.0 < xs[0]
    ensures DcgFrom(s, xs, rank) <= DcgFrom(s, Take(ideal, k), rank)
    ensures Strict(s) && DcgFrom(s, xs, rank) == DcgFrom(s, Take(ideal, k), rank) ==> IdealOrder(xs, Take(ideal, k))
    decreases |xs|, 0
  {
    hide *;
    var p := DrawnPosition(xs, ideal, k);
    var rest := Take(Without(ideal, p), k - 1);
    DcgBound(s, xs[1..], Without(ideal, p), k - 1, rank + 1);
    HeadOntoFront(s, xs, rest, rank);
    FrontLoses(s, ideal, p, k, rank);
    assert DcgFrom(s, [xs[0]] + rest, rank) <= DcgFrom(s, Take(ideal, k), rank);
    if p == 0 {
      FrontIsIdeal(xs, ideal, k);
    }
  }

  /** A head before a list that is worth at most `rest`. */
  lemma HeadOntoFront(s: Scale, xs: seq<real>, rest: seq<real>, rank: nat)
    requires xs != [] && DcgFrom(s, xs[1..], rank + 1) <= DcgFrom(s, rest, rank + 1)
    ensures DcgFrom(s, xs, rank) <= DcgFrom(s, [xs[0]] + rest, rank)
    ensures DcgFrom(s, xs, rank) == DcgFrom(s, [xs[0]] + rest, rank)
            <==> DcgFrom(s, xs[1..], rank + 1) == DcgFrom(s, rest, rank + 1)
  {
    hide Term;
    DcgCons(s, xs[0], rest, rank);
  }

  lemma FrontIsIdeal(xs: seq<real>, ideal: seq<real>, k: nat)
    requires xs != [] && ideal != [] && xs[0] == ideal[0] && 0 < k
    ensures [xs[0]] + Take(Without(ideal, 0), k - 1) == Take(ideal, k)
    ensures IdealOrder(xs[1..], Take(Without(ideal, 0), k - 1)) ==> IdealOrder(xs, Take(ideal, k))
  {
    var rest := Take(Without(ideal, 0), k - 1);
    if IdealOrder(xs[1..], rest) {
      IdealOrderCons(xs[0], xs[1..], rest);
      assert [xs[0]] + xs[1..] == xs;
    }
  }

  lemma MultisetWithout(xs: seq<real>, p: nat)
    requires p < |xs|
    ensures multiset(xs) == multiset(Without(xs, p)) + multiset{xs[p]}
  {
    assert xs == xs[..p] + [xs[p]] + xs[p + 1..];
  }

  lemma WithoutKeepsOrder(xs: seq<real>, p: nat)
    requires p < |xs| && Descending(xs) && AllPositive(xs)
    ensures Descending(Without(xs, p)) && AllPositive(Without(xs, p))
  {
  }

  lemma MultisetCancel(x: real, a: multiset<real>, b: multiset<real>)
    requires multiset{x} + a <= b + multiset{x}
    ensures a <= b
  {
    forall y ensures a[y] <= b[y] {
      assert (multiset{x} + a)[y] <= (b + multiset{x})[y];
    }
  }

  /** Where the first grade stands in the ideal list: at the front when it equals the best. */
  lemma DrawnPosition(xs: seq<real>, ideal: seq<real>, k: nat) returns (p: nat)
    requires xs != [] && xs[0] > 0.0 && Draws(xs, ideal, k)
    ensures p < |ideal| && ideal[p] == xs[0] && (p > 0 ==> ideal[p] < ideal[0])
    ensures Draws(xs[1..], Without(ideal, p), k - 1)
    ensures 0 < k && Descending(ideal) && AllPositive(ideal)
  {
    var drawn := multiset(Positives(xs[1..]));
    assert multiset(Positives(xs)) == multiset{xs[0]} + drawn;
    assert xs[0] in multiset(Positives(xs));
    assert xs[0] in ideal;
    p :| 0 <= p < |ideal| && ideal[p] == xs[0];
    if ideal[0] == xs[0] {
      p := 0;
    }
    MultisetWithout(ideal, p);
    MultisetCancel(xs[0], drawn, multiset(Without(ideal, p)));
    WithoutKeepsOrder(ideal, p);
  }

  // ---------------------------------------------------------------------------
  // The score
  // ---------------------------------------------------------------------------

  /** What a ranked id is graded with: its entry's grade, or zero when the mapping has none. */
  lemma {:induction false} GradeExactly(rel: Relevance, doc: DocId, grade: real)
    ensures Graded(doc, grade) in rel ==> GradeOf(rel, doc) == grade
    ensures (forall e :: e in rel ==> e.doc != doc) ==> GradeOf(rel, doc) == 0.0
  {
    if rel != [] {
      var rest: Relevance := rel[1..];
      GradeExactly(rest, doc, grade);
      assert rel == [rel[0]] + rest;
    }
  }

  /** A grade is collected as often as the mapping holds it, if it is positive. */
  lemma {:induction false} PositivesExactly(xs: seq<real>, grade: real)
    ensures multiset(Positives(xs))[grade] == if grade > 0.0 then multiset(xs)[grade] else 0
  {
    if xs != [] {
      PositivesExactly(xs[1..], grade);
      assert xs == [xs[0]] + xs[1..];
      assert Positives(xs) == (if xs[0] > 0.0 then [xs[0]] else []) + Positives(xs[1..]);
    }
  }

  lemma {:induction false} ValuesAre(rel: seq<Graded>)
    ensures |Values(rel)| == |rel|
    ensures forall i :: 0 <= i < |rel| ==> Values(rel)[i] == rel[i].grade
  {
    if rel != [] {
      ValuesAre(rel[1..]);
    }
  }

  /** The ideal grades are the best k positive grades of the mapping: in descending order, all of
      them when there are at most k, and otherwise k of them that no grade left out exceeds. */
  lemma IdealIsBest(rel: Relevance, k: nat) returns (left: seq<real>)
    ensures Descending(IdealGrades(rel, k)) && AllPositive(IdealGrades(rel, k))
    ensures forall g :: (multiset(IdealGrades(rel, k)) + multiset(left))[g]
                        == if g > 0.0 then multiset(Values(rel))[g] else 0
    ensures |IdealGrades(rel, k)| <= k && (left != [] ==> |IdealGrades(rel, k)| == k)
    ensures forall g, h :: g in IdealGrades(rel, k) && h in left ==> g >= h
  {
    hide Positives, SortDown, Values;
    var all := SortDown(Positives(Values(rel)));
    IdealList(rel);
    var ideal := IdealGrades(rel, k);
    left := all[|ideal|..];
    assert ideal == all[..|ideal|];
    assert all == ideal + left;
    forall g ensures (multiset(ideal) + multiset(left))[g] == if g > 0.0 then multiset(Values(rel))[g] else 0 {
      PositivesExactly(Values(rel), g);
    }
    forall g, h | g in ideal && h in left ensures g >= h {
      var i :| 0 <= i < |ideal| && ideal[i] == g;
      var j :| 0 <= j < |left| && left[j] == h;
      assert all[i] == g && all[|ideal| + j] == h;
    }
  }

  /** The ideal list: the positive grades of the mapping, best first. */
  lemma IdealList(rel: Relevance)
    ensures var positives := Positives(Values(rel));
            && Descending(SortDown(positives)) && AllPositive(SortDown(positives))
            && multiset(SortDown(positives)) == multiset(positives)
  {
    var positives := Positives(Values(rel));
    SortDownSorts(positives);
    PositivesArePositive(Values(rel));
    forall i | 0 <= i < |SortDown(positives)| ensures SortDown(positives)[i] > 0.0 {
      assert SortDown(positives)[i] in multiset(SortDown(positives));
      assert SortDown(positives)[i] in positives;
    }
  }

  lemma TopIsDistinct(ranked: seq<DocId>, k: nat)
    ensures Distinct(Take(Deduped(ranked), k)) && |Take(Deduped(ranked), k)| <= k
  {
    hide FirstAt, Deduped;
    DedupedProperties(ranked);
  }

  lemma TopGradesDraw(ranked: seq<DocId>, rel: Relevance, k: nat)
    ensures Draws(TopGrades(ranked, rel, k), SortDown(Positives(Values(rel))), k)
  {
    TopIsDistinct(ranked, k);
    DrawnFromMapping(rel, Take(Deduped(ranked), k));
    IdealList(rel);
  }

  /** For every ranking, every mapping and every cutoff the score lies in [0, 1]. */
  lemma NdcgInUnitInterval(s: Scale, ranked: seq<DocId>, rel: Relevance, k: int)
    requires Sound(s)
    ensures 0.0 <= Ndcg(s, ranked, rel, k) <= 1.0
  {
    if k > 0 {
      var grades, ideal := TopGrades(ranked, rel, k), IdealGrades(rel, k);
      TopGradesDraw(ranked, rel, k);
      DcgBound(s, grades, SortDown(Positives(Values(rel))), k, 1);
      DcgNonNegative(s, grades, 1);
      DcgNonNegative(s, ideal, 1);
      if Dcg(s, ideal) != 0.0 {
        Quotient(Dcg(s, grades), Dcg(s, ideal));
      }
    }
  }

  lemma Quotient(a: real, b: real)
    requires 0.0 <= a <= b && 0.0 < b
    ensures 0.0 <= a / b <= 1.0
    ensures a / b == 1.0 <==> a == b
    ensures a / b == 0.0 <==> a == 0.0
  {
    assert a == (a / b) * b;
  }

  /** A ranking in ideal order scores exactly 1; with a strict scale no other ranking does. */
  lemma PerfectScoreExactly(s: Scale, ranked: seq<DocId>, rel: Relevance, k: int)
    requires Sound(s) && 0 < k && Dcg(s, IdealGrades(rel, k)) != 0.0
    ensures IdealOrder(TopGrades(ranked, rel, k), IdealGrades(rel, k)) ==> Ndcg(s, ranked, rel, k) == 1.0
    ensures Strict(s) && Ndcg(s, ranked, rel, k) == 1.0 ==> IdealOrder(TopGrades(ranked, rel, k), IdealGrades(rel, k))
  {
    var grades, ideal := TopGrades(ranked, rel, k), IdealGrades(rel, k);
    TopGradesDraw(ranked, rel, k);
    DcgBound(s, grades, SortDown(Positives(Values(rel))), k, 1);
    DcgNonNegative(s, grades, 1);
    DcgNonNegative(s, ideal, 1);
    Quotient(Dcg(s, grades), Dcg(s, ideal));
    if IdealOrder(grades, ideal) {
      IdealOrderIsWorthIt(s, grades, ideal, 1);
    }
  }

  /** With a strict scale the score is zero exactly when the top k holds nothing relevant. */
  lemma ZeroScoreExactly(s: Scale, ranked: seq<DocId>, rel: Relevance, k: int)
    requires Strict(s) && 0 < k
    ensures Ndcg(s, ranked, rel, k) == 0.0 <==> NonePositive(TopGrades(ranked, rel, k))
  {
    var grades, ideal := TopGrades(ranked, rel, k), IdealGrades(rel, k);
    TopGradesDraw(ranked, rel, k);
    DcgBound(s, grades, SortDown(Positives(Values(rel))), k, 1);
    DcgNonNegative(s, grades, 1);
    DcgNonNegative(s, ideal, 1);
    if Dcg(s, ideal) != 0.0 {
      Quotient(Dcg(s, grades), Dcg(s, ideal));
    }
  }

  // ---------------------------------------------------------------------------
  // Swapping an adjacent pair into order
  // ---------------------------------------------------------------------------

  function Swapped<T>(xs: seq<T>, i: nat): seq<T>
    requires i + 1 < |xs|
  {
    xs[..i] + [xs[i + 1], xs[i]] + xs[i + 2..]
  }

  lemma SwappedTail<T>(xs: seq<T>, i: nat)
    requires 0 < i && i + 1 < |xs|
    ensures Swapped(xs, i) == [xs[0]] + Swapped(xs[1..], i - 1)
  {
  }

  lemma TakeCons<T>(x: T, xs: seq<T>, k: nat)
    requires 0 < k
    ensures Take([x] + xs, k) == [x] + Take(xs, k - 1)
  {
  }

  lemma TakeTwo<T>(x: T, y: T, xs: seq<T>, k: nat)
    requires 1 < k
    ensures Take([x, y] + xs, k) == [x, y] + Take(xs, k - 2)
  {
  }

  lemma {:induction false} SwapHelps(s: Scale, xs: seq<real>, i: nat, k: nat, rank: nat)
    requires Sound(s) && i + 1 < |xs| && xs[i] <= xs[i + 1]
    ensures DcgFrom(s, Take(xs, k), rank) <= DcgFrom(s, Take(Swapped(xs, i), k), rank)
  {
    hide Term;
    if k == 0 {
    } else if i > 0 {
      SwapHelps(s, xs[1..], i - 1, k - 1, rank + 1);
      SwapLater(s, xs, i, k, rank);
    } else {
      SwapFirst(s, xs, k, rank);
    }
  }

  lemma SwapLater(s: Scale, xs: seq<real>, i: nat, k: nat, rank: nat)
    requires 0 < i && i + 1 < |xs| && 0 < k
    ensures DcgFrom(s, Take(xs, k), rank) == Term(s, xs[0], rank) + DcgFrom(s, Take(xs[1..], k - 1), rank + 1)
    ensures DcgFrom(s, Take(Swapped(xs, i), k), rank)
            == Term(s, xs[0], rank) + DcgFrom(s, Take(Swapped(xs[1..], i - 1), k - 1), rank + 1)
  {
    SwappedTail(xs, i);
    assert xs == [xs[0]] + xs[1..];
    TakeCons(xs[0], xs[1..], k);
    TakeCons(xs[0], Swapped(xs[1..], i - 1), k);
    DcgCons(s, xs[0], Take(xs[1..], k - 1), rank);
    DcgCons(s, xs[0], Take(Swapped(xs[1..], i - 1), k - 1), rank);
  }

  lemma SwapFirst(s: Scale, xs: seq<real>, k: nat, rank: nat)
    requires Sound(s) && 1 < |xs| && xs[0] <= xs[1] && 0 < k
    ensures DcgFrom(s, Take(xs, k), rank) <= DcgFrom(s, Take(Swapped(xs, 0), k), rank)
  {
    hide Term;
    if k == 1 {
      assert Take(xs, k) == [xs[0]] + [] && Take(Swapped(xs, 0), k) == [xs[1]] + [];
      DcgCons(s, xs[0], [], rank);
      DcgCons(s, xs[1], [], rank);
      TermMonotone(s, xs[0], xs[1], rank);
    } else {
      var rest := Take(xs[2..], k - 2);
      TakeTwo(xs[0], xs[1], xs[2..], k);
      TakeTwo(xs[1], xs[0], xs[2..], k);
      assert xs == [xs[0], xs[1]] + xs[2..] && Swapped(xs, 0) == [xs[1], xs[0]] + xs[2..];
      HeadSwap(s, xs[0], xs[1], rest, rank);
    }
  }

  lemma GradesOfTake(rel: seq<Graded>, ids: seq<DocId>, k: int)
    ensures GradesOf(rel, Take(ids, k)) == Take(GradesOf(rel, ids), k)
  {
  }

  lemma GradesOfSwapped(rel: seq<Graded>, ids: seq<DocId>, i: nat)
    requires i + 1 < |ids|
    ensures GradesOf(rel, Swapped(ids, i)) == Swapped(GradesOf(rel, ids), i)
  {
  }

  /** Putting an adjacent out-of-order pair of the ranking into order never lowers the score. */
  lemma SwapNeverLowersScore(s: Scale, ranked: seq<DocId>, better: seq<DocId>, rel: Relevance, k: int, i: nat)
    requires Sound(s) && i + 1 < |Deduped(ranked)| && Deduped(better) == Swapped(Deduped(ranked), i)
    requires GradeOf(rel, Deduped(ranked)[i]) <= GradeOf(rel, Deduped(ranked)[i + 1])
    ensures Ndcg(s, ranked, rel, k) <= Ndcg(s, better, rel, k)
  {
    if k > 0 {
      var ids := Deduped(ranked);
      GradesOfTake(rel, ids, k);
      GradesOfTake(rel, Swapped(ids, i), k);
      GradesOfSwapped(rel, ids, i);
      SwapHelps(s, GradesOf(rel, ids), i, k, 1);
      var idcg := Dcg(s, IdealGrades(rel, k));
      DcgNonNegative(s, IdealGrades(rel, k), 1);
      if idcg != 0.0 {
        Divided(Dcg(s, TopGrades(ranked, rel, k)), Dcg(s, TopGrades(better, rel, k)), idcg);
      }
    }
  }

  lemma Divided(a: real, b: real, c: real)
    requires a <= b && 0.0 < c
    ensures a / c <= b / c
  {
    var inverse := 1.0 / c;
    assert a / c == a * inverse && b / c == b * inverse;
    SwapGain(b, a, inverse, 0.0);
  }

  // ---------------------------------------------------------------------------
  // The binary metrics
  // ---------------------------------------------------------------------------

  function Hits(ids: seq<DocId>, relevant: set<DocId>): nat {
    if ids == [] then 0 else (if ids[0] in relevant then 1 else 0) + Hits(ids[1..], relevant)
  }

  function RecallAtK(ranked: seq<DocId>, relevant: set<DocId>, k: int): real {
    if relevant == {} || k <= 0 then 0.0
    else Hits(Take(Deduped(ranked), k), relevant) as real / |relevant| as real
  }

  function HitAtK(ranked: seq<DocId>, relevant: set<DocId>, k: int): real {
    if relevant == {} || k <= 0 then 0.0
    else if exists d :: d in Take(Deduped(ranked), k) && d in relevant then 1.0 else 0.0
  }

  /** The position of the first relevant id, or the length. */
  function FirstRelevant(ids: seq<DocId>, relevant: set<DocId>): (p: nat)
    ensures p <= |ids| && (p < |ids| ==> ids[p] in relevant)
    ensures forall i :: 0 <= i < p ==> ids[i] !in relevant
  {
    if ids == [] || ids[0] in relevant then 0
    else
      var q := FirstRelevant(ids[1..], relevant);
      assert forall i :: 1 <= i < q + 1 ==> ids[i] == ids[1..][i - 1];
      1 + q
  }

  /** The scan with an early return: the reciprocal of the first relevant rank. */
  method Mrr(ranked: seq<DocId>, relevant: set<DocId>) returns (score: real)
    ensures var ids := Deduped(ranked);
            var p := FirstRelevant(ids, relevant);
            score == if p < |ids| then 1.0 / (p + 1) as real else 0.0
  {
    hide FirstRelevant, Deduped;
    if relevant == {} {
      return 0.0;
    }
    var ids := DedupePreserveOrder(ranked);
    ghost var p := FirstRelevant(ids, relevant);
    for i := 0 to |ids|
      invariant i <= p
    {
      if ids[i] in relevant {
        assert i == p;
        return 1.0 / (i + 1) as real;
      }
    }
    return 0.0;
  }

  /** No relevant rank is found exactly when nothing in the ranking is relevant. */
  lemma NoRankExactly(ranked: seq<DocId>, relevant: set<DocId>)
    ensures FirstRelevant(Deduped(ranked), relevant) == |Deduped(ranked)|
        <==> forall d :: d in ranked ==> d !in relevant
  {
    hide FirstRelevant, Deduped;
    DedupedProperties(ranked);
    var ids := Deduped(ranked);
    var p := FirstRelevant(ids, relevant);
    if p < |ids| {
      assert ids[p] in ids;
    }
  }

  function Found(ids: seq<DocId>, relevant: set<DocId>): set<DocId> {
    set d | d in ids && d in relevant
  }

  lemma FoundCons(ids: seq<DocId>, relevant: set<DocId>)
    requires ids != [] && Distinct(ids)
    ensures ids[0] !in Found(ids[1..], relevant)
    ensures Found(ids, relevant) == Found(ids[1..], relevant) + if ids[0] in relevant then {ids[0]} else {}
  {
    assert ids == [ids[0]] + ids[1..];
    assert ids[0] !in ids[1..];
  }

  lemma {:induction false} HitsCount(ids: seq<DocId>, relevant: set<DocId>)
    requires Distinct(ids)
    ensures Hits(ids, relevant) == |Found(ids, relevant)|
  {
    if ids != [] {
      HitsCount(ids[1..], relevant);
      FoundCons(ids, relevant);
    } else {
      assert Found(ids, relevant) == {};
    }
  }

  /** Recall times the number of relevant ids is the number of those among the top k. */
  lemma RecallExactly(ranked: seq<DocId>, relevant: set<DocId>, k: int)
    ensures relevant == {} || k <= 0 ==> RecallAtK(ranked, relevant, k) == 0.0
    ensures 0 < k ==> RecallAtK(ranked, relevant, k) * |relevant| as real
                      == |set d | d in Take(Deduped(ranked), k) && d in relevant| as real
  {
    hide Take, Deduped, Hits;
    if 0 < k {
      TopIsDistinct(ranked, k);
      HitsCount(Take(Deduped(ranked), k), relevant);
      if relevant == {} {
        assert Found(Take(Deduped(ranked), k), relevant) == {};
      } else {
        TimesDivisor(Hits(Take(Deduped(ranked), k), relevant) as real, |relevant| as real);
      }
    }
  }

  lemma TimesDivisor(a: real, b: real)
    requires b != 0.0
    ensures (a / b) * b == a
  {
  }

  /** Recall never exceeds 1, and is positive exactly when the hit metric is 1. */
  lemma RecallAndHitAgree(ranked: seq<DocId>, relevant: set<DocId>, k: int)
    ensures 0.0 <= RecallAtK(ranked, relevant, k) <= 1.0
    ensures RecallAtK(ranked, relevant, k) > 0.0 <==> HitAtK(ranked, relevant, k) == 1.0
    ensures RecallAtK(ranked, relevant, k) == 0.0 <==> HitAtK(ranked, relevant, k) == 0.0
  {
    if relevant != {} && k > 0 {
      DedupedProperties(ranked);
      var ids := Take(Deduped(ranked), k);
      var found := Found(ids, relevant);
      HitsCount(ids, relevant);
      SubsetSize(found, relevant);
      Quotient(Hits(ids, relevant) as real, |relevant| as real);
      if exists d :: d in ids && d in relevant {
        var d :| d in ids && d in relevant;
        assert d in found;
      } else {
        assert found == {};
      }
    }
  }
}
