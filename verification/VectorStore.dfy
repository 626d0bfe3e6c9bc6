/** The in-process vector index: an insertion-ordered upsert table and a stable top-k query. */
module VectorStore {
  import opened Prelude
  import opened VectorMath

  datatype VectorRecord = VectorRecord(
    chunkId: Uuid,
    documentId: Uuid,
    text: string,
    embedding: Vector,
    filename: string)

  datatype ScoredRecord = ScoredRecord(record: VectorRecord, score: real)

  // ----- Upserts -----

  /** Where a chunk id is stored, or the length if it is not. */
  function Position(contents: seq<VectorRecord>, id: Uuid): (k: nat)
    ensures k <= |contents|
    ensures k < |contents| ==> contents[k].chunkId == id
    ensures forall i | 0 <= i < k :: contents[i].chunkId != id
  {
    if contents == [] || contents[0].chunkId == id then 0 else 1 + Position(contents[1..], id)
  }

  /** Assigning to a dictionary key: overwrite in place, or add at the end. */
  function Put(contents: seq<VectorRecord>, r: VectorRecord): seq<VectorRecord> {
    var k := Position(contents, r.chunkId);
    if k < |contents| then contents[k := r] else contents + [r]
  }

  function PutAll(contents: seq<VectorRecord>, records: seq<VectorRecord>): seq<VectorRecord> {
    if records == [] then contents
    else Put(PutAll(contents, records[..|records| - 1]), records[|records| - 1])
  }

  predicate DistinctIds(contents: seq<VectorRecord>) {
    forall i, j | 0 <= i < j < |contents| :: contents[i].chunkId != contents[j].chunkId
  }

  /** `b` lists the ids of `a` first, in the same order. */
  predicate KeepsOrder(a: seq<VectorRecord>, b: seq<VectorRecord>) {
    |a| <= |b| && forall i | 0 <= i < |a| :: b[i].chunkId == a[i].chunkId
  }

  /** The last record for this id among those upserted, if any. */
  function LastFor(records: seq<VectorRecord>, id: Uuid): Option<VectorRecord> {
    if records == [] then None
    else if records[|records| - 1].chunkId == id then Some(records[|records| - 1])
    else LastFor(records[..|records| - 1], id)
  }

  function Lookup(contents: seq<VectorRecord>, id: Uuid): Option<VectorRecord> {
    var k := Position(contents, id);
    if k < |contents| then Some(contents[k]) else None
  }

  lemma PutLookup(contents: seq<VectorRecord>, r: VectorRecord, id: Uuid)
    ensures Lookup(Put(contents, r), id) == if id == r.chunkId then Some(r) else Lookup(contents, id)
  {
    var after := Put(contents, r);
    var k, k' := Position(contents, id), Position(after, id);
    if k < |contents| {
      assert after[k].chunkId == id;
    }
    if k' < |after| && id != r.chunkId {
      assert contents[k'].chunkId == id;
    }
    assert after[if Position(contents, r.chunkId) < |contents| then Position(contents, r.chunkId) else |contents|] == r;
  }

  /** After an upsert each id holds its latest record, and ids stand in the order they first came in. */
  lemma {:induction false} UpsertIsLastWriteWins(contents: seq<VectorRecord>, records: seq<VectorRecord>)
    requires DistinctIds(contents)
    ensures var after := PutAll(contents, records);
      && DistinctIds(after)
      && KeepsOrder(contents, after)
      && InOrderOfArrival(after, contents + records)
      && forall id: Uuid :: Lookup(after, id) ==
           if LastFor(records, id).Some? then LastFor(records, id) else Lookup(contents, id)
  {
    hide InOrderOfArrival;
    if records == [] {
      assert contents + records == contents;
      FirstArrivals(contents);
    } else {
      var init, r := records[..|records| - 1], records[|records| - 1];
      UpsertIsLastWriteWins(contents, init);
      forall id: Uuid
        ensures Lookup(PutAll(contents, records), id) ==
          if LastFor(records, id).Some? then LastFor(records, id) else Lookup(contents, id)
      {
        PutLookup(PutAll(contents, init), r, id);
      }
      assert contents + records == (contents + init) + [r];
      PutKeepsArrival(PutAll(contents, init), contents + init, r);
    }
  }

  /** `after` holds the ids of `arrivals`, each once, ordered by when they first arrived. */
  predicate InOrderOfArrival(after: seq<VectorRecord>, arrivals: seq<VectorRecord>) {
    && (forall i | 0 <= i < |after| :: Position(arrivals, after[i].chunkId) < |arrivals|)
    && (forall k | 0 <= k < |arrivals| :: Position(after, arrivals[k].chunkId) < |after|)
    && (forall i, j | 0 <= i < j < |after| :: Position(arrivals, after[i].chunkId) < Position(arrivals, after[j].chunkId))
  }

  lemma FirstArrivals(contents: seq<VectorRecord>)
    requires DistinctIds(contents)
    ensures InOrderOfArrival(contents, contents)
  {
    forall i | 0 <= i < |contents|
      ensures Position(contents, contents[i].chunkId) == i
    {
      PositionOfStored(contents, contents[i].chunkId, i);
    }
  }

  /** One more arrival does not move where an id first came in. */
  lemma {:induction false} PositionAppend(arrivals: seq<VectorRecord>, r: VectorRecord, id: Uuid)
    ensures Position(arrivals + [r], id) ==
      if Position(arrivals, id) < |arrivals| then Position(arrivals, id)
      else if id == r.chunkId then |arrivals| else |arrivals| + 1
  {
    if arrivals != [] {
      PositionAppend(arrivals[1..], r, id);
      assert (arrivals + [r])[1..] == arrivals[1..] + [r];
    }
  }

  lemma FoundAt(contents: seq<VectorRecord>, i: nat)
    requires i < |contents|
    ensures Position(contents, contents[i].chunkId) <= i
  {
  }

  lemma PutKeepsArrival(now: seq<VectorRecord>, arrivals: seq<VectorRecord>, r: VectorRecord)
    requires InOrderOfArrival(now, arrivals)
    ensures InOrderOfArrival(Put(now, r), arrivals + [r])
  {
    hide Position;
    var after, all := Put(now, r), arrivals + [r];
    forall i | 0 <= i < |now|
      ensures after[i].chunkId == now[i].chunkId && Position(all, after[i].chunkId) == Position(arrivals, now[i].chunkId)
    {
      PositionAppend(arrivals, r, now[i].chunkId);
    }
    if |now| < |after| {
      NewArrivalComesLast(now, arrivals, r);
    }
    forall k | 0 <= k < |all|
      ensures Position(after, all[k].chunkId) < |after|
    {
      var p := Position(now, all[k].chunkId);
      if k < |arrivals| {
        assert all[k] == arrivals[k] && after[p].chunkId == all[k].chunkId;
        FoundAt(after, p);
      } else {
        assert after[p].chunkId == r.chunkId;
        FoundAt(after, p);
      }
    }
  }

  /** An id that is not stored has not arrived before. */
  lemma NewArrivalComesLast(now: seq<VectorRecord>, arrivals: seq<VectorRecord>, r: VectorRecord)
    requires InOrderOfArrival(now, arrivals) && Position(now, r.chunkId) == |now|
    ensures Position(arrivals + [r], r.chunkId) == |arrivals|
  {
    PositionAppend(arrivals, r, r.chunkId);
    hide Position;
    assert forall k | 0 <= k < |arrivals| :: arrivals[k].chunkId != r.chunkId;
    PositionOfNew(arrivals, r.chunkId);
  }

  lemma PutAtPosition(before: seq<VectorRecord>, r: VectorRecord, after: seq<VectorRecord>)
    requires var k := Position(before, r.chunkId);
      && |after| == (if k < |before| then |before| else |before| + 1)
      && after[k] == r
      && forall i | 0 <= i < |before| && i != k :: after[i] == before[i]
    ensures after == Put(before, r)
  {
  }

  lemma PositionOfNew(contents: seq<VectorRecord>, id: Uuid)
    requires forall i | 0 <= i < |contents| :: contents[i].chunkId != id
    ensures Position(contents, id) == |contents|
  {
  }

  lemma PositionOfStored(contents: seq<VectorRecord>, id: Uuid, i: nat)
    requires DistinctIds(contents) && i < |contents| && contents[i].chunkId == id
    ensures Position(contents, id) == i
  {
  }

  /** Upserting records under fresh, distinct ids just appends them. */
  lemma {:induction false} FreshUpsertAppends(contents: seq<VectorRecord>, records: seq<VectorRecord>)
    requires DistinctIds(contents + records)
    ensures PutAll(contents, records) == contents + records
  {
    if records != [] {
      var init, r := records[..|records| - 1], records[|records| - 1];
      assert contents + records == (contents + init) + [r];
      forall i, j | 0 <= i < j < |contents + init|
        ensures (contents + init)[i].chunkId != (contents + init)[j].chunkId
      {
        assert (contents + records)[i] == (contents + init)[i] && (contents + records)[j] == (contents + init)[j];
      }
      FreshUpsertAppends(contents, init);
      forall i | 0 <= i < |contents + init|
        ensures (contents + init)[i].chunkId != r.chunkId
      {
        assert (contents + records)[i] == (contents + init)[i] && (contents + records)[|contents + init|] == r;
      }
      PositionOfNew(contents + init, r.chunkId);
    }
  }

  // ----- Ranking -----

  /** i ranks ahead of j: a higher score, or the same score and an earlier insertion. */
  predicate Before(scores: seq<real>, i: nat, j: nat)
    requires i < |scores| && j < |scores|
  {
    scores[i] > scores[j] || (scores[i] == scores[j] && i < j)
  }

  predicate Within(ranks: seq<nat>, n: nat) {
    forall p | 0 <= p < |ranks| :: ranks[p] < n
  }

  /** Put index i behind every index that scores at least as much. */
  function InsertRank(scores: seq<real>, ranks: seq<nat>, i: nat): (r: seq<nat>)
    requires i < |scores| && Within(ranks, |scores|)
    ensures |r| == |ranks| + 1 && Within(r, |scores|)
    ensures forall x :: x in r <==> x == i || x in ranks
  {
    if ranks == [] then [i]
    else if scores[ranks[|ranks| - 1]] >= scores[i] then ranks + [i]
    else
      var init, last := ranks[..|ranks| - 1], ranks[|ranks| - 1];
      assert ranks == init + [last];
      InsertRank(scores, init, i) + [last]
  }

  /** The stable sort of the first n positions by descending score. */
  function Ranking(scores: seq<real>, n: nat): (r: seq<nat>)
    requires n <= |scores|
    ensures |r| == n && Within(r, |scores|) && Within(r, n)
    ensures forall x: nat :: x in r <==> x < n
  {
    if n == 0 then []
    else
      var r := InsertRank(scores, Ranking(scores, n - 1), n - 1);
      assert forall p | 0 <= p < |r| :: r[p] in r;
      r
  }

  predicate Ordered(scores: seq<real>, ranks: seq<nat>)
    requires Within(ranks, |scores|)
  {
    forall p, q | 0 <= p < q < |ranks| :: Before(scores, ranks[p], ranks[q])
  }

  lemma {:induction false} InsertKeepsOrdered(scores: seq<real>, ranks: seq<nat>, i: nat)
    requires i < |scores| && Within(ranks, i) && Within(ranks, |scores|) && Ordered(scores, ranks)
    ensures Ordered(scores, InsertRank(scores, ranks, i))
  {
    if ranks != [] {
      var init, last := ranks[..|ranks| - 1], ranks[|ranks| - 1];
      if scores[last] < scores[i] {
        InsertKeepsOrdered(scores, init, i);
        var rest := InsertRank(scores, init, i);
        forall p | 0 <= p < |rest|
          ensures Before(scores, rest[p], last)
        {
          assert rest[p] in rest;
          if rest[p] != i {
            var q :| 0 <= q < |init| && init[q] == rest[p];
            assert Before(scores, ranks[q], ranks[|ranks| - 1]);
          }
        }
      } else {
        forall p | 0 <= p < |ranks|
          ensures Before(scores, ranks[p], i)
        {
          assert p < |ranks| - 1 ==> Before(scores, ranks[p], last);
        }
      }
    }
  }

  lemma {:induction false} RankingIsOrdered(scores: seq<real>, n: nat)
    requires n <= |scores|
    ensures Ordered(scores, Ranking(scores, n))
  {
    if n > 0 {
      RankingIsOrdered(scores, n - 1);
      InsertKeepsOrdered(scores, Ranking(scores, n - 1), n - 1);
    }
  }

  // ----- Queries -----

  function Scores(contents: seq<VectorRecord>, embedding: Vector): (scores: seq<real>)
    ensures |scores| == |contents|
    ensures forall i | 0 <= i < |contents| :: scores[i] == Dot(embedding, contents[i].embedding)
  {
    seq(|contents|, i requires 0 <= i < |contents| => Dot(embedding, contents[i].embedding))
  }

  function HitCount(topK: int, count: nat): (m: nat)
    ensures m <= count
  {
    if topK <= 0 then 0 else if topK <= count then topK else count
  }

  function Hits(contents: seq<VectorRecord>, embedding: Vector, ranks: seq<nat>): (hits: seq<ScoredRecord>)
    requires Within(ranks, |contents|)
    ensures |hits| == |ranks|
    ensures forall p | 0 <= p < |ranks| ::
      hits[p] == ScoredRecord(contents[ranks[p]], Dot(embedding, contents[ranks[p]].embedding))
  {
    seq(|ranks|, p requires 0 <= p < |ranks| =>
      ScoredRecord(contents[ranks[p]], Dot(embedding, contents[ranks[p]].embedding)))
  }

  function TopK(contents: seq<VectorRecord>, embedding: Vector, topK: int): seq<ScoredRecord> {
    Hits(contents, embedding, Ranking(Scores(contents, embedding), |contents|))[..HitCount(topK, |contents|)]
  }

  /** The simple specification, on the positions chosen. */
  predicate BestPositions(scores: seq<real>, topK: int, ranks: seq<nat>) {
    && |ranks| == (if topK <= 0 then 0 else if topK <= |scores| then topK else |scores|)
    && Within(ranks, |scores|)
    && Ordered(scores, ranks)
    && forall j: nat, p | j < |scores| && j !in ranks && 0 <= p < |ranks| :: Before(scores, ranks[p], j)
  }

  /** In an ordered list, what comes later ranks behind. */
  lemma LaterRanksBehind(scores: seq<real>, all: seq<nat>, m: nat, j: nat)
    requires Within(all, |scores|) && Ordered(scores, all) && m <= |all|
    requires j in all && j !in all[..m]
    ensures forall p | 0 <= p < m :: Before(scores, all[p], j)
  {
    var q :| 0 <= q < |all| && all[q] == j;
  }

  lemma RankingIsBest(scores: seq<real>, topK: int)
    ensures BestPositions(scores, topK, Ranking(scores, |scores|)[..HitCount(topK, |scores|)])
  {
    hide Ranking;
    var m, all := HitCount(topK, |scores|), Ranking(scores, |scores|);
    RankingIsOrdered(scores, |scores|);
    forall j: nat, p | j < |scores| && j !in all[..m] && 0 <= p < m
      ensures Before(scores, all[..m][p], j)
    {
      LaterRanksBehind(scores, all, m, j);
    }
  }

  lemma {:induction false} BestPositionsAreUnique(scores: seq<real>, topK: int, ranks: seq<nat>, n: nat)
    requires BestPositions(scores, topK, ranks) && n <= |ranks|
    ensures ranks[..n] == Ranking(scores, |scores|)[..n]
  {
    if n > 0 {
      BestPositionsAreUnique(scores, topK, ranks, n - 1);
      var all := Ranking(scores, |scores|);
      RankingIsOrdered(scores, |scores|);
      NextIsTheSame(scores, topK, ranks, all, n - 1);
      assert ranks[..n] == ranks[..n - 1] + [ranks[n - 1]];
      assert all[..n] == all[..n - 1] + [all[n - 1]];
    }
  }

  lemma NextIsTheSame(scores: seq<real>, topK: int, ranks: seq<nat>, all: seq<nat>, k: nat)
    requires BestPositions(scores, topK, ranks) && k < |ranks| <= |all|
    requires Within(all, |scores|) && Ordered(scores, all) && forall x: nat :: x in all <==> x < |scores|
    requires ranks[..k] == all[..k]
    ensures ranks[k] == all[k]
  {
    var x, y := ranks[k], all[k];
    if x != y {
      assert x !in all[..k] by {
        ListedOnce(scores, ranks, k);
      }
      assert y !in ranks[..k] by {
        ListedOnce(scores, all, k);
      }
      BehindTheNext(scores, all, k, x);
      if y in ranks {
        BehindTheNext(scores, ranks, k, y);
      }
    }
  }

  lemma ListedOnce(scores: seq<real>, all: seq<nat>, k: nat)
    requires Within(all, |scores|) && Ordered(scores, all) && k < |all|
    ensures all[k] !in all[..k]
  {
  }

  lemma BehindTheNext(scores: seq<real>, all: seq<nat>, k: nat, j: nat)
    requires Within(all, |scores|) && Ordered(scores, all) && k < |all|
    requires j in all && j !in all[..k] && j != all[k]
    ensures j < |scores| && Before(scores, all[k], j)
  {
    var q :| 0 <= q < |all| && all[q] == j;
  }

  /** A result list meets the specification: distinct records, best first, ties by first insertion, none better left out. */
  ghost predicate IsTopK(contents: seq<VectorRecord>, embedding: Vector, topK: int, hits: seq<ScoredRecord>) {
    exists ranks: seq<nat> ::
      BestPositions(Scores(contents, embedding), topK, ranks) && hits == Hits(contents, embedding, ranks)
  }

  /** The query returns the one list that meets the specification. */
  lemma QueryMeetsSpec(contents: seq<VectorRecord>, embedding: Vector, topK: int, hits: seq<ScoredRecord>)
    ensures IsTopK(contents, embedding, topK, hits) <==> hits == TopK(contents, embedding, topK)
  {
    var scores := Scores(contents, embedding);
    var m := HitCount(topK, |contents|);
    var best := Ranking(scores, |scores|)[..m];
    RankingIsBest(scores, topK);
    assert TopK(contents, embedding, topK) == Hits(contents, embedding, best);
    hide Ranking, TopK;
    if IsTopK(contents, embedding, topK, hits) {
      var ranks :| BestPositions(scores, topK, ranks) && hits == Hits(contents, embedding, ranks);
      BestPositionsAreUnique(scores, topK, ranks, m);
      assert ranks == best;
    }
  }

  /** What a caller reads off: the size, the order of scores, and that nothing better is missing. */
  lemma QueryIsBestFirst(contents: seq<VectorRecord>, embedding: Vector, topK: int)
    ensures var hits := TopK(contents, embedding, topK);
      && |hits| == (if topK <= 0 then 0 else if topK <= |contents| then topK else |contents|)
      && (forall p, q | 0 <= p < q < |hits| :: hits[p].score >= hits[q].score)
      && (forall p | 0 <= p < |hits| ::
            hits[p].record in contents && hits[p].score == Dot(embedding, hits[p].record.embedding))
      && (forall r, p | r in contents && 0 <= p < |hits| && (forall h | h in hits :: h.record != r) ::
            hits[p].score >= Dot(embedding, r.embedding))
  {
    var scores := Scores(contents, embedding);
    var ranks := Ranking(scores, |scores|)[..HitCount(topK, |contents|)];
    RankingIsBest(scores, topK);
    assert TopK(contents, embedding, topK) == Hits(contents, embedding, ranks);
    BestPositionsAreBestFirst(contents, embedding, topK, ranks);
  }

  lemma BestPositionsAreBestFirst(contents: seq<VectorRecord>, embedding: Vector, topK: int, ranks: seq<nat>)
    requires BestPositions(Scores(contents, embedding), topK, ranks)
    ensures var hits := Hits(contents, embedding, ranks);
      && (forall p, q | 0 <= p < q < |hits| :: hits[p].score >= hits[q].score)
      && (forall r, p | r in contents && 0 <= p < |hits| && (forall h | h in hits :: h.record != r) ::
            hits[p].score >= Dot(embedding, r.embedding))
  {
    var scores, hits := Scores(contents, embedding), Hits(contents, embedding, ranks);
    forall p, q | 0 <= p < q < |hits|
      ensures hits[p].score >= hits[q].score
    {
      assert Before(scores, ranks[p], ranks[q]);
    }
    forall r, p | r in contents && 0 <= p < |hits| && (forall h | h in hits :: h.record != r)
      ensures hits[p].score >= Dot(embedding, r.embedding)
    {
      var j: nat :| j < |contents| && contents[j] == r;
      if j in ranks {
        RankedIsHit(contents, embedding, ranks, j);
      } else {
        assert Before(scores, ranks[p], j);
      }
    }
  }

  lemma RankedIsHit(contents: seq<VectorRecord>, embedding: Vector, ranks: seq<nat>, j: nat)
    requires Within(ranks, |contents|) && j in ranks && j < |contents|
    ensures exists h | h in Hits(contents, embedding, ranks) :: h.record == contents[j]
  {
    var q :| 0 <= q < |ranks| && ranks[q] == j;
    assert Hits(contents, embedding, ranks)[q] in Hits(contents, embedding, ranks);
  }

  /** Asking for fewer hits gives a prefix of asking for more. */
  lemma FewerHitsArePrefix(contents: seq<VectorRecord>, embedding: Vector, k: int, l: int)
    requires k <= l
    ensures TopK(contents, embedding, k) <= TopK(contents, embedding, l)
  {
  }

  // ----- The store object -----

  class InMemoryVectorStore {
    var order: seq<Uuid>
    var records: map<Uuid, VectorRecord>

    ghost predicate Valid()
      reads this
    {
      && (forall i, j | 0 <= i < j < |order| :: order[i] != order[j])
      && (forall id :: id in order <==> id in records)
      && (forall id | id in records :: records[id].chunkId == id)
    }

    /** The dictionary's values, in insertion order. */
    function Contents(): (contents: seq<VectorRecord>)
      requires Valid()
      reads this
      ensures |contents| == |order| && forall i | 0 <= i < |order| :: contents[i] == records[order[i]]
    {
      seq(|order|, i requires 0 <= i < |order| && Valid() reads this => assert order[i] in order; records[order[i]])
    }

    constructor ()
      ensures Valid() && Contents() == []
    {
      order, records := [], map[];
    }

    method Upsert(newRecords: seq<VectorRecord>)
      requires Valid()
      modifies this
      ensures Valid() && Contents() == PutAll(old(Contents()), newRecords)
    {
      var k := 0;
      while k < |newRecords|
        invariant k <= |newRecords|
        invariant Valid() && Contents() == PutAll(old(Contents()), newRecords[..k])
      {
        assert newRecords[..k + 1][..k] == newRecords[..k];
        Assign(newRecords[k]);
        k := k + 1;
      }
      assert newRecords[..k] == newRecords;
    }

    /** `_records[record.chunk_id] = record`. */
    method Assign(record: VectorRecord)
      requires Valid()
      modifies this
      ensures Valid() && Contents() == Put(old(Contents()), record)
    {
      hide Put, Position;
      ghost var before := Contents();
      FindKey(record.chunkId);
      if record.chunkId !in records {
        order := order + [record.chunkId];
      }
      records := records[record.chunkId := record];
      PutAtPosition(before, record, Contents());
    }

    /** The key's place in the order is its place in the contents. */
    lemma FindKey(id: Uuid)
      requires Valid()
      ensures id in records ==> Position(Contents(), id) < |order| && order[Position(Contents(), id)] == id
      ensures id !in records ==> Position(Contents(), id) == |order| && id !in order
    {
      hide Put, Position;
      if id in records {
        assert id in order;
        var i :| 0 <= i < |order| && order[i] == id;
        PositionOfStored(Contents(), id, i);
      } else {
        assert forall i | 0 <= i < |order| :: order[i] in order;
        PositionOfNew(Contents(), id);
      }
    }

    method Query(embedding: Vector, topK: int := 5) returns (hits: seq<ScoredRecord>)
      requires Valid()
      ensures hits == TopK(Contents(), embedding, topK)
    {
      hide Ranking, Dot;
      var contents := Contents();
      var scores := [];
      while |scores| < |contents|
        invariant |scores| <= |contents|
        invariant forall i | 0 <= i < |scores| :: scores[i] == Dot(embedding, contents[i].embedding)
      {
        scores := scores + [Dot(embedding, contents[|scores|].embedding)];
      }
      assert scores == Scores(contents, embedding);
      var scored := Hits(contents, embedding, Ranking(scores, |scores|));
      hits := scored[..HitCount(topK, |scored|)];
    }

    method Count() returns (n: nat)
      requires Valid()
      ensures n == |Contents()| == |records|
    {
      CountDistinct(order, records.Keys);
      n := |records|;
    }
  }
}
