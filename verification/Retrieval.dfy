/** The retrieval agent and the compliance agent built on it: hits, citations, grounding. */
module Retrieval {
  import opened Prelude
  import opened VectorMath
  import opened Embedding
  import opened VectorStore
  import opened Routing
  import Rounding
  import Text

  datatype SearchHit = SearchHit(documentId: Uuid, chunkId: Uuid, score: real, text: string, filename: string)

  function HitOf(s: ScoredRecord): SearchHit {
    SearchHit(s.record.documentId, s.record.chunkId, Rounding.Round(s.score, 6), s.record.text, s.record.filename)
  }

  function HitsOf(scored: seq<ScoredRecord>): (hits: seq<SearchHit>)
    ensures |hits| == |scored| && forall i | 0 <= i < |scored| :: hits[i] == HitOf(scored[i])
  {
    seq(|scored|, i requires 0 <= i < |scored| => HitOf(scored[i]))
  }

  /** `RetrievalAgent.run`, for an embedder that has at least one dimension. */
  function Retrieve(e: HashingEmbedder, contents: seq<VectorRecord>, query: string, topK: int): seq<SearchHit>
    requires e.Valid() && e.dimensions >= 1
  {
    HitsOf(TopK(contents, e.Embedding(query), topK))
  }

  datatype Citation = Citation(marker: nat, documentId: Uuid, chunkId: Uuid, filename: string, text: string)

  datatype ComplianceOutput = ComplianceOutput(
    question: string,
    answer: string,
    citations: seq<Citation>,
    grounded: bool,
    modelUsed: Option<string>)

  function Cite(marker: nat, hit: SearchHit): Citation {
    Citation(marker, hit.documentId, hit.chunkId, hit.filename, hit.text)
  }

  function Citations(hits: seq<SearchHit>): (citations: seq<Citation>)
    ensures |citations| == |hits| && forall i | 0 <= i < |hits| :: citations[i] == Cite(i + 1, hits[i])
  {
    seq(|hits|, i requires 0 <= i < |hits| => Cite(i + 1, hits[i]))
  }

  function Decimal(n: nat): string {
    if n < 10 then [('0' as int + n) as char] else Decimal(n / 10) + [('0' as int + n % 10) as char]
  }

  /** "[1] text", one citation after another. */
  function Excerpts(citations: seq<Citation>, separator: string): string {
    if citations == [] then ""
    else
      var last := citations[|citations| - 1];
      var line := "[" + Decimal(last.marker) + "] " + last.text;
      if |citations| == 1 then line else Excerpts(citations[..|citations| - 1], separator) + separator + line
  }

  function Take(s: string, n: nat): string {
    if |s| <= n then s else s[..n]
  }

  function StripLeft(s: string): string {
    if s != [] && Text.IsSpace(s[0]) then StripLeft(s[1..]) else s
  }

  function StripRight(s: string): string {
    if s != [] && Text.IsSpace(s[|s| - 1]) then StripRight(s[..|s| - 1]) else s
  }

  /** How an answer is written: without a model, or by one completion of the router. */
  datatype Synthesis = Extractive | Modelled(outcome: Result<CompletionResult, RouterError>)

  /** `ComplianceAgent.run` on the hits it retrieved; it fails only when the router does. */
  function Comply(question: string, hits: seq<SearchHit>, synthesis: Synthesis): Result<ComplianceOutput, RouterError> {
    var citations := Citations(hits);
    if citations == [] then
      Ok(ComplianceOutput(question, "No relevant policy was found for this question.", [], false, None))
    else
      match synthesis
      case Extractive =>
        Ok(ComplianceOutput(question, "Based on the retrieved policy excerpts: " + Take(Excerpts(citations, " "), 1500),
                            citations, true, None))
      case Modelled(Ok(result)) =>
        Ok(ComplianceOutput(question, StripRight(StripLeft(result.text)), citations, true,
                            Some(result.provider + ":" + result.model)))
      case Modelled(Err(error)) => Err(error)
  }

  /** The hit shows the record found, and its score to within half a millionth. */
  predicate Shows(h: SearchHit, s: ScoredRecord) {
    && h.chunkId == s.record.chunkId
    && h.documentId == s.record.documentId
    && h.text == s.record.text
    && h.filename == s.record.filename
    && s.score - 0.0000005 <= h.score <= s.score + 0.0000005
  }

  lemma HitShows(s: ScoredRecord)
    ensures Shows(HitOf(s), s)
  {
    hide Rounding.Round;
    Rounding.DecimalScales();
    Rounding.RoundError(s.score, 6);
  }

  /**
   * The hits show, one for one, the list of records that meets the query specification
   * for the query's own embedding; and with rounded scores they are still best first.
   */
  lemma RetrievedBestFirst(e: HashingEmbedder, contents: seq<VectorRecord>, query: string, topK: int)
    requires e.Valid() && e.dimensions >= 1
    ensures var hits := Retrieve(e, contents, query, topK);
      && |hits| == (if topK <= 0 then 0 else if topK <= |contents| then topK else |contents|)
      && (forall p, q | 0 <= p < q < |hits| :: hits[p].score >= hits[q].score)
      && exists scored :: IsTopK(contents, e.Embedding(query), topK, scored) && AllShow(hits, scored)
  {
    hide Shows, IsTopK, TopK;
    var scored := TopK(contents, e.Embedding(query), topK);
    QueryIsBestFirst(contents, e.Embedding(query), topK);
    QueryMeetsSpec(contents, e.Embedding(query), topK, scored);
    var hits := HitsOf(scored);
    forall p, q | 0 <= p < q < |hits|
      ensures hits[p].score >= hits[q].score
    {
      Rounding.RoundMonotone(scored[q].score, scored[p].score, 6);
    }
    forall p | 0 <= p < |hits|
      ensures Shows(hits[p], scored[p])
    {
      HitShows(scored[p]);
    }
    assert AllShow(hits, scored);
  }

  predicate AllShow(hits: seq<SearchHit>, scored: seq<ScoredRecord>) {
    |hits| == |scored| && forall i | 0 <= i < |hits| :: Shows(hits[i], scored[i])
  }

  /** The citation carries this number and points at this hit's chunk. */
  predicate Cites(c: Citation, marker: nat, hit: SearchHit) {
    c.marker == marker && c.documentId == hit.documentId && c.chunkId == hit.chunkId && c.filename == hit.filename && c.text == hit.text
  }

  /**
   * Citations are exactly the retrieved hits in their order, numbered 1 to m without
   * gaps, each of a stored chunk; the answer is grounded iff there are any, which is
   * iff the index holds anything; and a question without hits needs no model.
   */
  lemma CitationsAreTheHits(e: HashingEmbedder, contents: seq<VectorRecord>, question: string, topK: int, synthesis: Synthesis)
    requires e.Valid() && e.dimensions >= 1 && topK >= 1
    ensures var hits := Retrieve(e, contents, question, topK); var r := Comply(question, hits, synthesis);
      && (r.Ok? ==>
            && |r.value.citations| == |hits| == (if topK <= |contents| then topK else |contents|)
            && (forall i | 0 <= i < |hits| :: Cites(r.value.citations[i], i + 1, hits[i]))
            && (forall c | c in r.value.citations :: exists record | record in contents ::
                  c.chunkId == record.chunkId && c.documentId == record.documentId && c.text == record.text)
            && (r.value.grounded <==> contents != [])
            && (r.value.modelUsed.Some? ==> contents != [] && synthesis.Modelled?))
      && (r.Err? <==> contents != [] && synthesis.Modelled? && synthesis.outcome.Err?)
  {
    hide Excerpts, StripLeft, StripRight, Take, TopK;
    var v := e.Embedding(question);
    var scored := TopK(contents, v, topK);
    QueryIsBestFirst(contents, v, topK);
    var hits := HitsOf(scored);
    forall c | c in Citations(hits)
      ensures exists record | record in contents ::
        c.chunkId == record.chunkId && c.documentId == record.documentId && c.text == record.text
    {
      var i :| 0 <= i < |hits| && Citations(hits)[i] == c;
      assert scored[i].record in contents;
    }
  }

  // ----- What the answer says -----

  predicate AllSpace(s: string) {
    forall i | 0 <= i < |s| :: Text.IsSpace(s[i])
  }

  /** `inner` is `s` without the whitespace at its ends. */
  predicate IsStripped(s: string, before: string, inner: string, after: string) {
    && s == before + inner + after
    && AllSpace(before)
    && AllSpace(after)
    && (inner != "" ==> !Text.IsSpace(inner[0]) && !Text.IsSpace(inner[|inner| - 1]))
  }

  lemma {:induction false} StripLeftRemovesSpace(s: string)
    ensures var n := |s| - |StripLeft(s)|;
      0 <= n && s[n..] == StripLeft(s) && AllSpace(s[..n]) && (StripLeft(s) != "" ==> !Text.IsSpace(StripLeft(s)[0]))
  {
    hide Text.IsSpace;
    if s != [] && Text.IsSpace(s[0]) {
      StripLeftRemovesSpace(s[1..]);
    }
  }

  lemma {:induction false} StripRightRemovesSpace(s: string)
    ensures var n := |StripRight(s)|;
      && n <= |s| && s[..n] == StripRight(s) && AllSpace(s[n..])
      && (n > 0 ==> !Text.IsSpace(StripRight(s)[n - 1]))
  {
    hide Text.IsSpace;
    if s != [] && Text.IsSpace(s[|s| - 1]) {
      StripRightRemovesSpace(s[..|s| - 1]);
    }
  }

  lemma StripIsInner(s: string)
    ensures exists before, after :: IsStripped(s, before, StripRight(StripLeft(s)), after)
  {
    hide Text.IsSpace, StripLeft, StripRight, AllSpace;
    var left := StripLeft(s);
    StripLeftRemovesSpace(s);
    StripRightRemovesSpace(left);
    var inner := StripRight(left);
    assert IsStripped(s, s[..|s| - |left|], inner, left[|inner|..]);
  }

  /** Reading a decimal numeral. */
  function NumeralValue(s: string): int {
    if s == "" then 0 else 10 * NumeralValue(s[..|s| - 1]) + (s[|s| - 1] as int - '0' as int)
  }

  /** The marker's numeral reads as the marker, in digits, without a leading zero. */
  lemma {:induction false} DecimalReads(n: nat)
    ensures NumeralValue(Decimal(n)) == n
    ensures Decimal(n) != "" && (n > 0 ==> Decimal(n)[0] != '0')
    ensures forall i | 0 <= i < |Decimal(n)| :: '0' <= Decimal(n)[i] <= '9'
  {
    if n >= 10 {
      DecimalReads(n / 10);
    } else {
      assert Decimal(n)[..0] == "";
    }
  }

  lemma ExcerptOf(init: seq<Citation>, c: Citation, separator: string)
    ensures var line := "[" + Decimal(c.marker) + "] " + c.text;
      Excerpts(init + [c], separator) == if init == [] then line else Excerpts(init, separator) + separator + line
  {
    hide Decimal;
    assert (init + [c])[..|init|] == init;
  }

  /** The excerpts of two runs of citations stand one after the other; one citation is its number and its text. */
  lemma {:induction false} ExcerptsInOrder(a: seq<Citation>, b: seq<Citation>, separator: string)
    requires a != [] && b != []
    ensures Excerpts(a + b, separator) == Excerpts(a, separator) + separator + Excerpts(b, separator)
    ensures Excerpts([a[0]], separator) == "[" + Decimal(a[0].marker) + "] " + a[0].text
  {
    hide Excerpts, Decimal;
    var init, last := b[..|b| - 1], b[|b| - 1];
    assert b == init + [last] && a + b == (a + init) + [last];
    assert [a[0]] == [] + [a[0]];
    ExcerptOf([], a[0], separator);
    ExcerptOf(a + init, last, separator);
    ExcerptOf(init, last, separator);
    if init == [] {
      assert a + init == a;
    } else {
      ExcerptsInOrder(a, init, separator);
    }
  }

  /**
   * What the agent answers: without hits, that nothing was found; without a model, the
   * first 1500 characters of the numbered excerpts; with one, the model's text without
   * the whitespace around it, naming the model that wrote it.
   */
  lemma AnswerIsFromTheEvidence(question: string, hits: seq<SearchHit>, synthesis: Synthesis)
    ensures var r := Comply(question, hits, synthesis);
      && (r.Ok? ==> r.value.question == question)
      && (hits == [] ==> r.Ok? && r.value.answer == "No relevant policy was found for this question.")
      && (hits != [] && synthesis.Extractive? ==>
            exists shown :: shown <= Excerpts(Citations(hits), " ")
              && |shown| == (if |Excerpts(Citations(hits), " ")| <= 1500 then |Excerpts(Citations(hits), " ")| else 1500)
              && r.Ok? && r.value.answer == "Based on the retrieved policy excerpts: " + shown)
      && (hits != [] && synthesis.Modelled? && synthesis.outcome.Ok? ==>
            && r.Ok?
            && (exists before, after :: IsStripped(synthesis.outcome.value.text, before, r.value.answer, after))
            && r.value.modelUsed == Some(synthesis.outcome.value.provider + ":" + synthesis.outcome.value.model))
      && (r.Err? ==> synthesis.Modelled? && synthesis.outcome == Err(r.error))
  {
    hide Excerpts, StripLeft, StripRight, IsStripped;
    if hits != [] {
      if synthesis.Extractive? {
        assert Take(Excerpts(Citations(hits), " "), 1500) <= Excerpts(Citations(hits), " ");
      } else if synthesis.outcome.Ok? {
        StripIsInner(synthesis.outcome.value.text);
      }
    }
  }

  /** The store holds what the embedder made of each record's text. */
  predicate EmbeddedBy(e: HashingEmbedder, contents: seq<VectorRecord>)
    requires e.Valid() && e.dimensions >= 1
  {
    forall i | 0 <= i < |contents| :: contents[i].embedding == e.Embedding(contents[i].text)
  }

  /** No score a query can produce lies outside [-1, 1]. */
  lemma ScoresAreBounded(e: HashingEmbedder, contents: seq<VectorRecord>, query: string, topK: int)
    requires e.Valid() && e.dimensions >= 1 && EmbeddedBy(e, contents)
    ensures forall h | h in TopK(contents, e.Embedding(query), topK) :: -1.0 <= h.score <= 1.0
  {
    var v := e.Embedding(query);
    QueryIsBestFirst(contents, v, topK);
    forall h | h in TopK(contents, v, topK)
      ensures -1.0 <= h.score <= 1.0
    {
      var i: nat :| i < |contents| && contents[i] == h.record;
      SimilarityIsBounded(e, query, contents[i].text);
    }
  }

  /**
   * A query with the tokens of a stored chunk, in any order, gets a first hit of score
   * exactly 1 if and only if those tokens do not cancel, and that hit has the chunk's
   * embedding. If they cancel, every hit scores 0.
   */
  lemma SelfQueryWins(e: HashingEmbedder, contents: seq<VectorRecord>, stored: VectorRecord, query: string, topK: int)
    requires e.Valid() && e.dimensions >= 1 && EmbeddedBy(e, contents) && stored in contents && topK >= 1
    requires multiset(FindTokens(e.lower(query))) == multiset(FindTokens(e.lower(stored.text)))
    ensures var hits := TopK(contents, e.Embedding(query), topK);
      && |hits| > 0
      && (hits[0].score == 1.0 <==> !TokensCancel(e, query))
      && (!TokensCancel(e, query) ==> hits[0].record.embedding == stored.embedding)
      && (TokensCancel(e, query) ==> forall h | h in hits :: h.score == 0.0)
  {
    hide TopK, TokensCancel;
    QueryIsBestFirst(contents, e.Embedding(query), topK);
    EmbeddingIsUnit(e, query);
    if TokensCancel(e, query) {
      CancelledQueryScoresZero(e, contents, query, topK);
      assert TopK(contents, e.Embedding(query), topK)[0] in TopK(contents, e.Embedding(query), topK);
    } else {
      UncancelledQueryWins(e, contents, stored, query, topK);
    }
  }

  /** A text whose tokens cancel is like no stored chunk at all. */
  lemma CancelledQueryScoresZero(e: HashingEmbedder, contents: seq<VectorRecord>, query: string, topK: int)
    requires e.Valid() && e.dimensions >= 1 && TokensCancel(e, query)
    ensures forall h | h in TopK(contents, e.Embedding(query), topK) :: h.score == 0.0
  {
    hide TopK, TokensCancel;
    var v := e.Embedding(query);
    QueryIsBestFirst(contents, v, topK);
    EmbeddingIsUnit(e, query);
    SquareSumNonNegative(v);
    forall h | h in TopK(contents, v, topK)
      ensures h.score == 0.0
    {
      DotWithZeros(v, h.record.embedding);
    }
  }

  /** The law fails for any chunk without a letter or digit, such as one of dashes: it finds itself at score 0. */
  lemma DashesAreNotFound(e: HashingEmbedder, contents: seq<VectorRecord>, stored: VectorRecord, topK: int)
    requires e.Valid() && e.dimensions >= 1 && EmbeddedBy(e, contents) && stored in contents && topK >= 1
    requires stored.text == "---" && e.lower("---") == "---"
    ensures var hits := TopK(contents, e.Embedding(stored.text), topK);
      |hits| > 0 && hits[0].score == 0.0
  {
    hide TopK;
    DashesHaveNoToken();
    assert e.Digests(stored.text) == [];
    assert forall i: nat | i < e.dimensions :: SignedCount([], e.dimensions, i) == 0.0;
    SelfQueryWins(e, contents, stored, stored.text, topK);
    assert TopK(contents, e.Embedding(stored.text), topK)[0] in TopK(contents, e.Embedding(stored.text), topK);
  }

  lemma DashesHaveNoToken()
    ensures FindTokens("---") == []
  {
    assert "---"[1..] == "--" && "--"[1..] == "-" && "-"[1..] == "";
  }

  lemma UncancelledQueryWins(e: HashingEmbedder, contents: seq<VectorRecord>, stored: VectorRecord, query: string, topK: int)
    requires e.Valid() && e.dimensions >= 1 && EmbeddedBy(e, contents) && stored in contents && topK >= 1
    requires multiset(FindTokens(e.lower(query))) == multiset(FindTokens(e.lower(stored.text)))
    requires SquareSum(e.Embedding(query)) != 0.0
    ensures var hits := TopK(contents, e.Embedding(query), topK);
      |hits| > 0 && hits[0].score == 1.0 && hits[0].record.embedding == stored.embedding
  {
    hide TopK, Dot, SquareSum, TokensCancel;
    var v := e.Embedding(query);
    EmbeddingIgnoresOrder(e, query, stored.text);
    EmbeddingIsUnit(e, query);
    assert stored.embedding == v by {
      var i :| 0 <= i < |contents| && contents[i] == stored;
    }
    UnitWithItself(v);
    QueryIsBestFirst(contents, v, topK);
    ScoresAreBounded(e, contents, query, topK);
    var hits := TopK(contents, v, topK);
    assert hits[0] in hits;
    FirstHitIsBest(hits, contents, v, stored);
    EmbeddingIsUnit(e, hits[0].record.text);
    assert hits[0].record.embedding == e.Embedding(hits[0].record.text) by {
      var i :| 0 <= i < |contents| && contents[i] == hits[0].record;
    }
    SimilarityOneIff(v, hits[0].record.embedding);
  }

  lemma UnitWithItself(v: Vector)
    requires UnitOrZero(v) && SquareSum(v) != 0.0
    ensures Dot(v, v) == 1.0
  {
    DotWithSelf(v);
  }

  /** The first hit scores at least as much as any given record. */
  lemma FirstHitIsBest(hits: seq<ScoredRecord>, contents: seq<VectorRecord>, v: Vector, r: VectorRecord)
    requires |hits| > 0 && r in contents
    requires forall p, q | 0 <= p < q < |hits| :: hits[p].score >= hits[q].score
    requires forall p | 0 <= p < |hits| :: hits[p].score == Dot(v, hits[p].record.embedding)
    requires forall r, p | r in contents && 0 <= p < |hits| && (forall h | h in hits :: h.record != r) ::
      hits[p].score >= Dot(v, r.embedding)
    ensures hits[0].score >= Dot(v, r.embedding)
  {
    if h :| h in hits && h.record == r {
      var q :| 0 <= q < |hits| && hits[q] == h;
      assert q > 0 ==> hits[0].score >= hits[q].score;
    }
  }
}
