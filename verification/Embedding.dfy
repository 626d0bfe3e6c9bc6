/** The hashing embedder: a signed, hashed bag of words, normalised to length one. */
module Embedding {
  import opened Prelude
  import opened VectorMath

  // ----- Tokens -----

  /** A character of `[a-z0-9]`. */
  predicate IsTokenChar(c: char) {
    'a' <= c <= 'z' || '0' <= c <= '9'
  }

  function TokenLength(s: string): (n: nat)
    ensures n <= |s|
    ensures forall i | 0 <= i < n :: IsTokenChar(s[i])
    ensures n < |s| ==> !IsTokenChar(s[n])
  {
    if s == [] || !IsTokenChar(s[0]) then 0 else 1 + TokenLength(s[1..])
  }

  /** All maximal runs of token characters, in order. */
  function FindTokens(s: string): seq<string> {
    if s == [] then []
    else if !IsTokenChar(s[0]) then FindTokens(s[1..])
    else [s[..TokenLength(s)]] + FindTokens(s[TokenLength(s)..])
  }

  lemma {:induction false} TokenLengthOfPrefix(w: string, rest: string)
    requires (forall i | 0 <= i < |w| :: IsTokenChar(w[i])) && (rest == [] || !IsTokenChar(rest[0]))
    ensures TokenLength(w + rest) == |w|
  {
    if w == [] {
      assert w + rest == rest;
    } else {
      TokenLengthOfPrefix(w[1..], rest);
      assert (w + rest)[1..] == w[1..] + rest;
    }
  }

  /** Any other character only separates: the tokens are those before it, then those after it. */
  lemma {:induction false} TokensAroundSeparator(a: string, c: char, b: string)
    requires !IsTokenChar(c)
    ensures FindTokens(a + [c] + b) == FindTokens(a) + FindTokens(b)
    decreases |a|
  {
    var s := a + [c] + b;
    if a == [] {
      assert s[1..] == b;
    } else if !IsTokenChar(a[0]) {
      TokensAroundSeparator(a[1..], c, b);
      assert s[1..] == a[1..] + [c] + b;
    } else {
      var n := TokenLength(a);
      TokenLengthOfPrefix(a[..n], a[n..] + [c] + b);
      assert s == a[..n] + (a[n..] + [c] + b);
      TokensAroundSeparator(a[n..], c, b);
      assert s[n..] == a[n..] + [c] + b;
    }
  }

  /** Text of letters and digits alone is one token, or none if it is empty. */
  lemma TokenOfWord(w: string)
    requires forall i | 0 <= i < |w| :: IsTokenChar(w[i])
    ensures FindTokens(w) == if w == "" then [] else [w]
  {
    TokenLengthOfPrefix(w, "");
    assert w + "" == w;
  }

  /** A tokeniser that keeps runs of `[a-z0-9]` whole and lets everything else separate. */
  ghost predicate FindsAllRuns(find: string -> seq<string>) {
    && find("") == []
    && (forall w | w != "" && (forall i | 0 <= i < |w| :: 'a' <= w[i] <= 'z' || '0' <= w[i] <= '9') :: find(w) == [w])
    && (forall a, c, b | !('a' <= c <= 'z' || '0' <= c <= '9') :: find(a + [c] + b) == find(a) + find(b))
  }

  /** There is only one such tokeniser. */
  lemma {:induction false} FindTokensIsTheOnly(find: string -> seq<string>, s: string)
    requires FindsAllRuns(find)
    ensures find(s) == FindTokens(s)
    decreases |s|
  {
    hide FindsAllRuns, FindTokens, TokenLength;
    var n := TokenLength(s);
    if n == |s| {
      TokenOfWord(s);
      RunIsFound(find, s);
    } else {
      assert s == s[..n] + [s[n]] + s[n + 1..];
      FindTokensIsTheOnly(find, s[..n]);
      FindTokensIsTheOnly(find, s[n + 1..]);
      TokensAroundSeparator(s[..n], s[n], s[n + 1..]);
      RunsAreSeparated(find, s[..n], s[n], s[n + 1..]);
    }
  }

  lemma RunIsFound(find: string -> seq<string>, w: string)
    requires FindsAllRuns(find) && forall i | 0 <= i < |w| :: IsTokenChar(w[i])
    ensures find(w) == if w == "" then [] else [w]
  {
  }

  lemma RunsAreSeparated(find: string -> seq<string>, a: string, c: char, b: string)
    requires FindsAllRuns(find) && !IsTokenChar(c)
    ensures find(a + [c] + b) == find(a) + find(b)
  {
  }

  // ----- The bag of words -----

  /** What the digest of a token decides: its component before reduction, and its sign. */
  datatype Digest = Digest(index: nat, odd: bool)

  function Sign(d: Digest): real {
    if d.odd then 1.0 else -1.0
  }

  function AddToken(vec: Vector, d: Digest): (w: Vector)
    requires vec != []
    ensures |w| == |vec|
  {
    var i := d.index % |vec|;
    vec[i := vec[i] + Sign(d)]
  }

  function AddTokens(vec: Vector, digests: seq<Digest>): (w: Vector)
    requires vec != []
    ensures |w| == |vec|
  {
    if digests == [] then vec else AddToken(AddTokens(vec, digests[..|digests| - 1]), digests[|digests| - 1])
  }

  function Zeros(n: nat): (v: Vector)
    ensures |v| == n && forall i | 0 <= i < n :: v[i] == 0.0
  {
    seq(n, i => 0.0)
  }

  /** The signed number of tokens that fall on component i: what the bag counts there. */
  function SignedCount(digests: seq<Digest>, dimensions: nat, i: nat): real
    requires dimensions >= 1
  {
    if digests == [] then 0.0
    else Contribution(digests[0], dimensions, i) + SignedCount(digests[1..], dimensions, i)
  }

  function Contribution(d: Digest, dimensions: nat, i: nat): real
    requires dimensions >= 1
  {
    if d.index % dimensions == i then Sign(d) else 0.0
  }

  lemma {:induction false} SignedCountConcat(a: seq<Digest>, b: seq<Digest>, dimensions: nat, i: nat)
    requires dimensions >= 1
    ensures SignedCount(a + b, dimensions, i) == SignedCount(a, dimensions, i) + SignedCount(b, dimensions, i)
  {
    if a == [] {
      assert a + b == b;
    } else {
      SignedCountConcat(a[1..], b, dimensions, i);
      assert (a + b)[1..] == a[1..] + b;
    }
  }

  /** Component i of the bag is the signed count of its tokens. */
  lemma {:induction false} BagCountsTokens(digests: seq<Digest>, dimensions: nat, i: nat)
    requires i < dimensions
    ensures AddTokens(Zeros(dimensions), digests)[i] == SignedCount(digests, dimensions, i)
  {
    if digests != [] {
      var init, last := digests[..|digests| - 1], digests[|digests| - 1];
      BagCountsTokens(init, dimensions, i);
      SignedCountConcat(init, [last], dimensions, i);
      assert digests == init + [last];
      assert SignedCount([last], dimensions, i) == Contribution(last, dimensions, i) + SignedCount([], dimensions, i);
    }
  }

  /** How many tokens of one sign fall on component i. */
  function Tally(digests: seq<Digest>, dimensions: nat, i: nat, odd: bool): nat
    requires dimensions >= 1
  {
    |set k: nat | k < |digests| && digests[k].index % dimensions == i && digests[k].odd == odd|
  }

  /** The signed count is the number of tokens with an odd digest less the number with an even one. */
  lemma {:induction false} SignedCountIsDifference(digests: seq<Digest>, dimensions: nat, i: nat)
    requires dimensions >= 1
    ensures SignedCount(digests, dimensions, i)
         == Tally(digests, dimensions, i, true) as real - Tally(digests, dimensions, i, false) as real
  {
    hide Tally;
    if digests == [] {
      TallyNone(dimensions, i, true);
      TallyNone(dimensions, i, false);
    } else {
      var init, last := digests[..|digests| - 1], digests[|digests| - 1];
      assert digests == init + [last];
      SignedCountIsDifference(init, dimensions, i);
      SignedCountConcat(init, [last], dimensions, i);
      assert SignedCount([last], dimensions, i) == Contribution(last, dimensions, i) + SignedCount([], dimensions, i);
      TallyAppend(init, last, dimensions, i, true);
      TallyAppend(init, last, dimensions, i, false);
    }
  }

  lemma TallyNone(dimensions: nat, i: nat, odd: bool)
    requires dimensions >= 1
    ensures Tally([], dimensions, i, odd) == 0
  {
  }

  lemma TallyAppend(init: seq<Digest>, last: Digest, dimensions: nat, i: nat, odd: bool)
    requires dimensions >= 1
    ensures Tally(init + [last], dimensions, i, odd)
         == Tally(init, dimensions, i, odd) + if last.index % dimensions == i && last.odd == odd then 1 else 0
  {
    var all := init + [last];
    var before := set k: nat | k < |init| && init[k].index % dimensions == i && init[k].odd == odd;
    var after := set k: nat | k < |all| && all[k].index % dimensions == i && all[k].odd == odd;
    assert after == before + if last.index % dimensions == i && last.odd == odd then {|init|} else {};
  }

  /** Two orders of one bag: the head of the first can be taken out of the second. */
  lemma TakeOne<T>(a: seq<T>, b: seq<T>) returns (k: nat)
    requires a != [] && multiset(a) == multiset(b)
    ensures k < |b| && b[k] == a[0]
    ensures multiset(a[1..]) == multiset(b[..k] + b[k + 1..])
  {
    assert a[0] in multiset(b);
    k :| 0 <= k < |b| && b[k] == a[0];
    RemoveAt(a, 0);
    RemoveAt(b, k);
    assert a[..0] + a[1..] == a[1..];
    assert multiset(a[1..]) == multiset(a) - multiset{a[0]};
    assert multiset(b[..k] + b[k + 1..]) == multiset(b) - multiset{b[k]};
  }

  lemma RemoveAt<T>(s: seq<T>, k: nat)
    requires k < |s|
    ensures multiset(s) == multiset{s[k]} + multiset(s[..k] + s[k + 1..])
  {
    assert s == s[..k] + [s[k]] + s[k + 1..];
  }

  lemma {:induction false} SignedCountOfMultiset(a: seq<Digest>, b: seq<Digest>, dimensions: nat, i: nat)
    requires dimensions >= 1 && multiset(a) == multiset(b)
    ensures SignedCount(a, dimensions, i) == SignedCount(b, dimensions, i)
  {
    if a == [] {
      EmptyMultiset(a, b);
    } else {
      var k := TakeOne(a, b);
      var rest := b[..k] + b[k + 1..];
      assert b == b[..k] + ([b[k]] + b[k + 1..]);
      SignedCountOfMultiset(a[1..], rest, dimensions, i);
      SignedCountConcat(b[..k], b[k + 1..], dimensions, i);
      SignedCountConcat(b[..k], [b[k]] + b[k + 1..], dimensions, i);
      assert ([b[k]] + b[k + 1..])[1..] == b[k + 1..];
    }
  }

  function MapDigest(digest: string -> Digest, tokens: seq<string>): (digests: seq<Digest>)
    ensures |digests| == |tokens| && forall i | 0 <= i < |tokens| :: digests[i] == digest(tokens[i])
  {
    seq(|tokens|, i requires 0 <= i < |tokens| => digest(tokens[i]))
  }

  // ----- The embedder -----

  datatype EmbedError = NoDimensions

  /**
   * The embedder's fixed parts. `lower` is the library's lower-casing, `digest` the
   * part of SHA-256 the code reads, and `sqrt` the library's square root.
   */
  class HashingEmbedder {
    const dimensions: int
    const lower: string -> string
    const digest: string -> Digest
    const sqrt: real -> real

    constructor (dimensions: int, lower: string -> string, digest: string -> Digest, sqrt: real -> real)
      ensures this.dimensions == dimensions && this.lower == lower && this.digest == digest && this.sqrt == sqrt
    {
      this.dimensions, this.lower, this.digest, this.sqrt := dimensions, lower, digest, sqrt;
    }

    /** What `math.sqrt` promises. */
    ghost predicate Valid() {
      forall x: real | x >= 0.0 :: sqrt(x) >= 0.0 && Times(sqrt(x), sqrt(x)) == x
    }

    function Digests(text: string): seq<Digest> {
      MapDigest(digest, FindTokens(lower(text)))
    }

    function Normalise(vec: Vector): (w: Vector)
      requires Valid()
      ensures |w| == |vec|
    {
      SquareSumNonNegative(vec);
      var norm := sqrt(SquareSum(vec));
      if norm == 0.0 then vec else Divide(vec, norm)
    }

    function Embedding(text: string): (v: Vector)
      requires Valid() && dimensions >= 1
      ensures |v| == dimensions
    {
      Normalise(AddTokens(Zeros(dimensions), Digests(text)))
    }

    /** Only an embedder without components can fail, and only on text that has a token. */
    method Embed(text: string) returns (r: Result<Vector, EmbedError>)
      requires Valid()
      ensures dimensions >= 1 ==> r == Ok(Embedding(text))
      ensures dimensions < 1 ==> r == if Digests(text) == [] then Ok([]) else Err(NoDimensions)
    {
      hide *;
      var tokens := FindTokens(lower(text));
      DigestsOfTokens(text);
      ghost var digests := Digests(text);
      if dimensions < 1 {
        return if tokens == [] then Ok([]) else Err(NoDimensions);
      }
      var vec := new real[dimensions](_ => 0.0);
      assert vec[..] == Zeros(dimensions);
      BagStart(vec[..], digests);
      var k := 0;
      while k < |tokens|
        invariant k <= |tokens|
        invariant vec[..] == AddTokens(Zeros(dimensions), digests[..k])
      {
        var d := digest(tokens[k]);
        var index := d.index % dimensions;
        ghost var before := vec[..];
        vec[index] := vec[index] + Sign(d);
        BagStep(Zeros(dimensions), digests, k);
        AddTokenAt(before, d);
        assert vec[..] == before[index := before[index] + Sign(d)];
        k := k + 1;
      }
      assert digests[..k] == digests;
      EmbeddingFromBag(text);
      var v := Normalise(vec[..]);
      return Ok(v);
    }

    lemma DigestsOfTokens(text: string)
      ensures |Digests(text)| == |FindTokens(lower(text))|
      ensures forall i | 0 <= i < |Digests(text)| :: Digests(text)[i] == digest(FindTokens(lower(text))[i])
    {
    }

    lemma EmbeddingFromBag(text: string)
      requires Valid() && dimensions >= 1
      ensures Embedding(text) == Normalise(AddTokens(Zeros(dimensions), Digests(text)))
    {
    }
  }

  lemma BagStart(vec: Vector, digests: seq<Digest>)
    requires vec != []
    ensures AddTokens(vec, digests[..0]) == vec
  {
  }

  lemma BagStep(vec: Vector, digests: seq<Digest>, k: nat)
    requires vec != [] && k < |digests|
    ensures AddTokens(vec, digests[..k + 1]) == AddToken(AddTokens(vec, digests[..k]), digests[k])
  {
    assert digests[..k + 1][..k] == digests[..k];
  }

  lemma AddTokenAt(vec: Vector, d: Digest)
    requires vec != []
    ensures var i := d.index % |vec|; AddToken(vec, d) == vec[i := vec[i] + Sign(d)]
  {
  }

  // ----- What an embedding is -----

  lemma NormaliseIsUnit(e: HashingEmbedder, vec: Vector)
    requires e.Valid()
    ensures UnitOrZero(e.Normalise(vec))
    ensures SquareSum(vec) != 0.0 ==> SquareSum(e.Normalise(vec)) == 1.0
    ensures SquareSum(vec) == 0.0 ==> e.Normalise(vec) == vec
  {
    hide Divide, SquareSum, Times;
    SquareSumNonNegative(vec);
    var norm := e.sqrt(SquareSum(vec));
    SquareNonNegative(norm);
    if norm != 0.0 {
      assert IsNorm(norm, vec);
      NormalisedIsUnit(vec, norm);
    }
  }

  /** Component by component, the tokens' signs cancel; so they do when there is no token. */
  predicate TokensCancel(e: HashingEmbedder, text: string)
    requires e.dimensions >= 1
  {
    forall i: nat | i < e.dimensions :: SignedCount(e.Digests(text), e.dimensions, i) == 0.0
  }

  /** Every embedding has length one, unless the signed counts cancel everywhere; then it is zero. */
  lemma EmbeddingIsUnit(e: HashingEmbedder, text: string)
    requires e.Valid() && e.dimensions >= 1
    ensures UnitOrZero(e.Embedding(text))
    ensures SquareSum(e.Embedding(text)) == 0.0 <==> TokensCancel(e, text)
  {
    hide AddTokens, SquareSum, UnitOrZero, Times, SignedCount, FindTokens;
    var bag := AddTokens(Zeros(e.dimensions), e.Digests(text));
    assert e.Embedding(text) == e.Normalise(bag);
    NormaliseIsUnit(e, bag);
    SquareSumNonNegative(bag);
    forall i: nat | i < e.dimensions
      ensures bag[i] == SignedCount(e.Digests(text), e.dimensions, i)
    {
      BagCountsTokens(e.Digests(text), e.dimensions, i);
    }
    if SquareSum(bag) == 0.0 {
      forall i: nat | i < e.dimensions
        ensures SignedCount(e.Digests(text), e.dimensions, i) == 0.0
      {
        assert bag[i] == 0.0;
      }
    } else {
      var i: nat :| i < |bag| && bag[i] != 0.0;
      assert SignedCount(e.Digests(text), e.dimensions, i) != 0.0;
      assert SquareSum(e.Embedding(text)) == 1.0;
    }
  }

  /** An embedding depends only on which tokens occur and how often. */
  lemma EmbeddingIgnoresOrder(e: HashingEmbedder, s: string, t: string)
    requires e.Valid() && e.dimensions >= 1
    requires multiset(FindTokens(e.lower(s))) == multiset(FindTokens(e.lower(t)))
    ensures e.Embedding(s) == e.Embedding(t)
  {
    MapDigestOfMultiset(e.digest, FindTokens(e.lower(s)), FindTokens(e.lower(t)));
    var a, b := AddTokens(Zeros(e.dimensions), e.Digests(s)), AddTokens(Zeros(e.dimensions), e.Digests(t));
    forall i: nat | i < e.dimensions
      ensures a[i] == b[i]
    {
      BagCountsTokens(e.Digests(s), e.dimensions, i);
      BagCountsTokens(e.Digests(t), e.dimensions, i);
      SignedCountOfMultiset(e.Digests(s), e.Digests(t), e.dimensions, i);
    }
    assert a == b;
  }

  lemma {:induction false} MapDigestOfMultiset(digest: string -> Digest, a: seq<string>, b: seq<string>)
    requires multiset(a) == multiset(b)
    ensures multiset(MapDigest(digest, a)) == multiset(MapDigest(digest, b))
  {
    hide *;
    if a == [] {
      EmptyMultiset(a, b);
    } else {
      var k := TakeOne(a, b);
      MapDigestOfMultiset(digest, a[1..], b[..k] + b[k + 1..]);
      MapDigestOfRest(digest, a);
      MapDigestWithout(digest, b, k);
    }
  }

  lemma MapDigestOfRest(digest: string -> Digest, s: seq<string>)
    requires s != []
    ensures multiset(MapDigest(digest, s)) == multiset{digest(s[0])} + multiset(MapDigest(digest, s[1..]))
  {
    MapDigestWithout(digest, s, 0);
    assert s[..0] + s[1..] == s[1..];
  }

  lemma EmptyMultiset<T>(a: seq<T>, b: seq<T>)
    requires a == [] && multiset(a) == multiset(b)
    ensures b == a
  {
    assert |multiset(b)| == 0;
  }

  lemma MapDigestWithout(digest: string -> Digest, s: seq<string>, k: nat)
    requires k < |s|
    ensures multiset(MapDigest(digest, s)) == multiset{digest(s[k])} + multiset(MapDigest(digest, s[..k] + s[k + 1..]))
  {
    var d := MapDigest(digest, s);
    RemoveAt(d, k);
    assert MapDigest(digest, s[..k] + s[k + 1..]) == d[..k] + d[k + 1..];
  }

  /** The similarity of any two texts lies between -1 and 1. */
  lemma SimilarityIsBounded(e: HashingEmbedder, s: string, t: string)
    requires e.Valid() && e.dimensions >= 1
    ensures -1.0 <= Dot(e.Embedding(s), e.Embedding(t)) <= 1.0
  {
    EmbeddingIsUnit(e, s);
    EmbeddingIsUnit(e, t);
    DotOfUnits(e.Embedding(s), e.Embedding(t));
  }

  // ----- Which way an embedding points -----

  /** The signed counts of a text's tokens, component by component. */
  function Counts(e: HashingEmbedder, text: string): (v: Vector)
    requires e.dimensions >= 1
    ensures |v| == e.dimensions && forall i: nat | i < e.dimensions :: v[i] == SignedCount(e.Digests(text), e.dimensions, i)
  {
    seq(e.dimensions, i requires 0 <= i < e.dimensions => SignedCount(e.Digests(text), e.dimensions, i))
  }

  lemma EmbeddingOfCounts(e: HashingEmbedder, text: string)
    requires e.Valid() && e.dimensions >= 1
    ensures e.Embedding(text) == e.Normalise(Counts(e, text))
  {
    var bag := AddTokens(Zeros(e.dimensions), e.Digests(text));
    forall i: nat | i < e.dimensions
      ensures bag[i] == Counts(e, text)[i]
    {
      BagCountsTokens(e.Digests(text), e.dimensions, i);
    }
    assert bag == Counts(e, text);
  }

  /** The length of the signed counts: what the embedding was divided by. */
  lemma NormOfCounts(e: HashingEmbedder, text: string) returns (n: real)
    requires e.Valid() && e.dimensions >= 1 && !TokensCancel(e, text)
    ensures n > 0.0 && IsNorm(n, Counts(e, text)) && e.Embedding(text) == Divide(Counts(e, text), n)
  {
    hide Divide, SquareSum, Times, SignedCount;
    var counts := Counts(e, text);
    EmbeddingOfCounts(e, text);
    SquareSumNonNegative(counts);
    n := e.sqrt(SquareSum(counts));
    SquareNonNegative(n);
    var i: nat :| i < e.dimensions && SignedCount(e.Digests(text), e.dimensions, i) != 0.0;
    assert counts[i] != 0.0;
  }

  /** In each component, n times the embedding is the number of odd-digest tokens less the number of even ones. */
  ghost predicate PointsAlongCounts(e: HashingEmbedder, text: string, n: real)
    requires e.Valid() && e.dimensions >= 1
  {
    forall i: nat | i < e.dimensions ::
      && Times(e.Embedding(text)[i], n) == SignedCount(e.Digests(text), e.dimensions, i)
      && SignedCount(e.Digests(text), e.dimensions, i)
         == Tally(e.Digests(text), e.dimensions, i, true) as real - Tally(e.Digests(text), e.dimensions, i, false) as real
  }

  /** Unless the tokens cancel, an embedding is the signed counts divided by their length. */
  lemma EmbeddingPointsAlongCounts(e: HashingEmbedder, text: string)
    requires e.Valid() && e.dimensions >= 1 && !TokensCancel(e, text)
    ensures exists n :: n > 0.0 && IsNorm(n, Counts(e, text)) && PointsAlongCounts(e, text, n)
  {
    hide Divide, Times, SignedCount, Tally, TokensCancel, IsNorm;
    var n := NormOfCounts(e, text);
    forall i: nat | i < e.dimensions
      ensures Times(e.Embedding(text)[i], n) == SignedCount(e.Digests(text), e.dimensions, i)
      ensures SignedCount(e.Digests(text), e.dimensions, i)
           == Tally(e.Digests(text), e.dimensions, i, true) as real - Tally(e.Digests(text), e.dimensions, i, false) as real
    {
      DivideAt(Counts(e, text), n, i);
      SignedCountIsDifference(e.Digests(text), e.dimensions, i);
    }
    assert PointsAlongCounts(e, text, n);
  }

  /** The score of two texts is the cosine of the angle between their signed counts. */
  lemma SimilarityIsCosine(e: HashingEmbedder, s: string, t: string)
    requires e.Valid() && e.dimensions >= 1 && !TokensCancel(e, s) && !TokensCancel(e, t)
    ensures exists m, n | m > 0.0 && n > 0.0 ::
      && IsNorm(m, Counts(e, s))
      && IsNorm(n, Counts(e, t))
      && Times(Dot(e.Embedding(s), e.Embedding(t)), Times(m, n)) == Dot(Counts(e, s), Counts(e, t))
  {
    hide Divide, Times, IsNorm, Dot, TokensCancel;
    var m := NormOfCounts(e, s);
    var n := NormOfCounts(e, t);
    DivideScalesDot(Counts(e, s), Counts(e, t), m, n);
  }
}
