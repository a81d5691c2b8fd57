/** `OpenAIEmbeddingProvider` (`providers/openai_embeddings.py`, and its identical copy
    under `src/`): the zero vector for blank text, the batch filter, the classification of
    service failures and the normalised cosine similarity. The embedding service is an
    oracle; square roots are not computed, so each vector's magnitude is passed in
    together with the fact that its square is the vector's dot product with itself. */
module Embeddings {
  import opened Wrappers
  import opened Text
  import opened Errors
  import opened Reals

  /** `self._dimension` before the probe: the size of `text-embedding-3-small` vectors. */
  const DefaultDimension: nat := 1536

  type Vector = seq<real>

  /** `_test_and_get_dimension`: the probe's vector length, or the default on failure. */
  function ProbeDimension(probe: Result<Vector, string>): (d: nat)
    ensures probe.Err? ==> d == DefaultDimension
    ensures probe.Ok? ==> d == |probe.value|
  {
    match probe
    case Ok(v) => |v|
    case Err(_) => DefaultDimension
  }

  // ---------------------------------------------------------------------------------
  // Similarity

  /** `np.dot` on two vectors of the same length. */
  function Dot(a: Vector, b: Vector): real
    requires |a| == |b|
  {
    if a == [] then 0.0 else Mul(a[0], b[0]) + Dot(a[1..], b[1..])
  }

  lemma {:induction false} DotSymmetric(a: Vector, b: Vector)
    requires |a| == |b|
    ensures Dot(a, b) == Dot(b, a)
  {
    if a != [] {
      DotSymmetric(a[1..], b[1..]);
    }
  }

  /** A vector's dot product with itself is never negative, and is zero exactly for the
      zero vector. */
  lemma {:induction false} SelfDotZeroIffZero(a: Vector)
    ensures Dot(a, a) >= 0.0
    ensures Dot(a, a) == 0.0 <==> forall k :: 0 <= k < |a| ==> a[k] == 0.0
  {
    if a != [] {
      var tail := a[1..];
      SelfDotZeroIffZero(tail);
      SquareSign(a[0]);
      assert forall k :: 1 <= k < |a| ==> a[k] == tail[k - 1];
    }
  }

  /** `m` is `np.linalg.norm(v)`. */
  predicate IsNorm(m: real, v: Vector) {
    m >= 0.0 && Mul(m, m) == Dot(v, v)
  }

  /** A magnitude is zero exactly for the zero vector. */
  lemma ZeroNormIffZeroVector(m: real, v: Vector)
    requires IsNorm(m, v)
    ensures m == 0.0 <==> forall k :: 0 <= k < |v| ==> v[k] == 0.0
  {
    SelfDotZeroIffZero(v);
    SquareSign(m);
  }

  /** `calculate_similarity`: vectors of different lengths make `np.dot` raise, which is
      reported as `SIMILARITY_CALCULATION_FAILED`. */
  function CalculateSimilarity(a: Vector, b: Vector, m1: real, m2: real): (r: Result<real, Error>)
    requires IsNorm(m1, a) && IsNorm(m2, b)
    ensures r.Ok? <==> |a| == |b|
    ensures r.Err? ==> r.error.kind == EmbeddingError && r.error.code == Some("SIMILARITY_CALCULATION_FAILED")
    ensures r.Ok? ==> 0.0 <= r.value <= 1.0
    ensures r.Ok? && (m1 == 0.0 || m2 == 0.0) ==> r.value == 0.0
  {
    if |a| != |b| then
      Err(Error(EmbeddingError, "Similarity calculation failed: shapes not aligned",
        Some("SIMILARITY_CALCULATION_FAILED")))
    else if m1 == 0.0 || m2 == 0.0 then Ok(0.0)
    else Ok(Clamp01((Dot(a, b) / Mul(m1, m2) + 1.0) / 2.0))
  }

  /** Between non-zero vectors the score is the cosine moved from [-1, 1] onto [0, 1]. */
  lemma SimilarityIsShiftedCosine(a: Vector, b: Vector, m1: real, m2: real)
    requires IsNorm(m1, a) && IsNorm(m2, b) && |a| == |b| && m1 > 0.0 && m2 > 0.0
    requires -1.0 <= Dot(a, b) / Mul(m1, m2) <= 1.0
    ensures CalculateSimilarity(a, b, m1, m2) == Ok((Dot(a, b) / Mul(m1, m2) + 1.0) / 2.0)
  {
  }

  /** The score does not depend on the order of its arguments. */
  lemma SimilaritySymmetric(a: Vector, b: Vector, m1: real, m2: real)
    requires IsNorm(m1, a) && IsNorm(m2, b)
    ensures CalculateSimilarity(a, b, m1, m2) == CalculateSimilarity(b, a, m2, m1)
  {
    if |a| == |b| {
      DotSymmetric(a, b);
      assert Mul(m1, m2) == Mul(m2, m1);
    }
  }

  /** A non-zero vector scores 1.0 against itself. */
  lemma SelfSimilarityIsOne(a: Vector, m: real)
    requires IsNorm(m, a) && m > 0.0
    ensures CalculateSimilarity(a, a, m, m) == Ok(1.0)
  {
    SquareSign(m);
    DivideBySelf(Mul(m, m));
  }

  /** The zero vector (the blank-text embedding) scores 0.0 against any vector of its
      length. */
  lemma ZeroVectorScoresZero(b: Vector, m2: real)
    requires IsNorm(m2, b)
    ensures var z := seq(|b|, _ => 0.0);
      IsNorm(0.0, z) && CalculateSimilarity(z, b, 0.0, m2) == Ok(0.0)
  {
    var z := seq(|b|, _ => 0.0);
    SelfDotZeroIffZero(z);
  }

  // ---------------------------------------------------------------------------------
  // Embeddings

  /** The `except` branch of `get_embedding`: rate limit is recognised first, then
      authentication, from the lower-cased message. */
  function ClassifyEmbeddingFailure(msg: string): (e: Error)
    ensures e.kind == AuthenticationError <==>
      !Contains(Lower(msg), "rate limit") && Contains(Lower(msg), "authentication")
    ensures e.kind != AuthenticationError ==> e.kind == EmbeddingError
    ensures e.code == Some("EMBEDDING_RATE_LIMIT") <==> Contains(Lower(msg), "rate limit")
    ensures e.code == Some("EMBEDDING_FAILED") <==>
      !Contains(Lower(msg), "rate limit") && !Contains(Lower(msg), "authentication")
  {
    var lower := Lower(msg);
    if Contains(lower, "rate limit") then
      Error(EmbeddingError, "Rate limit exceeded: " + msg, Some("EMBEDDING_RATE_LIMIT"))
    else if Contains(lower, "authentication") then
      Error(AuthenticationError, "Authentication failed: " + msg, Some("OPENAI_AUTH_FAILED"))
    else
      Error(EmbeddingError, "Embedding generation failed: " + msg, Some("EMBEDDING_FAILED"))
  }

  /** The text sent to the service: newlines become spaces, then the ends are stripped. */
  function CleanForEmbedding(text: string): string {
    Strip(Replace(text, "\n", " "))
  }

  /** `get_embedding`, with the service as an oracle that returns a vector or a failure
      message. */
  function GetEmbedding(hasClient: bool, dimension: nat, text: string,
                        service: string -> Result<Vector, string>): Result<Vector, Error>
  {
    if !hasClient then Err(Error(EmbeddingError, "Client not initialized", None))
    else if Strip(text) == [] then Ok(seq(dimension, _ => 0.0))
    else match service(CleanForEmbedding(text))
      case Ok(v) => Ok(v)
      case Err(msg) => Err(ClassifyEmbeddingFailure(msg))
  }

  /** Blank text yields the zero vector of the current dimension, whatever the service
      would have answered: it is not consulted. Any other text gets the service's answer
      for its cleaned form. */
  lemma BlankTextIsZeroVector(dimension: nat, text: string,
                              s1: string -> Result<Vector, string>, s2: string -> Result<Vector, string>)
    ensures IsBlank(text) ==>
      GetEmbedding(true, dimension, text, s1) == GetEmbedding(true, dimension, text, s2)
        == Ok(seq(dimension, _ => 0.0))
    ensures !IsBlank(text) && s1(CleanForEmbedding(text)).Ok? ==>
      GetEmbedding(true, dimension, text, s1) == Ok(s1(CleanForEmbedding(text)).value)
  {
    StripFacts(text);
  }

  /** `[text.replace("\n", " ").strip() for text in texts if text.strip()]`. */
  function CleanTexts(texts: seq<string>): (r: seq<string>)
    ensures |r| <= |texts|
    ensures |r| == |texts| <==> forall k :: 0 <= k < |texts| ==> Strip(texts[k]) != []
  {
    if texts == [] then []
    else
      var rest := CleanTexts(texts[..|texts| - 1]);
      var last := texts[|texts| - 1];
      assert forall k :: 0 <= k < |texts| - 1 ==> texts[..|texts| - 1][k] == texts[k];
      if Strip(last) != [] then rest + [CleanForEmbedding(last)] else rest
  }

  /** `get_batch_embeddings`, with the service as an oracle on the cleaned list. */
  function GetBatchEmbeddings(hasClient: bool, texts: seq<string>,
                              service: seq<string> -> Result<seq<Vector>, string>): Result<seq<Vector>, Error>
  {
    if !hasClient then Err(Error(EmbeddingError, "Client not initialized", None))
    else if texts == [] || CleanTexts(texts) == [] then Ok([])
    else match service(CleanTexts(texts))
      case Ok(vs) => Ok(vs)
      case Err(msg) => Err(Error(EmbeddingError, "Batch embedding generation failed: " + msg,
                                 Some("BATCH_EMBEDDING_FAILED")))
  }

  /** The service sees one text per non-blank input and the answer is passed through, so
      a blank text among the inputs leaves fewer vectors than texts and shifts the ones
      after it. */
  lemma BatchSkipsBlankTexts(texts: seq<string>, service: seq<string> -> Result<seq<Vector>, string>)
    requires CleanTexts(texts) != []
    requires service(CleanTexts(texts)).Ok?
    ensures GetBatchEmbeddings(true, texts, service) == Ok(service(CleanTexts(texts)).value)
    ensures |CleanTexts(texts)| < |texts| <==> exists k :: 0 <= k < |texts| && Strip(texts[k]) == []
  {
  }

  /** With a blank first text, the second text's cleaned form goes to the service first. */
  lemma BlankFirstTextShifts(blank: string, t: string)
    requires Strip(blank) == [] && Strip(t) != []
    ensures CleanTexts([blank, t]) == [CleanForEmbedding(t)]
  {
    assert [blank, t][..1] == [blank];
    assert [blank][..0] == [];
  }
}
