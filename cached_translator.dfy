/** `CVETranslator` (`services/translator.py`): single translations through a cache keyed
    by the text's hash, batches joined by a separator and split back, with a fallback to
    single translations, and the cache statistics. The chat service and Python's `hash`
    are oracles. */
module CachedTranslation {
  import opened Wrappers
  import opened Text
  import opened Errors

  /** Stripped texts shorter than this are returned untranslated and not cached. */
  const MinimumLength: nat := 3
  /** The marker between the sections of a batch, as the service is asked to keep it. */
  const Separator: string := "---SEPARATOR---"
  /** What `translate_batch` puts between the texts of a batch. */
  const BatchGlue: string := "\n\n---SEPARATOR---\n\n"
  const ModelName: string := "gpt-4o"

  /** A request to the chat service: one text under the CVE prompt, or a batch of texts
      joined by the separator under the prompt extended with the batch instructions. */
  datatype Call = SingleCall(text: string) | BatchCall(joined: string)

  /** The content of the service's reply, or the text of the exception raised on the way
      to it (a missing content fails at `.strip()`). */
  type Service = Call -> Result<string, string>

  type Cache = map<int, string>

  // ---------------------------------------------------------------------------------
  // Specification

  /** `translate_text` on a cache: the translation and the new cache. */
  function TextStep(cache: Cache, hash: string -> int, text: string, service: Service): (string, Cache) {
    if hash(text) in cache then (cache[hash(text)], cache)
    else if |Strip(text)| < MinimumLength then (text, cache)
    else
      match service(SingleCall(text))
      case Err(_) => (text, cache)
      case Ok(content) => (Strip(content), cache[hash(text) := Strip(content)])
  }

  /** `translate_text` on each text in turn, each call seeing the cache the previous one
      left. */
  function TextsStep(cache: Cache, hash: string -> int, texts: seq<string>, service: Service): (seq<string>, Cache)
    decreases |texts|
  {
    if texts == [] then ([], cache)
    else
      var first := TextStep(cache, hash, texts[0], service);
      var rest := TextsStep(first.1, hash, texts[1..], service);
      ([first.0] + rest.0, rest.1)
  }

  /** The split path's cache writes: each part under its source text's hash, in order. */
  function StoreParts(cache: Cache, hash: string -> int, batch: seq<string>, parts: seq<string>): Cache
    requires |parts| == |batch|
    decreases |batch|
  {
    if batch == [] then cache
    else StoreParts(cache[hash(batch[0]) := parts[0]], hash, batch[1..], parts[1..])
  }

  function StripAll(parts: seq<string>): (r: seq<string>)
    ensures |r| == |parts|
    ensures forall k :: 0 <= k < |r| ==> r[k] == Strip(parts[k])
  {
    seq(|parts|, k requires 0 <= k < |parts| => Strip(parts[k]))
  }

  /** The sections of a batch reply. */
  function Sections(content: string): seq<string> {
    Split(Strip(content), Separator)
  }

  /** One batch: the stripped sections when the reply splits into one section per text,
      otherwise (a wrong count or a failed call) the texts translated one by one. */
  function BatchStep(cache: Cache, hash: string -> int, batch: seq<string>, service: Service): (seq<string>, Cache) {
    var reply := service(BatchCall(Join(batch, BatchGlue)));
    if reply.Ok? && |Sections(reply.value)| == |batch| then
      var parts := StripAll(Sections(reply.value));
      (parts, StoreParts(cache, hash, batch, parts))
    else TextsStep(cache, hash, batch, service)
  }

  /** `translate_batch`: the blocks in batches of `size`, front to back. */
  function Batches(cache: Cache, hash: string -> int, blocks: seq<string>, size: nat, service: Service): (seq<string>, Cache)
    requires size > 0 || blocks == []
    decreases |blocks|
  {
    if blocks == [] then ([], cache)
    else
      var n := if size < |blocks| then size else |blocks|;
      var first := BatchStep(cache, hash, blocks[..n], service);
      var rest := Batches(first.1, hash, blocks[n..], size, service);
      (first.0 + rest.0, rest.1)
  }

  // ---------------------------------------------------------------------------------
  // Properties

  /** A cache hit answers without the service; a short text that is not cached comes
      back unchanged and is not cached; the cache keeps every key and every other entry,
      and any entry written holds the translation returned. */
  lemma TextStepFacts(cache: Cache, hash: string -> int, text: string, service: Service, other: Service)
    ensures var r := TextStep(cache, hash, text, service);
      && (hash(text) in cache ==> r == TextStep(cache, hash, text, other) && r.0 == cache[hash(text)])
      && (hash(text) !in cache && |Strip(text)| < MinimumLength ==> r == (text, cache))
      && cache.Keys <= r.1.Keys
      && (forall h :: h in cache && h != hash(text) ==> r.1[h] == cache[h])
      && (r.1 != cache ==> r.1 == cache[hash(text) := r.0])
      && (hash(text) in r.1 || r.0 == text)
  {
  }

  /** Translating a text a second time, whatever the service then answers, gives the
      first result back and leaves the cache as the first call left it, once the first
      call stored it or it is too short to send. A failed call stores nothing, so the
      second call asks the service again as if the first had not happened. */
  lemma TextStepRepeats(cache: Cache, hash: string -> int, text: string, service: Service, other: Service)
    ensures var first := TextStep(cache, hash, text, service);
      && (hash(text) in first.1 || |Strip(text)| < MinimumLength ==> TextStep(first.1, hash, text, other) == first)
      && (hash(text) !in first.1 ==> first.1 == cache && TextStep(first.1, hash, text, other) == TextStep(cache, hash, text, other))
      && (hash(text) !in cache && |Strip(text)| >= MinimumLength && service(SingleCall(text)).Err? ==>
            hash(text) !in first.1 && first == (text, cache))
  {
  }

  /** Translating texts one by one gives one output per text, keeps every cached key, and
      each output is cached under its text's hash or is the text itself. */
  lemma {:induction false} TextsStepCovers(cache: Cache, hash: string -> int, texts: seq<string>, service: Service)
    ensures var r := TextsStep(cache, hash, texts, service);
      && |r.0| == |texts|
      && cache.Keys <= r.1.Keys
      && (forall k :: 0 <= k < |texts| ==> hash(texts[k]) in r.1 || r.0[k] == texts[k])
    decreases |texts|
  {
    if texts != [] {
      var first := TextStep(cache, hash, texts[0], service);
      TextStepFacts(cache, hash, texts[0], service, service);
      TextsStepCovers(first.1, hash, texts[1..], service);
      var r := TextsStep(cache, hash, texts, service);
      forall k | 0 <= k < |texts| ensures hash(texts[k]) in r.1 || r.0[k] == texts[k] {
        if k > 0 {
          assert texts[k] == texts[1..][k - 1];
        }
      }
    }
  }

  /** Translating a concatenation one by one is translating the first part, then the
      second from the cache the first left. */
  lemma {:induction false} TextsStepAppend(cache: Cache, hash: string -> int, a: seq<string>, b: seq<string>, service: Service)
    ensures var first := TextsStep(cache, hash, a, service);
      var second := TextsStep(first.1, hash, b, service);
      TextsStep(cache, hash, a + b, service) == (first.0 + second.0, second.1)
    decreases |a|
  {
    if a == [] {
      assert a + b == b;
      assert TextsStep(cache, hash, a, service) == ([], cache);
      assert [] + TextsStep(cache, hash, b, service).0 == TextsStep(cache, hash, b, service).0;
    } else {
      var head := TextStep(cache, hash, a[0], service);
      assert (a + b)[0] == a[0] && (a + b)[1..] == a[1..] + b;
      TextsStepAppend(head.1, hash, a[1..], b, service);
      var tail := TextsStep(head.1, hash, a[1..], service);
      var second := TextsStep(tail.1, hash, b, service);
      assert TextsStep(cache, hash, a, service) == ([head.0] + tail.0, tail.1);
      assert TextsStep(cache, hash, a + b, service) == ([head.0] + (tail.0 + second.0), second.1);
      assert [head.0] + (tail.0 + second.0) == ([head.0] + tail.0) + second.0;
    }
  }

  /** The split path caches every text of the batch and keeps every key. */
  lemma {:induction false} StorePartsCovers(cache: Cache, hash: string -> int, batch: seq<string>, parts: seq<string>)
    requires |parts| == |batch|
    ensures var c := StoreParts(cache, hash, batch, parts);
      cache.Keys <= c.Keys && forall k :: 0 <= k < |batch| ==> hash(batch[k]) in c
    decreases |batch|
  {
    if batch != [] {
      var next := cache[hash(batch[0]) := parts[0]];
      StorePartsCovers(next, hash, batch[1..], parts[1..]);
      StorePartsKeeps(next, hash, batch[1..], parts[1..], hash(batch[0]));
      forall k | 0 < k < |batch| ensures hash(batch[k]) in StoreParts(cache, hash, batch, parts) {
        assert batch[k] == batch[1..][k - 1];
      }
    }
  }

  /** A key the split path does not write keeps its entry. */
  lemma {:induction false} StorePartsKeeps(cache: Cache, hash: string -> int, batch: seq<string>, parts: seq<string>, h: int)
    requires |parts| == |batch|
    requires h in cache
    ensures h in StoreParts(cache, hash, batch, parts)
    ensures (forall k :: 0 <= k < |batch| ==> hash(batch[k]) != h) ==> StoreParts(cache, hash, batch, parts)[h] == cache[h]
    decreases |batch|
  {
    if batch != [] {
      StorePartsKeeps(cache[hash(batch[0]) := parts[0]], hash, batch[1..], parts[1..], h);
      if forall k :: 0 <= k < |batch| ==> hash(batch[k]) != h {
        assert forall k :: 0 <= k < |batch| - 1 ==> batch[1..][k] == batch[k + 1];
      }
    }
  }

  /** When the texts of a batch hash apart, the split path leaves each section cached
      under its own source text. */
  lemma {:induction false} StorePartsCachesEach(cache: Cache, hash: string -> int, batch: seq<string>, parts: seq<string>)
    requires |parts| == |batch|
    requires forall i, j :: 0 <= i < j < |batch| ==> hash(batch[i]) != hash(batch[j])
    ensures forall k :: 0 <= k < |batch| ==>
      hash(batch[k]) in StoreParts(cache, hash, batch, parts) && StoreParts(cache, hash, batch, parts)[hash(batch[k])] == parts[k]
    decreases |batch|
  {
    StorePartsCovers(cache, hash, batch, parts);
    if batch != [] {
      var next := cache[hash(batch[0]) := parts[0]];
      forall i, j | 0 <= i < j < |batch| - 1 ensures hash(batch[1..][i]) != hash(batch[1..][j]) {
        assert batch[1..][i] == batch[i + 1] && batch[1..][j] == batch[j + 1];
      }
      StorePartsCachesEach(next, hash, batch[1..], parts[1..]);
      StorePartsKeeps(next, hash, batch[1..], parts[1..], hash(batch[0]));
      forall k | 0 < k < |batch|
        ensures hash(batch[k]) in StoreParts(cache, hash, batch, parts)
        ensures StoreParts(cache, hash, batch, parts)[hash(batch[k])] == parts[k]
      {
        assert batch[k] == batch[1..][k - 1] && parts[k] == parts[1..][k - 1];
      }
    }
  }

  /** One batch gives one output per text, keeps every key, and each output is cached
      under its text's hash or is the text itself. */
  lemma BatchStepCovers(cache: Cache, hash: string -> int, batch: seq<string>, service: Service)
    ensures var r := BatchStep(cache, hash, batch, service);
      && |r.0| == |batch|
      && cache.Keys <= r.1.Keys
      && (forall k :: 0 <= k < |batch| ==> hash(batch[k]) in r.1 || r.0[k] == batch[k])
  {
    var reply := service(BatchCall(Join(batch, BatchGlue)));
    if reply.Ok? && |Sections(reply.value)| == |batch| {
      StorePartsCovers(cache, hash, batch, StripAll(Sections(reply.value)));
    } else {
      TextsStepCovers(cache, hash, batch, service);
    }
  }

  /** `translate_batch` returns [] for no blocks and otherwise exactly one output per
      block; it keeps every cached key, and each output is cached under its block's hash
      or is the block itself. */
  lemma {:induction false} BatchesCover(cache: Cache, hash: string -> int, blocks: seq<string>, size: nat, service: Service)
    requires size > 0 || blocks == []
    ensures var r := Batches(cache, hash, blocks, size, service);
      && (blocks == [] ==> r == ([], cache))
      && |r.0| == |blocks|
      && cache.Keys <= r.1.Keys
      && (forall k :: 0 <= k < |blocks| ==> hash(blocks[k]) in r.1 || r.0[k] == blocks[k])
    decreases |blocks|
  {
    if blocks != [] {
      var n := if size < |blocks| then size else |blocks|;
      var first := BatchStep(cache, hash, blocks[..n], service);
      BatchStepCovers(cache, hash, blocks[..n], service);
      BatchesCover(first.1, hash, blocks[n..], size, service);
      var r := Batches(cache, hash, blocks, size, service);
      forall k | 0 <= k < |blocks| ensures hash(blocks[k]) in r.1 || r.0[k] == blocks[k] {
        if k < n {
          assert blocks[k] == blocks[..n][k];
          assert hash(blocks[k]) in first.1 ==> hash(blocks[k]) in r.1;
        } else {
          assert blocks[k] == blocks[n..][k - n];
        }
      }
    }
  }

  /** `translate_batch` on non-empty blocks is its first batch, then the rest from the
      cache the first batch left. */
  lemma BatchesUnfold(cache: Cache, hash: string -> int, blocks: seq<string>, size: nat, service: Service)
    requires size > 0 && blocks != []
    ensures var n := if size < |blocks| then size else |blocks|;
      var first := BatchStep(cache, hash, blocks[..n], service);
      var rest := Batches(first.1, hash, blocks[n..], size, service);
      Batches(cache, hash, blocks, size, service) == (first.0 + rest.0, rest.1)
  {
  }

  /** The batches from `i` on are the batch `i..end`, then the batches from `end` on. */
  lemma BatchesNext(cache: Cache, hash: string -> int, blocks: seq<string>, i: nat, end: nat, size: nat, service: Service)
    requires size > 0 && i < |blocks|
    requires end == if i + size < |blocks| then i + size else |blocks|
    ensures var first := BatchStep(cache, hash, blocks[i..end], service);
      var rest := Batches(first.1, hash, blocks[end..], size, service);
      Batches(cache, hash, blocks[i..], size, service) == (first.0 + rest.0, rest.1)
  {
    assert blocks[i..end] == blocks[i..][..end - i] && blocks[end..] == blocks[i..][end - i..];
    BatchesUnfold(cache, hash, blocks[i..], size, service);
  }

  /** A service that fails every batch call reduces `translate_batch` to `translate_text`
      on each block in order. */
  lemma {:induction false} FailedBatchesFallBack(cache: Cache, hash: string -> int, blocks: seq<string>, size: nat, service: Service)
    requires size > 0 || blocks == []
    requires forall joined :: service(BatchCall(joined)).Err?
    ensures Batches(cache, hash, blocks, size, service) == TextsStep(cache, hash, blocks, service)
    decreases |blocks|
  {
    if blocks != [] {
      var n := if size < |blocks| then size else |blocks|;
      BatchesUnfold(cache, hash, blocks, size, service);
      var first := BatchStep(cache, hash, blocks[..n], service);
      assert service(BatchCall(Join(blocks[..n], BatchGlue))).Err?;
      assert first == TextsStep(cache, hash, blocks[..n], service);
      FailedBatchesFallBack(first.1, hash, blocks[n..], size, service);
      TextsStepAppend(cache, hash, blocks[..n], blocks[n..], service);
      assert blocks[..n] + blocks[n..] == blocks;
    }
  }

  // ---------------------------------------------------------------------------------
  // The translator

  class CVETranslator {
    /** `translation_cache`. */
    var cache: Cache
    /** Python's `hash` on strings. */
    const hash: string -> int

    constructor(hash: string -> int)
      ensures this.hash == hash && cache == map[]
    {
      this.hash := hash;
      cache := map[];
    }

    /** `translate_text`. */
    method TranslateText(text: string, service: Service) returns (r: string)
      modifies this
      ensures (r, cache) == TextStep(old(cache), hash, text, service)
    {
      var key := hash(text);
      if key in cache {
        return cache[key];
      }
      if |Strip(text)| < MinimumLength {
        return text;
      }
      var reply := service(SingleCall(text));
      if reply.Err? {
        return text;
      }
      r := Strip(reply.value);
      cache := cache[key := r];
    }

    /** The fallback of `translate_batch`: each text of the batch through
        `translate_text`. */
    method TranslateEach(batch: seq<string>, service: Service) returns (out: seq<string>)
      modifies this
      ensures (out, cache) == TextsStep(old(cache), hash, batch, service)
    {
      ghost var total := TextsStep(cache, hash, batch, service);
      out := [];
      for j := 0 to |batch|
        invariant var rest := TextsStep(cache, hash, batch[j..], service);
          out + rest.0 == total.0 && rest.1 == total.1
      {
        assert batch[j..][1..] == batch[j + 1..];
        var t := TranslateText(batch[j], service);
        out := out + [t];
      }
      assert batch[|batch|..] == [];
      assert TextsStep(cache, hash, [], service) == ([], cache);
      assert out == total.0;
      assert cache == total.1;
    }

    /** The split path of `translate_batch`: each section stripped, cached under its
        source text and appended. */
    method StoreSections(batch: seq<string>, sections: seq<string>) returns (out: seq<string>)
      requires |sections| == |batch|
      modifies this
      ensures out == StripAll(sections)
      ensures cache == StoreParts(old(cache), hash, batch, StripAll(sections))
    {
      ghost var parts := StripAll(sections);
      out := [];
      for j := 0 to |batch|
        invariant out == parts[..j]
        invariant StoreParts(cache, hash, batch[j..], parts[j..]) == StoreParts(old(cache), hash, batch, parts)
      {
        assert batch[j..][1..] == batch[j + 1..] && parts[j..][1..] == parts[j + 1..];
        var clean := Strip(sections[j]);
        cache := cache[hash(batch[j]) := clean];
        out := out + [clean];
      }
    }

    /** One batch of `translate_batch`: the joined call, then the split path or the
        fallback. */
    method TranslateOneBatch(batch: seq<string>, service: Service) returns (done: seq<string>)
      modifies this
      ensures (done, cache) == BatchStep(old(cache), hash, batch, service)
    {
      var reply := service(BatchCall(Join(batch, BatchGlue)));
      if reply.Ok? && |Sections(reply.value)| == |batch| {
        done := StoreSections(batch, Sections(reply.value));
      } else {
        done := TranslateEach(batch, service);
      }
    }

    /** `translate_batch`. */
    method TranslateBatch(blocks: seq<string>, size: nat, service: Service) returns (out: seq<string>)
      requires size > 0 || blocks == []
      modifies this
      ensures (out, cache) == Batches(old(cache), hash, blocks, size, service)
    {
      ghost var total := Batches(cache, hash, blocks, size, service);
      out := [];
      var i := 0;
      while i < |blocks|
        invariant i <= |blocks|
        invariant var rest := Batches(cache, hash, blocks[i..], size, service);
          out + rest.0 == total.0 && rest.1 == total.1
        decreases |blocks| - i
      {
        var end := if i + size < |blocks| then i + size else |blocks|;
        ghost var before := cache;
        var done := TranslateOneBatch(blocks[i..end], service);
        BatchesNext(before, hash, blocks, i, end, size, service);
        out := out + done;
        i := end;
      }
      assert blocks[i..] == [];
      assert Batches(cache, hash, [], size, service) == ([], cache);
      assert out == total.0 && cache == total.1;
    }

    /** `clear_cache`. */
    method ClearCache()
      modifies this
      ensures cache == map[]
    {
      cache := map[];
    }

    /** `get_translation_statistics`: summing `len` over the cache's integer keys raises a
        `TypeError` as soon as there is one. */
    function Statistics(): (r: Result<TranslationStatistics, Error>)
      reads this
      ensures r.Ok? <==> cache == map[]
      ensures r.Ok? ==> r.value.cachedTranslations == |cache| && r.value.modelUsed == ModelName
      ensures r.Err? ==> ClassName(r.error.kind) == "TypeError"
    {
      if cache == map[] then Ok(TranslationStatistics(0, 0.0, 0, ModelName))
      else Err(Error(Foreign("TypeError"), "object of type 'int' has no len()", None))
    }
  }

  datatype TranslationStatistics = TranslationStatistics(
    cachedTranslations: nat,
    cacheHitRate: real,
    totalCharactersTranslated: nat,
    modelUsed: string)
}
