/**
 Batched document embeddings over a cache (`backend/app/embedding/batcher.py`, with the in-memory
 cache of `backend/app/cache/embedding.py`).
 */
module EmbeddingBatches {
  import opened Sequences
  import opened Wrappers

  type Vector = seq<real>

  /** How one provider request ends: with a vector per text, with another number of vectors, or with an error. */
  datatype Reply = Vectors | WrongCount | Unavailable | BadResponse | Fatal

  datatype Error = UnexpectedCount | ProviderUnavailable | ProviderResponse | OtherError

  /** The two provider errors that are worth another attempt. */
  predicate Retryable(reply: Reply) {
    reply.Unavailable? || reply.BadResponse?
  }

  /** The provider answers deterministically; whether it answers is up to the batch number and the attempt. */
  datatype Provider = Provider(embed: string -> Vector, reply: (nat, nat) -> Reply)

  datatype BatchResult = BatchResult(vectors: seq<Vector>, cacheHits: nat, embeddedCount: nat, inputChars: nat)

  const ATTEMPTS: nat := 3

  // ---------------------------------------------------------------- what a call computes

  datatype Missing = Missing(index: nat, key: string, text: string)

  /** The texts without a cached vector, in order and with repetitions. */
  function Misses(key: string -> string, values: map<string, Vector>, texts: seq<string>): (missing: seq<Missing>)
    ensures |missing| <= |texts|
  {
    if texts == [] then []
    else
      var n := |texts| - 1;
      Misses(key, values, texts[..n])
      + (if key(texts[n]) in values then [] else [Missing(n, key(texts[n]), texts[n])])
  }

  function TextsOf(missing: seq<Missing>): (texts: seq<string>)
    ensures |texts| == |missing|
  {
    seq(|missing|, i requires 0 <= i < |missing| => missing[i].text)
  }

  lemma TextsAre(missing: seq<Missing>)
    ensures forall i | 0 <= i < |missing| :: TextsOf(missing)[i] == missing[i].text
  {
  }

  function Chars(missing: seq<Missing>): nat {
    if missing == [] then 0 else Chars(missing[..|missing| - 1]) + |missing[|missing| - 1].text|
  }

  /** The list cut into pieces of a size, the last of which may be shorter. */
  function Batches<T>(items: seq<T>, size: nat): seq<seq<T>>
    requires size > 0
    decreases |items|
  {
    if items == [] then []
    else if |items| <= size then [items]
    else [items[..size]] + Batches(items[size..], size)
  }

  /** The cache after the vectors of some missing texts are written, in order. */
  function Written(embed: string -> Vector, values: map<string, Vector>, done: seq<Missing>): map<string, Vector> {
    if done == [] then values
    else
      var last := done[|done| - 1];
      Written(embed, values, done[..|done| - 1])[last.key := embed(last.text)]
  }

  /** What the attempts at one batch come to, from some attempt on. */
  function Outcome(provider: Provider, batch: nat, attempt: nat): Result<(), Error>
    requires 1 <= attempt <= ATTEMPTS
    decreases ATTEMPTS - attempt
  {
    match provider.reply(batch, attempt)
    case Vectors => Ok(())
    case WrongCount => Err(UnexpectedCount)
    case Fatal => Err(OtherError)
    case Unavailable => if attempt == ATTEMPTS then Err(ProviderUnavailable) else Outcome(provider, batch, attempt + 1)
    case BadResponse => if attempt == ATTEMPTS then Err(ProviderResponse) else Outcome(provider, batch, attempt + 1)
  }

  /** The answer to a batch is that of its last attempt, and an error is the one its reply stands for. */
  lemma OutcomeIsLastReply(provider: Provider, batch: nat, last: nat)
    requires 1 <= last <= 3 && forall a | 1 <= a < last :: Retryable(provider.reply(batch, a))
    requires last == 3 || !Retryable(provider.reply(batch, last))
    ensures match provider.reply(batch, last) {
      case Vectors => Outcome(provider, batch, 1) == Ok(())
      case WrongCount => Outcome(provider, batch, 1) == Err(UnexpectedCount)
      case Unavailable => Outcome(provider, batch, 1) == Err(ProviderUnavailable)
      case BadResponse => Outcome(provider, batch, 1) == Err(ProviderResponse)
      case Fatal => Outcome(provider, batch, 1) == Err(OtherError)
    }
  {
    SameOutcome(provider, batch, last);
  }

  lemma {:induction false} SameOutcome(provider: Provider, batch: nat, last: nat)
    requires 1 <= last <= ATTEMPTS && forall a | 1 <= a < last :: Retryable(provider.reply(batch, a))
    ensures Outcome(provider, batch, 1) == Outcome(provider, batch, last)
  {
    if last > 1 { SameOutcome(provider, batch, last - 1); }
  }

  /** The characters counted are those of the missing texts. */
  lemma {:induction false} CharsAreOfTexts(missing: seq<Missing>)
    ensures Chars(missing) == |Flatten(TextsOf(missing))|
  {
    if missing != [] {
      var n := |missing| - 1;
      CharsAreOfTexts(missing[..n]);
      assert TextsOf(missing) == TextsOf(missing[..n]) + [missing[n].text];
      FlattenLast(TextsOf(missing[..n]), missing[n].text);
    }
  }

  /** The vector of one text: the cached one, else the provider's. */
  function VectorFor(embed: string -> Vector, key: string -> string, values: map<string, Vector>,
                     text: string): Vector {
    if key(text) in values then values[key(text)] else embed(text)
  }

  // ---------------------------------------------------------------- properties of the pieces

  /** The batches are the list again; there are as few as its length allows, and none is empty or too long. */
  lemma {:induction false} BatchesPartition<T>(items: seq<T>, size: nat)
    requires size > 0
    ensures Flatten(Batches(items, size)) == items
    ensures (|Batches(items, size)| - 1) * size < |items| <= |Batches(items, size)| * size
    ensures forall b | 0 <= b < |Batches(items, size)| :: 1 <= |Batches(items, size)[b]| <= size
    decreases |items|
  {
    if |items| > size {
      var head, tail := items[..size], items[size..];
      BatchesPartition(tail, size);
      OneBatchMore(|Batches(tail, size)|, size, |tail|);
      FlattenCons(head, Batches(tail, size));
      assert items == head + tail;
    } else if items != [] {
      FlattenCons(items, []);
      assert [items] + [] == [items] && items + [] == items;
    }
  }

  lemma OneBatchMore(n: nat, size: nat, length: nat)
    requires (n - 1) * size < length <= n * size
    ensures n * size < length + size <= (n + 1) * size
  {
    assert (n + 1) * size == n * size + size && n * size == (n - 1) * size + size;
  }

  predicate IsMiss(m: Missing, key: string -> string, values: map<string, Vector>, texts: seq<string>) {
    m.index < |texts| && m.text == texts[m.index] && m.key == key(m.text) && m.key !in values
  }

  lemma {:induction false} MissesAre(key: string -> string, values: map<string, Vector>, texts: seq<string>)
    ensures forall m :: m in Misses(key, values, texts) <==> IsMiss(m, key, values, texts)
  {
    if texts != [] {
      var n := |texts| - 1;
      MissesAre(key, values, texts[..n]);
      forall m ensures m in Misses(key, values, texts) <==> IsMiss(m, key, values, texts) {
        assert m.index < n ==> texts[..n][m.index] == texts[m.index];
      }
    }
  }

  lemma MissPlaces(key: string -> string, values: map<string, Vector>, texts: seq<string>)
    ensures forall j | 0 <= j < |Misses(key, values, texts)| ::
      var m := Misses(key, values, texts)[j]; m.index < |texts| && m.text == texts[m.index]
  {
    hide Misses;
    MissesAre(key, values, texts);
    forall j | 0 <= j < |Misses(key, values, texts)| ensures IsMiss(Misses(key, values, texts)[j], key, values, texts) {
      assert Misses(key, values, texts)[j] in Misses(key, values, texts);
    }
  }

  /** Every usable entry of the cache is the embedding of the texts with that key. */
  ghost predicate Coherent(embed: string -> Vector, key: string -> string, values: map<string, Vector>) {
    forall text :: key(text) in values ==> values[key(text)] == embed(text)
  }

  ghost predicate KeysAgree(embed: string -> Vector, key: string -> string) {
    forall a, b :: key(a) == key(b) ==> embed(a) == embed(b)
  }

  lemma {:induction false} WrittenKeys(embed: string -> Vector, values: map<string, Vector>, done: seq<Missing>)
    ensures forall k :: k in Written(embed, values, done) <==> k in values || exists m :: m in done && m.key == k
  {
    if done != [] {
      var n := |done| - 1;
      WrittenKeys(embed, values, done[..n]);
      assert done == done[..n] + [done[n]];
    }
  }

  /** Whatever part of the missing texts was written, a coherent cache stays coherent. */
  lemma {:induction false} WritingKeepsCoherent(
    embed: string -> Vector, key: string -> string, values: map<string, Vector>, done: seq<Missing>)
    requires KeysAgree(embed, key) && Coherent(embed, key, values)
    requires forall m | m in done :: m.key == key(m.text)
    ensures Coherent(embed, key, Written(embed, values, done))
  {
    if done != [] {
      var n := |done| - 1;
      assert done[n] in done;
      WritingKeepsCoherent(embed, key, values, done[..n]);
    }
  }

  /**
   Embedding keeps every coherent cache coherent, for all texts, exactly when texts that share a
   key share their embedding.
   */
  lemma StaysCoherentExactly(embed: string -> Vector, key: string -> string)
    ensures KeysAgree(embed, key) <==>
      forall values, texts :: Coherent(embed, key, values) ==>
        Coherent(embed, key, Written(embed, values, Misses(key, values, texts)))
  {
    hide Misses, Written;
    if KeysAgree(embed, key) {
      forall values, texts | Coherent(embed, key, values)
        ensures Coherent(embed, key, Written(embed, values, Misses(key, values, texts)))
      {
        MissesAre(key, values, texts);
        WritingKeepsCoherent(embed, key, values, Misses(key, values, texts));
      }
    } else {
      var a, b :| key(a) == key(b) && embed(a) != embed(b);
      assert Coherent(embed, key, map[]);
      OneWritten(embed, key, a);
      var after := Written(embed, map[], Misses(key, map[], [a]));
      assert key(b) in after && after[key(b)] != embed(b);
    }
  }

  lemma OneWritten(embed: string -> Vector, key: string -> string, text: string)
    ensures Written(embed, map[], Misses(key, map[], [text])) == map[key(text) := embed(text)]
  {
    var m := Missing(0, key(text), text);
    assert Misses(key, map[], [text]) == [m] by { assert [text][..0] == [] && Misses(key, map[], []) == []; }
    hide Misses;
    WrittenOne(embed, m);
  }

  lemma WrittenOne(embed: string -> Vector, m: Missing)
    ensures Written(embed, map[], [m]) == map[m.key := embed(m.text)]
  {
    assert [m][..0] == [] && Written(embed, map[], []) == map[];
  }

  lemma {:induction false} FlattenMembers<T>(parts: seq<seq<T>>, whole: seq<seq<T>>, k: nat)
    requires k <= |whole| && parts == whole[..k]
    ensures forall x | x in Flatten(parts) :: x in Flatten(whole)
  {
    if k > 0 {
      assert parts[1..] == whole[1..][..k - 1];
      FlattenMembers(parts[1..], whole[1..], k - 1);
    }
  }

  /**
   What `Embed` promises, put in terms of a plain map: on a coherent cache the vectors are the
   embeddings of the texts, one by one; and after however many batches the cache is coherent.
   */
  lemma RefinesPlainMap(embed: string -> Vector, key: string -> string, values: map<string, Vector>, texts: seq<string>,
                        size: nat, k: nat)
    requires Coherent(embed, key, values) && KeysAgree(embed, key)
    requires size > 0 && k <= |Batches(Misses(key, values, texts), size)|
    ensures VectorsFor(embed, key, values, texts) == seq(|texts|, i requires 0 <= i < |texts| => embed(texts[i]))
    ensures Coherent(embed, key, Written(embed, values, Flatten(Batches(Misses(key, values, texts), size)[..k])))
  {
    hide Misses, Written, Flatten, Batches, Coherent, KeysAgree;
    var missing := Misses(key, values, texts);
    var batches := Batches(missing, size);
    MissesAre(key, values, texts);
    BatchesPartition(missing, size);
    FlattenMembers(batches[..k], batches, k);
    WritingKeepsCoherent(embed, key, values, Flatten(batches[..k]));
    forall i | 0 <= i < |texts| ensures VectorFor(embed, key, values, texts[i]) == embed(texts[i]) {
      CoherentAt(embed, key, values, texts[i]);
    }
  }

  lemma CoherentAt(embed: string -> Vector, key: string -> string, values: map<string, Vector>, text: string)
    requires Coherent(embed, key, values)
    ensures key(text) in values ==> values[key(text)] == embed(text)
  {
  }

  /**
   After the first batches were kept, exactly the texts that were missing and share no key with
   those are missing: a repeated call asks for no text again.
   */
  lemma StillMissing(embed: string -> Vector, key: string -> string, values: map<string, Vector>, texts: seq<string>,
                     done: seq<Missing>)
    ensures forall m :: m in Misses(key, Written(embed, values, done), texts) <==>
      m in Misses(key, values, texts) && forall d | d in done :: d.key != m.key
  {
    hide Misses, Written;
    var after := Written(embed, values, done);
    WrittenKeys(embed, values, done);
    MissesAre(key, values, texts);
    MissesAre(key, after, texts);
  }

  /** After a call that succeeded, the same texts need no provider. */
  lemma NothingMissingAfter(embed: string -> Vector, key: string -> string, values: map<string, Vector>,
                            texts: seq<string>)
    ensures Misses(key, Written(embed, values, Misses(key, values, texts)), texts) == []
  {
    hide Misses, Written;
    var missing := Misses(key, values, texts);
    StillMissing(embed, key, values, texts, missing);
    HasMember(Misses(key, Written(embed, values, missing), texts));
  }

  // ---------------------------------------------------------------- the cache and the batcher

  class InMemoryEmbeddingCache {
    var values: map<string, Vector>

    constructor ()
      ensures values == map[]
    {
      values := map[];
    }

    method Get(key: string) returns (vector: Option<Vector>)
      ensures vector == if key in values then Some(values[key]) else None
    {
      vector := if key in values then Some(values[key]) else None;
    }

    method Set(key: string, vector: Vector)
      modifies this
      ensures values == old(values)[key := vector]
    {
      values := values[key := vector];
    }
  }

  class EmbeddingBatcher {
    const provider: Provider
    const key: string -> string
    const cache: InMemoryEmbeddingCache
    const batchSize: nat

    /** A batch size that is not positive is refused. */
    constructor (provider: Provider, key: string -> string, cache: InMemoryEmbeddingCache, batchSize: nat)
      requires batchSize > 0
      ensures this.provider == provider && this.key == key && this.cache == cache && this.batchSize == batchSize
    {
      this.provider, this.key, this.cache, this.batchSize := provider, key, cache, batchSize;
    }

    /** One batch: tried again, up to three times in all, only after a retryable error. */
    method EmbedWithRetry(batch: nat, texts: seq<string>) returns (vectors: Result<seq<Vector>, Error>, attempts: nat)
      ensures 1 <= attempts <= ATTEMPTS
      ensures forall a | 1 <= a < attempts :: Retryable(provider.reply(batch, a))
      ensures Retryable(provider.reply(batch, attempts)) ==> attempts == ATTEMPTS
      ensures match Outcome(provider, batch, 1) {
        case Ok(_) =>
          && vectors.Ok? && |vectors.value| == |texts|
          && forall i | 0 <= i < |texts| :: vectors.value[i] == provider.embed(texts[i])
        case Err(UnexpectedCount) => vectors.Ok? && |vectors.value| != |texts|
        case Err(e) => vectors == Err(e)
      }
    {
      attempts := 1;
      while Retryable(provider.reply(batch, attempts)) && attempts < ATTEMPTS
        invariant 1 <= attempts <= ATTEMPTS
        invariant forall a | 1 <= a < attempts :: Retryable(provider.reply(batch, a))
        invariant Outcome(provider, batch, attempts) == Outcome(provider, batch, 1)
        decreases ATTEMPTS - attempts
      {
        attempts := attempts + 1;
      }
      match provider.reply(batch, attempts)
      case Vectors => vectors := Ok(seq(|texts|, i requires 0 <= i < |texts| => provider.embed(texts[i])));
      case WrongCount => vectors := Ok(seq(|texts| + 1, i => []));
      case Unavailable => vectors := Err(ProviderUnavailable);
      case BadResponse => vectors := Err(ProviderResponse);
      case Fatal => vectors := Err(OtherError);
    }

    /** Looks every text up; the texts without a cached vector are kept for the provider. */
    method LookUp(texts: seq<string>) returns (vectors: seq<Option<Vector>>, missing: seq<Missing>, cacheHits: nat)
      ensures missing == Misses(key, cache.values, texts) && cacheHits + |missing| == |texts|
      ensures |vectors| == |texts| && forall i | 0 <= i < |texts| ::
        vectors[i] == if key(texts[i]) in cache.values then Some(cache.values[key(texts[i])]) else None
    {
      vectors, missing, cacheHits := seq(|texts|, i => None), [], 0;
      for index := 0 to |texts|
        invariant missing == Misses(key, cache.values, texts[..index]) && cacheHits + |missing| == index
        invariant |vectors| == |texts| && forall i | 0 <= i < index ::
          vectors[i] == if key(texts[i]) in cache.values then Some(cache.values[key(texts[i])]) else None
        invariant forall i | index <= i < |texts| :: vectors[i] == None
      {
        assert texts[..index + 1][..index] == texts[..index];
        var value := texts[index];
        var cached := cache.Get(key(value));
        match cached
        case None => missing := missing + [Missing(index, key(value), value)];
        case Some(_) =>
          vectors := vectors[index := cached];
          cacheHits := cacheHits + 1;
      }
      assert texts[..|texts|] == texts;
    }

    /** Keeps the vectors of one answered batch, in the result and in the cache. */
    method Keep(vectors: seq<Option<Vector>>, batch: seq<Missing>, embedded: seq<Vector>)
      returns (filled: seq<Option<Vector>>)
      requires |embedded| == |batch| && forall j | 0 <= j < |batch| ::
        embedded[j] == provider.embed(batch[j].text) && batch[j].index < |vectors|
      modifies cache
      ensures filled == Filled(provider.embed, vectors, batch)
      ensures cache.values == Written(provider.embed, old(cache.values), batch)
    {
      filled := vectors;
      for j := 0 to |batch|
        invariant filled == Filled(provider.embed, vectors, batch[..j])
        invariant cache.values == Written(provider.embed, old(cache.values), batch[..j])
      {
        assert batch[..j + 1][..j] == batch[..j];
        assert batch[j].index < |vectors|;
        filled := filled[batch[j].index := Some(embedded[j])];
        cache.Set(batch[j].key, embedded[j]);
      }
      assert batch[..|batch|] == batch;
    }

    /** One turn of the loop: the batch is asked for and, if it is answered in full, kept. */
    method EmbedBatch(batchNumber: nat, batch: seq<Missing>, vectors: seq<Option<Vector>>)
      returns (filled: Result<seq<Option<Vector>>, Error>)
      requires forall m | m in batch :: m.index < |vectors|
      modifies cache
      ensures match Outcome(provider, batchNumber, 1) {
        case Ok(_) =>
          && filled == Ok(Filled(provider.embed, vectors, batch))
          && cache.values == Written(provider.embed, old(cache.values), batch)
        case Err(e) => filled == Err(e) && cache.values == old(cache.values)
      }
    {
      hide Written, Filled, Outcome, TextsOf;
      TextsAre(batch);
      var embedded, attempts := EmbedWithRetry(batchNumber, TextsOf(batch));
      if embedded.Err? {
        return Err(embedded.error);
      }
      if |embedded.value| != |batch| {
        return Err(UnexpectedCount);
      }
      var kept := Keep(vectors, batch, embedded.value);
      filled := Ok(kept);
    }

    /**
     Looks every text up and embeds the missing ones batch by batch, each batch being kept before the
     next is asked for; the first batch that fails ends the call.
     */
    method Embed(texts: seq<string>) returns (result: Result<BatchResult, Error>, ghost asked: seq<seq<Missing>>)
      requires batchSize > 0
      modifies cache
      ensures var missing := Misses(key, old(cache.values), texts);
        var batches := Batches(missing, batchSize);
        var k := FirstFailure(provider, |batches|, 0);
        && asked == batches[..if k < |batches| then k + 1 else k]
        && cache.values == Written(provider.embed, old(cache.values), Flatten(batches[..k]))
        && result == if k < |batches| then Err(Outcome(provider, k, 1).error)
                     else Ok(BatchResult(VectorsFor(provider.embed, key, old(cache.values), texts),
                                         |texts| - |missing|, |missing|, Chars(missing)))
    {
      hide Misses, Written, Filled, Outcome, Batches, Flatten, VectorFor, IsMiss, VectorsFor, Chars,
        FirstFailure, TextsOf;
      ghost var known := cache.values;
      var vectors, missing, cacheHits := LookUp(texts);
      MissPlaces(key, known, texts);
      ghost var start := vectors;
      ghost var batches := Batches(missing, batchSize);
      BatchesPartition(missing, batchSize);
      asked := [];
      var embeddedCount, offset, batchNumber := 0, 0, 0;
      EmptyParts(provider.embed, known, start, batches);
      assert missing[0..] == missing && missing[..0] == [];
      while offset < |missing|
        invariant embeddedCount == offset <= |missing| && batchNumber == |asked| <= |batches|
        invariant asked == batches[..batchNumber] && Batches(missing[offset..], batchSize) == batches[batchNumber..]
        invariant Flatten(batches[..batchNumber]) == missing[..offset]
        invariant FirstFailure(provider, |batches|, 0) == FirstFailure(provider, |batches|, batchNumber)
        invariant vectors == Filled(provider.embed, start, missing[..offset])
        invariant cache.values == Written(provider.embed, known, missing[..offset])
      {
        var end := if offset + batchSize < |missing| then offset + batchSize else |missing|;
        var batch := missing[offset..end];
        NextBatch(missing, offset, batchSize, batches, batchNumber);
        NextFailure(provider, |batches|, batchNumber);
        asked := asked + [batch];
        var filled := EmbedBatch(batchNumber, batch, vectors);
        if filled.Err? {
          return Err(filled.error), asked;
        }
        vectors := filled.value;
        KeptParts(provider.embed, known, start, missing[..offset], batch);
        assert missing[..end] == missing[..offset] + batch;
        embeddedCount, offset, batchNumber := embeddedCount + |batch|, end, batchNumber + 1;
      }
      AllKept(missing, offset, batchSize, batches, batchNumber);
      assert missing[..offset] == missing;
      FilledAre(provider.embed, start, missing, texts);
      var inputChars := CountChars(missing);
      var normalized := seq(|texts|, i requires 0 <= i < |texts| => if vectors[i].Some? then vectors[i].value else []);
      VectorsComplete(provider.embed, key, known, texts, start, vectors, normalized);
      result := Ok(BatchResult(normalized, cacheHits, embeddedCount, inputChars));
    }
  }

  method CountChars(missing: seq<Missing>) returns (chars: nat)
    ensures chars == Chars(missing)
  {
    chars := 0;
    for i := 0 to |missing|
      invariant chars == Chars(missing[..i])
    {
      assert missing[..i + 1][..i] == missing[..i];
      chars := chars + |missing[i].text|;
    }
    assert missing[..|missing|] == missing;
  }

  /** The first of the remaining batches whose attempts come to nothing, or the number of batches. */
  function FirstFailure(provider: Provider, batches: nat, from: nat): (k: nat)
    requires from <= batches
    ensures from <= k <= batches
    ensures k < batches ==> Outcome(provider, k, 1).Err?
    decreases batches - from
  {
    if from == batches || Outcome(provider, from, 1).Err? then from else FirstFailure(provider, batches, from + 1)
  }

  lemma NextFailure(provider: Provider, batches: nat, n: nat)
    requires n < batches
    ensures FirstFailure(provider, batches, n) ==
      if Outcome(provider, n, 1).Err? then n else FirstFailure(provider, batches, n + 1)
  {
    hide Outcome;
  }

  function VectorsFor(embed: string -> Vector, key: string -> string, values: map<string, Vector>,
                      texts: seq<string>): seq<Vector> {
    seq(|texts|, i requires 0 <= i < |texts| => VectorFor(embed, key, values, texts[i]))
  }

  /** The result list after the vectors of some missing texts are filled in, in order. */
  function Filled(embed: string -> Vector, vectors: seq<Option<Vector>>,
                  done: seq<Missing>): (filled: seq<Option<Vector>>)
    requires forall m | m in done :: m.index < |vectors|
    ensures |filled| == |vectors|
  {
    if done == [] then vectors
    else
      var last := done[|done| - 1];
      assert last in done;
      Filled(embed, vectors, done[..|done| - 1])[last.index := Some(embed(last.text))]
  }

  // ---------------------------------------------------------------- steps of the loop

  lemma EmptyParts(embed: string -> Vector, values: map<string, Vector>, vectors: seq<Option<Vector>>,
                   batches: seq<seq<Missing>>)
    ensures Filled(embed, vectors, []) == vectors && Written(embed, values, []) == values && Flatten(batches[..0]) == []
  {
  }

  lemma NextBatch(missing: seq<Missing>, offset: nat, size: nat, batches: seq<seq<Missing>>, n: nat)
    requires size > 0 && offset < |missing| && n <= |batches|
    requires Batches(missing[offset..], size) == batches[n..] && Flatten(batches[..n]) == missing[..offset]
    ensures var end := if offset + size < |missing| then offset + size else |missing|;
      && n < |batches| && batches[n] == missing[offset..end]
      && batches[..n + 1] == batches[..n] + [missing[offset..end]]
      && Batches(missing[end..], size) == batches[n + 1..]
      && Flatten(batches[..n + 1]) == missing[..end]
  {
    hide Flatten;
    var end := if offset + size < |missing| then offset + size else |missing|;
    var rest := missing[offset..];
    assert rest[..end - offset] == missing[offset..end] && rest[end - offset..] == missing[end..];
    if |rest| <= size {
      assert rest == missing[offset..end] && missing[end..] == [];
    }
    assert Batches(rest, size) == [missing[offset..end]] + Batches(missing[end..], size);
    assert batches[n..][0] == batches[n] && batches[n..][1..] == batches[n + 1..];
    FlattenLast(batches[..n], missing[offset..end]);
    assert missing[..end] == missing[..offset] + missing[offset..end];
  }

  lemma AllKept(missing: seq<Missing>, offset: nat, size: nat, batches: seq<seq<Missing>>, n: nat)
    requires size > 0 && offset == |missing| && n <= |batches| && Batches(missing[offset..], size) == batches[n..]
    ensures n == |batches|
  {
    assert missing[offset..] == [];
  }

  lemma {:induction false} KeptParts(embed: string -> Vector, values: map<string, Vector>, vectors: seq<Option<Vector>>,
                                     before: seq<Missing>, batch: seq<Missing>)
    requires forall m | m in before + batch :: m.index < |vectors|
    ensures forall m | m in before || m in batch :: m in before + batch
    ensures Filled(embed, Filled(embed, vectors, before), batch) == Filled(embed, vectors, before + batch)
    ensures Written(embed, Written(embed, values, before), batch) == Written(embed, values, before + batch)
  {
    if batch == [] {
      assert before + batch == before;
    } else {
      var n := |batch| - 1;
      var all, most := before + batch, before + batch[..n];
      assert all[..|all| - 1] == most && all[|all| - 1] == batch[n];
      forall m | m in most ensures m in all {
        assert m in before || m in batch;
      }
      KeptParts(embed, values, vectors, before, batch[..n]);
    }
  }

  lemma {:induction false} FilledAre(embed: string -> Vector, vectors: seq<Option<Vector>>, done: seq<Missing>,
                                     texts: seq<string>)
    requires |vectors| == |texts|
    requires forall m | m in done :: m.index < |texts| && m.text == texts[m.index]
    ensures forall i | 0 <= i < |texts| && (exists m :: m in done && m.index == i) ::
      Filled(embed, vectors, done)[i] == Some(embed(texts[i]))
    ensures forall i | 0 <= i < |texts| && (forall m | m in done :: m.index != i) ::
      Filled(embed, vectors, done)[i] == vectors[i]
  {
    if done != [] {
      var n := |done| - 1;
      assert done == done[..n] + [done[n]];
      FilledAre(embed, vectors, done[..n], texts);
    }
  }

  lemma VectorsComplete(embed: string -> Vector, key: string -> string, values: map<string, Vector>, texts: seq<string>,
                        start: seq<Option<Vector>>, vectors: seq<Option<Vector>>, normalized: seq<Vector>)
    requires |start| == |vectors| == |normalized| == |texts|
    requires forall i | 0 <= i < |texts| ::
      start[i] == if key(texts[i]) in values then Some(values[key(texts[i])]) else None
    requires var missing := Misses(key, values, texts);
      && (forall m | m in missing :: m.index < |texts|)
      && vectors == Filled(embed, start, missing)
    requires forall i | 0 <= i < |texts| :: normalized[i] == if vectors[i].Some? then vectors[i].value else []
    ensures normalized == VectorsFor(embed, key, values, texts)
  {
    hide Misses, Filled;
    MissesAre(key, values, texts);
    FilledAre(embed, start, Misses(key, values, texts), texts);
    forall i | 0 <= i < |texts| ensures normalized[i] == VectorFor(embed, key, values, texts[i]) {
      if key(texts[i]) !in values {
        assert IsMiss(Missing(i, key(texts[i]), texts[i]), key, values, texts);
        assert Missing(i, key(texts[i]), texts[i]) in Misses(key, values, texts);
      }
    }
  }
}
