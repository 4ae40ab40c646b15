// Embedding and storing the chunks of a document: the re-ordering of the embedding response
// (crates/kenjaku-infra/src/embedding/openai.rs, embed) and the batch loop
// (crates/kenjaku-ingest/src/pipeline.rs, process_document).

module Embedding {
  import opened Wrappers

  type Vector = seq<real>

  datatype Datum = Datum(index: nat, embedding: Vector)

  // ---- The sort ----------------------------------------------------------------------------

  function Insert(d: Datum, data: seq<Datum>): seq<Datum> {
    if data == [] || d.index <= data[0].index then [d] + data else [data[0]] + Insert(d, data[1..])
  }

  // A stable sort by index.
  function SortByIndex(data: seq<Datum>): seq<Datum> {
    if data == [] then [] else Insert(data[0], SortByIndex(data[1..]))
  }

  predicate Sorted(data: seq<Datum>) {
    |data| < 2 || (data[0].index <= data[1].index && Sorted(data[1..]))
  }

  lemma {:induction false} InsertSorts(d: Datum, data: seq<Datum>)
    requires Sorted(data)
    ensures Sorted(Insert(d, data))
    ensures multiset(Insert(d, data)) == multiset{d} + multiset(data)
  {
    if data == [] || d.index <= data[0].index {
      assert ([d] + data)[1..] == data;
    } else {
      var rest := Insert(d, data[1..]);
      InsertSorts(d, data[1..]);
      assert ([data[0]] + rest)[1..] == rest;
      assert data == [data[0]] + data[1..];
    }
  }

  lemma {:induction false} SortSorts(data: seq<Datum>)
    ensures Sorted(SortByIndex(data)) && multiset(SortByIndex(data)) == multiset(data)
  {
    if data != [] {
      var rest := data[1..];
      SortSorts(rest);
      InsertSorts(data[0], SortByIndex(rest));
      assert data == [data[0]] + rest;
    }
  }

  // ---- The response in order ---------------------------------------------------------------

  // Strictly ascending from lo on, and below hi.
  predicate Ascending(data: seq<Datum>, lo: nat, hi: nat) {
    data == [] || (lo <= data[0].index < hi && Ascending(data[1..], data[0].index + 1, hi))
  }

  lemma {:induction false} AscendingFillsRange(data: seq<Datum>, lo: nat, hi: nat)
    requires Ascending(data, lo, hi)
    ensures lo + |data| <= hi || data == []
    ensures lo + |data| == hi ==> forall i :: 0 <= i < |data| ==> data[i].index == lo + i
  {
    if data != [] {
      AscendingFillsRange(data[1..], data[0].index + 1, hi);
      if lo + |data| == hi {
        forall i | 0 <= i < |data| ensures data[i].index == lo + i {
          assert i > 0 ==> data[i] == data[1..][i - 1];
        }
      }
    }
  }

  // The response carries each position of the request once, in any order.
  predicate CoversPositions(data: seq<Datum>, n: nat) {
    && |data| == n
    && (forall d :: d in data ==> d.index < n)
    && (forall i, j :: 0 <= i < j < |data| ==> data[i].index != data[j].index)
  }

  predicate Distinct(data: seq<Datum>) {
    data == [] || ((forall d :: d in data[1..] ==> d.index != data[0].index) && Distinct(data[1..]))
  }

  lemma {:induction false} DistinctIsPairwise(data: seq<Datum>)
    ensures Distinct(data) <==> forall i, j :: 0 <= i < j < |data| ==> data[i].index != data[j].index
  {
    if data != [] {
      DistinctIsPairwise(data[1..]);
      var rest := data[1..];
      if Distinct(data) {
        forall i, j | 0 <= i < j < |data| ensures data[i].index != data[j].index {
          assert data[j] == rest[j - 1] && rest[j - 1] in rest;
          assert i > 0 ==> data[i] == rest[i - 1];
        }
      }
      if forall i, j :: 0 <= i < j < |data| ==> data[i].index != data[j].index {
        forall i, j | 0 <= i < j < |rest| ensures rest[i].index != rest[j].index {
          assert rest[i] == data[i + 1] && rest[j] == data[j + 1];
        }
        forall d | d in rest ensures d.index != data[0].index {
          var j :| 0 <= j < |rest| && rest[j] == d;
          assert data[j + 1] == d;
        }
      }
    }
  }

  lemma {:induction false} DistinctInsert(d: Datum, data: seq<Datum>)
    requires Distinct(data) && forall x :: x in data ==> x.index != d.index
    ensures Distinct(Insert(d, data)) && forall x :: x in Insert(d, data) ==> x == d || x in data
  {
    if data == [] || d.index <= data[0].index {
      assert ([d] + data)[1..] == data;
    } else {
      var rest := Insert(d, data[1..]);
      DistinctInsert(d, data[1..]);
      assert ([data[0]] + rest)[1..] == rest;
    }
  }

  lemma {:induction false} DistinctSort(data: seq<Datum>)
    requires Distinct(data)
    ensures Distinct(SortByIndex(data)) && forall x :: x in SortByIndex(data) ==> x in data
  {
    if data != [] {
      DistinctSort(data[1..]);
      DistinctInsert(data[0], SortByIndex(data[1..]));
    }
  }

  lemma {:induction false} SortedDistinctAscends(data: seq<Datum>, lo: nat, hi: nat)
    requires Sorted(data) && Distinct(data) && (forall d :: d in data ==> d.index < hi)
    requires data != [] ==> lo <= data[0].index
    ensures Ascending(data, lo, hi)
  {
    if data != [] {
      assert data[0] in data;
      if |data| > 1 {
        assert data[1..][0] == data[1] && data[1] in data[1..];
      }
      SortedDistinctAscends(data[1..], data[0].index + 1, hi);
    }
  }

  // Sorting such a response puts every datum at its own index.
  lemma {:induction false} SortPutsInPlace(data: seq<Datum>, n: nat)
    requires CoversPositions(data, n)
    ensures |SortByIndex(data)| == n
    ensures forall i :: 0 <= i < n ==> SortByIndex(data)[i].index == i && SortByIndex(data)[i] in data
  {
    var sorted := SortByIndex(data);
    SortSorts(data);
    assert |sorted| == |multiset(sorted)| == |multiset(data)| == n;
    DistinctIsPairwise(data);
    DistinctSort(data);
    SortedDistinctAscends(sorted, 0, n);
    AscendingFillsRange(sorted, 0, n);
  }

  function Embeddings(data: seq<Datum>): (r: seq<Vector>)
    ensures |r| == |data| && forall i :: 0 <= i < |data| ==> r[i] == data[i].embedding
  {
    seq(|data|, i requires 0 <= i < |data| => data[i].embedding)
  }

  // The provider: `respond` stands for the request and the parsing of the response.
  type Service = seq<string> -> Option<seq<Datum>>

  function Embed(respond: Service, texts: seq<string>): Option<seq<Vector>> {
    if texts == [] then Some([]) else
      match respond(texts)
      case None => None
      case Some(data) => Some(Embeddings(SortByIndex(data)))
  }

  // A service that answers every text with its vector, under the text's position.
  ghost predicate Answers(respond: Service, vector: string -> Vector) {
    forall texts :: respond(texts).Some? ==>
      var data := respond(texts).value;
      CoversPositions(data, |texts|) && forall d :: d in data ==> d.embedding == vector(texts[d.index])
  }

  // Then the vectors come out in the order of the texts, whatever the order of the response.
  lemma {:induction false} EmbedAligns(respond: Service, vector: string -> Vector, texts: seq<string>)
    requires Answers(respond, vector) && Embed(respond, texts).Some?
    ensures Embed(respond, texts).value == seq(|texts|, i requires 0 <= i < |texts| => vector(texts[i]))
  {
    if texts != [] {
      SortPutsInPlace(respond(texts).value, |texts|);
    }
  }
}

module Ingest {
  import opened Wrappers
  import opened Numbers
  import opened Text
  import opened Chunker
  import opened Embedding

  datatype Point = Point(original: string, contextualized: string, embedding: Vector)

  // A chunk and the text that is embedded for it.
  datatype Contextualized = Contextualized(original: string, text: string)

  // The document and one of its chunks, to a context for the chunk.
  type Contextualizer = (string, string) -> Option<string>

  function Contextualize(context: Contextualizer, document: string, chunk: string): Contextualized {
    match context(document, chunk)
    case Some(ctx) => Contextualized(chunk, ctx + "\n\n" + chunk)
    case None => Contextualized(chunk, chunk)
  }

  // The chunk is stored as it is; what is embedded ends with it, behind its context if there is one.
  lemma {:induction false} ContextComesFirst(context: Contextualizer, document: string, chunk: string)
    ensures var item := Contextualize(context, document, chunk);
            && item.original == chunk
            && (context(document, chunk).None? ==> item.text == chunk)
            && (context(document, chunk).Some? ==>
                  var ctx, n := context(document, chunk).value, |item.text| - |chunk|;
                  && n == |ctx| + 2 && item.text[..n - 2] == ctx
                  && item.text[n - 2..n] == "\n\n" && item.text[n..] == chunk)
  {
  }

  function ContextualizeAll(context: Contextualizer, document: string, chunks: seq<string>): (r: seq<Contextualized>)
    ensures |r| == |chunks| && forall i :: 0 <= i < |chunks| ==> r[i] == Contextualize(context, document, chunks[i])
  {
    seq(|chunks|, i requires 0 <= i < |chunks| => Contextualize(context, document, chunks[i]))
  }

  function TextsOf(batch: seq<Contextualized>): (r: seq<string>)
    ensures |r| == |batch| && forall i :: 0 <= i < |batch| ==> r[i] == batch[i].text
  {
    seq(|batch|, i requires 0 <= i < |batch| => batch[i].text)
  }

  function Zip(batch: seq<Contextualized>, embeddings: seq<Vector>): (r: seq<Point>)
    requires |embeddings| == |batch|
    ensures |r| == |batch|
  {
    seq(|batch|, i requires 0 <= i < |batch| => Point(batch[i].original, batch[i].text, embeddings[i]))
  }

  // The points of one batch; none when the embedding fails or has another length.
  function BatchPoints(respond: Service, batch: seq<Contextualized>): (r: Option<seq<Point>>)
    ensures r.Some? ==> |r.value| == |batch|
  {
    match Embed(respond, TextsOf(batch))
    case None => None
    case Some(embeddings) => if |embeddings| != |batch| then None else Some(Zip(batch, embeddings))
  }

  // A batch is stored only if there is a vector for each of its texts, and then every text has its own.
  lemma {:induction false} BatchNeedsAllVectors(respond: Service, batch: seq<Contextualized>)
    ensures var vectors, points := Embed(respond, TextsOf(batch)), BatchPoints(respond, batch);
            && (points.Some? <==> vectors.Some? && |vectors.value| == |batch|)
            && (points.Some? ==> forall i :: 0 <= i < |batch| ==>
                  points.value[i] == Point(batch[i].original, batch[i].text, vectors.value[i]))
  {
  }

  // The points that are stored batch by batch, whether every batch was, and the calls to the store.
  datatype Stored = Stored(points: seq<Point>, complete: bool, calls: nat)

  // `accepts` says which calls to the point store succeed; the next one has the number `call`.
  function StoreBatches(
    respond: Service, accepts: nat -> bool, call: nat, items: seq<Contextualized>, batchSize: nat): Stored
    requires batchSize > 0
    decreases |items|
  {
    if items == [] then Stored([], true, 0) else
      var n := Min(batchSize, |items|);
      match BatchPoints(respond, items[..n])
      case None => Stored([], false, 0)
      case Some(points) =>
        if !accepts(call) then Stored([], false, 1) else
          var rest := StoreBatches(respond, accepts, call + 1, items[n..], batchSize);
          Stored(points + rest.points, rest.complete, rest.calls + 1)
  }

  class PointStore {
    const accepts: nat -> bool
    var points: seq<Point>
    var calls: nat

    constructor (accepts: nat -> bool)
      ensures this.accepts == accepts && points == [] && calls == 0
    {
      this.accepts, points, calls := accepts, [], 0;
    }

    method UpsertPoints(more: seq<Point>) returns (ok: bool)
      modifies this
      ensures ok == accepts(old(calls)) && calls == old(calls) + 1
      ensures points == if ok then old(points) + more else old(points)
    {
      ok := accepts(calls);
      calls := calls + 1;
      if ok {
        points := points + more;
      }
    }
  }

  // What is left of a run over the batches.
  ghost predicate Halfway(before: seq<Point>, total: Stored, points: seq<Point>, calls: int, rest: Stored) {
    && before + total.points == points + rest.points && total.complete == rest.complete
    && total.calls == calls + rest.calls
  }

  lemma {:induction false} StoreBatch(
    before: seq<Point>, total: Stored, points: seq<Point>, calls: int, more: seq<Point>, rest: Stored)
    requires Halfway(before, total, points, calls, Stored(more + rest.points, rest.complete, rest.calls + 1))
    ensures Halfway(before, total, points + more, calls + 1, rest)
  {
    ConcatAssoc(points, more, rest.points);
  }

  // One turn of the loop over the batches.
  lemma {:induction false} BatchTurn(
    respond: Service, accepts: nat -> bool, first: nat, call: nat, rest: seq<Contextualized>, batchSize: nat,
    batch: seq<Contextualized>, next: seq<Contextualized>, before: seq<Point>, total: Stored, points: seq<Point>)
    requires batchSize > 0 && rest != []
    requires batch == rest[..Min(batchSize, |rest|)] && next == rest[Min(batchSize, |rest|)..]
    requires Halfway(before, total, points, call - first, StoreBatches(respond, accepts, call, rest, batchSize))
    ensures var more := BatchPoints(respond, batch);
            if more.Some? && accepts(call)
            then Halfway(before, total, points + more.value, call + 1 - first,
                         StoreBatches(respond, accepts, call + 1, next, batchSize))
            else before + total.points == points && !total.complete &&
                 total.calls == call - first + if more.Some? then 1 else 0
  {
    var more := BatchPoints(respond, batch);
    if more.Some? && accepts(call) {
      StoreBatch(before, total, points, call - first, more.value,
                 StoreBatches(respond, accepts, call + 1, next, batchSize));
    } else {
      assert points + [] == points;
    }
  }

  method ContextualizeChunks(context: Contextualizer, document: string, chunks: seq<string>)
    returns (contextualized: seq<Contextualized>)
    ensures contextualized == ContextualizeAll(context, document, chunks)
  {
    contextualized := [];
    for i := 0 to |chunks|
      invariant contextualized == ContextualizeAll(context, document, chunks)[..i]
    {
      contextualized := contextualized + [Contextualize(context, document, chunks[i])];
    }
  }

  method StoreOne(batch: seq<Contextualized>, respond: Service, store: PointStore) returns (r: Result<nat, string>)
    modifies store
    ensures var more := BatchPoints(respond, batch);
            && (r.Success? <==> more.Some? && store.accepts(old(store.calls)))
            && (r.Success? ==> r.value == |batch| && store.points == old(store.points) + more.value)
            && (r.Failure? ==> store.points == old(store.points))
            && store.calls == old(store.calls) + if more.Some? then 1 else 0
  {
    var embeddings := Embed(respond, TextsOf(batch));
    if embeddings.None? {
      return Failure("embedding failed");
    }
    if |embeddings.value| != |batch| {
      return Failure("embedding count mismatch");
    }
    var points := Zip(batch, embeddings.value);
    var ok := store.UpsertPoints(points);
    if !ok {
      return Failure("upsert failed");
    }
    return Success(|points|);
  }

  // What a run has added to the store, and reported.
  ghost predicate Reports(
    stored: Stored, before: seq<Point>, points: seq<Point>, calls: int, r: Result<nat, string>)
  {
    && points == before + stored.points && calls == stored.calls
    && (r.Success? <==> stored.complete) && (r.Success? ==> r.value == |stored.points|)
  }

  lemma {:induction false} NothingLeft(before: seq<Point>, total: Stored, points: seq<Point>, calls: int, inserted: nat)
    requires Halfway(before, total, points, calls, Stored([], true, 0)) && |points| == |before| + inserted
    ensures Reports(total, before, points, calls, Success(inserted))
  {
    assert points + [] == points;
  }

  // The first batch of what is still to be stored; `before`, `first` and `total` are of the whole run.
  method StoreFirst(
    rest: seq<Contextualized>, respond: Service, batchSize: nat, store: PointStore,
    ghost before: seq<Point>, ghost first: nat, ghost total: Stored)
    returns (r: Result<nat, string>, next: seq<Contextualized>)
    requires batchSize > 0 && rest != []
    requires Halfway(before, total, store.points, store.calls - first,
                     StoreBatches(respond, store.accepts, store.calls, rest, batchSize))
    modifies store
    ensures |next| < |rest|
    ensures r.Failure? ==> Reports(total, before, store.points, store.calls - first, r)
    ensures r.Success? ==> |store.points| == |old(store.points)| + r.value
    ensures r.Success? ==>
              Halfway(before, total, store.points, store.calls - first,
                      StoreBatches(respond, store.accepts, store.calls, next, batchSize))
  {
    var n := Min(batchSize, |rest|);
    var batch := rest[..n];
    next := rest[n..];
    BatchTurn(respond, store.accepts, first, store.calls, rest, batchSize, batch, next, before, total, store.points);
    r := StoreOne(batch, respond, store);
  }

  method StoreAll(items: seq<Contextualized>, respond: Service, batchSize: nat, store: PointStore)
    returns (r: Result<nat, string>)
    requires batchSize > 0
    modifies store
    ensures var stored := StoreBatches(respond, store.accepts, old(store.calls), items, batchSize);
            Reports(stored, old(store.points), store.points, store.calls - old(store.calls), r)
  {
    ghost var before, first := store.points, store.calls;
    ghost var total := StoreBatches(respond, store.accepts, first, items, batchSize);
    var rest := items;
    var inserted := 0;
    assert before + total.points == store.points + total.points;
    while rest != []
      invariant Halfway(before, total, store.points, store.calls - first,
                        StoreBatches(respond, store.accepts, store.calls, rest, batchSize))
      invariant |store.points| == |before| + inserted
      decreases |rest|
    {
      var count, next := StoreFirst(rest, respond, batchSize, store, before, first, total);
      if count.Failure? {
        return count;
      }
      inserted := inserted + count.value;
      rest := next;
    }
    NothingLeft(before, total, store.points, store.calls - first, inserted);
    return Success(inserted);
  }

  method ProcessDocument(
    text: string, tokenizer: Option<Tokenizer>, chunkSize: nat, overlap: nat,
    context: Contextualizer, respond: Service, batchSize: nat, store: PointStore)
    returns (r: Result<nat, string>)
    requires batchSize > 0
    modifies store
    ensures var items := ContextualizeAll(context, text, Chunks(text, tokenizer, chunkSize, overlap));
            var stored := StoreBatches(respond, store.accepts, old(store.calls), items, batchSize);
            Reports(stored, old(store.points), store.points, store.calls - old(store.calls), r)
  {
    var chunks := ChunkText(text, tokenizer, chunkSize, overlap);
    if chunks == [] {
      assert store.points + [] == store.points;
      return Success(0);
    }
    var contextualized := ContextualizeChunks(context, text, chunks);
    r := StoreAll(contextualized, respond, batchSize, store);
  }

  function PointOf(vector: string -> Vector, item: Contextualized): Point {
    Point(item.original, item.text, vector(item.text))
  }

  ghost predicate AreAligned(vector: string -> Vector, points: seq<Point>, items: seq<Contextualized>) {
    |points| <= |items| && forall i :: 0 <= i < |points| ==> points[i] == PointOf(vector, items[i])
  }

  lemma {:induction false} BatchIsAligned(respond: Service, vector: string -> Vector, batch: seq<Contextualized>)
    requires Answers(respond, vector) && BatchPoints(respond, batch).Some?
    ensures AreAligned(vector, BatchPoints(respond, batch).value, batch)
  {
    EmbedAligns(respond, vector, TextsOf(batch));
  }

  lemma {:induction false} AlignedTogether(
    vector: string -> Vector, p1: seq<Point>, p2: seq<Point>, items: seq<Contextualized>, n: nat)
    requires n <= |items| && |p1| == n
    requires AreAligned(vector, p1, items[..n]) && AreAligned(vector, p2, items[n..])
    ensures AreAligned(vector, p1 + p2, items)
  {
    forall i | 0 <= i < |p1 + p2| ensures (p1 + p2)[i] == PointOf(vector, items[i]) {
      assert items[i] == if i < n then items[..n][i] else items[n..][i - n];
    }
  }

  // Every stored point carries the vector of its own text; the points are those of the first chunks in
  // order, and of all of them when the document was processed.
  lemma {:induction false} StoredPointsAreAligned(
    respond: Service, vector: string -> Vector, accepts: nat -> bool, call: nat, items: seq<Contextualized>,
    batchSize: nat)
    requires batchSize > 0 && Answers(respond, vector)
    ensures var stored := StoreBatches(respond, accepts, call, items, batchSize);
            AreAligned(vector, stored.points, items) && (stored.complete <==> |stored.points| == |items|)
    decreases |items|
  {
    if items != [] {
      var n := Min(batchSize, |items|);
      var batch, rest := items[..n], items[n..];
      StoredPointsAreAligned(respond, vector, accepts, call + 1, rest, batchSize);
      if BatchPoints(respond, batch).Some? {
        BatchIsAligned(respond, vector, batch);
        var points := BatchPoints(respond, batch).value;
        AlignedTogether(
          vector, points, StoreBatches(respond, accepts, call + 1, rest, batchSize).points, items, n);
      }
    }
  }

  // A document that is stored takes as many calls as there are batches of the given size, the last of them
  // possibly smaller.
  lemma {:induction false} CallsAreBatches(
    respond: Service, accepts: nat -> bool, call: nat, items: seq<Contextualized>, batchSize: nat)
    requires batchSize > 0 && StoreBatches(respond, accepts, call, items, batchSize).complete
    ensures var calls := StoreBatches(respond, accepts, call, items, batchSize).calls;
            (calls == 0 <==> items == []) && (calls > 0 ==> (calls - 1) * batchSize < |items| <= calls * batchSize)
    decreases |items|
  {
    if |items| > batchSize {
      var rest := items[batchSize..];
      CallsAreBatches(respond, accepts, call + 1, rest, batchSize);
      OneMore(StoreBatches(respond, accepts, call + 1, rest, batchSize).calls, batchSize);
      OneMore(StoreBatches(respond, accepts, call + 1, rest, batchSize).calls + 1, batchSize);
    } else if items != [] {
      assert items[|items|..] == [];
    }
  }
}
