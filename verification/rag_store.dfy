/**
 * assistant/rag_store.py: the retrieval store. The embedding model is created
 * lazily, once per store; retrieve checks that both index files exist, asks
 * the (abstract) nearest-neighbour search for candidate ids and scores, and
 * joins every non-negative candidate id to its metadata record.
 */
module RagStore {
  import opened Base
  import opened Storage

  /** One retrieval result: the metadata record of a candidate and its search score. */
  datatype Retrieved = Retrieved(id: int, source: string, chunkId: int, text: string, score: real)

  /** The parallel id and score rows a search returns for one query. */
  datatype Candidates = Candidates(ids: seq<int>, scores: seq<real>)

  /** The embedding of a text by the model of the given name. */
  type Embedder = (string, string) -> Vector

  /** A top-k search of an index for a query vector. */
  type Searcher = (FlatIndex, Vector, int) -> Candidates

  /** The exceptions retrieve and build_and_save raise. */
  datatype StoreError =
    | MissingIndex(path: string)
    | MissingMetadata(path: string)
    | MetaIndexOutOfRange(idx: int)
    | LengthMismatch
    | NoEmbeddingDimension

  const DefaultEmbedModel: string := "sentence-transformers/paraphrase-multilingual-MiniLM-L12-v2"
  const DefaultTopK: int := 4

  /** A loaded sentence-embedding model; each construction is a new object. */
  class EmbeddingModel {
    const name: string
    const cacheFolder: string

    constructor (name: string, cacheFolder: string)
      ensures this.name == name && this.cacheFolder == cacheFolder
    {
      this.name := name;
      this.cacheFolder := cacheFolder;
    }
  }

  // ---------------------------------------------------------------------------
  // The join of candidates to metadata records

  /** The result built from a metadata record and the score paired with its id. */
  function ToRetrieved(m: MetaRecord, score: real): Retrieved {
    Retrieved(m.id, m.source, m.chunkId, m.text, score)
  }

  /**
   * The loop over zip(ids, scores, strict=True): a negative id is skipped, an
   * id past the end of the metadata fails at the lookup, and the pairing fails
   * once one row runs out before the other.
   */
  function Join(ids: seq<int>, scores: seq<real>, meta: seq<MetaRecord>): Result<seq<Retrieved>, StoreError>
    decreases |ids|
  {
    if ids == [] || scores == [] then
      if |ids| == |scores| then Success([]) else Failure(LengthMismatch)
    else if ids[0] < 0 then
      Join(ids[1..], scores[1..], meta)
    else if ids[0] >= |meta| then
      Failure(MetaIndexOutOfRange(ids[0]))
    else
      match Join(ids[1..], scores[1..], meta)
      case Failure(e) => Failure(e)
      case Success(rest) => Success([ToRetrieved(meta[ids[0]], scores[0])] + rest)
  }

  /** The positions, counted from b, of the non-negative ids, in order. */
  function KeptFrom(ids: seq<int>, b: nat): seq<nat>
    decreases |ids|
  {
    if ids == [] then []
    else (if ids[0] >= 0 then [b] else []) + KeptFrom(ids[1..], b + 1)
  }

  /** The positions of the non-negative ids, in order. */
  function Kept(ids: seq<int>): seq<nat> {
    KeptFrom(ids, 0)
  }

  /** Every listed position holds a non-negative id; there are at most as many as ids. */
  lemma {:induction false} KeptFromBounds(ids: seq<int>, b: nat)
    ensures var pos := KeptFrom(ids, b);
      && |pos| <= |ids|
      && forall k :: 0 <= k < |pos| ==> b <= pos[k] < b + |ids| && ids[pos[k] - b] >= 0
    decreases |ids|
  {
    if ids != [] {
      KeptFromBounds(ids[1..], b + 1);
    }
  }

  /** The positions are listed in increasing order. */
  lemma {:induction false} KeptFromIncreasing(ids: seq<int>, b: nat)
    ensures var pos := KeptFrom(ids, b);
      forall k, l :: 0 <= k < l < |pos| ==> pos[k] < pos[l]
    decreases |ids|
  {
    if ids != [] {
      KeptFromIncreasing(ids[1..], b + 1);
      KeptFromBounds(ids[1..], b + 1);
    }
  }

  /** Every non-negative id is listed. */
  lemma {:induction false} KeptFromComplete(ids: seq<int>, b: nat, i: nat)
    requires i < |ids| && ids[i] >= 0
    ensures b + i in KeptFrom(ids, b)
    decreases i
  {
    if i > 0 {
      KeptFromComplete(ids[1..], b + 1, i - 1);
    }
  }

  /** Kept lists exactly the positions of the non-negative ids, each once, in increasing order. */
  lemma KeptShape(ids: seq<int>)
    ensures var pos := Kept(ids);
      && |pos| <= |ids|
      && (forall k :: 0 <= k < |pos| ==> pos[k] < |ids| && ids[pos[k]] >= 0)
      && (forall k, l :: 0 <= k < l < |pos| ==> pos[k] < pos[l])
      && (forall i :: 0 <= i < |ids| && ids[i] >= 0 ==> i in pos)
  {
    KeptFromBounds(ids, 0);
    KeptFromIncreasing(ids, 0);
    forall i | 0 <= i < |ids| && ids[i] >= 0 ensures i in Kept(ids) {
      KeptFromComplete(ids, 0, i);
    }
  }

  /** Unfolds one step of Join, for the loop of JoinCandidates. */
  function Prepend(xs: seq<Retrieved>, r: Result<seq<Retrieved>, StoreError>): Result<seq<Retrieved>, StoreError> {
    match r
    case Failure(e) => Failure(e)
    case Success(ys) => Success(xs + ys)
  }

  lemma PrependNothing(r: Result<seq<Retrieved>, StoreError>)
    ensures Prepend([], r) == r
  {
    if r.Success? {
      assert [] + r.value == r.value;
    }
  }

  lemma PrependOne(xs: seq<Retrieved>, x: Retrieved, r: Result<seq<Retrieved>, StoreError>)
    ensures Prepend(xs, Prepend([x], r)) == Prepend(xs + [x], r)
  {
    if r.Success? {
      assert xs + ([x] + r.value) == (xs + [x]) + r.value;
    }
  }

  /** JoinSuccess for the candidates from position b on, with positions counted in the whole rows. */
  lemma {:induction false} JoinSuccessFrom(ids: seq<int>, scores: seq<real>, meta: seq<MetaRecord>, b: nat)
    requires b <= |ids| && b <= |scores|
    requires Join(ids[b..], scores[b..], meta).Success?
    ensures var rs := Join(ids[b..], scores[b..], meta).value;
      var pos := KeptFrom(ids[b..], b);
      && |ids| == |scores|
      && |rs| == |pos|
      && forall k :: 0 <= k < |rs| ==>
           b <= pos[k] < |ids| && 0 <= ids[pos[k]] < |meta| && rs[k] == ToRetrieved(meta[ids[pos[k]]], scores[pos[k]])
    decreases |ids| - b
  {
    if b < |ids| && b < |scores| {
      var t, u := ids[b..], scores[b..];
      assert t[1..] == ids[b + 1..] && u[1..] == scores[b + 1..];
      JoinSuccessFrom(ids, scores, meta, b + 1);
      var rest := Join(ids[b + 1..], scores[b + 1..], meta).value;
      var pos1 := KeptFrom(ids[b + 1..], b + 1);
      if ids[b] >= 0 {
        assert KeptFrom(t, b) == [b] + pos1;
        assert Join(t, u, meta).value == [ToRetrieved(meta[ids[b]], scores[b])] + rest;
      } else {
        assert KeptFrom(t, b) == pos1;
        assert Join(t, u, meta).value == rest;
      }
    }
  }

  /**
   * A successful join pairs the rows one to one and returns, in candidate
   * order, one result per non-negative id: the fields of meta[id] and the score
   * at the same position.
   */
  lemma JoinSuccess(ids: seq<int>, scores: seq<real>, meta: seq<MetaRecord>)
    requires Join(ids, scores, meta).Success?
    ensures var rs := Join(ids, scores, meta).value;
      var pos := Kept(ids);
      && |ids| == |scores|
      && |rs| == |pos| <= |ids|
      && forall k :: 0 <= k < |rs| ==>
           pos[k] < |ids| && 0 <= ids[pos[k]] < |meta| && rs[k] == ToRetrieved(meta[ids[pos[k]]], scores[pos[k]])
  {
    assert ids[0..] == ids && scores[0..] == scores;
    JoinSuccessFrom(ids, scores, meta, 0);
    KeptShape(ids);
  }

  /** The join succeeds exactly when the rows have equal length and no id is past the end of the metadata. */
  lemma {:induction false} JoinSucceedsIff(ids: seq<int>, scores: seq<real>, meta: seq<MetaRecord>)
    ensures Join(ids, scores, meta).Success? <==> |ids| == |scores| && forall i :: 0 <= i < |ids| ==> ids[i] < |meta|
    decreases |ids|
  {
    if ids != [] && scores != [] {
      JoinSucceedsIff(ids[1..], scores[1..], meta);
      assert forall i :: 1 <= i < |ids| ==> ids[1..][i - 1] == ids[i];
    }
  }

  /** The first id past the end of the metadata, within the paired prefix, is the error reported. */
  lemma {:induction false} JoinOutOfRange(ids: seq<int>, scores: seq<real>, meta: seq<MetaRecord>, i: nat)
    requires i < |ids| && i < |scores| && ids[i] >= |meta|
    requires forall j :: 0 <= j < i ==> ids[j] < |meta|
    ensures Join(ids, scores, meta) == Failure(MetaIndexOutOfRange(ids[i]))
    decreases i
  {
    if i > 0 {
      JoinOutOfRange(ids[1..], scores[1..], meta, i - 1);
    }
  }

  /** Rows of different lengths fail with the zip error, unless a lookup failed first. */
  lemma {:induction false} JoinLengthMismatch(ids: seq<int>, scores: seq<real>, meta: seq<MetaRecord>)
    requires |ids| != |scores|
    requires forall j :: 0 <= j < |ids| && j < |scores| ==> ids[j] < |meta|
    ensures Join(ids, scores, meta) == Failure(LengthMismatch)
    decreases |ids|
  {
    if ids != [] && scores != [] {
      assert forall j :: 0 <= j < |ids| - 1 && j < |scores| - 1 ==> ids[1..][j] == ids[j + 1];
      JoinLengthMismatch(ids[1..], scores[1..], meta);
    }
  }

  /** Candidates whose ids are all negative (the padding of a search with too few vectors) give no results. */
  lemma {:induction false} JoinAllNegative(ids: seq<int>, scores: seq<real>, meta: seq<MetaRecord>)
    requires |ids| == |scores|
    requires forall i :: 0 <= i < |ids| ==> ids[i] < 0
    ensures Join(ids, scores, meta) == Success([])
    decreases |ids|
  {
    if ids != [] {
      assert forall i :: 0 <= i < |ids| - 1 ==> ids[1..][i] == ids[i + 1];
      JoinAllNegative(ids[1..], scores[1..], meta);
    }
  }

  /** The loop of retrieve over the paired candidate rows. */
  method JoinCandidates(ids: seq<int>, scores: seq<real>, meta: seq<MetaRecord>) returns (r: Result<seq<Retrieved>, StoreError>)
    ensures r == Join(ids, scores, meta)
  {
    var results: seq<Retrieved> := [];
    var i := 0;
    assert ids[0..] == ids && scores[0..] == scores;
    PrependNothing(Join(ids, scores, meta));
    while i < |ids| && i < |scores|
      invariant 0 <= i <= |ids| && i <= |scores|
      invariant Join(ids, scores, meta) == Prepend(results, Join(ids[i..], scores[i..], meta))
    {
      assert ids[i..][1..] == ids[i + 1..] && scores[i..][1..] == scores[i + 1..];
      var idx := ids[i];
      if idx >= 0 {
        if idx >= |meta| {
          return Failure(MetaIndexOutOfRange(idx));
        }
        var m := meta[idx];
        PrependOne(results, ToRetrieved(m, scores[i]), Join(ids[i + 1..], scores[i + 1..], meta));
        results := results + [Retrieved(m.id, m.source, m.chunkId, m.text, scores[i])];
      }
      i := i + 1;
    }
    assert ids[i..] == [] || scores[i..] == [];
    if |ids| != |scores| {
      return Failure(LengthMismatch);
    }
    assert Join(ids[i..], scores[i..], meta) == Success([]) && results + [] == results;
    return Success(results);
  }

  // ---------------------------------------------------------------------------
  // The store

  /** What retrieve returns for the files on disk: the file checks in order, then the join. */
  function RetrieveSpec(paths: Paths, index: Option<FlatIndex>, meta: Option<seq<MetaRecord>>, modelName: string,
                        query: string, topK: int, embed: Embedder, search: Searcher): Result<seq<Retrieved>, StoreError>
  {
    if index.None? then Failure(MissingIndex(paths.FaissIndexPath()))
    else if meta.None? then Failure(MissingMetadata(paths.MetaPath()))
    else
      var c := search(index.value, embed(modelName, query), topK);
      Join(c.ids, c.scores, meta.value)
  }

  /** Every result of a successful retrieve is a metadata record on disk, with a score from the search. */
  lemma RetrieveFromMeta(paths: Paths, index: Option<FlatIndex>, meta: Option<seq<MetaRecord>>, modelName: string,
                         query: string, topK: int, embed: Embedder, search: Searcher)
    requires RetrieveSpec(paths, index, meta, modelName, query, topK, embed, search).Success?
    ensures index.Some? && meta.Some?
    ensures var rs := RetrieveSpec(paths, index, meta, modelName, query, topK, embed, search).value;
      var c := search(index.value, embed(modelName, query), topK);
      && |rs| <= |c.ids|
      && (forall r :: r in rs ==>
           (exists i :: 0 <= i < |c.ids| && i < |c.scores| && 0 <= c.ids[i] < |meta.value| && r == ToRetrieved(meta.value[c.ids[i]], c.scores[i])))
  {
    var c := search(index.value, embed(modelName, query), topK);
    JoinSuccess(c.ids, c.scores, meta.value);
    var rs := Join(c.ids, c.scores, meta.value).value;
    var pos := Kept(c.ids);
    forall r | r in rs
      ensures exists i :: 0 <= i < |c.ids| && i < |c.scores| && 0 <= c.ids[i] < |meta.value| && r == ToRetrieved(meta.value[c.ids[i]], c.scores[i])
    {
      var k :| 0 <= k < |rs| && rs[k] == r;
      var i := pos[k];
      assert 0 <= i < |c.ids| && i < |c.scores| && 0 <= c.ids[i] < |meta.value| && r == ToRetrieved(meta.value[c.ids[i]], c.scores[i]);
    }
  }

  /** The retrieval store of assistant/rag_store.py, with its lazily created embedding model. */
  class RagStore {
    const paths: Paths
    const embedModelName: string
    /** The files the store reads and build_and_save writes. */
    const disk: Disk
    var model: EmbeddingModel?
    /** How many embedding models this store has constructed. */
    ghost var loads: nat

    ghost predicate Valid()
      reads this
    {
      && loads == (if model == null then 0 else 1)
      && (model != null ==> model.name == embedModelName && model.cacheFolder == paths.HfCacheDir())
    }

    constructor (paths: Paths, disk: Disk, embedModel: string := DefaultEmbedModel)
      ensures Valid()
      ensures this.paths == paths && this.disk == disk && embedModelName == embedModel
      ensures model == null && loads == 0
    {
      this.paths := paths;
      this.disk := disk;
      embedModelName := embedModel;
      model := null;
      loads := 0;
    }

    /** The model property: constructs the model on first use and returns the same object afterwards. */
    method Model() returns (m: EmbeddingModel)
      requires Valid()
      modifies this
      ensures Valid() && model == m && m.name == embedModelName
      ensures old(model) != null ==> m == old(model) && loads == old(loads)
      ensures old(model) == null ==> fresh(m) && loads == 1
    {
      if model == null {
        model := new EmbeddingModel(embedModelName, paths.HfCacheDir());
        loads := loads + 1;
      }
      m := model;
    }

    /**
     * build_and_save: constructs the model if needed, embeds every text and
     * writes an index holding one vector per text, in order. Without texts the
     * embedding matrix has no second axis and the call fails before writing.
     */
    method BuildAndSave(texts: seq<string>, embed: Embedder) returns (r: Result<(), StoreError>)
      requires Valid()
      modifies this, disk
      ensures Valid() && model != null && model.name == embedModelName
      ensures old(model) != null ==> model == old(model)
      ensures r.Failure? <==> texts == []
      ensures r.Failure? ==> r.error == NoEmbeddingDimension && disk.index == old(disk.index)
      ensures r.Success? ==> (
        && disk.index.Some?
        && |disk.index.value.vectors| == |texts|
        && disk.index.value.dim == |embed(embedModelName, texts[0])|
        && forall i :: 0 <= i < |texts| ==> disk.index.value.vectors[i] == embed(embedModelName, texts[i]))
      ensures disk.meta == old(disk.meta)
    {
      var m := Model();
      var embeddings := seq(|texts|, i requires 0 <= i < |texts| => embed(m.name, texts[i]));
      if embeddings == [] {
        return Failure(NoEmbeddingDimension);
      }
      disk.index := Some(FlatIndex(|embeddings[0]|, embeddings));
      return Success(());
    }

    /**
     * retrieve: fails if the index file, then the metadata file, is missing,
     * before the model is touched; otherwise embeds the query with the (lazily
     * created) model, searches and joins the candidates to the metadata.
     */
    method Retrieve(query: string, embed: Embedder, search: Searcher, topK: int := DefaultTopK) returns (r: Result<seq<Retrieved>, StoreError>)
      requires Valid()
      modifies this
      ensures Valid()
      ensures r == RetrieveSpec(paths, disk.index, disk.meta, embedModelName, query, topK, embed, search)
      ensures old(model) != null ==> model == old(model)
      ensures model != null <==> old(model) != null || (disk.index.Some? && disk.meta.Some?)
    {
      if disk.index.None? {
        return Failure(MissingIndex(paths.FaissIndexPath()));
      }
      var index := disk.index.value;
      if disk.meta.None? {
        return Failure(MissingMetadata(paths.MetaPath()));
      }
      var meta := disk.meta.value;
      var m := Model();
      var q := embed(m.name, query);
      var c := search(index, q, topK);
      r := JoinCandidates(c.ids, c.scores, meta);
    }
  }
}
