/**
 * assistant/ingestion.py: the document filter of load_documents over a
 * listing of data/raw, the numbering of chunks per document in build_chunks,
 * and the metadata records save_metadata writes beside the index.
 */
module Ingestion {
  import opened Base
  import opened Chars
  import opened TextUtils
  import opened Chunking
  import opened Storage
  import RagStore

  /** A loaded document: its path and its normalised, non-empty text. */
  datatype Doc = Doc(source: string, text: string)

  /** One path of the recursive listing of data/raw. */
  datatype Entry = Entry(path: string, isDir: bool)

  /** The plain text of a .txt file, read leniently as UTF-8. */
  type TextReader = string -> string

  /** The text extracted from each page of a PDF file, "" for a page without text. */
  type PdfReader = string -> seq<string>

  const DefaultChunkSize: int := 900
  const DefaultChunkOverlap: int := 120

  // ---------------------------------------------------------------------------
  // Path.suffix

  /** The position of the last occurrence of c in s. */
  function LastIndexOf(s: string, c: char): (r: Option<nat>)
    ensures r.Some? ==> r.value < |s|
    decreases |s|
  {
    if s == [] then None
    else if s[|s| - 1] == c then Some(|s| - 1)
    else LastIndexOf(s[..|s| - 1], c)
  }

  lemma {:induction false} LastIndexOfShape(s: string, c: char)
    ensures var r := LastIndexOf(s, c);
      && (r.None? <==> c !in s)
      && (r.Some? ==> r.value < |s| && s[r.value] == c && c !in s[r.value + 1..])
    decreases |s|
  {
    if s != [] && s[|s| - 1] != c {
      LastIndexOfShape(s[..|s| - 1], c);
      assert s == s[..|s| - 1] + [s[|s| - 1]];
      var r := LastIndexOf(s, c);
      if r.Some? {
        assert s[r.value + 1..] == s[..|s| - 1][r.value + 1..] + [s[|s| - 1]];
      }
    }
  }

  /** The last occurrence of c is the one with no c after it. */
  lemma {:induction false} LastIndexOfAt(s: string, c: char, j: nat)
    requires j < |s| && s[j] == c && c !in s[j + 1..]
    ensures LastIndexOf(s, c) == Some(j)
    decreases |s|
  {
    if j < |s| - 1 {
      assert s[|s| - 1] in s[j + 1..];
      assert s[..|s| - 1][j + 1..] == s[j + 1..|s| - 1];
      LastIndexOfAt(s[..|s| - 1], c, j);
    }
  }

  /** Path.name: the final component of a path. */
  function FileName(path: string): string {
    match LastIndexOf(path, '/')
    case None => path
    case Some(i) => path[i + 1..]
  }

  /** Path.suffix: from the last dot of the name, provided it is neither the first nor the last character. */
  function Suffix(path: string): string {
    var name := FileName(path);
    match LastIndexOf(name, '.')
    case None => ""
    case Some(i) => if 0 < i < |name| - 1 then name[i..] else ""
  }

  /**
   * A suffix is empty or a dot followed by at least one character, with no
   * further dot and no slash, and it ends the path.
   */
  lemma SuffixShape(path: string)
    ensures var r := Suffix(path);
      r == [] || (
        && |r| >= 2 && r[0] == '.' && '.' !in r[1..] && '/' !in r
        && |r| <= |path| && r == path[|path| - |r|..])
  {
    LastIndexOfShape(path, '/');
    var name := FileName(path);
    assert '/' !in name && |name| <= |path| && name == path[|path| - |name|..];
    LastIndexOfShape(name, '.');
    var r := Suffix(path);
    if r != [] {
      var i := LastIndexOf(name, '.').value;
      assert r == name[i..] && r[1..] == name[i + 1..];
      assert forall k :: 0 <= k < |r| ==> r[k] == name[i + k];
    }
  }

  /** The extensions load_documents reads. */
  predicate Readable(ext: string) {
    ext == ".txt" || ext == ".pdf"
  }

  /** A file whose name is only an extension has no suffix, so data/raw/.txt is not read. */
  lemma DotFileHasNoSuffix(path: string)
    requires path == "data/raw/" + ".txt"
    ensures Suffix(path) == ""
    ensures !Readable(Lower(Suffix(path)))
  {
    assert path[8] == '/' && path[9..] == ".txt";
    LastIndexOfAt(path, '/', 8);
    assert FileName(path) == ".txt";
    LastIndexOfAt(".txt", '.', 0);
  }

  /** The suffix test ignores case: guide.PDF is read as a PDF. */
  lemma UpperCaseSuffixRead(path: string)
    requires path == "guide.PDF"
    ensures Suffix(path) == ".PDF"
    ensures Readable(Lower(Suffix(path)))
  {
    LastIndexOfShape(path, '/');
    assert path[5..] == ".PDF" && path[6..] == "PDF";
    LastIndexOfAt(path, '.', 5);
    assert Lower(".PDF") == ".pdf";
  }

  // ---------------------------------------------------------------------------
  // load_documents

  /** _read_pdf: the pages' texts joined by blank lines. */
  function PdfText(pages: seq<string>): string {
    JoinWith("\n\n", pages)
  }

  /** What load_documents makes of one listed path: a document, or nothing. */
  function DocumentOf(e: Entry, readText: TextReader, readPdf: PdfReader): Option<Doc> {
    if e.isDir then None
    else
      var ext := Lower(Suffix(e.path));
      if !Readable(ext) then None
      else
        var raw := if ext == ".txt" then readText(e.path) else PdfText(readPdf(e.path));
        var text := Normalize(raw);
        if text == [] then None else Some(Doc(e.path, text))
  }

  /** The values f gives for the elements of xs, skipping the elements it maps to None. */
  function FilterMap<A, B>(xs: seq<A>, f: A -> Option<B>): seq<B>
    decreases |xs|
  {
    if xs == [] then []
    else
      var rest := FilterMap(xs[..|xs| - 1], f);
      match f(xs[|xs| - 1])
      case None => rest
      case Some(y) => rest + [y]
  }

  /** The documents of a listing, in listing order. */
  function LoadSpec(entries: seq<Entry>, readText: TextReader, readPdf: PdfReader): seq<Doc> {
    FilterMap(entries, e => DocumentOf(e, readText, readPdf))
  }

  /** Every kept value comes from some element, and there are at most as many values as elements. */
  lemma {:induction false} FilterMapSound<A, B>(xs: seq<A>, f: A -> Option<B>, y: B)
    requires y in FilterMap(xs, f)
    ensures exists i :: 0 <= i < |xs| && f(xs[i]) == Some(y)
    decreases |xs|
  {
    var init := xs[..|xs| - 1];
    if y in FilterMap(init, f) {
      FilterMapSound(init, f, y);
      var i :| 0 <= i < |init| && f(init[i]) == Some(y);
      assert xs[i] == init[i];
    } else {
      assert f(xs[|xs| - 1]) == Some(y);
    }
  }

  /** Every value f gives is kept. */
  lemma {:induction false} FilterMapComplete<A, B>(xs: seq<A>, f: A -> Option<B>, i: nat)
    requires i < |xs| && f(xs[i]).Some?
    ensures f(xs[i]).value in FilterMap(xs, f)
    decreases |xs|
  {
    var init := xs[..|xs| - 1];
    if i < |init| {
      assert init[i] == xs[i];
      FilterMapComplete(init, f, i);
    }
  }

  lemma {:induction false} FilterMapLength<A, B>(xs: seq<A>, f: A -> Option<B>)
    ensures |FilterMap(xs, f)| <= |xs|
    decreases |xs|
  {
    if xs != [] {
      FilterMapLength(xs[..|xs| - 1], f);
    }
  }

  /** The documents are exactly the documents of the listed paths, and there are at most as many. */
  lemma LoadSpecMembers(entries: seq<Entry>, readText: TextReader, readPdf: PdfReader)
    ensures |LoadSpec(entries, readText, readPdf)| <= |entries|
    ensures forall d :: d in LoadSpec(entries, readText, readPdf) <==>
      exists i :: 0 <= i < |entries| && DocumentOf(entries[i], readText, readPdf) == Some(d)
  {
    var f := e => DocumentOf(e, readText, readPdf);
    FilterMapLength(entries, f);
    forall d ensures d in LoadSpec(entries, readText, readPdf) <==>
      exists i :: 0 <= i < |entries| && DocumentOf(entries[i], readText, readPdf) == Some(d)
    {
      if d in LoadSpec(entries, readText, readPdf) {
        FilterMapSound(entries, f, d);
      }
      if exists i :: 0 <= i < |entries| && DocumentOf(entries[i], readText, readPdf) == Some(d) {
        var i :| 0 <= i < |entries| && DocumentOf(entries[i], readText, readPdf) == Some(d);
        FilterMapComplete(entries, f, i);
      }
    }
  }

  /**
   * Every loaded document has non-empty normalised text, so the
   * re-normalisation at the start of chunk_text leaves it unchanged.
   */
  lemma LoadedTextIsNormalized(entries: seq<Entry>, readText: TextReader, readPdf: PdfReader, d: Doc)
    requires d in LoadSpec(entries, readText, readPdf)
    ensures d.text != [] && Normalized(d.text)
    ensures Normalize(d.text) == d.text
  {
    LoadSpecMembers(entries, readText, readPdf);
    var i :| 0 <= i < |entries| && DocumentOf(entries[i], readText, readPdf) == Some(d);
    var e := entries[i];
    var ext := Lower(Suffix(e.path));
    var raw := if ext == ".txt" then readText(e.path) else PdfText(readPdf(e.path));
    assert d.text == Normalize(raw);
    NormalizeShape(raw);
    NormalizeIdempotent(raw);
  }

  /** The documents of one more entry: those before it, then its own document if it gives one. */
  lemma LoadSpecSnoc(entries: seq<Entry>, i: nat, readText: TextReader, readPdf: PdfReader)
    requires i < |entries|
    ensures var d := DocumentOf(entries[i], readText, readPdf);
      && (d.None? ==> LoadSpec(entries[..i + 1], readText, readPdf) == LoadSpec(entries[..i], readText, readPdf))
      && (d.Some? ==> LoadSpec(entries[..i + 1], readText, readPdf) == LoadSpec(entries[..i], readText, readPdf) + [d.value])
  {
    assert entries[..i + 1][..i] == entries[..i];
  }

  /**
   * load_documents over the sorted listing: skips directories and other
   * extensions, reads, normalises, and keeps the non-empty documents.
   */
  method LoadDocuments(entries: seq<Entry>, readText: TextReader, readPdf: PdfReader) returns (docs: seq<Doc>)
    ensures docs == LoadSpec(entries, readText, readPdf)
  {
    docs := [];
    var i := 0;
    while i < |entries|
      invariant 0 <= i <= |entries|
      invariant docs == LoadSpec(entries[..i], readText, readPdf)
    {
      LoadSpecSnoc(entries, i, readText, readPdf);
      var path := entries[i].path;
      i := i + 1;
      if entries[i - 1].isDir {
        continue;
      }
      var ext := Lower(Suffix(path));
      if ext != ".txt" && ext != ".pdf" {
        continue;
      }
      var text;
      if ext == ".txt" {
        text := readText(path);
      } else {
        text := PdfText(readPdf(path));
      }
      text := Normalize(text);
      if text != [] {
        docs := docs + [Doc(path, text)];
      }
    }
    assert entries[..i] == entries;
  }

  // ---------------------------------------------------------------------------
  // build_chunks

  /** The chunk records of one document: its parts, numbered from 0, with its path. */
  function Numbered(source: string, parts: seq<string>): (r: seq<Chunk>)
    ensures |r| == |parts|
  {
    seq(|parts|, k requires 0 <= k < |parts| => Chunk(parts[k], source, k))
  }

  /** The chunk records of the documents, each document's run after the previous one's. */
  function BuildWith(docs: seq<Doc>, split: string -> seq<string>): seq<Chunk>
    decreases |docs|
  {
    if docs == [] then []
    else BuildWith(docs[..|docs| - 1], split) + Numbered(docs[|docs| - 1].source, split(docs[|docs| - 1].text))
  }

  /** The number of parts of all documents together. */
  function TotalParts(docs: seq<Doc>, split: string -> seq<string>): nat
    decreases |docs|
  {
    if docs == [] then 0 else TotalParts(docs[..|docs| - 1], split) + |split(docs[|docs| - 1].text)|
  }

  /** chunk_text with valid arguments, as a function of the text. */
  function Chunker(size: nat, overlap: nat): string -> seq<string>
    requires overlap < size
  {
    t => ChunkSpec(t, size, overlap)
  }

  /** build_chunks for valid arguments: every document cut by chunk_text. */
  function BuildSpec(docs: seq<Doc>, size: nat, overlap: nat): seq<Chunk>
    requires overlap < size
  {
    BuildWith(docs, Chunker(size, overlap))
  }

  /** The number of chunks is the sum over the documents of their numbers of parts. */
  lemma {:induction false} BuildWithLength(docs: seq<Doc>, split: string -> seq<string>)
    ensures |BuildWith(docs, split)| == TotalParts(docs, split)
    decreases |docs|
  {
    if docs != [] {
      BuildWithLength(docs[..|docs| - 1], split);
    }
  }

  /** Building from two runs of documents concatenates their chunks. */
  lemma {:induction false} BuildWithAppend(xs: seq<Doc>, ys: seq<Doc>, split: string -> seq<string>)
    ensures BuildWith(xs + ys, split) == BuildWith(xs, split) + BuildWith(ys, split)
    decreases |ys|
  {
    if ys == [] {
      assert xs + ys == xs;
    } else {
      var init := ys[..|ys| - 1];
      var last := ys[|ys| - 1];
      var zs := xs + ys;
      assert zs[..|zs| - 1] == xs + init;
      assert zs[|zs| - 1] == last;
      var run := Numbered(last.source, split(last.text));
      assert BuildWith(zs, split) == BuildWith(xs + init, split) + run;
      assert BuildWith(ys, split) == BuildWith(init, split) + run;
      BuildWithAppend(xs, init, split);
    }
  }

  /** The chunks of all documents are those before document i, then document i's run, then those after. */
  lemma BuildWithSplit(docs: seq<Doc>, split: string -> seq<string>, i: nat)
    requires i < |docs|
    ensures BuildWith(docs, split)
      == BuildWith(docs[..i], split) + Numbered(docs[i].source, split(docs[i].text)) + BuildWith(docs[i + 1..], split)
  {
    BuildWithPrefix(docs, split, i + 1);
    BuildWithSnoc(docs, split, i);
  }

  /** The chunks of all documents are those of the first n, then those of the rest. */
  lemma BuildWithPrefix(docs: seq<Doc>, split: string -> seq<string>, n: nat)
    requires n <= |docs|
    ensures BuildWith(docs, split) == BuildWith(docs[..n], split) + BuildWith(docs[n..], split)
  {
    assert docs[..n] + docs[n..] == docs;
    BuildWithAppend(docs[..n], docs[n..], split);
  }

  /** The chunks of the documents up to i are those before i, then document i's run. */
  lemma BuildWithSnoc(docs: seq<Doc>, split: string -> seq<string>, i: nat)
    requires i < |docs|
    ensures BuildWith(docs[..i + 1], split) == BuildWith(docs[..i], split) + Numbered(docs[i].source, split(docs[i].text))
  {
    assert docs[..i + 1][..i] == docs[..i];
  }

  /**
   * Part k of document i is the chunk at position TotalParts(docs[..i]) + k:
   * the documents' runs are contiguous and in document order, and each run
   * carries the document's path and chunk ids 0, 1, …, n-1.
   */
  lemma BuildWithAt(docs: seq<Doc>, split: string -> seq<string>, i: nat, k: nat)
    requires i < |docs| && k < |split(docs[i].text)|
    ensures var all := BuildWith(docs, split);
      && TotalParts(docs[..i], split) + k < |all|
      && all[TotalParts(docs[..i], split) + k] == Chunk(split(docs[i].text)[k], docs[i].source, k)
  {
    BuildWithSplit(docs, split, i);
    BuildWithLength(docs[..i], split);
    var run := Numbered(docs[i].source, split(docs[i].text));
    var front := BuildWith(docs[..i], split);
    var n := TotalParts(docs[..i], split);
    assert (front + run)[n + k] == run[k];
  }

  /** The chunks of one more document follow those of the documents before it. */
  lemma BuildSpecSnoc(docs: seq<Doc>, i: nat, size: nat, overlap: nat, parts: seq<string>)
    requires overlap < size && i < |docs| && parts == ChunkSpec(docs[i].text, size, overlap)
    ensures BuildSpec(docs[..i + 1], size, overlap) == BuildSpec(docs[..i], size, overlap) + Numbered(docs[i].source, parts)
  {
    assert docs[..i + 1][..i] == docs[..i];
    assert Chunker(size, overlap)(docs[i].text) == parts;
  }

  /** One pass of build_chunks' loop: the records of document i extend the chunks built so far. */
  lemma BuildChunksStep(docs: seq<Doc>, i: nat, size: nat, overlap: nat, all: seq<Chunk>, records: seq<Chunk>)
    requires overlap < size && i < |docs|
    requires all == BuildSpec(docs[..i], size, overlap)
    requires records == Numbered(docs[i].source, ChunkSpec(docs[i].text, size, overlap))
    ensures all + records == BuildSpec(docs[..i + 1], size, overlap)
  {
    BuildSpecSnoc(docs, i, size, overlap, ChunkSpec(docs[i].text, size, overlap));
  }

  /** Numbering one more part appends its record. */
  lemma NumberedSnoc(source: string, parts: seq<string>, j: nat)
    requires j < |parts|
    ensures Numbered(source, parts[..j + 1]) == Numbered(source, parts[..j]) + [Chunk(parts[j], source, j)]
  {
  }

  /** The inner loop of build_chunks: one record per part, numbered by enumerate. */
  method NumberParts(source: string, parts: seq<string>) returns (records: seq<Chunk>)
    ensures records == Numbered(source, parts)
  {
    records := [];
    var idx := 0;
    while idx < |parts|
      invariant 0 <= idx <= |parts|
      invariant records == Numbered(source, parts[..idx])
    {
      NumberedSnoc(source, parts, idx);
      records := records + [Chunk(parts[idx], source, idx)];
      idx := idx + 1;
    }
    assert parts[..idx] == parts;
  }

  /**
   * build_chunks: chunk_text's ValueError surfaces at the first document, so
   * invalid arguments fail exactly when there is a document; with the
   * defaults 900 and 120 it never fails.
   */
  method BuildChunks(docs: seq<Doc>, chunkSize: int := DefaultChunkSize, overlap: int := DefaultChunkOverlap)
    returns (r: Result<seq<Chunk>, ChunkError>)
    ensures docs == [] ==> r == Success([])
    ensures docs != [] ==> (r.Failure? <==> ParamError(chunkSize, overlap).Some?)
    ensures r.Failure? ==> Some(r.error) == ParamError(chunkSize, overlap)
    ensures 0 <= overlap < chunkSize ==> r == Success(BuildSpec(docs, chunkSize, overlap))
    ensures chunkSize == DefaultChunkSize && overlap == DefaultChunkOverlap ==> r.Success?
  {
    var all: seq<Chunk> := [];
    var i := 0;
    while i < |docs|
      invariant 0 <= i <= |docs|
      invariant 0 <= overlap < chunkSize ==> all == BuildSpec(docs[..i], chunkSize, overlap)
      invariant !(0 <= overlap < chunkSize) ==> i == 0 && all == []
    {
      var d := docs[i];
      var res := ChunkText(d.text, chunkSize, overlap);
      if res.Failure? {
        return Failure(res.error);
      }
      var records := NumberParts(d.source, res.value);
      BuildChunksStep(docs, i, chunkSize, overlap, all, records);
      all := all + records;
      i := i + 1;
    }
    assert docs[..i] == docs;
    return Success(all);
  }

  // ---------------------------------------------------------------------------
  // save_metadata

  /** The metadata records: record i describes chunk i and has the dense id i. */
  function MetadataPayload(chunks: seq<Chunk>): (payload: seq<MetaRecord>)
    ensures |payload| == |chunks|
  {
    seq(|chunks|, i requires 0 <= i < |chunks| => MetaRecord(i, chunks[i].source, chunks[i].chunkId, chunks[i].text))
  }

  /** The chunk a metadata record describes. */
  function RecordChunk(m: MetaRecord): Chunk {
    Chunk(m.text, m.source, m.chunkId)
  }

  /** The records give back the chunks, in order, and their ids are 0, 1, …, n-1. */
  lemma PayloadRoundTrip(chunks: seq<Chunk>)
    ensures var payload := MetadataPayload(chunks);
      && seq(|payload|, i requires 0 <= i < |payload| => RecordChunk(payload[i])) == chunks
      && forall i :: 0 <= i < |payload| ==> payload[i].id == i
  {
    var payload := MetadataPayload(chunks);
    var back := seq(|payload|, i requires 0 <= i < |payload| => RecordChunk(payload[i]));
    assert forall i :: 0 <= i < |chunks| ==> back[i] == chunks[i];
  }

  /** save_metadata: replaces the metadata file with the records of the chunks. */
  method SaveMetadata(disk: Disk, chunks: seq<Chunk>)
    modifies disk
    ensures disk.meta == Some(MetadataPayload(chunks))
    ensures disk.index == old(disk.index)
  {
    var payload := seq(|chunks|, i requires 0 <= i < |chunks| => MetaRecord(i, chunks[i].source, chunks[i].chunkId, chunks[i].text));
    disk.meta := Some(payload);
  }

  /**
   * After an ingest has written the records of the chunks, a retrieval whose
   * candidate ids are all below the number of chunks succeeds, and result k
   * is the chunk at the k-th non-negative candidate id, under that id.
   */
  lemma RetrievedAreChunks(chunks: seq<Chunk>, ids: seq<int>, scores: seq<real>)
    requires |ids| == |scores|
    requires forall i :: 0 <= i < |ids| ==> ids[i] < |chunks|
    ensures RagStore.Join(ids, scores, MetadataPayload(chunks)).Success?
    ensures var rs := RagStore.Join(ids, scores, MetadataPayload(chunks)).value;
      var pos := RagStore.Kept(ids);
      && |rs| == |pos|
      && forall k :: 0 <= k < |rs| ==>
           && pos[k] < |ids|
           && 0 <= ids[pos[k]] < |chunks|
           && rs[k].id == ids[pos[k]]
           && RecordChunk(MetadataPayload(chunks)[ids[pos[k]]]) == chunks[ids[pos[k]]]
           && rs[k].source == chunks[ids[pos[k]]].source
           && rs[k].chunkId == chunks[ids[pos[k]]].chunkId
           && rs[k].text == chunks[ids[pos[k]]].text
           && rs[k].score == scores[pos[k]]
  {
    var meta := MetadataPayload(chunks);
    RagStore.JoinSucceedsIff(ids, scores, meta);
    RagStore.JoinSuccess(ids, scores, meta);
  }
}
