/**
 * The on-disk state shared by ingestion and retrieval: the locations of the
 * index files (assistant/config.py's Paths), the flat inner-product index and
 * the metadata records written beside it.
 */
module Storage {
  import opened Base

  /** The directory layout under the project's base directory. */
  datatype Paths = Paths(baseDir: string) {
    function DataIndex(): string { baseDir + "/data/index" }
    function FaissIndexPath(): string { DataIndex() + "/docs.faiss" }
    function MetaPath(): string { DataIndex() + "/docs_meta.json" }
    function HfCacheDir(): string { DataIndex() + "/hf_cache" }
  }

  /** An embedding; its coordinates are never inspected by the model. */
  type Vector = seq<real>

  /** A flat inner-product index: its dimension and the vectors added to it, in order. */
  datatype FlatIndex = FlatIndex(dim: nat, vectors: seq<Vector>)

  /** One record of the metadata file: the dense id and the chunk it describes. */
  datatype MetaRecord = MetaRecord(id: int, source: string, chunkId: int, text: string)

  /** The two files under data/index; None when the file does not exist. */
  class Disk {
    var index: Option<FlatIndex>
    var meta: Option<seq<MetaRecord>>

    constructor Empty()
      ensures index == None && meta == None
    {
      index := None;
      meta := None;
    }
  }
}
