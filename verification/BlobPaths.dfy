/** Where the bytes of a CID are kept (`blob_store.rs`). */
module BlobPaths {
  type Cid = string

  /** The file `name` in the directory `dir` of the blob root. */
  datatype Path = Path(dir: string, name: string)

  /** The directory is named by the first two characters. */
  function PlaceOf(c: Cid): Path {
    Path(if |c| < 2 then c else c[..2], c)
  }

  /** `blobs/{first two characters}/{cid}`, as the tables store it. */
  function PathOf(c: Cid): string {
    var p := PlaceOf(c);
    "blobs/" + p.dir + "/" + p.name
  }

  lemma PathInjective(c: Cid, d: Cid)
    requires PathOf(c) == PathOf(d)
    ensures c == d
  {
    var p := PathOf(c);
    assert |c| == |d|;
    assert p[|p| - |c|..] == c && p[|p| - |d|..] == d;
  }
}
