/** DocumentTracker: the last content hash recorded per file path, used to
    decide whether a document must be loaded again. The MD5 hashing itself is
    left out; hashes are given strings. */
module DocumentTracker {

  /** isDocumentChanged on the tracked hashes: an untracked path, or a
      different hash, counts as changed. */
  function Changed(hashes: map<string, string>, path: string, hash: string): bool {
    path !in hashes || hashes[path] != hash
  }

  /** After recording h for p, p is unchanged exactly for h, and every other
      path answers as before. */
  lemma RecordedThenUnchanged(hashes: map<string, string>, p: string, h: string, h': string, q: string, x: string)
    requires q != p
    ensures !Changed(hashes[p := h], p, h)
    ensures h' != h ==> Changed(hashes[p := h], p, h')
    ensures Changed(hashes[p := h], q, x) == Changed(hashes, q, x)
  {
  }

  /** After clearing, every path reports changed. */
  lemma ClearedAllChanged(p: string, h: string)
    ensures Changed(map[], p, h)
  {
  }

  class Tracker {
    var documentHashes: map<string, string>

    constructor ()
      ensures documentHashes == map[]
    {
      documentHashes := map[];
    }

    /** isDocumentChanged: Changed on the tracked hashes. */
    function IsDocumentChanged(filePath: string, currentHash: string): (r: bool)
      reads this
      ensures r <==> filePath !in TrackedDocuments() || documentHashes[filePath] != currentHash
    {
      Changed(documentHashes, filePath, currentHash)
    }

    /** updateDocumentHash: records the hash for that path only, so the path
      is unchanged for that hash and every other path answers as before. */
    method UpdateDocumentHash(filePath: string, hash: string)
      modifies this
      ensures documentHashes == old(documentHashes)[filePath := hash]
      ensures !IsDocumentChanged(filePath, hash)
      ensures forall p, h :: p != filePath ==> IsDocumentChanged(p, h) == old(IsDocumentChanged(p, h))
    {
      documentHashes := documentHashes[filePath := hash];
    }

    /** getTrackedDocumentCount: the number of distinct tracked paths. */
    function TrackedDocumentCount(): (r: nat)
      reads this
      ensures r == |TrackedDocuments()|
    {
      |documentHashes|
    }

    /** getTrackedDocuments. */
    function TrackedDocuments(): (r: set<string>)
      reads this
      ensures forall p :: p in r <==> p in documentHashes
    {
      documentHashes.Keys
    }

    /** clear: nothing is tracked afterwards. */
    method Clear()
      modifies this
      ensures documentHashes == map[]
      ensures TrackedDocumentCount() == 0
    {
      documentHashes := map[];
    }
  }
}
