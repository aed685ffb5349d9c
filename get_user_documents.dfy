/** A user's documents, newest first, returned as stored. */
module UserDocuments {
  import opened Schema
  import opened Query
  import opened Store

  function DocumentCreatedAt(d: Document): int { d.createdAt }

  /** `WHERE user_id = userId`. */
  function OwnedBy(userId: int): Document -> bool {
    (d: Document) => d.userId == userId
  }

  function GetUserDocuments(t: Tables, userId: int): seq<Document> {
    SortDesc(Filter(t.documents, OwnedBy(userId)), DocumentCreatedAt)
  }

  /** Exactly the user's stored documents, each as often as stored and unchanged
      (null size, MIME type and token included), newest first; none gives []. */
  lemma UserDocumentsSpec(t: Tables, userId: int)
    ensures var r := GetUserDocuments(t, userId);
      && (forall k :: 0 <= k < |r| ==> r[k].userId == userId && r[k] in t.documents)
      && (forall d :: multiset(r)[d] == if d.userId == userId then multiset(t.documents)[d] else 0)
      && NonIncreasing(r, DocumentCreatedAt)
      && ((forall k :: 0 <= k < |t.documents| ==> t.documents[k].userId != userId) ==> r == [])
  {
    var matched := Filter(t.documents, OwnedBy(userId));
    var r := GetUserDocuments(t, userId);
    forall d {
      FilterMultiset(t.documents, OwnedBy(userId), d);
    }
    forall k | 0 <= k < |r| ensures r[k].userId == userId && r[k] in t.documents {
      assert r[k] in multiset(matched);
    }
  }
}
