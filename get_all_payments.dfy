/** Every payment, newest first. */
module AllPayments {
  import opened Schema
  import opened Query
  import opened Store
  import opened UserPayments

  function GetAllPayments(t: Tables): seq<Payment> {
    SortDesc(t.payments, PaymentCreatedAt)
  }

  /** A reordering of the whole table, each row unchanged and as often as stored,
      with `created_at` non-increasing; an empty table gives []. */
  lemma AllPaymentsSpec(t: Tables)
    ensures var r := GetAllPayments(t);
      && multiset(r) == multiset(t.payments)
      && (forall k :: 0 <= k < |r| ==> r[k] in t.payments)
      && NonIncreasing(r, PaymentCreatedAt)
      && (t.payments == [] <==> r == [])
  {
    var r := GetAllPayments(t);
    forall k | 0 <= k < |r| ensures r[k] in t.payments {
      assert r[k] in multiset(r);
    }
    if r == [] {
      assert |t.payments| == |r|;
    }
  }

  /** Each user's listing is the part of the full listing that user owns, up to
      the order of rows created in the same instant. */
  lemma UserListingIsPartOfAll(t: Tables, userId: int)
    ensures multiset(GetUserPayments(t, userId)) == multiset(Filter(GetAllPayments(t), OwnedBy(userId)))
  {
    UserPaymentsSpec(t, userId);
    AllPaymentsSpec(t);
    forall p {
      FilterMultiset(GetAllPayments(t), OwnedBy(userId), p);
    }
  }
}
