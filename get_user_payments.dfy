/** A user's payments, newest first. */
module UserPayments {
  import opened Schema
  import opened Query
  import opened Store

  function PaymentCreatedAt(p: Payment): int { p.createdAt }

  /** `WHERE user_id = userId`. */
  function OwnedBy(userId: int): Payment -> bool {
    (p: Payment) => p.userId == userId
  }

  /** The query; amounts are held in cents, so the numeric-to-number conversion is the identity here. */
  function GetUserPayments(t: Tables, userId: int): seq<Payment> {
    SortDesc(Filter(t.payments, OwnedBy(userId)), PaymentCreatedAt)
  }

  /** Exactly the user's stored payments, each as often as stored and unchanged,
      newest first; a user without payments, in particular an unknown user, gets []. */
  lemma UserPaymentsSpec(t: Tables, userId: int)
    ensures var r := GetUserPayments(t, userId);
      && (forall k :: 0 <= k < |r| ==> r[k].userId == userId && r[k] in t.payments)
      && (forall p :: multiset(r)[p] == if p.userId == userId then multiset(t.payments)[p] else 0)
      && NonIncreasing(r, PaymentCreatedAt)
      && ((forall k :: 0 <= k < |t.payments| ==> t.payments[k].userId != userId) ==> r == [])
  {
    var matched := Filter(t.payments, OwnedBy(userId));
    var r := GetUserPayments(t, userId);
    forall p {
      FilterMultiset(t.payments, OwnedBy(userId), p);
    }
    forall k | 0 <= k < |r| ensures r[k].userId == userId && r[k] in t.payments {
      assert r[k] in multiset(matched);
    }
  }

  /** An unknown user owns no payment in consistent tables. */
  lemma UnknownUserHasNoPayments(t: Tables, userId: int)
    requires PaymentsConsistent(t) && userId !in t.users
    ensures GetUserPayments(t, userId) == []
  {
    UserPaymentsSpec(t, userId);
  }
}
