/** Reconciliation of a payment with the gateway's status notification:
    signature check, lookup by order id, status mapping, an unconditional
    overwrite of the payment row and activation of the owner's membership when
    the payment is paid. */
module Webhook {
  import opened Wrappers
  import opened Schema
  import opened Query
  import opened Store

  const DefaultServerKey := "test-server-key"

  /** The configured server key, falling back to the test key when it is unset
      or empty (the fallback is taken with `||`). */
  function ServerKey(configured: Option<string>): (key: string)
    ensures key != ""
    ensures configured.Some? && configured.value != "" ==> key == configured.value
    ensures configured.None? || configured.value == "" ==> key == DefaultServerKey
  {
    if configured.Some? && configured.value != "" then configured.value else DefaultServerKey
  }

  /** The hex SHA-512 digest of order id, status code, gross amount and server key;
      the digest itself is the parameter `sha512Hex`. */
  function ExpectedSignature(input: MidtransWebhook, serverKey: string, sha512Hex: string -> string): string {
    sha512Hex(input.orderId + input.statusCode + input.grossAmount + serverKey)
  }

  /** The gateway's transaction status mapped to a payment status. */
  function MapStatus(transactionStatus: string): (s: PaymentStatus)
    ensures s == Paid <==> transactionStatus == "settlement" || transactionStatus == "capture"
    ensures s == Failed <==> transactionStatus == "deny" || transactionStatus == "cancel" || transactionStatus == "failure"
    ensures s == PaymentStatus.Expired <==> transactionStatus == "expire"
  {
    if transactionStatus == "settlement" || transactionStatus == "capture" then Paid
    else if transactionStatus == "deny" || transactionStatus == "cancel" || transactionStatus == "failure" then Failed
    else if transactionStatus == "expire" then PaymentStatus.Expired
    else PaymentStatus.Pending
  }

  /** `value || null`: an absent or empty string is stored as null. */
  function OrNull(value: Option<string>): (r: Option<string>)
    ensures r.Some? <==> value.Some? && value.value != ""
    ensures r.Some? ==> r == value
  {
    if value.Some? && value.value != "" then value else None
  }

  /** `value ? new Date(value) : null`, with the date parser as a parameter. */
  function TimeOrNull(value: Option<string>, parseTime: string -> Timestamp): (r: Option<Timestamp>)
    ensures r.Some? <==> value.Some? && value.value != ""
    ensures r.Some? ==> r.value == parseTime(value.value)
  {
    if value.Some? && value.value != "" then Some(parseTime(value.value)) else None
  }

  /** The payment row after the overwrite: six columns are set from the
      notification and the clock, every other column is kept. */
  function ReconciledPayment(p: Payment, input: MidtransWebhook, parseTime: string -> Timestamp, now: Timestamp): (q: Payment)
    ensures q.status == MapStatus(input.transactionStatus) && q.updatedAt == now
    ensures q.(transactionId := p.transactionId, status := p.status, paymentType := p.paymentType,
               transactionTime := p.transactionTime, settlementTime := p.settlementTime,
               updatedAt := p.updatedAt) == p
    ensures q.transactionId == OrNull(input.transactionId) && q.paymentType == OrNull(input.paymentType)
    ensures q.transactionTime == TimeOrNull(input.transactionTime, parseTime)
            && q.settlementTime == TimeOrNull(input.settlementTime, parseTime)
    ensures input.transactionId.None? && input.paymentType.None? && input.transactionTime.None?
              && input.settlementTime.None? ==>
            q.transactionId.None? && q.paymentType.None? && q.transactionTime.None? && q.settlementTime.None?
  {
    p.(transactionId := OrNull(input.transactionId),
       status := MapStatus(input.transactionStatus),
       paymentType := OrNull(input.paymentType),
       transactionTime := TimeOrNull(input.transactionTime, parseTime),
       settlementTime := TimeOrNull(input.settlementTime, parseTime),
       updatedAt := now)
  }

  /** `UPDATE users SET membership_status = 'active', updated_at = now WHERE id = userId`. */
  function ActivateMembership(users: map<int, User>, userId: int, now: Timestamp): (r: map<int, User>)
    ensures r.Keys == users.Keys
    ensures forall id :: id in users && id != userId ==> r[id] == users[id]
    ensures userId in users ==> r[userId].membershipStatus == Active
  {
    if userId in users then users[userId := users[userId].(membershipStatus := Active, updatedAt := now)]
    else users
  }

  /** The reconciliation of one notification against the tables. */
  function Reconcile(t: Tables, input: MidtransWebhook, serverKeyEnv: Option<string>,
                     sha512Hex: string -> string, parseTime: string -> Timestamp, now: Timestamp): Step<Payment>
  {
    if ExpectedSignature(input, ServerKey(serverKeyEnv), sha512Hex) != input.signatureKey then
      Step(Err("Invalid signature"), t)
    else
      match FirstMatch(t.payments, HasOrderId(input.orderId))
      case None => Step(Err("Payment with order_id " + input.orderId + " not found"), t)
      case Some(i) =>
        var q := ReconciledPayment(t.payments[i], input, parseTime, now);
        var users := if q.status == Paid then ActivateMembership(t.users, q.userId, now) else t.users;
        Step(Ok(q), t.(payments := t.payments[i := q], users := users))
  }

  /** A wrong signature is rejected before the order id is looked at (so also
      for an unknown order id), and nothing changes. */
  lemma BadSignatureRejected(t: Tables, input: MidtransWebhook, serverKeyEnv: Option<string>,
                             sha512Hex: string -> string, parseTime: string -> Timestamp, now: Timestamp)
    requires sha512Hex(input.orderId + input.statusCode + input.grossAmount + ServerKey(serverKeyEnv)) != input.signatureKey
    ensures Reconcile(t, input, serverKeyEnv, sha512Hex, parseTime, now) == Step(Err("Invalid signature"), t)
  {
  }

  /** With a good signature, an order id no payment carries is rejected and nothing changes. */
  lemma UnknownOrderRejected(t: Tables, input: MidtransWebhook, serverKeyEnv: Option<string>,
                             sha512Hex: string -> string, parseTime: string -> Timestamp, now: Timestamp)
    requires ExpectedSignature(input, ServerKey(serverKeyEnv), sha512Hex) == input.signatureKey
    requires forall k :: 0 <= k < |t.payments| ==> t.payments[k].orderId != input.orderId
    ensures Reconcile(t, input, serverKeyEnv, sha512Hex, parseTime, now)
            == Step(Err("Payment with order_id " + input.orderId + " not found"), t)
  {
    assert FirstMatch(t.payments, HasOrderId(input.orderId)).None?;
  }

  /** The call succeeds exactly when the signature matches and some payment
      carries the order id; then only that payment row is overwritten (whatever
      its current status: there is no transition guard), it is what is
      returned, and no row is added or removed. */
  lemma ReconcileOverwritesMatchedPayment(t: Tables, input: MidtransWebhook, serverKeyEnv: Option<string>,
                                          sha512Hex: string -> string, parseTime: string -> Timestamp, now: Timestamp)
    requires Consistent(t)
    ensures var s := Reconcile(t, input, serverKeyEnv, sha512Hex, parseTime, now);
      && (s.result.Ok? <==>
            ExpectedSignature(input, ServerKey(serverKeyEnv), sha512Hex) == input.signatureKey
            && exists k :: 0 <= k < |t.payments| && t.payments[k].orderId == input.orderId)
      && (s.result.Ok? ==>
            exists i :: 0 <= i < |t.payments| && t.payments[i].orderId == input.orderId
              && s.after.payments == t.payments[i := ReconciledPayment(t.payments[i], input, parseTime, now)]
              && s.result.value == s.after.payments[i]
              && s.result.value.status == MapStatus(input.transactionStatus))
      && (s.result.Ok? ==>
            s.after.documents == t.documents && s.after.nextUserId == t.nextUserId
            && s.after.nextPaymentId == t.nextPaymentId && s.after.nextDocumentId == t.nextDocumentId)
      && (s.result.Err? ==> s.after == t)
  {
    var s := Reconcile(t, input, serverKeyEnv, sha512Hex, parseTime, now);
    var m := FirstMatch(t.payments, HasOrderId(input.orderId));
    if m.Some? {
      assert HasOrderId(input.orderId)(t.payments[m.value]);
    }
  }

  /** The owner's membership becomes active exactly when the mapped status is
      paid; no other user row changes, and for any other status no user row
      changes at all (a failed or expired payment does not demote anyone). */
  lemma MembershipActivatedIffPaid(t: Tables, input: MidtransWebhook, serverKeyEnv: Option<string>,
                                   sha512Hex: string -> string, parseTime: string -> Timestamp, now: Timestamp)
    requires Consistent(t)
    requires Reconcile(t, input, serverKeyEnv, sha512Hex, parseTime, now).result.Ok?
    ensures var s := Reconcile(t, input, serverKeyEnv, sha512Hex, parseTime, now);
      var owner := s.result.value.userId;
      && owner in t.users
      && s.after.users.Keys == t.users.Keys
      && (s.after.users[owner].membershipStatus == Active <==>
            MapStatus(input.transactionStatus) == Paid || t.users[owner].membershipStatus == Active)
      && (MapStatus(input.transactionStatus) == Paid ==>
            s.after.users[owner] == t.users[owner].(membershipStatus := Active, updatedAt := now))
      && (MapStatus(input.transactionStatus) != Paid ==> s.after.users == t.users)
      && (forall id :: id in t.users && id != owner ==> s.after.users[id] == t.users[id])
  {
    var i := FirstMatch(t.payments, HasOrderId(input.orderId)).value;
    assert t.payments[i].userId in t.users;
  }

  /** A replayed notification leaves the payment as the first delivery did,
      apart from `updated_at`. */
  lemma ReplayIdempotentUpToTimestamp(t: Tables, input: MidtransWebhook, serverKeyEnv: Option<string>,
                                      sha512Hex: string -> string, parseTime: string -> Timestamp,
                                      now1: Timestamp, now2: Timestamp)
    requires Reconcile(t, input, serverKeyEnv, sha512Hex, parseTime, now1).result.Ok?
    ensures var s1 := Reconcile(t, input, serverKeyEnv, sha512Hex, parseTime, now1);
      var s2 := Reconcile(s1.after, input, serverKeyEnv, sha512Hex, parseTime, now2);
      s2.result.Ok? && s2.result.value == s1.result.value.(updatedAt := now2)
  {
    var s1 := Reconcile(t, input, serverKeyEnv, sha512Hex, parseTime, now1);
    var i := FirstMatch(t.payments, HasOrderId(input.orderId)).value;
    var j := FirstMatch(s1.after.payments, HasOrderId(input.orderId));
    assert HasOrderId(input.orderId)(s1.after.payments[i]);
    assert j.Some? && j.value == i;
  }

  lemma ReconcilePreservesConsistency(t: Tables, input: MidtransWebhook, serverKeyEnv: Option<string>,
                                      sha512Hex: string -> string, parseTime: string -> Timestamp, now: Timestamp)
    requires Consistent(t)
    ensures Consistent(Reconcile(t, input, serverKeyEnv, sha512Hex, parseTime, now).after)
  {
    var s := Reconcile(t, input, serverKeyEnv, sha512Hex, parseTime, now);
    if s.result.Ok? {
      var i := FirstMatch(t.payments, HasOrderId(input.orderId)).value;
      var q := ReconciledPayment(t.payments[i], input, parseTime, now);
      var t1 := t.(payments := t.payments[i := q]);
      OverwritePaymentPreservesConsistency(t, i, q);
      if q.status == Paid && q.userId in t.users {
        var owner := t.users[q.userId];
        ReplaceUserPreservesConsistency(t1, q.userId, owner.(membershipStatus := Active, updatedAt := now));
        assert s.after == t1.(users := t1.users[q.userId := owner.(membershipStatus := Active, updatedAt := now)]);
      } else {
        assert s.after == t1;
      }
    }
  }

  /** `SELECT … WHERE midtrans_order_id = orderId`: the index of the first
      payment with the order id, or the table length when there is none. */
  method FindPayment(payments: seq<Payment>, orderId: string) returns (i: nat)
    ensures i <= |payments|
    ensures FirstMatch(payments, HasOrderId(orderId)) == if i < |payments| then Some(i) else None
  {
    i := 0;
    while i < |payments| && payments[i].orderId != orderId
      invariant 0 <= i <= |payments|
      invariant forall j :: 0 <= j < i ==> !HasOrderId(orderId)(payments[j])
    {
      i := i + 1;
    }
    if i < |payments| {
      assert HasOrderId(orderId)(payments[i]);
    }
  }

  /** The `switch` on `transaction_status`. */
  method SwitchStatus(transactionStatus: string) returns (paymentStatus: PaymentStatus)
    ensures paymentStatus == MapStatus(transactionStatus)
  {
    paymentStatus := PaymentStatus.Pending;
    if transactionStatus == "settlement" || transactionStatus == "capture" {
      paymentStatus := Paid;
    } else if transactionStatus == "deny" || transactionStatus == "cancel" || transactionStatus == "failure" {
      paymentStatus := Failed;
    } else if transactionStatus == "expire" {
      paymentStatus := PaymentStatus.Expired;
    }
  }

  /** The handler: signature check, lookup, status switch, payment update, then
      the conditional user update. The date parser, digest, configured key and
      clock are parameters. */
  method HandleMidtransWebhook(db: Database, input: MidtransWebhook, serverKeyEnv: Option<string>,
                               sha512Hex: string -> string, parseTime: string -> Timestamp, now: Timestamp)
    returns (r: Result<Payment>)
    requires db.Valid()
    modifies db
    ensures db.Valid()
    ensures Step(r, db.Snapshot()) == Reconcile(old(db.Snapshot()), input, serverKeyEnv, sha512Hex, parseTime, now)
  {
    ghost var t := db.Snapshot();
    ReconcilePreservesConsistency(t, input, serverKeyEnv, sha512Hex, parseTime, now);
    var serverKey := ServerKey(serverKeyEnv);
    var expectedSignature := sha512Hex(input.orderId + input.statusCode + input.grossAmount + serverKey);
    if expectedSignature != input.signatureKey {
      return Err("Invalid signature");
    }

    var i := FindPayment(db.payments, input.orderId);
    if i == |db.payments| {
      return Err("Payment with order_id " + input.orderId + " not found");
    }
    var existingPayment := db.payments[i];
    var paymentStatus := SwitchStatus(input.transactionStatus);

    var updatedPayment := existingPayment.(
      transactionId := OrNull(input.transactionId),
      status := paymentStatus,
      paymentType := OrNull(input.paymentType),
      transactionTime := TimeOrNull(input.transactionTime, parseTime),
      settlementTime := TimeOrNull(input.settlementTime, parseTime),
      updatedAt := now);
    assert updatedPayment == ReconciledPayment(existingPayment, input, parseTime, now);
    db.payments := db.payments[i := updatedPayment];
    assert db.Snapshot() == t.(payments := t.payments[i := updatedPayment]);

    if paymentStatus == Paid {
      // The WHERE clause matches no row when the owner is absent.
      if existingPayment.userId in db.users {
        var owner := db.users[existingPayment.userId];
        db.users := db.users[existingPayment.userId := owner.(membershipStatus := Active, updatedAt := now)];
      }
    }
    r := Ok(updatedPayment);
  }
}
