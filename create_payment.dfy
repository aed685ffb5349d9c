/** Payment creation: the user check, the order id, the `pending` row, and only
    then the configuration check and the checkout request to the gateway, so a
    failure after the insert leaves the row in place. */
module CreatePayment {
  import opened Wrappers
  import opened Text
  import opened Schema
  import opened Query
  import opened Store

  const ProductionUrl := "https://app.midtrans.com/snap/v1/transactions"
  const SandboxUrl := "https://app.sandbox.midtrans.com/snap/v1/transactions"

  const KeyNotConfigured := "Midtrans server key not configured"
  const NumericOverflow := "numeric field overflow"
  const OrderIdTaken := "duplicate key value violates unique constraint \"payments_midtrans_order_id_unique\""

  /** `MIDTRANS_SERVER_KEY` and `MIDTRANS_ENVIRONMENT`. */
  datatype GatewayConfig = GatewayConfig(serverKey: Option<string>, environment: Option<string>)

  /** What the checkout request carries that the model tracks. */
  datatype SnapRequest = SnapRequest(url: string, serverKey: string, orderId: string, grossAmount: int)

  /** The gateway's HTTP response: `ok`, `status`, `statusText` and, when ok, the redirect URL. */
  datatype GatewayResponse = GatewayResponse(ok: bool, status: int, statusText: string, redirectUrl: string)

  datatype CheckoutSession = CheckoutSession(payment: Payment, redirectUrl: string)

  /** The production endpoint exactly when the environment is `production`. */
  function SnapUrl(environment: Option<string>): (url: string)
    ensures url == ProductionUrl <==> environment == Some("production")
    ensures url == ProductionUrl || url == SandboxUrl
  {
    if environment == Some("production") then ProductionUrl else SandboxUrl
  }

  /** `ORDER-${Date.now()}-${user_id}`. */
  function OrderId(now: Timestamp, userId: int): string {
    "ORDER-" + NatToString(now) + "-" + IntToString(userId)
  }

  lemma {:induction false} OrderIdPieces(now: Timestamp, userId: nat)
    ensures Split(OrderId(now, userId), '-') == ["ORDER", NatToString(now), NatToString(userId)]
  {
    var a, b := NatToString(now), NatToString(userId);
    assert '-' !in a && '-' !in b;
    assert OrderId(now, userId) == "ORDER" + ['-'] + (a + ['-'] + b);
    SplitAfterHead("ORDER", '-', a + ['-'] + b);
    SplitAfterHead(a, '-', b);
    SplitWithout(b, '-');
  }

  /** Two order ids collide exactly when they are minted in the same
      millisecond for the same user: the timestamp alone does not make them unique. */
  lemma OrderIdCollision(now1: Timestamp, user1: nat, now2: Timestamp, user2: nat)
    ensures OrderId(now1, user1) == OrderId(now2, user2) <==> now1 == now2 && user1 == user2
  {
    OrderIdPieces(now1, user1);
    OrderIdPieces(now2, user2);
    NatToStringInjective(now1, now2);
    NatToStringInjective(user1, user2);
  }

  /** `Math.round(amount)` of an amount held in cents: the nearest whole unit, halves rounded up. */
  function GrossAmount(cents: int): (r: int)
    ensures 100 * r - 50 <= cents < 100 * r + 50
  {
    (cents + 50) / 100
  }

  function PendingPayment(id: int, userId: int, orderId: string, amount: int, now: Timestamp): Payment {
    Payment(id, userId, orderId, None, amount, PaymentStatus.Pending, None, None, None, now, now)
  }

  /** One call of the handler, the gateway being the function `gateway`. */
  function CreatePaymentStep(t: Tables, input: CreatePaymentInput, config: GatewayConfig, now: Timestamp,
                             gateway: SnapRequest -> GatewayResponse): Step<CheckoutSession>
  {
    if input.userId !in t.users then
      Step(Err("User with ID " + IntToString(input.userId) + " not found"), t)
    else
      var orderId := OrderId(now, input.userId);
      if !AmountFits(input.amount) then Step(Err(NumericOverflow), t)
      else if FirstMatch(t.payments, HasOrderId(orderId)).Some? then Step(Err(OrderIdTaken), t)
      else
        var payment := PendingPayment(t.nextPaymentId, input.userId, orderId, input.amount, now);
        var inserted := t.(payments := t.payments + [payment], nextPaymentId := t.nextPaymentId + 1);
        var url := SnapUrl(config.environment);
        if config.serverKey.None? || config.serverKey.value == "" then Step(Err(KeyNotConfigured), inserted)
        else
          var response := gateway(SnapRequest(url, config.serverKey.value, orderId, GrossAmount(input.amount)));
          if !response.ok then
            Step(Err("Midtrans API error: " + IntToString(response.status) + " " + response.statusText), inserted)
          else Step(Ok(CheckoutSession(payment, response.redirectUrl)), inserted)
  }

  /** An unknown user is rejected with its id in the message and no row is inserted. */
  lemma UnknownUserInsertsNothing(t: Tables, input: CreatePaymentInput, config: GatewayConfig, now: Timestamp,
                                  gateway: SnapRequest -> GatewayResponse)
    requires input.userId !in t.users
    ensures CreatePaymentStep(t, input, config, now, gateway)
            == Step(Err("User with ID " + IntToString(input.userId) + " not found"), t)
  {
  }

  /** Once the user exists and the row fits the table, the `pending` row is
      inserted whatever happens next: a missing server key and a non-ok gateway
      response both fail with the row already persisted. */
  lemma PendingRowSurvivesGatewayFailure(t: Tables, input: CreatePaymentInput, config: GatewayConfig,
                                         now: Timestamp, gateway: SnapRequest -> GatewayResponse)
    requires Consistent(t)
    requires input.userId in t.users && AmountFits(input.amount)
    requires forall k :: 0 <= k < |t.payments| ==> t.payments[k].orderId != OrderId(now, input.userId)
    ensures var s := CreatePaymentStep(t, input, config, now, gateway);
      var row := PendingPayment(t.nextPaymentId, input.userId, OrderId(now, input.userId), input.amount, now);
      var request := SnapRequest(SnapUrl(config.environment), config.serverKey.GetOr(""),
                                 OrderId(now, input.userId), GrossAmount(input.amount));
      && s.after == t.(payments := t.payments + [row], nextPaymentId := t.nextPaymentId + 1)
      && row.status == PaymentStatus.Pending && row.transactionId.None? && row.paymentType.None?
      && row.transactionTime.None? && row.settlementTime.None? && row.amount == input.amount
      && (config.serverKey.GetOr("") == "" ==> s.result == Err(KeyNotConfigured))
      && (config.serverKey.GetOr("") != "" && !gateway(request).ok ==>
            s.result == Err("Midtrans API error: " + IntToString(gateway(request).status) + " "
                            + gateway(request).statusText))
      && (config.serverKey.GetOr("") != "" && gateway(request).ok ==>
            s.result == Ok(CheckoutSession(row, gateway(request).redirectUrl)))
  {
    assert FirstMatch(t.payments, HasOrderId(OrderId(now, input.userId))).None?;
  }

  /** A successful call returns the newly inserted row, whose order id is
      minted from the clock and the user id, and the gateway's redirect URL. */
  lemma SuccessReturnsInsertedRow(t: Tables, input: CreatePaymentInput, config: GatewayConfig,
                                  now: Timestamp, gateway: SnapRequest -> GatewayResponse)
    requires CreatePaymentStep(t, input, config, now, gateway).result.Ok?
    ensures var s := CreatePaymentStep(t, input, config, now, gateway);
      && |s.after.payments| == |t.payments| + 1
      && s.result.value.payment == s.after.payments[|t.payments|]
      && s.after.payments[..|t.payments|] == t.payments
      && s.result.value.payment.orderId == OrderId(now, input.userId)
      && s.result.value.payment.userId == input.userId
      && s.result.value.payment.status == PaymentStatus.Pending
      && s.result.value.redirectUrl ==
           gateway(SnapRequest(SnapUrl(config.environment), config.serverKey.value,
                               OrderId(now, input.userId), GrossAmount(input.amount))).redirectUrl
  {
  }

  lemma CreatePaymentPreservesConsistency(t: Tables, input: CreatePaymentInput, config: GatewayConfig,
                                          now: Timestamp, gateway: SnapRequest -> GatewayResponse)
    requires Consistent(t)
    ensures Consistent(CreatePaymentStep(t, input, config, now, gateway).after)
  {
    var orderId := OrderId(now, input.userId);
    if input.userId in t.users && AmountFits(input.amount) && FirstMatch(t.payments, HasOrderId(orderId)).None? {
      forall k | 0 <= k < |t.payments| ensures t.payments[k].orderId != orderId {
        assert !HasOrderId(orderId)(t.payments[k]);
      }
      var row := PendingPayment(t.nextPaymentId, input.userId, orderId, input.amount, now);
      InsertPaymentPreservesConsistency(t, row);
      assert CreatePaymentStep(t, input, config, now, gateway).after
          == t.(payments := t.payments + [row], nextPaymentId := t.nextPaymentId + 1);
    } else {
      assert CreatePaymentStep(t, input, config, now, gateway).after == t;
    }
  }

  /** The handler; the clock, the configuration and the gateway are parameters. */
  method CreatePayment(db: Database, input: CreatePaymentInput, config: GatewayConfig, now: Timestamp,
                       gateway: SnapRequest -> GatewayResponse)
    returns (r: Result<CheckoutSession>)
    requires db.Valid()
    modifies db
    ensures db.Valid()
    ensures Step(r, db.Snapshot()) == CreatePaymentStep(old(db.Snapshot()), input, config, now, gateway)
  {
    CreatePaymentPreservesConsistency(db.Snapshot(), input, config, now, gateway);
    if input.userId !in db.users {
      return Err("User with ID " + IntToString(input.userId) + " not found");
    }

    var orderId := OrderId(now, input.userId);

    // The insert: the table's own constraints reject it before a row exists.
    if !AmountFits(input.amount) {
      return Err(NumericOverflow);
    }
    if FirstMatch(db.payments, HasOrderId(orderId)).Some? {
      return Err(OrderIdTaken);
    }
    var paymentRecord := PendingPayment(db.nextPaymentId, input.userId, orderId, input.amount, now);
    db.payments := db.payments + [paymentRecord];
    db.nextPaymentId := db.nextPaymentId + 1;

    var request := SnapRequest(SnapUrl(config.environment), config.serverKey.GetOr(""), orderId,
                               GrossAmount(input.amount));
    if config.serverKey.None? || config.serverKey.value == "" {
      return Err(KeyNotConfigured);
    }

    var response := gateway(request);
    if !response.ok {
      return Err("Midtrans API error: " + IntToString(response.status) + " " + response.statusText);
    }
    r := Ok(CheckoutSession(paymentRecord, response.redirectUrl));
  }
}
