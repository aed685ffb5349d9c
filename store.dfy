/** The relational store: the three tables `users`, `payments` and `documents`
    with their serial id counters, the constraints the table definitions declare
    (primary keys, unique e-mail and order id, foreign keys to `users`, the
    `numeric(10,2)` range of amounts) and the cascade from a user to its rows. */
module Store {
  import opened Wrappers
  import opened Schema
  import opened Query

  /** `numeric(10,2)` holds at most 8 integral digits: in cents, |amount| < 10^10. */
  const AmountLimit: int := 10_000_000_000

  predicate AmountFits(cents: int) {
    -AmountLimit < cents < AmountLimit
  }

  /** A snapshot of the database: `users` keyed by id; `payments` and `documents`
      in insertion order; the next value of each `serial` id. */
  datatype Tables = Tables(
    users: map<int, User>,
    payments: seq<Payment>,
    documents: seq<Document>,
    nextUserId: int,
    nextPaymentId: int,
    nextDocumentId: int)

  const EmptyTables := Tables(map[], [], [], 1, 1, 1)

  /** What a handler call returns and the tables it leaves behind. */
  datatype Step<R> = Step(result: Result<R>, after: Tables)

  function UserId(u: User): int { u.id }
  function PaymentId(p: Payment): int { p.id }
  function PaymentOrderId(p: Payment): string { p.orderId }
  function DocumentId(d: Document): int { d.id }

  /** Primary key and the unique e-mail constraint of `users`. */
  predicate UsersConsistent(t: Tables) {
    && t.nextUserId >= 1
    && (forall id :: id in t.users ==> t.users[id].id == id && 1 <= id < t.nextUserId)
    && (forall a, b :: a in t.users && b in t.users && t.users[a].email == t.users[b].email ==> a == b)
  }

  /** Serial ids in insertion order, the unique order id, the foreign key to
      `users` and the `numeric(10,2)` range of `payments`. */
  predicate PaymentsConsistent(t: Tables) {
    && t.nextPaymentId >= 1
    && IncreasingBy(t.payments, PaymentId)
    && DistinctBy(t.payments, PaymentOrderId)
    && (forall k :: 0 <= k < |t.payments| ==>
          1 <= t.payments[k].id < t.nextPaymentId && t.payments[k].userId in t.users
          && AmountFits(t.payments[k].amount))
  }

  /** Serial ids in insertion order and the foreign key to `users` of
      `documents`; every token the handlers mint is non-empty. */
  predicate DocumentsConsistent(t: Tables) {
    && t.nextDocumentId >= 1
    && IncreasingBy(t.documents, DocumentId)
    && (forall k :: 0 <= k < |t.documents| ==>
          1 <= t.documents[k].id < t.nextDocumentId && t.documents[k].userId in t.users
          && t.documents[k].downloadToken != Some(""))
  }

  predicate Consistent(t: Tables) {
    UsersConsistent(t) && PaymentsConsistent(t) && DocumentsConsistent(t)
  }

  lemma EmptyIsConsistent()
    ensures Consistent(EmptyTables)
  {
  }

  /** The rows of `users` with ids below `n`, in ascending id order. */
  function RowsBelow(users: map<int, User>, n: int): seq<User>
    decreases n
  {
    if n <= 0 then [] else RowsBelow(users, n - 1) + (if n - 1 in users then [users[n - 1]] else [])
  }

  /** The `users` table read without `ORDER BY`; the model uses ascending id (insertion) order. */
  function UserRows(t: Tables): seq<User> {
    RowsBelow(t.users, t.nextUserId)
  }

  lemma {:induction false} RowsBelowSpec(users: map<int, User>, n: int)
    requires forall id :: id in users ==> users[id].id == id
    ensures forall k :: 0 <= k < |RowsBelow(users, n)| ==>
              var u := RowsBelow(users, n)[k]; u.id in users && users[u.id] == u && u.id < n
    ensures forall id :: id in users && 0 <= id < n ==> users[id] in RowsBelow(users, n)
    ensures IncreasingBy(RowsBelow(users, n), UserId)
    decreases n
  {
    if n > 0 {
      RowsBelowSpec(users, n - 1);
      var prev := RowsBelow(users, n - 1);
      if n - 1 in users {
        var x := users[n - 1];
        var r := prev + [x];
        assert RowsBelow(users, n) == r;
        AppendIncreasing(prev, x, UserId);
        assert forall k :: 0 <= k < |prev| ==> r[k] == prev[k];
        assert r[|prev|] == x;
      } else {
        assert RowsBelow(users, n) == prev;
      }
    }
  }

  /** Each row of the table order is the stored user of its id, each stored user
      appears, and no user appears twice. */
  lemma UserRowsSpec(t: Tables)
    requires UsersConsistent(t)
    ensures forall k :: 0 <= k < |UserRows(t)| ==>
              UserRows(t)[k].id in t.users && t.users[UserRows(t)[k].id] == UserRows(t)[k]
    ensures forall id :: id in t.users ==> t.users[id] in UserRows(t)
    ensures IncreasingBy(UserRows(t), UserId)
  {
    RowsBelowSpec(t.users, t.nextUserId);
  }

  /** `WHERE email = e`: exact, case-sensitive comparison. */
  function HasEmail(email: string): User -> bool {
    (u: User) => u.email == email
  }

  /** The first row of `select ... from users where email = e`. */
  function FindByEmail(t: Tables, email: string): Option<User> {
    FirstRow(UserRows(t), HasEmail(email))
  }

  /** Since e-mails are unique, the lookup finds a user exactly when some stored
      user has that e-mail, and then it finds that stored user. */
  lemma FindByEmailSpec(t: Tables, email: string)
    requires UsersConsistent(t)
    ensures FindByEmail(t, email).Some? <==> exists id :: id in t.users && t.users[id].email == email
    ensures FindByEmail(t, email).Some? ==>
      var u := FindByEmail(t, email).value;
      u.id in t.users && t.users[u.id] == u && u.email == email
  {
    UserRowsSpec(t);
    var rows := UserRows(t);
    if exists id :: id in t.users && t.users[id].email == email {
      var id :| id in t.users && t.users[id].email == email;
      assert t.users[id] in rows;
      var k :| 0 <= k < |rows| && rows[k] == t.users[id];
      assert HasEmail(email)(rows[k]);
    }
    if FindByEmail(t, email).Some? {
      var u := FindByEmail(t, email).value;
      var k :| 0 <= k < |rows| && rows[k] == u;
    }
  }

  /** Adding a row whose id is the counter appends it to the table order. */
  lemma RowsBelowInsertLast(users: map<int, User>, n: int, u: User)
    requires n >= 0 && forall id :: id in users ==> id < n
    ensures RowsBelow(users[n := u], n + 1) == RowsBelow(users, n) + [u]
  {
    RowsBelowUnaffected(users, n, n, u);
  }

  lemma {:induction false} RowsBelowUnaffected(users: map<int, User>, n: int, m: int, u: User)
    requires m <= n
    ensures RowsBelow(users[n := u], m) == RowsBelow(users, m)
    decreases m
  {
    if m > 0 {
      RowsBelowUnaffected(users, n, m - 1, u);
    }
  }

  /** `insert into users`: the row takes the next serial id. */
  function InsertUser(t: Tables, u: User): Tables {
    t.(users := t.users[t.nextUserId := u], nextUserId := t.nextUserId + 1)
  }

  /** Inserting with the next serial id adds exactly that one row, keeps every
      other row, and appends the row to the table order. */
  lemma InsertUserAppends(t: Tables, u: User)
    requires UsersConsistent(t) && u.id == t.nextUserId
    ensures var a := InsertUser(t, u);
      && u.id !in t.users
      && a.users.Keys == t.users.Keys + {u.id}
      && |a.users| == |t.users| + 1
      && (forall id :: id in t.users ==> a.users[id] == t.users[id])
      && UserRows(a) == UserRows(t) + [u]
  {
    RowsBelowInsertLast(t.users, t.nextUserId, u);
  }

  /** Inserting a payment with the next serial id, an existing owner, a fresh
      order id and an amount the column holds keeps the tables consistent. */
  lemma InsertPaymentPreservesConsistency(t: Tables, p: Payment)
    requires Consistent(t)
    requires p.id == t.nextPaymentId && p.userId in t.users && AmountFits(p.amount)
    requires forall k :: 0 <= k < |t.payments| ==> t.payments[k].orderId != p.orderId
    ensures Consistent(t.(payments := t.payments + [p], nextPaymentId := t.nextPaymentId + 1))
  {
    var ps := t.payments + [p];
    assert forall k :: 0 <= k < |t.payments| ==> ps[k] == t.payments[k];
    assert IncreasingBy(ps, PaymentId);
    assert DistinctBy(ps, PaymentOrderId);
  }

  /** Replacing one stored user row by a row with the same id whose e-mail no
      other user holds keeps the tables consistent. */
  lemma ReplaceUserPreservesConsistency(t: Tables, id: int, u: User)
    requires Consistent(t) && id in t.users && u.id == id
    requires forall other :: other in t.users && other != id ==> t.users[other].email != u.email
    ensures Consistent(t.(users := t.users[id := u]))
  {
    var users := t.users[id := u];
    assert users.Keys == t.users.Keys;
    assert forall a, b :: a in users && b in users && users[a].email == users[b].email ==> a == b;
  }

  /** Overwriting one payment row with a row that keeps its id, order id, owner
      and amount keeps the tables consistent. */
  lemma OverwritePaymentPreservesConsistency(t: Tables, i: int, q: Payment)
    requires Consistent(t) && 0 <= i < |t.payments|
    requires q.id == t.payments[i].id && q.orderId == t.payments[i].orderId
    requires q.userId == t.payments[i].userId && q.amount == t.payments[i].amount
    ensures Consistent(t.(payments := t.payments[i := q]))
  {
    var ps := t.payments[i := q];
    assert forall k :: 0 <= k < |ps| ==> ps[k].id == t.payments[k].id && ps[k].orderId == t.payments[k].orderId;
    assert IncreasingBy(ps, PaymentId);
    assert DistinctBy(ps, PaymentOrderId);
  }

  /** `insert into documents`: the row is appended and the serial counter moves on. */
  function InsertDocument(t: Tables, d: Document): Tables {
    t.(documents := t.documents + [d], nextDocumentId := t.nextDocumentId + 1)
  }

  /** Inserting a document with the next serial id, an existing owner and a
      non-empty or null token keeps the tables consistent. */
  lemma InsertDocumentPreservesConsistency(t: Tables, d: Document)
    requires Consistent(t)
    requires d.id == t.nextDocumentId && d.userId in t.users && d.downloadToken != Some("")
    ensures Consistent(InsertDocument(t, d))
  {
    var ds := t.documents + [d];
    assert forall k :: 0 <= k < |t.documents| ==> ds[k] == t.documents[k];
    assert IncreasingBy(ds, DocumentId);
  }

  /** The database object the handlers read and update. */
  class Database {
    var users: map<int, User>
    var payments: seq<Payment>
    var documents: seq<Document>
    var nextUserId: int
    var nextPaymentId: int
    var nextDocumentId: int

    function Snapshot(): Tables
      reads this
    {
      Tables(users, payments, documents, nextUserId, nextPaymentId, nextDocumentId)
    }

    ghost predicate Valid()
      reads this
    {
      Consistent(Snapshot())
    }

    /** `select ... from users where email = e`, first row: a scan in table order. */
    method SelectByEmail(email: string) returns (found: Option<User>)
      requires Valid()
      ensures found == FindByEmail(Snapshot(), email)
    {
      found := None;
      var id := 0;
      while id < nextUserId
        invariant 0 <= id <= nextUserId
        invariant found == FirstRow(RowsBelow(users, id), HasEmail(email))
      {
        if id in users {
          FirstRowAppend(RowsBelow(users, id), users[id], HasEmail(email));
          if found.None? && users[id].email == email {
            found := Some(users[id]);
          }
        } else {
          assert RowsBelow(users, id + 1) == RowsBelow(users, id);
        }
        id := id + 1;
      }
    }

    /** A freshly migrated, empty database. */
    constructor ()
      ensures Snapshot() == EmptyTables && Valid()
    {
      users, payments, documents := map[], [], [];
      nextUserId, nextPaymentId, nextDocumentId := 1, 1, 1;
    }
  }

  /** `WHERE midtrans_order_id = orderId`. */
  function HasOrderId(orderId: string): Payment -> bool {
    (p: Payment) => p.orderId == orderId
  }

  function NotOwnedPayment(id: int): Payment -> bool {
    (p: Payment) => p.userId != id
  }

  function NotOwnedDocument(id: int): Document -> bool {
    (d: Document) => d.userId != id
  }

  /** Deleting a user row with `ON DELETE CASCADE` on both foreign keys. */
  function DeleteUserCascade(t: Tables, id: int): Tables {
    t.(users := t.users - {id},
       payments := Filter(t.payments, NotOwnedPayment(id)),
       documents := Filter(t.documents, NotOwnedDocument(id)))
  }

  /** The cascade removes exactly the deleted user's payments and documents:
      every other row stays, each as often as before. */
  lemma CascadeRemovesExactlyOwned(t: Tables, id: int)
    ensures DeleteUserCascade(t, id).users.Keys == t.users.Keys - {id}
    ensures forall p :: multiset(DeleteUserCascade(t, id).payments)[p] ==
              if p.userId == id then 0 else multiset(t.payments)[p]
    ensures forall d :: multiset(DeleteUserCascade(t, id).documents)[d] ==
              if d.userId == id then 0 else multiset(t.documents)[d]
  {
    forall p: Payment {
      FilterMultiset(t.payments, NotOwnedPayment(id), p);
    }
    forall d: Document {
      FilterMultiset(t.documents, NotOwnedDocument(id), d);
    }
  }

  lemma CascadePreservesConsistency(t: Tables, id: int)
    requires Consistent(t)
    ensures Consistent(DeleteUserCascade(t, id))
  {
    var u := DeleteUserCascade(t, id);
    FilterKeepsIncreasing(t.payments, PaymentId, NotOwnedPayment(id));
    FilterKeepsDistinct(t.payments, PaymentOrderId, NotOwnedPayment(id));
    FilterKeepsIncreasing(t.documents, DocumentId, NotOwnedDocument(id));
    forall k | 0 <= k < |u.payments| ensures u.payments[k].userId in u.users {
      assert NotOwnedPayment(id)(u.payments[k]);
    }
    forall k | 0 <= k < |u.documents| ensures u.documents[k].userId in u.users {
      assert NotOwnedDocument(id)(u.documents[k]);
    }
  }
}
