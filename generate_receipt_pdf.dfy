/** Receipt issuance for a paid payment: the join finds the payment, a PDF is
    written under the working directory, and a `receipt` document row is
    inserted whose recorded path is a different, public-looking path. */
module GenerateReceiptPdf {
  import opened Wrappers
  import opened Text
  import opened Schema
  import opened Query
  import opened Store

  const NotPaid := "Payment not found or not paid"
  const PdfMimeType := "application/pdf"

  /** The join `payments ⋈ users` restricted to the given payment id, owner and status `paid`. */
  function PaidPaymentOf(users: map<int, User>, paymentId: int, userId: int): Payment -> bool {
    (p: Payment) => p.id == paymentId && p.userId == userId && p.status == PaymentStatus.Paid && p.userId in users
  }

  function ReceiptFileName(userId: int, paymentId: int, now: Timestamp): string {
    "receipt_" + IntToString(userId) + "_" + IntToString(paymentId) + "_" + NatToString(now) + ".pdf"
  }

  /** The path recorded in the row. */
  function ReceiptPath(fileName: string): string {
    "/documents/receipts/" + fileName
  }

  /** The path the file is written to: `join(cwd, 'uploads', 'receipts', fileName)`. */
  function ReceiptDiskPath(cwd: string, fileName: string): string {
    JoinPath(JoinPath(JoinPath(cwd, "uploads"), "receipts"), fileName)
  }

  /** One call of the handler. `size(path)` is `statSync(path).size` after the
      write; `uuid` is `randomUUID()`; `now` is the clock. */
  function ReceiptStep(t: Tables, userId: int, paymentId: int, cwd: string, size: string -> nat,
                       uuid: string, now: Timestamp): Step<Document>
  {
    if FirstRow(t.payments, PaidPaymentOf(t.users, paymentId, userId)).None? then Step(Err(NotPaid), t)
    else
      var fileName := ReceiptFileName(userId, paymentId, now);
      var d := Document(t.nextDocumentId, userId, DocumentType.Receipt, fileName, ReceiptPath(fileName),
                        Some(size(ReceiptDiskPath(cwd, fileName)) as int), Some(PdfMimeType), Some(uuid), now, now);
      Step(Ok(d), InsertDocument(t, d))
  }

  /** The name carries the owner, the payment and the timestamp as its '_'-separated pieces. */
  lemma ReceiptFileNamePieces(userId: int, paymentId: int, now: Timestamp)
    ensures Split(ReceiptFileName(userId, paymentId, now), '_') ==
              ["receipt", IntToString(userId), IntToString(paymentId), NatToString(now) + ".pdf"]
  {
    var a, b, n := IntToString(userId), IntToString(paymentId), NatToString(now);
    IntToStringChars(userId, '_');
    IntToStringChars(paymentId, '_');
    assert '_' !in n;
    var c := n + ".pdf";
    assert '_' !in c;
    assert ReceiptFileName(userId, paymentId, now) == "receipt" + ['_'] + a + ['_'] + b + ['_'] + c;
    SplitFour("receipt", a, b, c, '_');
  }

  /** The directory part the file is written under. */
  lemma ReceiptDiskPathShape(cwd: string, fileName: string)
    ensures var base := if |cwd| > 0 && cwd[|cwd| - 1] == '/' then cwd else cwd + "/";
      ReceiptDiskPath(cwd, fileName) == base + "uploads/receipts/" + fileName
  {
  }

  /** Wherever the server runs, the recorded path is not the path written, so a
      download by this row's path finds the file only if something else put it there. */
  lemma RecordedPathIsNotWrittenPath(cwd: string, fileName: string)
    ensures ReceiptPath(fileName) != ReceiptDiskPath(cwd, fileName)
  {
    var base := if |cwd| > 0 && cwd[|cwd| - 1] == '/' then cwd else cwd + "/";
    var dir, recorded := "uploads/receipts/", "/documents/receipts/";
    ReceiptDiskPathShape(cwd, fileName);
    var disk := base + dir + fileName;
    assert |dir| == 17 && |recorded| == 20;
    if |base| == 3 {
      assert disk[3] == dir[0] == 'u';
      assert (recorded + fileName)[3] == recorded[3] == 'c';
    } else {
      assert |disk| == |base| + 17 + |fileName|;
    }
  }

  /** A receipt is issued exactly when the user has a payment with that id and
      status `paid`; otherwise the one error is returned and nothing changes. */
  lemma ReceiptRequiresPaidPayment(t: Tables, userId: int, paymentId: int, cwd: string, size: string -> nat,
                                   uuid: string, now: Timestamp)
    requires Consistent(t)
    ensures var s := ReceiptStep(t, userId, paymentId, cwd, size, uuid, now);
      && (s.result.Ok? <==> exists k :: 0 <= k < |t.payments| && t.payments[k].id == paymentId
                                       && t.payments[k].userId == userId && t.payments[k].status == PaymentStatus.Paid)
      && (s.result.Err? ==> s == Step(Err(NotPaid), t))
  {
    var p := PaidPaymentOf(t.users, paymentId, userId);
    if exists k :: 0 <= k < |t.payments| && t.payments[k].id == paymentId
                   && t.payments[k].userId == userId && t.payments[k].status == PaymentStatus.Paid {
      var k :| 0 <= k < |t.payments| && t.payments[k].id == paymentId
               && t.payments[k].userId == userId && t.payments[k].status == PaymentStatus.Paid;
      assert p(t.payments[k]);
    }
  }

  /** The issued row: type `receipt`, the built name and recorded path, the size
      of the file written, `application/pdf` and the UUID token; it is the only
      row added, and payments and users are unchanged. */
  lemma ReceiptRow(t: Tables, userId: int, paymentId: int, cwd: string, size: string -> nat,
                   uuid: string, now: Timestamp)
    ensures var s := ReceiptStep(t, userId, paymentId, cwd, size, uuid, now);
      s.result.Ok? ==>
        var d := s.result.value;
        && d.id == t.nextDocumentId && d.userId == userId && d.documentType == DocumentType.Receipt
        && d.fileName == ReceiptFileName(userId, paymentId, now)
        && d.filePath == "/documents/receipts/" + d.fileName
        && d.fileSize == Some(size(ReceiptDiskPath(cwd, d.fileName)) as int)
        && d.mimeType == Some(PdfMimeType) && d.downloadToken == Some(uuid)
        && s.after.documents == t.documents + [d]
        && s.after.payments == t.payments && s.after.users == t.users
  {
  }

  lemma ReceiptPreservesConsistency(t: Tables, userId: int, paymentId: int, cwd: string, size: string -> nat,
                                    uuid: string, now: Timestamp)
    requires Consistent(t) && uuid != ""
    ensures Consistent(ReceiptStep(t, userId, paymentId, cwd, size, uuid, now).after)
  {
    var s := ReceiptStep(t, userId, paymentId, cwd, size, uuid, now);
    if s.result.Ok? {
      InsertDocumentPreservesConsistency(t, s.result.value);
    }
  }

  /** The handler: the join, the file name, the write and stat, then the insert.
      `uuid` is a 36-character `randomUUID()`. */
  method GenerateReceipt(db: Database, userId: int, paymentId: int, cwd: string, size: string -> nat,
                         uuid: string, now: Timestamp) returns (r: Result<Document>)
    requires db.Valid() && |uuid| == 36
    modifies db
    ensures db.Valid()
    ensures Step(r, db.Snapshot()) == ReceiptStep(old(db.Snapshot()), userId, paymentId, cwd, size, uuid, now)
  {
    ghost var t := db.Snapshot();
    ReceiptPreservesConsistency(t, userId, paymentId, cwd, size, uuid, now);
    var results := FindFirst(db.payments, PaidPaymentOf(db.users, paymentId, userId));
    if results.None? {
      return Err(NotPaid);
    }
    var fileName := ReceiptFileName(userId, paymentId, now);
    var filePath := ReceiptDiskPath(cwd, fileName);
    var fileSize := size(filePath);
    var document := Document(db.nextDocumentId, userId, DocumentType.Receipt, fileName, ReceiptPath(fileName),
                             Some(fileSize as int), Some(PdfMimeType), Some(uuid), now, now);
    db.documents := db.documents + [document];
    db.nextDocumentId := db.nextDocumentId + 1;
    assert db.Snapshot() == InsertDocument(t, document);
    r := Ok(document);
  }
}
