/** Certificate issuance: any existing user gets one, whatever the membership
    status; the file is written under the working directory, a timestamped
    random token is minted, and a `certificate` document row is inserted. */
module GenerateCertificatePdf {
  import opened Wrappers
  import opened Text
  import opened Schema
  import opened Store

  const PdfMimeType := "application/pdf"

  function UserNotFound(userId: int): string {
    "User with ID " + IntToString(userId) + " not found"
  }

  function CertificateFileName(userId: int, now: Timestamp): string {
    "certificate_" + IntToString(userId) + "_" + (NatToString(now) + ".pdf")
  }

  /** The path recorded in the row. */
  function CertificatePath(fileName: string): string {
    "/documents/certificates/" + fileName
  }

  /** `path.join(cwd, 'storage', 'documents', 'certificates', fileName)`. */
  function CertificateDiskPath(cwd: string, fileName: string): string {
    JoinPath(JoinPath(JoinPath(JoinPath(cwd, "storage"), "documents"), "certificates"), fileName)
  }

  /** `generateDownloadToken`: the clock read when the token is minted, and 16
      random bytes in hex. */
  function DownloadToken(tokenTime: Timestamp, random: seq<byte>): string {
    "token_" + NatToString(tokenTime) + "_" + HexEncode(random)
  }

  /** The token splits on '_' into the marker, the minting time (which can be
      read back) and 32 lower-case hex digits that decode to the random bytes. */
  lemma DownloadTokenFormat(tokenTime: Timestamp, random: seq<byte>)
    requires |random| == 16
    ensures var parts := Split(DownloadToken(tokenTime, random), '_');
      && |parts| == 3 && parts[0] == "token"
      && AllDigits(parts[1]) && DigitsValue(parts[1]) == tokenTime
      && |parts[2]| == 32 && (forall i :: 0 <= i < 32 ==> IsLowerHex(parts[2][i]))
      && HexDecode(parts[2]) == random
  {
    var n, h := NatToString(tokenTime), HexEncode(random);
    assert '_' !in h by {
      assert forall i :: 0 <= i < |h| ==> IsLowerHex(h[i]);
    }
    assert '_' !in n;
    assert DownloadToken(tokenTime, random) == "token" + ['_'] + (n + ['_'] + h);
    SplitAfterHead("token", '_', n + ['_'] + h);
    SplitAfterHead(n, '_', h);
    SplitWithout(h, '_');
    NatToStringRoundTrip(tokenTime);
    HexRoundTrip(random);
  }

  /** The name carries the owner and the timestamp as its '_'-separated pieces. */
  lemma CertificateFileNamePieces(userId: int, now: Timestamp)
    ensures Split(CertificateFileName(userId, now), '_') == ["certificate", IntToString(userId), NatToString(now) + ".pdf"]
  {
    var a, n := IntToString(userId), NatToString(now);
    IntToStringChars(userId, '_');
    assert '_' !in n;
    var c := n + ".pdf";
    assert '_' !in c;
    assert CertificateFileName(userId, now) == "certificate" + ['_'] + (a + ['_'] + c);
    SplitAfterHead("certificate", '_', a + ['_'] + c);
    SplitAfterHead(a, '_', c);
    SplitWithout(c, '_');
  }

  lemma CertificateDiskPathShape(cwd: string, fileName: string)
    ensures var base := if |cwd| > 0 && cwd[|cwd| - 1] == '/' then cwd else cwd + "/";
      CertificateDiskPath(cwd, fileName) == base + "storage" + "/" + "documents" + "/" + "certificates" + "/" + fileName
  {
    var x1 := JoinPath(cwd, "storage");
    assert x1[|x1| - 1] == 'e';
    var x2 := JoinPath(x1, "documents");
    assert x2[|x2| - 1] == 's';
    var x3 := JoinPath(x2, "certificates");
    assert x3[|x3| - 1] == 's';
  }

  /** Wherever the server runs, the recorded path is not the path written. */
  lemma RecordedPathIsNotWrittenPath(cwd: string, fileName: string)
    ensures CertificatePath(fileName) != CertificateDiskPath(cwd, fileName)
  {
    CertificateDiskPathShape(cwd, fileName);
  }

  /** One call of the handler. `size(path)` is the stat of the written file,
      `now` the clock when the name is built, `tokenTime` the later clock read
      inside the token minting, `random` the 16 random bytes. */
  function CertificateStep(t: Tables, userId: int, cwd: string, size: string -> nat, now: Timestamp,
                           tokenTime: Timestamp, random: seq<byte>): Step<Document>
  {
    if userId !in t.users then Step(Err(UserNotFound(userId)), t)
    else
      var fileName := CertificateFileName(userId, now);
      var d := Document(t.nextDocumentId, userId, DocumentType.Certificate, fileName, CertificatePath(fileName),
                        Some(size(CertificateDiskPath(cwd, fileName)) as int), Some(PdfMimeType),
                        Some(DownloadToken(tokenTime, random)), now, now);
      Step(Ok(d), InsertDocument(t, d))
  }

  /** An unknown user is refused and nothing is inserted; every existing user
      gets a certificate, whatever the membership status. */
  lemma CertificateForAnyExistingUser(t: Tables, userId: int, cwd: string, size: string -> nat, now: Timestamp,
                                      tokenTime: Timestamp, random: seq<byte>)
    ensures var s := CertificateStep(t, userId, cwd, size, now, tokenTime, random);
      && (userId !in t.users <==> s == Step(Err(UserNotFound(userId)), t))
      && (userId in t.users <==> s.result.Ok?)
  {
  }

  /** The issued row: type `certificate`, the built name and recorded path, the
      size of the written file, `application/pdf` and the minted token; it is
      the only row added, and payments and users are unchanged. */
  lemma CertificateRow(t: Tables, userId: int, cwd: string, size: string -> nat, now: Timestamp,
                       tokenTime: Timestamp, random: seq<byte>)
    ensures var s := CertificateStep(t, userId, cwd, size, now, tokenTime, random);
      s.result.Ok? ==>
        var d := s.result.value;
        && d.id == t.nextDocumentId && d.userId == userId && d.documentType == DocumentType.Certificate
        && d.fileName == CertificateFileName(userId, now)
        && d.filePath == "/documents/certificates/" + d.fileName
        && d.fileSize == Some(size(CertificateDiskPath(cwd, d.fileName)) as int)
        && d.mimeType == Some(PdfMimeType) && d.downloadToken == Some(DownloadToken(tokenTime, random))
        && s.after.documents == t.documents + [d]
        && s.after.payments == t.payments && s.after.users == t.users
  {
  }

  lemma CertificatePreservesConsistency(t: Tables, userId: int, cwd: string, size: string -> nat, now: Timestamp,
                                        tokenTime: Timestamp, random: seq<byte>)
    requires Consistent(t)
    ensures Consistent(CertificateStep(t, userId, cwd, size, now, tokenTime, random).after)
  {
    var s := CertificateStep(t, userId, cwd, size, now, tokenTime, random);
    if s.result.Ok? {
      InsertDocumentPreservesConsistency(t, s.result.value);
    }
  }

  /** The handler: the user lookup, the name and paths, the write and stat,
      the token, then the insert. */
  method GenerateCertificate(db: Database, userId: int, cwd: string, size: string -> nat, now: Timestamp,
                             tokenTime: Timestamp, random: seq<byte>) returns (r: Result<Document>)
    requires db.Valid() && |random| == 16
    modifies db
    ensures db.Valid()
    ensures Step(r, db.Snapshot()) == CertificateStep(old(db.Snapshot()), userId, cwd, size, now, tokenTime, random)
  {
    CertificatePreservesConsistency(db.Snapshot(), userId, cwd, size, now, tokenTime, random);
    if userId !in db.users {
      return Err(UserNotFound(userId));
    }
    var fileName := CertificateFileName(userId, now);
    var filePath := CertificateDiskPath(cwd, fileName);
    var relativePath := CertificatePath(fileName);
    var fileSize := size(filePath);
    var downloadToken := DownloadToken(tokenTime, random);
    var document := Document(db.nextDocumentId, userId, DocumentType.Certificate, fileName, relativePath,
                             Some(fileSize as int), Some(PdfMimeType), Some(downloadToken), now, now);
    db.documents := db.documents + [document];
    db.nextDocumentId := db.nextDocumentId + 1;
    r := Ok(document);
  }
}
