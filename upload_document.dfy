/** A member's upload: the owner must exist, a random download token is minted,
    and one `documents` row is inserted with falsy optional fields stored as null. */
module UploadDocument {
  import opened Wrappers
  import opened Text
  import opened Schema
  import opened Store

  /** `size || null`: an absent size and a size of 0 are both stored as null. */
  function SizeOrNull(size: Option<int>): (r: Option<int>)
    ensures r.Some? <==> size.Some? && size.value != 0
    ensures r.Some? ==> r == size
  {
    if size.Some? && size.value != 0 then size else None
  }

  /** `text || null`: an absent and an empty string are both stored as null. */
  function TextOrNull(text: Option<string>): (r: Option<string>)
    ensures r.Some? <==> text.Some? && text.value != ""
    ensures r.Some? ==> r == text
  {
    if text.Some? && text.value != "" then text else None
  }

  function UserNotFound(userId: int): string {
    "User with id " + IntToString(userId) + " not found"
  }

  /** One call of the handler; `random` are the bytes of `randomBytes(32)`. */
  function UploadStep(t: Tables, input: FileUploadInput, random: seq<byte>, now: Timestamp): Step<Document> {
    if input.userId !in t.users then Step(Err(UserNotFound(input.userId)), t)
    else
      var d := Document(t.nextDocumentId, input.userId, input.documentType, input.fileName, input.filePath,
                        SizeOrNull(input.fileSize), TextOrNull(input.mimeType), Some(HexEncode(random)), now, now);
      Step(Ok(d), InsertDocument(t, d))
  }

  /** An unknown owner is refused with its id in the message and nothing is inserted. */
  lemma UnknownUserInsertsNothing(t: Tables, input: FileUploadInput, random: seq<byte>, now: Timestamp)
    requires input.userId !in t.users
    ensures UploadStep(t, input, random, now) == Step(Err(UserNotFound(input.userId)), t)
  {
  }

  /** The row copies the owner, type, name and path; a falsy size or MIME type is
      null; the token is the 64 lower-case hex digits of the 32 random bytes. */
  lemma UploadedRow(t: Tables, input: FileUploadInput, random: seq<byte>, now: Timestamp)
    requires input.userId in t.users && |random| == 32
    ensures var s := UploadStep(t, input, random, now);
      && s.result.Ok?
      && var d := s.result.value;
      && d.userId == input.userId && d.documentType == input.documentType
      && d.fileName == input.fileName && d.filePath == input.filePath
      && (d.fileSize.None? <==> input.fileSize.None? || input.fileSize == Some(0))
      && (d.fileSize.Some? ==> d.fileSize == input.fileSize)
      && (d.mimeType.None? <==> input.mimeType.None? || input.mimeType == Some(""))
      && (d.mimeType.Some? ==> d.mimeType == input.mimeType)
      && d.downloadToken.Some? && |d.downloadToken.value| == 64
      && (forall i :: 0 <= i < 64 ==> IsLowerHex(d.downloadToken.value[i]))
      && HexDecode(d.downloadToken.value) == random
  {
    HexRoundTrip(random);
  }

  /** Each successful call appends exactly one row with the next id; existing
      documents, users and payments are untouched. */
  lemma UploadAddsExactlyOne(t: Tables, input: FileUploadInput, random: seq<byte>, now: Timestamp)
    ensures var s := UploadStep(t, input, random, now);
      s.result.Ok? ==>
        && s.after.documents == t.documents + [s.result.value]
        && s.result.value.id == t.nextDocumentId
        && s.after.users == t.users && s.after.payments == t.payments
  {
  }

  lemma UploadPreservesConsistency(t: Tables, input: FileUploadInput, random: seq<byte>, now: Timestamp)
    requires Consistent(t) && |random| > 0
    ensures Consistent(UploadStep(t, input, random, now).after)
  {
    var s := UploadStep(t, input, random, now);
    if s.result.Ok? {
      InsertDocumentPreservesConsistency(t, s.result.value);
    }
  }

  /** The handler: the owner check, then the insert. */
  method UploadDocument(db: Database, input: FileUploadInput, random: seq<byte>, now: Timestamp)
    returns (r: Result<Document>)
    requires db.Valid() && |random| == 32
    modifies db
    ensures db.Valid()
    ensures Step(r, db.Snapshot()) == UploadStep(old(db.Snapshot()), input, random, now)
  {
    UploadPreservesConsistency(db.Snapshot(), input, random, now);
    if input.userId !in db.users {
      return Err(UserNotFound(input.userId));
    }
    var downloadToken := HexEncode(random);
    var document := Document(db.nextDocumentId, input.userId, input.documentType, input.fileName, input.filePath,
                             SizeOrNull(input.fileSize), TextOrNull(input.mimeType), Some(downloadToken), now, now);
    db.documents := db.documents + [document];
    db.nextDocumentId := db.nextDocumentId + 1;
    r := Ok(document);
  }
}
