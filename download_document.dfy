/** Bearer-token download: the token selects a document, the recorded path must
    exist on disk, and a missing MIME type defaults to a generic binary type. */
module DownloadDocument {
  import opened Wrappers
  import opened Schema
  import opened Query
  import opened Store

  const InvalidToken := "Invalid or expired download token"
  const FileMissing := "Document file not found on disk"
  const DefaultMimeType := "application/octet-stream"

  datatype FileDownload = FileDownload(filePath: string, fileName: string, mimeType: string)

  /** `WHERE download_token = token`; a null token matches nothing. */
  function HasToken(token: string): Document -> bool {
    (d: Document) => d.downloadToken == Some(token)
  }

  /** `mime_type || 'application/octet-stream'`. */
  function MimeOrDefault(mimeType: Option<string>): (m: string)
    ensures mimeType.Some? && mimeType.value != "" ==> m == mimeType.value
    ensures mimeType.None? || mimeType.value == "" ==> m == DefaultMimeType
  {
    if mimeType.Some? && mimeType.value != "" then mimeType.value else DefaultMimeType
  }

  /** One call of the handler; `fileExists` is `existsSync` on the server's disk.
      It reads the tables and changes nothing. */
  function Download(t: Tables, token: string, fileExists: string -> bool): Result<FileDownload> {
    match FirstRow(t.documents, HasToken(token))
    case None => Err(InvalidToken)
    case Some(d) =>
      if !fileExists(d.filePath) then Err(FileMissing)
      else Ok(FileDownload(d.filePath, d.fileName, MimeOrDefault(d.mimeType)))
  }

  /** A token no document carries is refused before the disk is consulted. */
  lemma UnknownTokenRejected(t: Tables, token: string, fileExists: string -> bool)
    requires forall k :: 0 <= k < |t.documents| ==> t.documents[k].downloadToken != Some(token)
    ensures Download(t, token, fileExists) == Err(InvalidToken)
  {
  }

  /** Every token the handlers mint is non-empty, so the empty token is always refused. */
  lemma EmptyTokenRejected(t: Tables, fileExists: string -> bool)
    requires DocumentsConsistent(t)
    ensures Download(t, "", fileExists) == Err(InvalidToken)
  {
  }

  /** A download succeeds exactly when a document carries the token and the
      first such document's file exists; it then yields that document's path,
      name and MIME type or the default. A known token whose file is missing
      fails with the disk error. */
  lemma DownloadOutcome(t: Tables, token: string, fileExists: string -> bool)
    ensures var r := Download(t, token, fileExists);
      var m := FirstMatch(t.documents, HasToken(token));
      && (m.None? <==> r == Err(InvalidToken))
      && (m.Some? ==>
            var d := t.documents[m.value];
            && d.downloadToken == Some(token)
            && (!fileExists(d.filePath) <==> r == Err(FileMissing))
            && (fileExists(d.filePath) ==> r == Ok(FileDownload(d.filePath, d.fileName, MimeOrDefault(d.mimeType)))))
  {
  }

  /** Under consistent tables only the first matching row matters; if tokens are
      distinct, that row is the one document carrying it. */
  lemma DownloadFindsTheTokenHolder(t: Tables, k: nat, fileExists: string -> bool)
    requires k < |t.documents| && t.documents[k].downloadToken.Some?
    requires forall j :: 0 <= j < |t.documents| && j != k ==> t.documents[j].downloadToken != t.documents[k].downloadToken
    ensures var d := t.documents[k];
      Download(t, d.downloadToken.value, fileExists) ==
        if fileExists(d.filePath) then Ok(FileDownload(d.filePath, d.fileName, MimeOrDefault(d.mimeType)))
        else Err(FileMissing)
  {
    var d := t.documents[k];
    assert HasToken(d.downloadToken.value)(d);
  }
}
