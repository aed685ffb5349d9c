# Membership manager: a Dafny model of the request handlers

This project models the server of a membership manager for a library association. The server keeps three tables:

- `users`: institutional members, each with a profile, a role and a membership status.
- `payments`: membership payments made through the Midtrans gateway.
- `documents`: transfer proofs, receipts and certificates, each fetched later by a bearer download token.

Every request handler except the two placeholders (the WhatsApp notification and the user deletion) is modelled, plus the constraints the table definitions declare.

## How the model is built

Store (`store.dfy`):
- The database is a class, `Store.Database`. Its fields are:
  - the `users` table, a map from serial id to row;
  - the `payments` and `documents` tables, sequences in insertion order;
  - the three serial counters.
- `Snapshot()` returns those fields as a `Tables` value.
- `Valid()` holds when that value is `Consistent`:
  - primary keys are correct and below their counters;
  - e-mail addresses and Midtrans order ids are unique;
  - every payment and document points at an existing user (the foreign keys);
  - `numeric(10,2)` amounts fit;
  - download tokens are never empty.

Handlers (one file per handler, each named after its source file):
- Each handler is a pure step function. It takes the tables before the call to a `Step(result, after)`. A thrown error is `Err(message)`, with the source's exact message text.
- The lemmas about a step state what the request promises:
  - the error cases leave the tables unchanged;
  - the success case inserts or changes exactly the expected row;
  - the step preserves `Consistent`.
- Each handler that writes to the database is also a method on a `Database`. Its contract is `Step(r, db.Snapshot()) == Spec(old(db.Snapshot()), …)`, and it keeps `Valid()`.
- The read-only listings are functions over the tables. `getAllUsers` also has a method, which scans the user rows with loops.

Inputs that come from outside are parameters of the steps and methods:
- **Crypto:** SHA-512 hex, PBKDF2, the password hasher and JWT signing.
- **Clock and randomness:** `Date.now()`, `new Date()`, random bytes and UUIDs.
- **Filesystem:** `existsSync` and `stat().size`.
- **Environment:** `process.cwd()` and the environment variables.
- **Gateway:** the Midtrans HTTP response.

A payment insert that would break the `numeric(10,2)` width or the order-id uniqueness fails with the database's error and no change.

For the database's `defaultNow()` columns, the model uses the same instant as the handler's clock reading.

Other modelling choices:
- Amounts are whole cents. `Math.round` of an amount in rupiah is rounding half up on cents.
- Nested paths of `path.join` are built with `Text.JoinPath`.
- The decimal rendering of JavaScript template literals and Node's `toString('hex')` / `Buffer.from(…, 'hex')` are functions in `text.dfy`, with proofs that they round-trip.
- The zod input schemas are predicates in `schema.dfy`. The e-mail and URL checks are predicate parameters.
- A webhook's required and optional fields are fixed by the shape of the `MidtransWebhook` datatype.

## Model

| member | source | states |
|---|---|---|
| Schema.ParseMembershipStatus | server/src/schema.ts:8 | accepts exactly the four membership status labels; the parsed value's label is the input |
| Schema.ParsePaymentStatus | server/src/schema.ts:9 | accepts exactly the four payment status labels; the parsed value's label is the input |
| Schema.ParseDocumentType | server/src/schema.ts:10 | accepts exactly the three document type labels; the parsed value's label is the input |
| Schema.LabelsRoundTrip | server/src/db/schema.ts:18-20 | parsing each enum value's label gives that value back |
| Schema.FullPatch | server/src/schema.ts:106-125 | the patch supplies each of the fifteen profile fields, each with the profile's value |
| Schema.UpdateSchemaAgreesWithRegistration | server/src/schema.ts:75-125 | an update that supplies nothing is valid; every valid registration, re-sent as a full update, passes the update schema |
| Store.EmptyIsConsistent | server/src/db/schema.ts:24-76 | the empty database satisfies every key, uniqueness and foreign-key constraint |
| Store.UserRowsSpec | server/src/db/schema.ts:25 | the user rows in store order are exactly the stored users, in increasing id order |
| Store.FindByEmailSpec | server/src/db/schema.ts:26 | the lookup by e-mail finds a row iff a stored user has that e-mail, and it is that stored row |
| Store.InsertUserAppends | server/src/db/schema.ts:25 | inserting with the next serial id adds exactly one new key, keeps every other row and appends the row to the store order |
| Store.InsertPaymentPreservesConsistency | server/src/db/schema.ts:50-62 | a payment row with the next id, an existing owner, a fitting amount and a fresh order id keeps the tables consistent |
| Store.ReplaceUserPreservesConsistency | server/src/db/schema.ts:25-26 | replacing a user row by one with the same id and an e-mail no other user holds keeps the tables consistent |
| Store.OverwritePaymentPreservesConsistency | server/src/db/schema.ts:51-55 | overwriting a payment row while keeping its id, order id, owner and amount keeps the tables consistent |
| Store.InsertDocumentPreservesConsistency | server/src/db/schema.ts:65-76 | a document row with the next id, an existing owner and a non-empty token keeps the tables consistent |
| Store.Database.SelectByEmail | server/src/handlers/register_user.ts:9-12 | the loop over the users table returns the same row as the e-mail lookup on the snapshot |
| Store.Database.constructor | server/src/db/schema.ts:24-76 | a new database holds empty tables with every counter at 1, and is consistent |
| Store.CascadeRemovesExactlyOwned | server/src/db/schema.ts:52 | deleting a user removes that user and, counted with multiplicity, exactly that user's payments and documents; every other row is kept |
| Store.CascadePreservesConsistency | server/src/db/schema.ts:67 | the cascading delete leaves consistent tables, with no payment or document pointing at the deleted user |
| Webhook.ServerKey | server/src/handlers/handle_midtrans_webhook.ts:10 | the configured server key when it is non-empty; the test default when it is unset or empty; never empty |
| Webhook.MapStatus | server/src/handlers/handle_midtrans_webhook.ts:33-50 | paid iff settlement or capture; failed iff deny, cancel or failure; expired iff expire; pending otherwise |
| Webhook.OrNull | server/src/handlers/handle_midtrans_webhook.ts:55-57 | a present, non-empty text is kept; an absent or empty one becomes null |
| Webhook.TimeOrNull | server/src/handlers/handle_midtrans_webhook.ts:58-59 | a present, non-empty time is parsed; an absent or empty one becomes null |
| Webhook.ReconciledPayment | server/src/handlers/handle_midtrans_webhook.ts:53-61 | the updated payment has the mapped status and the new update time; the transaction id and payment type are the supplied non-empty texts or null; the two times are the parsed supplied times or null; every column outside the update is unchanged; a payload with no optional fields nulls all four |
| Webhook.ActivateMembership | server/src/handlers/handle_midtrans_webhook.ts:69-76 | only the owning user changes, and that user becomes active |
| Webhook.BadSignatureRejected | server/src/handlers/handle_midtrans_webhook.ts:11-18 | a signature other than SHA-512 of order id, status code, gross amount and server key is rejected with no change |
| Webhook.UnknownOrderRejected | server/src/handlers/handle_midtrans_webhook.ts:20-28 | a correctly signed callback for an order id with no payment is rejected, naming the order id, with no change |
| Webhook.ReconcileOverwritesMatchedPayment | server/src/handlers/handle_midtrans_webhook.ts:11-66 | success iff the signature matches and some payment has the order id; then exactly that row is overwritten, whatever its current status, and returned with the mapped status, and the documents table and the three serial counters are untouched; on error nothing changes |
| Webhook.MembershipActivatedIffPaid | server/src/handlers/handle_midtrans_webhook.ts:68-77 | after a reconciled callback the owner is active iff the mapped status is paid or the owner was already active; a non-paid status changes no user; other users never change |
| Webhook.ReplayIdempotentUpToTimestamp | server/src/handlers/handle_midtrans_webhook.ts:53-64 | replaying an accepted callback succeeds again and returns the same payment except for its update time |
| Webhook.ReconcilePreservesConsistency | server/src/handlers/handle_midtrans_webhook.ts:53-77 | the webhook keeps the tables consistent |
| Webhook.FindPayment | server/src/handlers/handle_midtrans_webhook.ts:21-30 | the scan stops at the first payment with the order id, or at the end when none has it |
| Webhook.SwitchStatus | server/src/handlers/handle_midtrans_webhook.ts:33-50 | the switch computes the status mapping |
| Webhook.HandleMidtransWebhook | server/src/handlers/handle_midtrans_webhook.ts:7-92 | the handler's result and new database equal the reconciliation step on the old database, and the database stays consistent |
| CreatePayment.SnapUrl | server/src/handlers/create_payment.ts:59-61 | the production endpoint iff the environment is exactly "production", otherwise the sandbox endpoint |
| CreatePayment.OrderIdPieces | server/src/handlers/create_payment.ts:19 | the order id splits on '-' into "ORDER", the decimal time and the decimal user id |
| CreatePayment.OrderIdCollision | server/src/handlers/create_payment.ts:19 | two order ids are equal iff they are built from the same time and the same user |
| CreatePayment.GrossAmount | server/src/handlers/create_payment.ts:42 | the integer gross amount is the cent amount rounded to the nearest whole unit, halves up |
| CreatePayment.UnknownUserInsertsNothing | server/src/handlers/create_payment.ts:9-16 | an unknown user id is rejected, naming the id, with no row inserted |
| CreatePayment.PendingRowSurvivesGatewayFailure | server/src/handlers/create_payment.ts:19-93 | for a known user the pending row is inserted before the key check and the gateway call, and it stays when either fails; the result is the missing-key error, the gateway's status error or the checkout session |
| CreatePayment.SuccessReturnsInsertedRow | server/src/handlers/create_payment.ts:85-93 | on success exactly one row is appended and returned, pending, with the order id and owner, together with the gateway's redirect URL |
| CreatePayment.CreatePaymentPreservesConsistency | server/src/handlers/create_payment.ts:22-34 | creating a payment keeps the tables consistent, whichever branch it takes |
| CreatePayment.CreatePayment | server/src/handlers/create_payment.ts:6-98 | the handler's result and new database equal the payment step on the old database, and the database stays consistent |
| UpdateUser.ApplyUpdate | server/src/handlers/update_user.ts:19-21 | the id, role, password hash and creation time are never changed; the update time is always refreshed |
| UpdateUser.FullPatchReplacesProfile | server/src/handlers/update_user.ts:25-39 | a patch that supplies every profile field replaces the whole stored profile by the supplied one |
| UpdateUser.ProvidedOverwritesOmittedKeeps | server/src/handlers/update_user.ts:24-40 | each of the seventeen fields takes the supplied value when present and keeps the stored value when absent |
| UpdateUser.EmptyUpdateOnlyBumpsTimestamp | server/src/handlers/update_user.ts:19-40 | an update that supplies nothing changes only the update time |
| UpdateUser.ApplyUpdateIdempotent | server/src/handlers/update_user.ts:19-40 | applying the same update twice equals applying it once at the later time |
| UpdateUser.UpdateChangesOnlyTarget | server/src/handlers/update_user.ts:9-51 | success iff the id exists and the new e-mail is not held by another user; an unknown id or a taken e-mail is rejected with no change; on success only that row changes and is returned |
| UpdateUser.UpdateUserPreservesConsistency | server/src/db/schema.ts:26 | the update keeps the tables consistent, including e-mail uniqueness |
| UpdateUser.Provided | server/src/handlers/update_user.ts:24 | the supplied value when present, otherwise the current one |
| UpdateUser.UpdateUser | server/src/handlers/update_user.ts:6-57 | the handler's result and new database equal the update step on the old database, and the database stays consistent |
| ListUsers.MatchesExactlySuppliedFields | server/src/handlers/get_all_users.ts:14-37 | a row satisfies the built conditions iff it equals every supplied filter field; absent fields do not constrain |
| ListUsers.SatisfiesConcat | server/src/handlers/get_all_users.ts:34-36 | a list of conditions joined by AND holds iff each part holds |
| ListUsers.ZeroLimitIsEmpty | server/src/handlers/get_all_users.ts:9-11 | a zero limit returns no rows, whatever is stored |
| ListUsers.NoFilterReturnsAll | server/src/handlers/get_all_users.ts:17-37 | no filter, or an empty one, returns every row in store order |
| ListUsers.ResultsMatchFilter | server/src/handlers/get_all_users.ts:14-45 | every returned row is stored and matches every supplied field |
| ListUsers.UnpagedReturnsAllMatching | server/src/handlers/get_all_users.ts:34-37 | without a limit or offset the result is exactly the matching rows, in store order, so every matching row is returned |
| ListUsers.LimitAndOffset | server/src/handlers/get_all_users.ts:39-45 | the offset skips that many matching rows; a positive limit caps the count; an offset past the end gives no rows |
| ListUsers.ValidFilterNeverFails | server/src/schema.ts:172-178 | a filter accepted by the schema never reaches the database's negative-offset error and never has a zero limit |
| ListUsers.PushConditions | server/src/handlers/get_all_users.ts:14-29 | the pushed condition list is the filter's list of supplied fields |
| ListUsers.CheckRow | server/src/handlers/get_all_users.ts:35 | the loop accepts a row iff every condition holds for it |
| ListUsers.Scan | server/src/handlers/get_all_users.ts:32-37 | the scan returns the users table's rows, in store order, that satisfy the conditions |
| ListUsers.GetAllUsers | server/src/handlers/get_all_users.ts:6-53 | the handler returns the listing function of the stored rows and the filter |
| RegisterUser.DuplicateEmailRejected | server/src/handlers/register_user.ts:9-16 | an e-mail that is already stored is rejected with no change |
| RegisterUser.NewUserHasDefaults | server/src/handlers/register_user.ts:19-45 | a new e-mail gives a member with pending status, the given e-mail and profile, the hash of the password, and both timestamps now |
| RegisterUser.RegisterAddsExactlyOneRow | server/src/handlers/register_user.ts:22-45 | on success exactly one user row with a fresh serial id is added; every other row of every table is unchanged |
| RegisterUser.RegisterPreservesConsistency | server/src/db/schema.ts:26 | registering keeps the tables consistent, including e-mail uniqueness |
| RegisterUser.RegisterUser | server/src/handlers/register_user.ts:6-53 | the handler's result and new database equal the registration step on the old database, and the database stays consistent |
| LoginUser.MalformedStoredHashRejected | server/src/handlers/login_user.ts:12-15 | a stored hash with no ':', one starting with ':', or one whose first ':' is followed by the end or another ':' (an empty salt or hash piece) never verifies |
| LoginUser.VerifyPasswordIff | server/src/handlers/login_user.ts:9-25 | for a stored salt:hex-hash, verification succeeds iff PBKDF2 of the password with that salt gives exactly the stored bytes |
| LoginUser.HashThenVerify | server/src/handlers/login_user.ts:28-32 | a password hashed with that module's own format verifies against its hash |
| LoginUser.WithoutHashLosesOnlyHash | server/src/handlers/login_user.ts:67 | the returned user is the stored row without its password hash, and nothing else is lost |
| LoginUser.JwtSecret | server/src/handlers/login_user.ts:55 | the configured secret when non-empty, otherwise the fallback test secret |
| LoginUser.LoginSucceedsIff | server/src/handlers/login_user.ts:34-77 | login succeeds iff a stored user has the e-mail and the password verifies against its hash; every failure has the same message |
| LoginUser.SessionIsStoredUser | server/src/handlers/login_user.ts:46-72 | the session's user is the stored row without the hash, and the token is the signature of its id, role and e-mail with the chosen secret |
| UploadDocument.SizeOrNull | server/src/handlers/upload_document.ts:29 | a missing or zero size is stored as null, any other size as given |
| UploadDocument.TextOrNull | server/src/handlers/upload_document.ts:30 | a missing or empty MIME type is stored as null, any other as given |
| UploadDocument.UnknownUserInsertsNothing | server/src/handlers/upload_document.ts:10-17 | an unknown user id is rejected, naming the id, with no row inserted |
| UploadDocument.UploadedRow | server/src/handlers/upload_document.ts:19-34 | the inserted row copies the input, nulls falsy size and MIME type, and holds a 64-character lower-hex token that decodes to the 32 random bytes |
| UploadDocument.UploadAddsExactlyOne | server/src/handlers/upload_document.ts:23-34 | on success exactly one document row, with the next id, is appended and nothing else changes |
| UploadDocument.UploadPreservesConsistency | server/src/db/schema.ts:67 | uploading keeps the tables consistent |
| UploadDocument.UploadDocument | server/src/handlers/upload_document.ts:7-41 | the handler's result and new database equal the upload step on the old database, and the database stays consistent |
| DownloadDocument.MimeOrDefault | server/src/handlers/download_document.ts:30 | a stored non-empty MIME type, otherwise application/octet-stream |
| DownloadDocument.UnknownTokenRejected | server/src/handlers/download_document.ts:10-17 | a token no document holds is rejected as invalid or expired |
| DownloadDocument.EmptyTokenRejected | server/src/handlers/download_document.ts:10-17 | the empty token never opens a document |
| DownloadDocument.DownloadOutcome | server/src/handlers/download_document.ts:10-31 | invalid token iff no row holds it; otherwise the first holder's file is missing iff the not-on-disk error is returned, and an existing file gives its path, name and MIME type |
| DownloadDocument.DownloadFindsTheTokenHolder | server/src/handlers/download_document.ts:19-31 | when only one document holds a token, that token downloads exactly that document |
| GenerateReceiptPdf.ReceiptRequiresPaidPayment | server/src/handlers/generate_receipt_pdf.ts:12-26 | a receipt is issued iff a payment with that id belongs to that user and is paid; otherwise the not-paid error with no change |
| GenerateReceiptPdf.ReceiptFileNamePieces | server/src/handlers/generate_receipt_pdf.ts:34 | the file name splits on '_' into "receipt", the user id, the payment id and the time with ".pdf" |
| GenerateReceiptPdf.ReceiptDiskPathShape | server/src/handlers/generate_receipt_pdf.ts:38-42 | the written file is the working directory followed by uploads/receipts/ and the file name |
| GenerateReceiptPdf.RecordedPathIsNotWrittenPath | server/src/handlers/generate_receipt_pdf.ts:42-60 | the path recorded in the row never equals the path the file was written to |
| GenerateReceiptPdf.ReceiptRow | server/src/handlers/generate_receipt_pdf.ts:33-66 | the inserted row names the user, the receipt type, the file name, the recorded path, the written file's size, application/pdf and the UUID token; nothing else changes |
| GenerateReceiptPdf.ReceiptPreservesConsistency | server/src/handlers/generate_receipt_pdf.ts:55-66 | issuing a receipt keeps the tables consistent |
| GenerateReceiptPdf.GenerateReceipt | server/src/handlers/generate_receipt_pdf.ts:9-72 | the handler's result and new database equal the receipt step on the old database, and the database stays consistent |
| GenerateCertificatePdf.CertificateForAnyExistingUser | server/src/handlers/generate_certificate_pdf.ts:12-19 | a certificate is issued iff the user exists, whatever their membership status; an unknown id is rejected, naming it, with no change |
| GenerateCertificatePdf.DownloadTokenFormat | server/src/handlers/generate_certificate_pdf.ts:160-163 | the token splits on '_' into "token", the decimal token time and 32 lower-hex characters that decode to the 16 random bytes |
| GenerateCertificatePdf.CertificateFileNamePieces | server/src/handlers/generate_certificate_pdf.ts:25 | the file name splits on '_' into "certificate", the user id and the time with ".pdf" |
| GenerateCertificatePdf.CertificateDiskPathShape | server/src/handlers/generate_certificate_pdf.ts:26-27 | the written file is the working directory followed by storage/documents/certificates/ and the file name |
| GenerateCertificatePdf.RecordedPathIsNotWrittenPath | server/src/handlers/generate_certificate_pdf.ts:27-28 | the path recorded in the row never equals the path the file was written to |
| GenerateCertificatePdf.CertificateRow | server/src/handlers/generate_certificate_pdf.ts:24-59 | the inserted row names the user, the certificate type, the file name, the recorded path, the written file's size, application/pdf and the generated token; nothing else changes |
| GenerateCertificatePdf.CertificatePreservesConsistency | server/src/handlers/generate_certificate_pdf.ts:48-59 | issuing a certificate keeps the tables consistent |
| GenerateCertificatePdf.GenerateCertificate | server/src/handlers/generate_certificate_pdf.ts:9-65 | the handler's result and new database equal the certificate step on the old database, and the database stays consistent |
| UserPayments.UserPaymentsSpec | server/src/handlers/get_user_payments.ts:9-13 | exactly the user's payments, each with its multiplicity in the table, newest first; none for a user without payments |
| UserPayments.UnknownUserHasNoPayments | server/src/db/schema.ts:52 | a user id that does not exist has no payments |
| AllPayments.AllPaymentsSpec | server/src/handlers/get_all_payments.ts:9-12 | a permutation of the payments table, newest first, empty iff the table is empty |
| AllPayments.UserListingIsPartOfAll | server/src/handlers/get_user_payments.ts:9-13 | one user's listing holds the same rows as the full listing restricted to that user |
| UserDocuments.UserDocumentsSpec | server/src/handlers/get_user_documents.ts:9-13 | exactly the user's documents, each with its multiplicity in the table, newest first; none for a user without documents |
| UserProfile.UserProfileSpec | server/src/handlers/get_user_profile.ts:9-24 | found iff the id is stored, and then it is that row with that id; otherwise the error names the id |
| UserProfile.NotFoundNamesTheId | server/src/handlers/get_user_profile.ts:15 | two not-found messages are equal iff they name the same id |
| Text.HexRoundTrip | server/src/handlers/login_user.ts:18-21 | decoding the lower-hex encoding of bytes gives the bytes back |
| Text.IntToStringInjective | server/src/handlers/create_payment.ts:19 | different integers render as different decimal texts |
| Query.SortDesc | server/src/handlers/get_all_payments.ts:11 | the sorted rows are a permutation of the input, ordered by non-increasing key |
| Query.FindFirst | server/src/handlers/generate_receipt_pdf.ts:24-30 | the loop returns the first row satisfying the predicate, or none when no row does |

## Left out

- Routing, the tRPC router in `server/src/index.ts` and the HTTP server are not part of this model.
- The WhatsApp notification handler is not part of this model. It is a placeholder with no database effect.
- `delete_user.ts` is a placeholder. Only the cascade its foreign keys declare is modelled: `Store.DeleteUserCascade` and its two lemmas.
- Crypto is not modelled, only passed in: SHA-512, PBKDF2, the password hasher and JWT signing. Timing-safe comparison is modelled as byte equality.
- Registration hashes with the runtime's password hasher, but login checks a PBKDF2 `salt:hash` string. Those two formats do not match.
  - The model keeps the two functions separate and proves nothing about a registered password logging in.
  - `LoginUser.HashPassword` and `LoginUser.HashThenVerify` cover only the PBKDF2 helper in the login module, which the source never calls.
- Clock readings and randomness are inputs:
  - The certificate's token reads the clock a second time, so it gets its own `tokenTime`.
  - The uniqueness of order ids, file names and tokens is not claimed, because it depends on those inputs.
  - Where a uniqueness fact is needed, it is a precondition on the stored rows.
- The filesystem is not modelled. `existsSync` and `stat().size` are oracle functions. The PDF bytes and the `mkdir`/`writeFile` calls are not modelled.
- Floating point and locale are not modelled:
  - Amounts are whole cents: `parseFloat`, `toString` of the numeric column, and inputs with more than two decimals are not modelled.
  - `toLocaleString` inside the PDF content is not modelled.
  - `new Date(...)` parsing of gateway times is the `parseTime` parameter.
- The gateway request body is not modelled beyond the endpoint, the server key, the order id and the gross amount. The customer and item details, and the Basic authorization encoding, are not carried.
- The zod e-mail and URL checks are predicate parameters. Column widths (`varchar(n)`) and 32-bit `integer` columns are not enforced.
- Webhook.HandleMidtransWebhook: the source reads the clock twice, once for the payment's `updated_at` and once for the user's. The model passes one `now` to both updates, so it does not capture two different instants.
- Concurrency and transactions are not modelled. Each handler runs alone. Concurrent webhook deliveries, and a crash between the payment and user updates, are outside the model.
- The order of rows from a query without `ORDER BY` (the user listing, the first match of a lookup) is taken to be store order. Nothing stronger is claimed about which row comes first.
  - Ties among equal `created_at` values under `ORDER BY … DESC` are broken as the model's sort breaks them. Only the permutation and the non-increasing order are claimed.
- The "Failed to update user" branch (update_user.ts:49-51) has no model. It cannot be reached once the row was found.
- The `catch` blocks only log and rethrow. Logging is not modelled.
- The system's documented promise that a registered password verifies at login does not hold in the code. The model follows the code, as described above.
