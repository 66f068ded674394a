# Petition signature confirmation and authorization core, in Dafny

This project models the core of a petition site's signature flow:

- **Confirmation tokens** (`src/lib/tokens.ts`). A token binds one signature and its petition. It carries an absolute expiry 24 hours after issue and is authenticated by a keyed MAC.
- **Signature intake** (`POST /api/signatures`). A chain of guards runs before one insert: schema validation, a public petition, and no existing row for the same (petition, normalized e-mail). The new row is unconfirmed. A token for it is mailed, and a mail failure is ignored.
- **Confirmation** (`GET /api/signatures/confirm`). The handler verifies the token and runs the atomic `confirm_signature` transaction, then maps the result to a redirect or an error. The transaction moves a signature from unconfirmed to confirmed once and adds one to its petition's `signature_count`.
- **Signer listing** for petition authors. This is a pure query: 401 without a caller, and otherwise only the caller's own petition's confirmed rows, in a stable order. The rows are paged by a capped limit and an offset, and each is redacted to `{first_name, verified, confirmed_at}`. The total is counted over the same filter.

Modules:

- `Tokens` (tokens.dfy) and `Wire` (wire.dfy) hold the token codec. `Wire` is a length-prefixed text encoding that stands in for base64url over JSON.
- `Schema` (schema.dfy) holds the store as a value and its invariants.
- `Intake` (intake.dfy) is the intake handler as a function on the store.
- `ConfirmRpc` (rpc.dfy) is the confirmation transaction.
- `Store` (store.dfy) is the store as a class. Its methods `Post` and `ConfirmSignature` update the tables in place and are proved against the two functions above.
- `ConfirmRoute` (confirm.dfy) holds the confirmation handler's response mapping and a handler method that runs the transaction on a `Store`.
- `Names` (names.dfy) holds the first-name scan.
- `Signers` (signers.dfy) holds the listing.
- `Fixtures` (fixtures.dfy) holds the repository's fixture cases, stated as lemmas.

The model also proves one store-wide fact. If every petition's `signature_count` equals its number of confirmed rows, then every intake and every confirmation keeps it so (`CountsMatch`). Under that condition the owner's listed total equals the counter.

## Model

| member | source | states |
|---|---|---|
| Tokens.SigningSecret | src/lib/tokens.ts:3 | The secret is the environment variable when it is set and non-empty, and the development default otherwise. It is never empty. |
| Tokens.SignToken | src/lib/tokens.ts:12-22 | The token decodes to the payload {signatureId, petitionId, exp = now + 86 400 000 ms}, together with the MAC the key computes over that payload's serialisation. |
| Tokens.VerifyToken | src/lib/tokens.ts:24-50 | A payload is returned exactly when the token decodes, the carried MAC equals the one recomputed over the payload, and now <= exp. The payload returned is the one decoded, and its MAC is genuine. Otherwise the result is null. The result depends only on (token, key, now). |
| Tokens.EnvelopeRoundTrip | src/lib/tokens.ts:21-29 | Decoding the text of an encoded {d, s} gives back exactly {d, s}. |
| Wire.FieldsRoundTrip | src/lib/tokens.ts:21-29 | The stand-in encoding is invertible: decoding n encoded fields gives the same n fields. |
| Tokens.SignThenVerify | src/lib/tokens.ts:12-46 | A signed token verifies at any clock value up to and including issue + 24 h. The result has the signed ids and exp = issue + 86 400 000. |
| Tokens.ExpiredTokenRejected | src/lib/tokens.ts:41-44 | Expiry is strict: one millisecond after exp, the token is refused. |
| Tokens.ForgedMacRejected | src/lib/tokens.ts:31-39 | An envelope whose MAC differs from the key's MAC of its payload is refused, whatever the clock. |
| Tokens.OtherKeyRejected | src/lib/tokens.ts:12-39 | A token signed under one key is refused under a key whose MAC differs on that payload. |
| Intake.Utf16Length | src/app/api/signatures/route.ts:10-12 | Schema lengths count UTF-16 units. The count lies between the number of code points and twice it, and equals the number of code points when all lie in the Basic Multilingual Plane. |
| Intake.Validate | src/app/api/signatures/route.ts:8-18 | A body is accepted exactly when it has a UUID petition id, a name of 2 to 200 units, and a valid e-mail. The comment must be absent or a string of at most 1000 units; any other comment value, `null` included, is refused. The accepted fields are the body's own, and an absent comment is stored as null. |
| Intake.NonTextCommentRefused | src/app/api/signatures/route.ts:12 | A comment that is present but not a string, `null` included, gives 400 and changes nothing. |
| Intake.ClientIp | src/app/api/signatures/route.ts:62 | The stored IP is the first non-empty value of X-Forwarded-For and X-Real-IP, and null otherwise. |
| Intake.FailureLeavesStoreUnchanged | src/app/api/signatures/route.ts:23-75 | Every answer other than success leaves both tables unchanged. |
| Intake.MalformedRequests | src/app/api/signatures/route.ts:99-111 | A body that is not JSON gives 500. A body the schema refuses gives 400. |
| Intake.UnavailablePetitionNotFound | src/app/api/signatures/route.ts:23-34 | A valid request gives 404 when the petition lookup fails, the petition is missing, or its status is not "public". |
| Intake.ExistingRowConflicts | src/app/api/signatures/route.ts:36-51 | A row of any status with the same petition and normalized e-mail gives 409. |
| Intake.SuccessInsertsOneRow | src/app/api/signatures/route.ts:54-67 | Success requires a public petition. It adds exactly one row under a new id, at the end of the creation order. The row is unconfirmed, has no confirmed_at, and holds the request's petition, name, e-mail, normalized e-mail and comment. Its IP is `ClientIp` of the headers, and its user agent is the User-Agent header when non-empty and null otherwise. Existing rows and petitions are unchanged. |
| Intake.HappyPath | src/app/api/signatures/route.ts:15-81 | A request that passes every guard succeeds: the schema accepts it, the petition is public, no row holds its (petition, normalized e-mail), and the insert goes through. Its token is the one signed for the new id and the requested petition. |
| Intake.InsertFailureInternal | src/app/api/signatures/route.ts:69-75 | A failed insert behind passed guards gives 500 and stores nothing. |
| Intake.TokenBindsNewRow | src/app/api/signatures/route.ts:77-81 | The mailed token verifies, until 24 h after the request, to the new row's id and the requested petition. That petition is the one the row was stored under. |
| Intake.EmailFailureIgnored | src/app/api/signatures/route.ts:83-98 | Whether the confirmation e-mail fails changes neither the answer nor the store. |
| Intake.PostPreservesValid | src/app/api/signatures/route.ts:39-67 | Every request keeps the invariant: one row per (petition, normalized e-mail), rows only on existing petitions, confirmed_at set exactly for confirmed rows, and a creation order without repeats. This holds even when the duplicate lookup fails, under the assumed uniqueness constraint (see Left out). |
| Intake.PostKeepsCountsMatch | src/app/api/signatures/route.ts:54-67 | An insert keeps every petition's counter equal to its number of confirmed rows. |
| Intake.SecondSubmissionConflicts | src/app/api/signatures/route.ts:39-51 | After a successful submission, the same request again gives 409. |
| Store.Store.Post | src/app/api/signatures/route.ts:15-113 | The in-place handler keeps the store valid. Its answer and new tables are those of `Intake.Post` applied to the old tables. |
| Store.Store.ConfirmSignature | src/app/api/signatures/confirm/route.ts:34-42 | The in-place transaction keeps the store valid. Its reply and new tables are those of `ConfirmRpc.Confirm` applied to the old tables. |
| ConfirmRpc.SuccessIff | src/app/api/signatures/confirm/route.ts:35-42 | In a valid store, the transaction succeeds exactly when nothing fails and the signature exists and is unconfirmed. |
| ConfirmRpc.FailureLeavesStoreUnchanged | src/app/api/signatures/confirm/route.ts:35-39 | A transaction that does not succeed changes nothing. |
| ConfirmRpc.SuccessEffect | src/app/api/signatures/confirm/route.ts:35-42 | Success marks that signature confirmed at now, adds exactly 1 to the counter of the petition the row belongs to, and reports that petition. The whole new store is stated: every other field of that petition, every other petition and row, and the creation order are unchanged. |
| ConfirmRpc.ConfirmedStaysConfirmed | src/app/api/signatures/confirm/route.ts:35-39 | A confirmed row is never changed: status moves only from unconfirmed to confirmed. |
| ConfirmRpc.SecondConfirmRefused | src/app/api/signatures/confirm/route.ts:10-39 | Single use: after a successful confirmation, a second call for the same signature does not succeed and changes nothing. |
| ConfirmRpc.ConfirmPreservesValid | src/app/api/signatures/confirm/route.ts:35-42 | The transaction keeps the store invariant. |
| ConfirmRpc.ConfirmKeepsCountsMatch | src/app/api/signatures/confirm/route.ts:35-42 | If each counter equals its number of confirmed rows before the transaction, it does after. |
| ConfirmRoute.RespondToReply | src/app/api/signatures/confirm/route.ts:44-80 | The handler redirects exactly when the transaction reports success. An error whose message contains "not_found" or "race_condition" gives 400, and any other error gives 500. An exception gives 500. Data without success gives 400. |
| ConfirmRoute.HandleConfirm | src/app/api/signatures/confirm/route.ts:12-82 | The handler method keeps the store valid. Its response and new tables are those of `ConfirmRoute.Get`. |
| ConfirmRoute.MissingTokenRefused | src/app/api/signatures/confirm/route.ts:14-21 | A missing or empty token gives 400 and changes nothing. |
| ConfirmRoute.UnverifiedTokenRefused | src/app/api/signatures/confirm/route.ts:23-30 | A token that fails verification gives 400 and changes nothing, whatever the transaction would have done. |
| ConfirmRoute.ResponsesAreRedirectsOr400Or500 | src/app/api/signatures/confirm/route.ts:44-80 | Every error response is a 400 or a 500 and leaves the store unchanged. |
| ConfirmRoute.RedeemConfirms | src/app/api/signatures/confirm/route.ts:24-67 | Redeeming an unexpired token for an unconfirmed signature gives exactly the store in which that row is confirmed at now and its petition's counter is 1 higher; nothing else changes. It redirects to `/petitions/<row's petition>?confirmed=true`, falling back to the token's petition only for an empty id. |
| ConfirmRoute.SecondRedeemRefused | src/app/api/signatures/confirm/route.ts:40-73 | After a successful redemption, the same token changes nothing, at any time and under any fault. Without a fault, the answer is 400. |
| ConfirmRoute.GetKeepsCountsMatch | src/app/api/signatures/confirm/route.ts:34-42 | The handler keeps every counter equal to its number of confirmed rows. |
| Names.FirstName | tests/fixtures/petitions.ts:55-63 | The first name shown to authors. By `FirstNameShape` it is the white-space-free run that starts after the name's leading white space and ends at white space or at the end of the name. |
| Names.FirstNameShape | tests/fixtures/petitions.ts:55-63 | The first name contains no white space. It stands in the name after leading white space only, and ends at white space or at the end of the name. |
| Names.FirstNameEmptyIffBlank | tests/fixtures/petitions.ts:62-63 | The first name is empty exactly when the name is blank, including the empty string. |
| Names.SingleTokenIsItsOwnFirstName | tests/fixtures/petitions.ts:57 | A name without white space is its own first name. |
| Names.TrailingTextIgnored | tests/fixtures/petitions.ts:58-61 | Only the first token counts. Everything after the white space that ends it is ignored. |
| Names.LeadingWhitespaceIgnored | tests/fixtures/petitions.ts:59 | Leading white space is skipped. |
| Names.FirstNameIdempotent | tests/fixtures/petitions.ts:56-63 | Taking the first name of a first name changes nothing. |
| Signers.EffectiveLimit | tests/integration/api-signers-hardening.test.ts:329-344 | The limit defaults to 50 and is capped at 200. A request for 500 is served with 200. |
| Signers.EffectiveOffset | tests/integration/api-signers-hardening.test.ts:288-303 | The offset defaults to 0 and is never negative. |
| Signers.ListSigners | tests/integration/api-signers-hardening.test.ts:215-226 | The answer is Unauthorized exactly when there is no caller. Otherwise the effective limit and offset are echoed back, and a page has at most limit entries. |
| Signers.ConfirmedRows | tests/integration/api-signers-hardening.test.ts:259-285 | The listing's confirmed-only filter over the creation order. By `ConfirmedRowsMembership` a row is in it exactly when it is a confirmed row of the petition, and by `ConfirmedRowsDistinct` no id repeats. |
| Signers.Page | tests/integration/api-signers-hardening.test.ts:288-327 | The offset/limit slice. By `PageLength` it holds at most limit rows, and exactly limit when enough follow the offset. By `PagesAdjacent` consecutive pages neither overlap nor skip. |
| Signers.ConfirmedRowsMembership | tests/integration/api-signers-hardening.test.ts:259-285 | A row is listed exactly when it is a confirmed row of the petition (both directions). |
| Signers.ConfirmedRowsDistinct | tests/integration/api-signers-hardening.test.ts:321-326 | The listed rows never repeat a signature. |
| Signers.OwnerTotalCountsConfirmed | tests/integration/api-signers-hardening.test.ts:169-193 | For the owner, the total is the number of confirmed signatures of the petition. When counters are consistent, it equals the petition's signature_count. |
| Signers.NonOwnerSeesNothing | tests/integration/api-signers-hardening.test.ts:195-213 | A caller who does not own the petition gets signers = [] and total = 0 with the echoed paging, not an error. |
| Signers.EntriesAreRedactedConfirmedRows | tests/integration/api-signers-hardening.test.ts:229-285 | Entry i is the row at offset + i of the visible rows. That row is a confirmed row of the owned petition, shown as its first name, verified = true and its confirmation time, which is present. |
| Signers.PageLength | tests/integration/api-signers-hardening.test.ts:288-319 | A page has at most limit entries, and exactly limit when enough rows follow the offset. |
| Signers.PagesAdjacent | tests/integration/api-signers-hardening.test.ts:288-327 | Consecutive pages neither overlap nor skip: page(o, a) + page(o + a, b) = page(o, a + b). |
| Signers.PagesDisjoint | tests/integration/api-signers-hardening.test.ts:321-326 | Pages whose index ranges do not meet share no row id. |
| Signers.ListedPagesDisjoint | tests/integration/api-signers-hardening.test.ts:288-327 | Two pages of one listing at non-overlapping offsets (0 and 10 with limit 10, say) share no signature. |
| Signers.TotalIgnoresPaging | tests/integration/api-signers-hardening.test.ts:169-193 | The total is the same whatever limit and offset are asked for. |
| Fixtures.SingleWordName | tests/fixtures/petitions.ts:57 | "Madonna" gives "Madonna". |
| Fixtures.TwoLetterName | tests/fixtures/petitions.ts:58 | "A B" gives "A". |
| Fixtures.PaddedName | tests/fixtures/petitions.ts:59 | "  John Smith  " gives "John". |
| Fixtures.DevanagariName | tests/fixtures/petitions.ts:60 | "राज कुमार" gives "राज", scanning code points. |
| Fixtures.ThreeWordName | tests/fixtures/petitions.ts:61 | "Mohammed ibn Abdullah" gives "Mohammed". |
| Fixtures.BlankNames | tests/fixtures/petitions.ts:62-63 | "" and "   " both give "". |
| Fixtures.FixtureRows | tests/fixtures/petitions.ts:34-53 | Of the two fixture signatures on P1, only the confirmed one (John Smith) is a listed row. |
| Fixtures.FixtureOwnerListing | tests/fixtures/petitions.ts:17-53 | Author A, who owns P1, gets exactly [{first_name "John", verified true, confirmed_at}] with total 1, limit 50 and offset 0. |
| Fixtures.FixtureOtherCallers | tests/fixtures/petitions.ts:17-53 | Author B, asking about P1, gets an empty page with total 0. Without a caller, the answer is Unauthorized. |

## Left out

- HMAC-SHA256 is the function carried in `SigningKey`, so every token property holds for any MAC function. The model does not capture collision resistance. So a token whose payload was altered while its MAC was kept is not shown to be refused. Only a wrong MAC is (`ForgedMacRejected`).
- `JSON.stringify`, `JSON.parse` and base64url are replaced by the `Wire` encoding, which has the round trip the logic needs. Three input classes are left out: base64url's lenient decoding, JSON with other spacing or key order, and payloads with missing or mistyped fields. One example of the last is a payload without `exp`, for which `Date.now() > undefined` is false. Such payloads would need a MAC made with the secret, and `signToken` never makes one for them.
- The clock (`Date.now()`) and `process.env.SIGNING_SECRET` are parameters. The database's `now()` is taken to be the same clock.
- The UUID and e-mail format checks of the request schema, and `normalizeEmail` (in `@/lib/utils`, not part of this model), are parameters (`Externals`). Their rules are not modelled.
- The database is the `Store` value and class. Its failures are parameters: the petition lookup, the duplicate lookup, the insert, and the confirmation call (error message or exception). The id the database assigns to a new row is also a parameter, and an id clash is an insert failure.
- PostPreservesValid: the database schema is not part of this model. The model assumes the signatures table carries a uniqueness constraint on (petition, normalized e-mail), and the insert fails on it (`InsertRejected`). Without it, a failed duplicate lookup (route.ts:39-51) could let a second row with the same pair in, and `PostPreservesValid` depends on that assumption. Transaction isolation is not modelled.
- Concurrency is left out. This covers the race between the duplicate check and the insert, and simultaneous redemptions of one token. Each method call is one atomic transaction.
- A failed database call is taken to have committed nothing: a reply lost after the database committed is not modelled. So the store is unchanged on every failure in Intake.FailureLeavesStoreUnchanged, Intake.InsertFailureInternal, ConfirmRpc.FailureLeavesStoreUnchanged and ConfirmRoute.ResponsesAreRedirectsOr400Or500. In the running system, a 500 can follow a committed insert or confirmation.
- The body of `confirm_signature` is not part of this model. For a missing signature it answers an error containing "not_found". For an already-confirmed one it answers data `{success: false, reason: "already_confirmed"}`. A "race_condition" error can arise only through the fault parameter.
- `sendSignatureConfirmationEmail` is represented only by its failure flag, which is ignored. The handler's JSON messages, headers and the absolute redirect URL are left out. The redirect is its path.
- Signer listing:
  - The bodies of `get_petition_signers` and `get_petition_signer_count` are not part of this model. Their order is taken to be creation order.
  - Their error responses (500) are left out.
  - Query parameters are integers or absent. `parseInt` giving NaN is not modelled.
  - A negative limit reaches the query unchanged, because the code caps the limit only from above. The model then returns no rows; what the database does with a negative LIMIT is not known.
  - Bearer-credential verification is reduced to an optional caller id.
- The listing's pagination test compares first names. All its fixture rows share the first name "Test", so disjointness is stated over row ids instead.
- Petition fields other than title, status, author and counter are left out, and so is `created_at`. The spellings `pending`, `unconfirmed` and `verified = false` are all `Unconfirmed`. Petition status is kept as the stored string: the fixture petitions are `active`, while intake accepts only `public`; the listing does not read status.
- Page rendering, the petition form, the petition cards and the footer are left out. So is the author test that queries with the service-role key.
- White space in first names is JavaScript's `\s` set. This is a choice: the names are split inside the listing's database function, whose body is not part of this model, and the fixtures use only ASCII spaces.
