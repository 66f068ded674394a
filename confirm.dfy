/** `GET /api/signatures/confirm?token=...`: verify the token, run the
    confirmation transaction, and turn what came back into a response. */
module ConfirmRoute {
  import opened Optional
  import opened Schema
  import Tokens
  import ConfirmRpc
  import Store

  datatype ConfirmResponse = Redirect(location: string) | JsonError(status: nat, error: string)

  datatype ConfirmResult = ConfirmResult(response: ConfirmResponse, db: Db)

  const MissingTokenError: string := "Missing confirmation token"
  const InvalidTokenError: string := "Invalid or expired confirmation link"
  const UsedLinkError: string := "This confirmation link has already been used or is invalid"
  const FailedError: string := "Failed to confirm signature"
  const DefaultRefusal: string := "Signature already confirmed or invalid"
  const InternalError: string := "Internal server error"

  /** `s.includes(sub)`: sub is a prefix of some suffix of s. */
  predicate Contains(s: string, sub: string)
    decreases |s|
  {
    sub <= s || (s != [] && Contains(s[1..], sub))
  }

  /** An error message that names a missing signature or a lost race. */
  predicate NamesUsedLink(message: Option<string>)
  {
    message.Some? && (Contains(message.value, "not_found") || Contains(message.value, "race_condition"))
  }

  /** The petition page to return to: the petition the transaction reports,
      or, when it reports none (or an empty id), the one in the token. */
  function RedirectTarget(data: ConfirmRpc.ConfirmData, payload: Tokens.TokenPayload): string
  {
    "/petitions/" + (if Truthy(data.petitionId) then data.petitionId.value else payload.petitionId)
      + "?confirmed=true"
  }

  /** The response for what the transaction gave back. */
  function RespondToReply(reply: ConfirmRpc.RpcReply, payload: Tokens.TokenPayload): (resp: ConfirmResponse)
    ensures resp.Redirect? <==> ConfirmRpc.Succeeded(reply)
    ensures resp.JsonError? ==> resp.status == 400 || resp.status == 500
    ensures reply.RpcError? ==> resp.JsonError? && (resp.status == 400 <==> NamesUsedLink(reply.message))
    ensures reply.RpcThrew? ==> resp == JsonError(500, InternalError)
    ensures reply.RpcData? && !ConfirmRpc.Succeeded(reply) ==> resp.JsonError? && resp.status == 400
  {
    match reply
    case RpcThrew => JsonError(500, InternalError)
    case RpcError(m) =>
      if NamesUsedLink(m) then JsonError(400, UsedLinkError) else JsonError(500, FailedError)
    case RpcData(data) =>
      if data.Some? && data.value.success then Redirect(RedirectTarget(data.value, payload))
      else JsonError(400, if data.Some? && Truthy(data.value.reason) then data.value.reason.value else DefaultRefusal)
  }

  /** The whole handler as a function of the store, the query parameter, the
      key, the clock and the transaction's fault. */
  function Get(db: Db, token: Option<string>, key: Tokens.SigningKey, now: Tokens.Timestamp,
               fault: ConfirmRpc.RpcFault): ConfirmResult
  {
    if !Truthy(token) then ConfirmResult(JsonError(400, MissingTokenError), db)
    else
      match Tokens.VerifyToken(token.value, key, now)
      case None => ConfirmResult(JsonError(400, InvalidTokenError), db)
      case Some(payload) =>
        var r := ConfirmRpc.Confirm(db, payload.signatureId, now, fault);
        ConfirmResult(RespondToReply(r.reply, payload), r.db)
  }

  /** The handler itself, running the transaction on the store. */
  method HandleConfirm(store: Store.Store, token: Option<string>, key: Tokens.SigningKey,
                       now: Tokens.Timestamp, fault: ConfirmRpc.RpcFault)
    returns (resp: ConfirmResponse)
    requires store.Valid()
    modifies store
    ensures store.Valid()
    ensures resp == Get(old(store.Snapshot()), token, key, now, fault).response
    ensures store.Snapshot() == Get(old(store.Snapshot()), token, key, now, fault).db
  {
    if !Truthy(token) {
      return JsonError(400, MissingTokenError);
    }
    var payload := Tokens.VerifyToken(token.value, key, now);
    if payload.None? {
      return JsonError(400, InvalidTokenError);
    }
    var reply := store.ConfirmSignature(payload.value.signatureId, now, fault);
    resp := RespondToReply(reply, payload.value);
  }

  /** No token, or an empty one: 400 and nothing changes. */
  lemma MissingTokenRefused(db: Db, token: Option<string>, key: Tokens.SigningKey, now: Tokens.Timestamp,
                            fault: ConfirmRpc.RpcFault)
    requires !Truthy(token)
    ensures Get(db, token, key, now, fault) == ConfirmResult(JsonError(400, MissingTokenError), db)
  {
  }

  /** A token that does not verify is a 400 and the transaction is never
      run: the outcome is the same whatever the transaction would have done. */
  lemma UnverifiedTokenRefused(db: Db, token: string, key: Tokens.SigningKey, now: Tokens.Timestamp,
                               fault: ConfirmRpc.RpcFault)
    requires token != ""
    requires Tokens.VerifyToken(token, key, now).None?
    ensures Get(db, Some(token), key, now, fault) == ConfirmResult(JsonError(400, InvalidTokenError), db)
  {
  }

  /** Every failure response is a 400 or a 500 and leaves the store as it was. */
  lemma ResponsesAreRedirectsOr400Or500(db: Db, token: Option<string>, key: Tokens.SigningKey,
                                        now: Tokens.Timestamp, fault: ConfirmRpc.RpcFault)
    ensures var r := Get(db, token, key, now, fault);
            (r.response.JsonError? ==> (r.response.status == 400 || r.response.status == 500) && r.db == db)
  {
    if Truthy(token) && Tokens.VerifyToken(token.value, key, now).Some? {
      var p := Tokens.VerifyToken(token.value, key, now).value;
      var r := ConfirmRpc.Confirm(db, p.signatureId, now, fault);
      if !ConfirmRpc.Succeeded(r.reply) {
        ConfirmRpc.FailureLeavesStoreUnchanged(db, p.signatureId, now, fault);
      }
    }
  }

  /** Redeeming the token mailed for an unconfirmed signature, before it
      expires, confirms that signature, adds one to the counter of the
      signature's own petition and redirects to that petition's page. The
      petition named in the token serves only as a fallback for the
      redirect. */
  lemma {:induction false} RedeemConfirms(db: Db, sid: SignatureId, tokenPetition: PetitionId,
                                          issued: Tokens.Timestamp, now: Tokens.Timestamp, key: Tokens.SigningKey)
    requires Valid(db)
    requires sid in db.signatures && db.signatures[sid].status == Unconfirmed
    requires now <= issued + Tokens.TokenLifetimeMs
    ensures var pid := db.signatures[sid].petitionId;
            var token := Tokens.SignToken(Tokens.Claims(sid, tokenPetition), issued, key);
            var r := Get(db, Some(token), key, now, ConfirmRpc.NoFault);
            && pid in db.petitions
            && r.response == Redirect("/petitions/" + (if pid != "" then pid else tokenPetition) + "?confirmed=true")
            && r.db == Db(db.petitions[pid := db.petitions[pid].(signatureCount := db.petitions[pid].signatureCount + 1)],
                          db.signatures[sid := db.signatures[sid].(status := Confirmed, confirmedAt := Some(now))],
                          db.order)
  {
    var token := Tokens.SignToken(Tokens.Claims(sid, tokenPetition), issued, key);
    Tokens.SignThenVerify(Tokens.Claims(sid, tokenPetition), issued, now, key);
    assert token != "";
    ConfirmRpc.SuccessIff(db, sid, now, ConfirmRpc.NoFault);
    ConfirmRpc.SuccessEffect(db, sid, now, ConfirmRpc.NoFault);
  }

  /** Single use: whatever the first call answered, once it has confirmed
      the signature named by a token, calling again with that token changes
      nothing, and without a transport fault the answer is a 400. */
  lemma {:induction false} SecondRedeemRefused(db: Db, token: Option<string>, key: Tokens.SigningKey,
                                               now: Tokens.Timestamp, now2: Tokens.Timestamp,
                                               fault2: ConfirmRpc.RpcFault)
    requires Get(db, token, key, now, ConfirmRpc.NoFault).response.Redirect?
    ensures var db1 := Get(db, token, key, now, ConfirmRpc.NoFault).db;
            var r2 := Get(db1, token, key, now2, fault2);
            && r2.db == db1
            && (fault2 == ConfirmRpc.NoFault ==> r2.response.JsonError? && r2.response.status == 400)
  {
    var p := Tokens.VerifyToken(token.value, key, now).value;
    var db1 := Get(db, token, key, now, ConfirmRpc.NoFault).db;
    ConfirmRpc.SecondConfirmRefused(db, p.signatureId, now, now2, fault2);
    if Tokens.VerifyToken(token.value, key, now2).Some? {
      // The token decodes to the same payload whenever it verifies.
      assert Tokens.VerifyToken(token.value, key, now2).value == p;
    }
  }

  /** The handler keeps the counter invariant. */
  lemma GetKeepsCountsMatch(db: Db, token: Option<string>, key: Tokens.SigningKey, now: Tokens.Timestamp,
                            fault: ConfirmRpc.RpcFault)
    requires CountsMatch(db)
    ensures CountsMatch(Get(db, token, key, now, fault).db)
  {
    if Truthy(token) && Tokens.VerifyToken(token.value, key, now).Some? {
      var p := Tokens.VerifyToken(token.value, key, now).value;
      ConfirmRpc.ConfirmKeepsCountsMatch(db, p.signatureId, now, fault);
    }
  }
}
