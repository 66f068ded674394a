/** The `confirm_signature` database function, as a step on the store value.

    Its body is not part of this model; what is modelled is the contract its
    caller documents: one atomic transaction that refuses a signature already
    used, marks it confirmed and adds one to its petition's counter. The
    single-use gate is the signature's own status: a token names exactly one
    signature, so this is the per-signature nonce the caller mentions. */
module ConfirmRpc {
  import opened Optional
  import opened Schema
  import Tokens

  /** The `data` object of a completed call. */
  datatype ConfirmData = ConfirmData(success: bool, reason: Option<string>, petitionId: Option<PetitionId>)

  /** What the client library hands back: an error object (with an
      optional message), a data value (possibly null), or an exception. */
  datatype RpcReply = RpcError(message: Option<string>) | RpcData(data: Option<ConfirmData>) | RpcThrew

  /** A failure of the database or of the network during the call. */
  datatype RpcFault = NoFault | FailsWith(message: Option<string>) | Throws

  datatype RpcResult = RpcResult(reply: RpcReply, db: Db)

  const NotFoundMessage: string := "not_found"
  const AlreadyConfirmedReason: string := "already_confirmed"

  /** The transaction. A failed transaction changes nothing. */
  function Confirm(db: Db, sid: SignatureId, now: Tokens.Timestamp, fault: RpcFault): RpcResult
  {
    match fault
    case Throws => RpcResult(RpcThrew, db)
    case FailsWith(m) => RpcResult(RpcError(m), db)
    case NoFault =>
      if sid !in db.signatures then RpcResult(RpcError(Some(NotFoundMessage)), db)
      else
        var row := db.signatures[sid];
        if row.status == Confirmed then
          RpcResult(RpcData(Some(ConfirmData(false, Some(AlreadyConfirmedReason), None))), db)
        else if row.petitionId !in db.petitions then
          RpcResult(RpcError(Some(NotFoundMessage)), db)
        else
          var p := db.petitions[row.petitionId];
          RpcResult(RpcData(Some(ConfirmData(true, None, Some(row.petitionId)))),
                    Db(db.petitions[row.petitionId := p.(signatureCount := p.signatureCount + 1)],
                       db.signatures[sid := row.(status := Confirmed, confirmedAt := Some(now))],
                       db.order))
  }

  predicate Succeeded(r: RpcReply)
  {
    r.RpcData? && r.data.Some? && r.data.value.success
  }

  /** Success happens exactly when the signature exists, is still
      unconfirmed (in a valid store its petition exists) and nothing failed. */
  lemma SuccessIff(db: Db, sid: SignatureId, now: Tokens.Timestamp, fault: RpcFault)
    requires Valid(db)
    ensures Succeeded(Confirm(db, sid, now, fault).reply) <==>
              fault == NoFault && sid in db.signatures && db.signatures[sid].status == Unconfirmed
  {
  }

  /** Anything but success leaves the store as it was. */
  lemma FailureLeavesStoreUnchanged(db: Db, sid: SignatureId, now: Tokens.Timestamp, fault: RpcFault)
    requires !Succeeded(Confirm(db, sid, now, fault).reply)
    ensures Confirm(db, sid, now, fault).db == db
  {
  }

  /** A success confirms that one signature at `now`, adds exactly one to
      the counter of the petition the ROW belongs to, and changes no other
      row, petition or the creation order. */
  lemma SuccessEffect(db: Db, sid: SignatureId, now: Tokens.Timestamp, fault: RpcFault)
    requires Succeeded(Confirm(db, sid, now, fault).reply)
    ensures sid in db.signatures && db.signatures[sid].status == Unconfirmed
    ensures var pid := db.signatures[sid].petitionId;
            var r := Confirm(db, sid, now, fault);
            && pid in db.petitions
            && r.reply.data.value.petitionId == Some(pid)
            && r.db.signatures == db.signatures[sid := db.signatures[sid].(status := Confirmed, confirmedAt := Some(now))]
            && r.db.petitions == db.petitions[pid := db.petitions[pid].(signatureCount := db.petitions[pid].signatureCount + 1)]
            && r.db.order == db.order
  {
  }

  /** Status only moves forward: a confirmed row stays confirmed, with the
      same confirmation time. */
  lemma ConfirmedStaysConfirmed(db: Db, sid: SignatureId, now: Tokens.Timestamp, fault: RpcFault, other: SignatureId)
    requires other in db.signatures && db.signatures[other].status == Confirmed
    ensures var r := Confirm(db, sid, now, fault).db;
            other in r.signatures && r.signatures[other] == db.signatures[other]
  {
  }

  /** Single use: once a signature has been confirmed, a second call for it
      does not succeed and changes nothing, whatever the clock. */
  lemma {:induction false} SecondConfirmRefused(db: Db, sid: SignatureId, now: Tokens.Timestamp, now2: Tokens.Timestamp, fault2: RpcFault)
    requires Succeeded(Confirm(db, sid, now, NoFault).reply)
    ensures var db1 := Confirm(db, sid, now, NoFault).db;
            && !Succeeded(Confirm(db1, sid, now2, fault2).reply)
            && Confirm(db1, sid, now2, fault2).db == db1
  {
    SuccessEffect(db, sid, now, NoFault);
    var db1 := Confirm(db, sid, now, NoFault).db;
    assert db1.signatures[sid].status == Confirmed;
  }

  lemma {:induction false} ConfirmPreservesValid(db: Db, sid: SignatureId, now: Tokens.Timestamp, fault: RpcFault)
    requires Valid(db)
    ensures Valid(Confirm(db, sid, now, fault).db)
  {
    var r := Confirm(db, sid, now, fault);
    if Succeeded(r.reply) {
      SuccessEffect(db, sid, now, fault);
      var sigs := r.db.signatures;
      forall a, b | a in sigs && b in sigs && a != b
        ensures sigs[a].petitionId != sigs[b].petitionId || sigs[a].emailNormalized != sigs[b].emailNormalized
      {
        assert sigs[a].petitionId == db.signatures[a].petitionId;
        assert sigs[a].emailNormalized == db.signatures[a].emailNormalized;
        assert sigs[b].petitionId == db.signatures[b].petitionId;
        assert sigs[b].emailNormalized == db.signatures[b].emailNormalized;
      }
    }
  }

  /** The counter invariant: if every petition's signature_count equals its
      number of confirmed rows before the call, it does after. */
  lemma {:induction false} ConfirmKeepsCountsMatch(db: Db, sid: SignatureId, now: Tokens.Timestamp, fault: RpcFault)
    requires CountsMatch(db)
    ensures CountsMatch(Confirm(db, sid, now, fault).db)
  {
    var r := Confirm(db, sid, now, fault);
    if Succeeded(r.reply) {
      SuccessEffect(db, sid, now, fault);
      var target := db.signatures[sid].petitionId;
      forall pid | pid in r.db.petitions
        ensures r.db.petitions[pid].signatureCount == |ConfirmedOf(r.db, pid)|
      {
        if pid == target {
          assert r.db.petitions[pid].signatureCount == db.petitions[pid].signatureCount + 1;
          assert ConfirmedOf(r.db, pid) == ConfirmedOf(db, pid) + {sid};
          assert sid !in ConfirmedOf(db, pid);
        } else {
          assert r.db.petitions[pid] == db.petitions[pid];
          assert ConfirmedOf(r.db, pid) == ConfirmedOf(db, pid);
        }
      }
    }
  }
}
