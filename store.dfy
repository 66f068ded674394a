/** The database as one object updated in place. Each method call stands
    for one transaction; the methods are proved against the functions of
    `Intake` and `ConfirmRpc`, whose properties are proved there. */
module Store {
  import opened Optional
  import opened Schema
  import Tokens
  import Intake
  import ConfirmRpc

  class Store {
    var petitions: map<PetitionId, Petition>
    var signatures: map<SignatureId, Signature>
    var order: seq<SignatureId>

    /** The store's contents as a value. */
    function Snapshot(): Db
      reads this
    {
      Db(petitions, signatures, order)
    }

    ghost predicate Valid()
      reads this
    {
      Schema.Valid(Snapshot())
    }

    /** A store holding the given petitions and no signatures. */
    constructor (initial: map<PetitionId, Petition>)
      ensures Valid()
      ensures Snapshot() == Db(initial, map[], [])
    {
      petitions := initial;
      signatures := map[];
      order := [];
    }

    /** `POST /api/signatures`. */
    method Post(req: Intake.Request, env: Intake.IntakeEnv) returns (outcome: Intake.PostOutcome)
      requires Valid()
      modifies this
      ensures Valid()
      ensures outcome == Intake.Post(old(Snapshot()), req, env).outcome
      ensures Snapshot() == Intake.Post(old(Snapshot()), req, env).db
    {
      Intake.PostPreservesValid(Snapshot(), req, env);
      if req.body.None? {
        return Intake.Internal;
      }
      var input := Intake.Validate(req.body.value, env.ext);
      if input.None? {
        return Intake.BadRequest;
      }
      var v := input.value;
      if env.faults.petitionLookup || v.petitionId !in petitions || petitions[v.petitionId].status != "public" {
        return Intake.NotFound;
      }
      var emailNormalized := env.ext.normalizeEmail(v.email);
      if !env.faults.duplicateLookup && HasKey(signatures, v.petitionId, emailNormalized) {
        return Intake.Conflict;
      }
      if Intake.InsertRejected(Snapshot(), env, v.petitionId, emailNormalized) {
        return Intake.Internal;
      }
      signatures := signatures[env.newId := Intake.NewRow(v, emailNormalized, req.headers)];
      order := order + [env.newId];
      var token := Tokens.SignToken(Tokens.Claims(env.newId, v.petitionId), env.now, env.key);
      // The e-mail is sent here; whether it fails does not change the answer.
      outcome := Intake.Ok(token);
    }

    /** The `confirm_signature` transaction. */
    method ConfirmSignature(sid: SignatureId, now: Tokens.Timestamp, fault: ConfirmRpc.RpcFault)
      returns (reply: ConfirmRpc.RpcReply)
      requires Valid()
      modifies this
      ensures Valid()
      ensures reply == ConfirmRpc.Confirm(old(Snapshot()), sid, now, fault).reply
      ensures Snapshot() == ConfirmRpc.Confirm(old(Snapshot()), sid, now, fault).db
    {
      ConfirmRpc.ConfirmPreservesValid(Snapshot(), sid, now, fault);
      match fault {
        case Throws =>
          return ConfirmRpc.RpcThrew;
        case FailsWith(m) =>
          return ConfirmRpc.RpcError(m);
        case NoFault =>
      }
      if sid !in signatures {
        return ConfirmRpc.RpcError(Some(ConfirmRpc.NotFoundMessage));
      }
      var row := signatures[sid];
      if row.status == Confirmed {
        return ConfirmRpc.RpcData(Some(ConfirmRpc.ConfirmData(false, Some(ConfirmRpc.AlreadyConfirmedReason), None)));
      }
      var pid := row.petitionId;
      var p := petitions[pid];
      signatures := signatures[sid := row.(status := Confirmed, confirmedAt := Some(now))];
      petitions := petitions[pid := p.(signatureCount := p.signatureCount + 1)];
      reply := ConfirmRpc.RpcData(Some(ConfirmRpc.ConfirmData(true, None, Some(pid))));
    }
  }
}
