/** Signature intake (`POST /api/signatures`) as a function on the store
    value: a fixed chain of guards in front of a single insert.

    Collaborators the model does not define are parameters: the UUID and
    e-mail format checks of the request schema, e-mail normalisation, the
    signing key, the clock, the id the database assigns to a new row, and
    which database or mail calls fail. */
module Intake {
  import opened Optional
  import opened Schema
  import Tokens

  const MinNameLength: nat := 2
  const MaxNameLength: nat := 200
  const MaxCommentLength: nat := 1000

  /** The optional comment as the JSON body carries it: absent, a string,
      or some other JSON value (`null` included), which the schema refuses. */
  datatype CommentField = Absent | Text(text: string) | NotText

  /** The fields of the JSON body; None for a required field that is absent
      or not a string. */
  datatype RequestBody = RequestBody(
    petitionId: Option<string>,
    name: Option<string>,
    email: Option<string>,
    comment: CommentField)

  /** The request headers the handler reads. */
  datatype Headers = Headers(forwardedFor: Option<string>, realIp: Option<string>, userAgent: Option<string>)

  /** `body` is None when the body is not JSON at all. */
  datatype Request = Request(body: Option<RequestBody>, headers: Headers)

  /** A request that passed the schema. */
  datatype SignatureInput = SignatureInput(petitionId: PetitionId, name: string, email: string, comment: Option<string>)

  datatype Externals = Externals(
    isUuid: string -> bool,
    isEmail: string -> bool,
    normalizeEmail: string -> string)

  /** Which collaborator calls fail during this request. */
  datatype IntakeFaults = IntakeFaults(petitionLookup: bool, duplicateLookup: bool, insert: bool, email: bool)

  datatype IntakeEnv = IntakeEnv(
    ext: Externals,
    key: Tokens.SigningKey,
    now: Tokens.Timestamp,
    newId: SignatureId,
    faults: IntakeFaults)

  /** `Ok` carries the token that is mailed to the signer; the HTTP body
      itself is only `{success, message}`. */
  datatype PostOutcome = Ok(token: string) | BadRequest | NotFound | Conflict | Internal

  datatype PostResult = PostResult(outcome: PostOutcome, db: Db)

  /** Length as JavaScript counts it: UTF-16 code units, so a character
      outside the Basic Multilingual Plane counts twice. */
  function Utf16Length(s: string): (n: nat)
    ensures |s| <= n <= 2 * |s|
    ensures (forall i :: 0 <= i < |s| ==> s[i] as int < 0x1_0000) ==> n == |s|
  {
    if s == [] then 0 else (if s[0] as int >= 0x1_0000 then 2 else 1) + Utf16Length(s[1..])
  }

  /** The request schema: a UUID petition id, a name of 2 to 200 and a
      comment of at most 1000 UTF-16 units, and a valid e-mail address. */
  predicate SchemaAccepts(b: RequestBody, ext: Externals)
  {
    && b.petitionId.Some? && ext.isUuid(b.petitionId.value)
    && b.name.Some? && MinNameLength <= Utf16Length(b.name.value) <= MaxNameLength
    && b.email.Some? && ext.isEmail(b.email.value)
    && !b.comment.NotText?
    && (b.comment.Text? ==> Utf16Length(b.comment.text) <= MaxCommentLength)
  }

  /** The comment stored for an accepted body: its text, or null when absent. */
  function StoredComment(c: CommentField): Option<string>
  {
    if c.Text? then Some(c.text) else None
  }

  function Validate(b: RequestBody, ext: Externals): (r: Option<SignatureInput>)
    ensures r.Some? <==> SchemaAccepts(b, ext)
    ensures r.Some? ==>
              r.value == SignatureInput(b.petitionId.value, b.name.value, b.email.value, StoredComment(b.comment))
  {
    match (b.petitionId, b.name, b.email)
    case (Some(pid), Some(name), Some(email)) =>
      if ext.isUuid(pid) && MinNameLength <= Utf16Length(name) <= MaxNameLength && ext.isEmail(email)
         && (match b.comment
             case Absent => true
             case Text(c) => Utf16Length(c) <= MaxCommentLength
             case NotText => false)
      then Some(SignatureInput(pid, name, email, StoredComment(b.comment)))
      else None
    case _ => None
  }

  /** The client address: the first non-empty of X-Forwarded-For and
      X-Real-IP, else null. */
  function ClientIp(h: Headers): (ip: Option<string>)
    ensures ip.Some? ==> ip.value != ""
    ensures Truthy(h.forwardedFor) ==> ip == h.forwardedFor
    ensures !Truthy(h.forwardedFor) && Truthy(h.realIp) ==> ip == h.realIp
    ensures !Truthy(h.forwardedFor) && !Truthy(h.realIp) ==> ip == None
  {
    if Truthy(h.forwardedFor) then h.forwardedFor
    else if Truthy(h.realIp) then h.realIp
    else None
  }

  /** The row the handler inserts. */
  function NewRow(v: SignatureInput, emailNormalized: string, h: Headers): Signature
  {
    Signature(v.petitionId, v.name, v.email, emailNormalized, v.comment,
              ClientIp(h), if Truthy(h.userAgent) then h.userAgent else None,
              Unconfirmed, None)
  }

  /** The insert fails on a database error, on a clash of primary keys, and
      on a uniqueness constraint over (petition, normalized email) that the
      table is assumed to carry. */
  predicate InsertRejected(db: Db, env: IntakeEnv, pid: PetitionId, emailNormalized: string)
  {
    env.faults.insert || env.newId in db.signatures || HasKey(db.signatures, pid, emailNormalized)
  }

  /** The whole handler: what it answers and what the store holds afterwards.
      The duplicate check runs before the insert; when that lookup itself
      fails, its result is treated as "no row", as `.single()` gives no data. */
  function Post(db: Db, req: Request, env: IntakeEnv): PostResult
  {
    if req.body.None? then PostResult(Internal, db)
    else
      match Validate(req.body.value, env.ext)
      case None => PostResult(BadRequest, db)
      case Some(v) =>
        if env.faults.petitionLookup || v.petitionId !in db.petitions
           || db.petitions[v.petitionId].status != "public"
        then PostResult(NotFound, db)
        else
          var en := env.ext.normalizeEmail(v.email);
          if !env.faults.duplicateLookup && HasKey(db.signatures, v.petitionId, en) then
            PostResult(Conflict, db)
          else if InsertRejected(db, env, v.petitionId, en) then
            PostResult(Internal, db)
          else
            var token := Tokens.SignToken(Tokens.Claims(env.newId, v.petitionId), env.now, env.key);
            PostResult(Ok(token), Db(db.petitions,
                                     db.signatures[env.newId := NewRow(v, en, req.headers)],
                                     db.order + [env.newId]))
  }

  /** A comment that is present but not a string, `null` included, makes
      the request a 400, whatever else the body holds. */
  lemma NonTextCommentRefused(db: Db, req: Request, env: IntakeEnv)
    requires req.body.Some? && req.body.value.comment.NotText?
    ensures Post(db, req, env).outcome == BadRequest
    ensures Post(db, req, env).db == db
  {
  }

  /** Every answer other than success leaves the store as it was. */
  lemma FailureLeavesStoreUnchanged(db: Db, req: Request, env: IntakeEnv)
    requires !Post(db, req, env).outcome.Ok?
    ensures Post(db, req, env).db == db
  {
  }

  /** A body that is not JSON is a 500; one the schema refuses is a 400. */
  lemma MalformedRequests(db: Db, req: Request, env: IntakeEnv)
    ensures req.body.None? ==> Post(db, req, env).outcome == Internal
    ensures req.body.Some? && !SchemaAccepts(req.body.value, env.ext) ==>
              Post(db, req, env).outcome == BadRequest
  {
  }

  /** A valid request for a missing or non-public petition, or whose
      petition lookup failed, is a 404. */
  lemma UnavailablePetitionNotFound(db: Db, req: Request, env: IntakeEnv)
    requires req.body.Some? && SchemaAccepts(req.body.value, env.ext)
    requires var pid := req.body.value.petitionId.value;
             env.faults.petitionLookup || pid !in db.petitions || db.petitions[pid].status != "public"
    ensures Post(db, req, env).outcome == NotFound
  {
  }

  /** A row for the same petition and normalized e-mail, of any status,
      makes the request a 409. */
  lemma ExistingRowConflicts(db: Db, req: Request, env: IntakeEnv)
    requires req.body.Some? && SchemaAccepts(req.body.value, env.ext)
    requires var pid := req.body.value.petitionId.value;
             !env.faults.petitionLookup && pid in db.petitions && db.petitions[pid].status == "public"
    requires !env.faults.duplicateLookup
    requires HasKey(db.signatures, req.body.value.petitionId.value,
                    env.ext.normalizeEmail(req.body.value.email.value))
    ensures Post(db, req, env).outcome == Conflict
  {
  }

  /** Success needs a public petition and inserts exactly one unconfirmed
      row, under the new id and at the end of the creation order; nothing
      else changes. */
  lemma SuccessInsertsOneRow(db: Db, req: Request, env: IntakeEnv)
    requires Post(db, req, env).outcome.Ok?
    ensures req.body.Some? && SchemaAccepts(req.body.value, env.ext)
    ensures var pid := req.body.value.petitionId.value;
            pid in db.petitions && db.petitions[pid].status == "public"
    ensures env.newId !in db.signatures
    ensures var r := Post(db, req, env).db;
            && r.petitions == db.petitions
            && r.order == db.order + [env.newId]
            && r.signatures.Keys == db.signatures.Keys + {env.newId}
            && |r.signatures| == |db.signatures| + 1
            && (forall sid :: sid in db.signatures ==> r.signatures[sid] == db.signatures[sid])
    ensures var row := Post(db, req, env).db.signatures[env.newId];
            var b := req.body.value;
            && row.status == Unconfirmed && row.confirmedAt == None
            && row.petitionId == b.petitionId.value
            && row.name == b.name.value && row.email == b.email.value
            && row.emailNormalized == env.ext.normalizeEmail(b.email.value)
            && row.comment == (if b.comment.Text? then Some(b.comment.text) else None)
            && row.ip == ClientIp(req.headers)
            && row.userAgent == (if Truthy(req.headers.userAgent) then req.headers.userAgent else None)
  {
  }

  /** The converse of the guards: a request the schema accepts, for a
      public petition, with no row for its (petition, normalized email)
      and an insert that goes through, succeeds, and its token is the
      one signed for the new id and the requested petition. */
  lemma HappyPath(db: Db, req: Request, env: IntakeEnv)
    requires req.body.Some? && SchemaAccepts(req.body.value, env.ext)
    requires var pid := req.body.value.petitionId.value;
             !env.faults.petitionLookup && pid in db.petitions && db.petitions[pid].status == "public"
    requires !HasKey(db.signatures, req.body.value.petitionId.value,
                     env.ext.normalizeEmail(req.body.value.email.value))
    requires !env.faults.insert && env.newId !in db.signatures
    ensures Post(db, req, env).outcome
            == Ok(Tokens.SignToken(Tokens.Claims(env.newId, req.body.value.petitionId.value),
                                   env.now, env.key))
  {
  }

  /** A failed insert behind passed guards is a 500, and nothing is stored. */
  lemma InsertFailureInternal(db: Db, req: Request, env: IntakeEnv)
    requires req.body.Some? && SchemaAccepts(req.body.value, env.ext)
    requires var pid := req.body.value.petitionId.value;
             !env.faults.petitionLookup && pid in db.petitions && db.petitions[pid].status == "public"
    requires !HasKey(db.signatures, req.body.value.petitionId.value,
                     env.ext.normalizeEmail(req.body.value.email.value))
    requires env.faults.insert
    ensures Post(db, req, env) == PostResult(Internal, db)
  {
  }

  /** The mailed token binds the new row and the requested petition, and
      verifies until one token lifetime after the request. */
  lemma TokenBindsNewRow(db: Db, req: Request, env: IntakeEnv, later: Tokens.Timestamp)
    requires Post(db, req, env).outcome.Ok?
    requires later <= env.now + Tokens.TokenLifetimeMs
    ensures req.body.Some? && req.body.value.petitionId.Some?
    ensures Tokens.VerifyToken(Post(db, req, env).outcome.token, env.key, later)
            == Some(Tokens.TokenPayload(env.newId, req.body.value.petitionId.value,
                                        env.now + Tokens.TokenLifetimeMs))
    ensures Post(db, req, env).db.signatures[env.newId].petitionId == req.body.value.petitionId.value
  {
    var v := Validate(req.body.value, env.ext).value;
    Tokens.SignThenVerify(Tokens.Claims(env.newId, v.petitionId), env.now, later, env.key);
  }

  /** A failed confirmation e-mail changes neither the answer nor the store. */
  lemma EmailFailureIgnored(db: Db, req: Request, env: IntakeEnv, emailFails: bool)
    ensures Post(db, req, env) == Post(db, req, env.(faults := env.faults.(email := emailFails)))
  {
  }

  /** Every request keeps the store's invariant, uniqueness of
      (petition, normalized email) in particular, even when the duplicate
      lookup fails. */
  lemma {:induction false} PostPreservesValid(db: Db, req: Request, env: IntakeEnv)
    requires Valid(db)
    ensures Valid(Post(db, req, env).db)
  {
    var r := Post(db, req, env);
    if r.outcome.Ok? {
      var v := Validate(req.body.value, env.ext).value;
      var en := env.ext.normalizeEmail(v.email);
      var row := NewRow(v, en, req.headers);
      var sigs := db.signatures[env.newId := row];
      assert r.db == Db(db.petitions, sigs, db.order + [env.newId]);
      assert !HasKey(db.signatures, v.petitionId, en);
      forall a, b | a in sigs && b in sigs && a != b
        ensures sigs[a].petitionId != sigs[b].petitionId || sigs[a].emailNormalized != sigs[b].emailNormalized
      {
        if a == env.newId {
          assert sigs[b] == db.signatures[b];
        } else if b == env.newId {
          assert sigs[a] == db.signatures[a];
        }
      }
      assert env.newId !in db.order;
      forall i, j | 0 <= i < j < |r.db.order| ensures r.db.order[i] != r.db.order[j] {
        if j == |db.order| {
          assert r.db.order[i] == db.order[i];
          assert db.order[i] in db.order;
        }
      }
      forall sid ensures sid in r.db.order <==> sid in sigs {
        assert sid in r.db.order <==> sid in db.order || sid == env.newId;
      }
    }
  }

  /** An insert adds an unconfirmed row, so every petition's counter still
      equals its number of confirmed rows. */
  lemma {:induction false} PostKeepsCountsMatch(db: Db, req: Request, env: IntakeEnv)
    requires CountsMatch(db)
    ensures CountsMatch(Post(db, req, env).db)
  {
    var r := Post(db, req, env);
    if r.outcome.Ok? {
      forall pid | pid in r.db.petitions
        ensures r.db.petitions[pid].signatureCount == |ConfirmedOf(r.db, pid)|
      {
        assert ConfirmedOf(r.db, pid) == ConfirmedOf(db, pid);
      }
    }
  }

  /** Submitting the same request again after a success is a 409: the
      first row now holds its (petition, normalized email) pair. */
  lemma {:induction false} SecondSubmissionConflicts(db: Db, req: Request, env: IntakeEnv,
                                                     now2: Tokens.Timestamp, newId2: SignatureId,
                                                     faults2: IntakeFaults)
    requires Post(db, req, env).outcome.Ok?
    requires !faults2.petitionLookup && !faults2.duplicateLookup
    ensures Post(Post(db, req, env).db, req, env.(now := now2, newId := newId2, faults := faults2)).outcome
            == Conflict
  {
    var r := Post(db, req, env).db;
    var b := req.body.value;
    var en := env.ext.normalizeEmail(b.email.value);
    SuccessInsertsOneRow(db, req, env);
    assert r.signatures[env.newId].petitionId == b.petitionId.value;
    assert HasKey(r.signatures, b.petitionId.value, en);
  }
}
