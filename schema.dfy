/** The two tables the core reads and writes, as one value: petitions and
    signatures keyed by id, plus the order in which signature rows were
    inserted (their creation order, used for stable listing). */
module Schema {
  import opened Optional
  import Tokens

  type PetitionId = string
  type SignatureId = string
  type UserId = string

  /** A signature row's status. The source spells the not-yet-confirmed
      state both `unconfirmed` and `pending`; both are Unconfirmed here. */
  datatype Status = Unconfirmed | Confirmed

  /** A petition row: `status` is the stored text (`public`, `draft`, ...). */
  datatype Petition = Petition(title: string, status: string, authorId: UserId, signatureCount: nat)

  datatype Signature = Signature(
    petitionId: PetitionId,
    name: string,
    email: string,
    emailNormalized: string,
    comment: Option<string>,
    ip: Option<string>,
    userAgent: Option<string>,
    status: Status,
    confirmedAt: Option<Tokens.Timestamp>)

  datatype Db = Db(
    petitions: map<PetitionId, Petition>,
    signatures: map<SignatureId, Signature>,
    order: seq<SignatureId>)

  /** Some row already holds this (petition, normalized email) pair. */
  predicate HasKey(sigs: map<SignatureId, Signature>, pid: PetitionId, emailNormalized: string)
  {
    exists sid :: sid in sigs && sigs[sid].petitionId == pid && sigs[sid].emailNormalized == emailNormalized
  }

  /** At most one row per (petition, normalized email), whatever its status. */
  ghost predicate UniqueKeys(sigs: map<SignatureId, Signature>)
  {
    forall a, b :: a in sigs && b in sigs && a != b ==>
      sigs[a].petitionId != sigs[b].petitionId || sigs[a].emailNormalized != sigs[b].emailNormalized
  }

  predicate Distinct<T(==)>(s: seq<T>)
  {
    forall i, j :: 0 <= i < j < |s| ==> s[i] != s[j]
  }

  ghost predicate Valid(db: Db)
  {
    && UniqueKeys(db.signatures)
    // every signature belongs to an existing petition
    && (forall sid :: sid in db.signatures ==> db.signatures[sid].petitionId in db.petitions)
    // confirmed_at is set exactly when the row is confirmed
    && (forall sid :: sid in db.signatures ==>
          (db.signatures[sid].status == Confirmed <==> db.signatures[sid].confirmedAt.Some?))
    // the creation order lists every row once
    && Distinct(db.order)
    && (forall sid :: sid in db.order <==> sid in db.signatures)
  }

  /** The confirmed signatures of one petition. */
  function ConfirmedOf(db: Db, pid: PetitionId): set<SignatureId>
  {
    set sid | sid in db.signatures && db.signatures[sid].petitionId == pid
                                   && db.signatures[sid].status == Confirmed
  }

  /** The denormalized counter agrees with the confirmed rows. */
  ghost predicate CountsMatch(db: Db)
  {
    forall pid :: pid in db.petitions ==> db.petitions[pid].signatureCount == |ConfirmedOf(db, pid)|
  }
}
