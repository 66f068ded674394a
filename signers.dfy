/** The signer listing for petition authors
    (`GET /api/petitions/{id}/signers?limit=&offset=`): a pure query.

    Authorization is a filter, not a check: a caller who does not own the
    petition gets the same empty page as an owner with no confirmed
    signers. Rows are listed in creation order, which is stable. */
module Signers {
  import opened Optional
  import opened Schema
  import Tokens
  import Names

  const DefaultLimit: int := 50
  const MaxLimit: int := 200

  /** The three fields an author may see of a signature. */
  datatype SignerView = SignerView(firstName: string, verified: bool, confirmedAt: Option<Tokens.Timestamp>)

  datatype SignersResponse =
    | Unauthorized
    | Signers(signers: seq<SignerView>, total: nat, limit: int, offset: nat)

  /** A signature row together with its id. */
  datatype Row = Row(id: SignatureId, sig: Signature)

  /** `Math.min(limit ?? 50, 200)`: capped above only. */
  function EffectiveLimit(requested: Option<int>): (limit: int)
    ensures limit <= MaxLimit
    ensures requested.None? ==> limit == DefaultLimit
    ensures requested.Some? ==> limit == if requested.value <= MaxLimit then requested.value else MaxLimit
  {
    var l := requested.GetOr(DefaultLimit);
    if l <= MaxLimit then l else MaxLimit
  }

  /** `Math.max(offset ?? 0, 0)`. */
  function EffectiveOffset(requested: Option<int>): (offset: nat)
    ensures requested.Some? && requested.value >= 0 ==> offset == requested.value
    ensures requested.None? || requested.value < 0 ==> offset == 0
  {
    var o := requested.GetOr(0);
    if o < 0 then 0 else o
  }

  predicate Owns(db: Db, caller: UserId, pid: PetitionId)
  {
    pid in db.petitions && db.petitions[pid].authorId == caller
  }

  /** The confirmed rows of petition pid, in the given order of ids. */
  function ConfirmedRows(order: seq<SignatureId>, sigs: map<SignatureId, Signature>, pid: PetitionId): (rows: seq<Row>)
  {
    if order == [] then []
    else
      var rest := ConfirmedRows(order[1..], sigs, pid);
      var sid := order[0];
      if sid in sigs && sigs[sid].petitionId == pid && sigs[sid].status == Confirmed
      then [Row(sid, sigs[sid])] + rest
      else rest
  }

  /** The rows the caller may see: the petition's confirmed rows if the
      caller owns the petition, none otherwise. */
  function VisibleRows(db: Db, caller: UserId, pid: PetitionId): seq<Row>
  {
    if Owns(db, caller, pid) then ConfirmedRows(db.order, db.signatures, pid) else []
  }

  /** OFFSET `offset` LIMIT `limit`; a negative limit takes no rows. */
  function Page<T>(rows: seq<T>, offset: nat, limit: int): (page: seq<T>)
    ensures |page| <= |rows| && |page| <= (if limit < 0 then 0 else limit)
  {
    if offset >= |rows| then []
    else if limit <= 0 then []
    else if offset + limit >= |rows| then rows[offset..]
    else rows[offset..offset + limit]
  }

  function Redact(row: Row): SignerView
  {
    SignerView(Names.FirstName(row.sig.name), row.sig.status == Confirmed, row.sig.confirmedAt)
  }

  function RedactAll(rows: seq<Row>): (views: seq<SignerView>)
    ensures |views| == |rows|
    ensures forall i :: 0 <= i < |rows| ==> views[i] == Redact(rows[i])
  {
    seq(|rows|, i requires 0 <= i < |rows| => Redact(rows[i]))
  }

  function ListSigners(db: Db, pid: PetitionId, caller: Option<UserId>,
                       limit: Option<int>, offset: Option<int>): (r: SignersResponse)
    ensures r.Unauthorized? <==> caller.None?
    ensures r.Signers? ==> r.limit == EffectiveLimit(limit) && r.offset == EffectiveOffset(offset)
    ensures r.Signers? ==> |r.signers| <= if r.limit < 0 then 0 else r.limit
  {
    if caller.None? then Unauthorized
    else
      var rows := VisibleRows(db, caller.value, pid);
      var l := EffectiveLimit(limit);
      var o := EffectiveOffset(offset);
      Signers(RedactAll(Page(rows, o, l)), |rows|, l, o)
  }

  predicate DistinctIds(rows: seq<Row>)
  {
    forall i, j :: 0 <= i < j < |rows| ==> rows[i].id != rows[j].id
  }

  /** A row is listed exactly when it is a confirmed row of the petition
      whose id occurs in the order. */
  lemma {:induction false} ConfirmedRowsMembership(order: seq<SignatureId>, sigs: map<SignatureId, Signature>,
                                                   pid: PetitionId, row: Row)
    ensures row in ConfirmedRows(order, sigs, pid) <==>
              row.id in order && row.id in sigs && sigs[row.id] == row.sig
              && row.sig.petitionId == pid && row.sig.status == Confirmed
    decreases |order|
  {
    if order != [] {
      ConfirmedRowsMembership(order[1..], sigs, pid, row);
      assert row.id in order <==> row.id == order[0] || row.id in order[1..];
    }
  }

  /** Filtering an order without repeats gives rows without repeated ids. */
  lemma {:induction false} ConfirmedRowsDistinct(order: seq<SignatureId>, sigs: map<SignatureId, Signature>,
                                                 pid: PetitionId)
    requires Distinct(order)
    ensures DistinctIds(ConfirmedRows(order, sigs, pid))
    decreases |order|
  {
    if order != [] {
      var rest := ConfirmedRows(order[1..], sigs, pid);
      assert Distinct(order[1..]) by {
        forall i, j | 0 <= i < j < |order[1..]| ensures order[1..][i] != order[1..][j] {
          assert order[1..][i] == order[i + 1] && order[1..][j] == order[j + 1];
        }
      }
      ConfirmedRowsDistinct(order[1..], sigs, pid);
      var sid := order[0];
      if sid in sigs && sigs[sid].petitionId == pid && sigs[sid].status == Confirmed {
        var rows := [Row(sid, sigs[sid])] + rest;
        forall j | 0 < j < |rows| ensures rows[0].id != rows[j].id {
          assert rows[j] == rest[j - 1];
          ConfirmedRowsMembership(order[1..], sigs, pid, rest[j - 1]);
          assert sid !in order[1..] by {
            forall k | 0 <= k < |order[1..]| ensures order[1..][k] != sid {
              assert order[1..][k] == order[k + 1];
            }
          }
        }
      }
    }
  }

  /** The ids of the rows of a sequence. */
  function IdSet(rows: seq<Row>): set<SignatureId>
  {
    set i | 0 <= i < |rows| :: rows[i].id
  }

  lemma {:induction false} DistinctIdsCard(rows: seq<Row>)
    requires DistinctIds(rows)
    ensures |IdSet(rows)| == |rows|
    decreases |rows|
  {
    if rows != [] {
      var tail := rows[1..];
      assert DistinctIds(tail) by {
        forall i, j | 0 <= i < j < |tail| ensures tail[i].id != tail[j].id {
          assert tail[i] == rows[i + 1] && tail[j] == rows[j + 1];
        }
      }
      DistinctIdsCard(tail);
      assert IdSet(rows) == {rows[0].id} + IdSet(tail) by {
        forall x ensures x in IdSet(rows) <==> x in {rows[0].id} + IdSet(tail) {
          if x in IdSet(rows) {
            var i :| 0 <= i < |rows| && rows[i].id == x;
            if i > 0 { assert tail[i - 1].id == x; }
          }
          if x in IdSet(tail) {
            var i :| 0 <= i < |tail| && tail[i].id == x;
            assert rows[i + 1].id == x;
          }
        }
      }
      assert rows[0].id !in IdSet(tail) by {
        forall i | 0 <= i < |tail| ensures tail[i].id != rows[0].id {
          assert tail[i] == rows[i + 1];
        }
      }
    }
  }

  /** For the owner, the total is the number of confirmed signatures of the
      petition; in a store whose counters are consistent, that is the
      petition's signature_count. */
  lemma {:induction false} OwnerTotalCountsConfirmed(db: Db, pid: PetitionId, caller: UserId,
                                                     limit: Option<int>, offset: Option<int>)
    requires Valid(db) && Owns(db, caller, pid)
    ensures ListSigners(db, pid, Some(caller), limit, offset).total == |ConfirmedOf(db, pid)|
    ensures CountsMatch(db) ==>
              ListSigners(db, pid, Some(caller), limit, offset).total == db.petitions[pid].signatureCount
  {
    var rows := ConfirmedRows(db.order, db.signatures, pid);
    ConfirmedRowsDistinct(db.order, db.signatures, pid);
    DistinctIdsCard(rows);
    assert IdSet(rows) == ConfirmedOf(db, pid) by {
      forall x ensures x in IdSet(rows) <==> x in ConfirmedOf(db, pid) {
        if x in IdSet(rows) {
          var i :| 0 <= i < |rows| && rows[i].id == x;
          ConfirmedRowsMembership(db.order, db.signatures, pid, rows[i]);
        }
        if x in ConfirmedOf(db, pid) {
          var row := Row(x, db.signatures[x]);
          ConfirmedRowsMembership(db.order, db.signatures, pid, row);
          var i :| 0 <= i < |rows| && rows[i] == row;
        }
      }
    }
  }

  /** A caller who does not own the petition gets an empty page and a zero
      total, not an error, whether or not the petition exists. */
  lemma NonOwnerSeesNothing(db: Db, pid: PetitionId, caller: UserId, limit: Option<int>, offset: Option<int>)
    requires !Owns(db, caller, pid)
    ensures ListSigners(db, pid, Some(caller), limit, offset)
            == Signers([], 0, EffectiveLimit(limit), EffectiveOffset(offset))
  {
  }

  /** Entry i of a page is the redacted form of the row at position
      offset + i of the visible rows: a confirmed row of the petition, shown
      as its first name, `verified = true` and its confirmation time. */
  lemma {:induction false} EntriesAreRedactedConfirmedRows(db: Db, pid: PetitionId, caller: UserId,
                                                           limit: Option<int>, offset: Option<int>, i: nat)
    requires forall sid :: sid in db.signatures && db.signatures[sid].status == Confirmed ==>
               db.signatures[sid].confirmedAt.Some?
    requires var r := ListSigners(db, pid, Some(caller), limit, offset); i < |r.signers|
    ensures var r := ListSigners(db, pid, Some(caller), limit, offset);
            var rows := VisibleRows(db, caller, pid);
            && r.offset + i < |rows|
            && var row := rows[r.offset + i];
               && Owns(db, caller, pid)
               && row.id in db.signatures && db.signatures[row.id] == row.sig
               && row.sig.petitionId == pid && row.sig.status == Confirmed
               && r.signers[i] == SignerView(Names.FirstName(row.sig.name), true, row.sig.confirmedAt)
               && r.signers[i].confirmedAt.Some?
  {
    ListedEntry(db, pid, caller, limit, offset, i);
    var r := ListSigners(db, pid, Some(caller), limit, offset);
    ConfirmedRowAt(db.order, db.signatures, pid, r.offset + i);
  }

  /** Every row of the filter is a confirmed row of the petition, as stored. */
  lemma ConfirmedRowAt(order: seq<SignatureId>, sigs: map<SignatureId, Signature>, pid: PetitionId, k: nat)
    requires k < |ConfirmedRows(order, sigs, pid)|
    ensures var row := ConfirmedRows(order, sigs, pid)[k];
            row.id in sigs && sigs[row.id] == row.sig && row.sig.petitionId == pid && row.sig.status == Confirmed
  {
    var row := ConfirmedRows(order, sigs, pid)[k];
    ConfirmedRowsMembership(order, sigs, pid, row);
  }

  /** Entry i of a non-empty listing is the redacted row at offset + i of
      the owner's confirmed rows. */
  lemma ListedEntry(db: Db, pid: PetitionId, caller: UserId,
                    limit: Option<int>, offset: Option<int>, i: nat)
    requires i < |ListSigners(db, pid, Some(caller), limit, offset).signers|
    ensures var r := ListSigners(db, pid, Some(caller), limit, offset);
            var rows := ConfirmedRows(db.order, db.signatures, pid);
            && Owns(db, caller, pid)
            && r.offset + i < |rows|
            && rows == VisibleRows(db, caller, pid)
            && r.signers[i] == Redact(rows[r.offset + i])
  {
    var rows := VisibleRows(db, caller, pid);
    var l, o := EffectiveLimit(limit), EffectiveOffset(offset);
    var page := Page(rows, o, l);
    ListSignersShape(db, pid, caller, limit, offset);
    PageAt(rows, o, l, i);
    assert rows != [];
    assert Owns(db, caller, pid);
    assert rows == ConfirmedRows(db.order, db.signatures, pid);
    assert ListSigners(db, pid, Some(caller), limit, offset).signers[i] == Redact(page[i]);
  }

  /** A caller's listing is the redacted page of the visible rows. */
  lemma ListSignersShape(db: Db, pid: PetitionId, caller: UserId, limit: Option<int>, offset: Option<int>)
    ensures var rows := VisibleRows(db, caller, pid);
            var l, o := EffectiveLimit(limit), EffectiveOffset(offset);
            ListSigners(db, pid, Some(caller), limit, offset) == Signers(RedactAll(Page(rows, o, l)), |rows|, l, o)
  {
  }

  /** Entry i of a page is the row at offset + i. */
  lemma PageAt<T>(rows: seq<T>, offset: nat, limit: int, i: nat)
    requires i < |Page(rows, offset, limit)|
    ensures offset + i < |rows| && Page(rows, offset, limit)[i] == rows[offset + i]
  {
  }

  /** A page is full when enough rows follow the offset. */
  lemma PageLength<T>(rows: seq<T>, offset: nat, limit: int)
    ensures |Page(rows, offset, limit)| <= if limit < 0 then 0 else limit
    ensures 0 <= limit && offset + limit <= |rows| ==> |Page(rows, offset, limit)| == limit
    ensures offset < |rows| && limit > 0 ==> Page(rows, offset, limit) == rows[offset..][..|Page(rows, offset, limit)|]
  {
  }

  /** Consecutive pages neither overlap nor skip: the page at offset o of
      size a followed by the page at o + a of size b is the page at o of
      size a + b. */
  lemma PagesAdjacent<T>(rows: seq<T>, o: nat, a: nat, b: nat)
    ensures Page(rows, o, a) + Page(rows, o + a, b) == Page(rows, o, a + b)
  {
  }

  /** Pages whose index ranges do not meet share no row id. */
  lemma PagesDisjoint(rows: seq<Row>, o1: nat, l1: int, o2: nat, l2: int)
    requires DistinctIds(rows)
    requires o1 + (if l1 < 0 then 0 else l1) <= o2
    ensures forall x, y :: x in Page(rows, o1, l1) && y in Page(rows, o2, l2) ==> x.id != y.id
  {
    var p1 := Page(rows, o1, l1);
    var p2 := Page(rows, o2, l2);
    forall x, y | x in p1 && y in p2 ensures x.id != y.id {
      var i :| 0 <= i < |p1| && p1[i] == x;
      var j :| 0 <= j < |p2| && p2[j] == y;
      assert p1[i] == rows[o1 + i];
      assert p2[j] == rows[o2 + j];
    }
  }

  /** Two pages of the same listing that do not meet share no signature:
      for offsets 0 and 10 with limit 10, twenty different rows. */
  lemma {:induction false} ListedPagesDisjoint(db: Db, pid: PetitionId, caller: UserId, o1: nat, o2: nat, l: int)
    requires Valid(db)
    requires o1 + (if l < 0 then 0 else if l > MaxLimit then MaxLimit else l) <= o2
    ensures var rows := VisibleRows(db, caller, pid);
            var lim := EffectiveLimit(Some(l));
            forall x, y :: x in Page(rows, o1, lim) && y in Page(rows, o2, lim) ==> x.id != y.id
  {
    var rows := VisibleRows(db, caller, pid);
    if Owns(db, caller, pid) {
      ConfirmedRowsDistinct(db.order, db.signatures, pid);
    }
    PagesDisjoint(rows, o1, EffectiveLimit(Some(l)), o2, EffectiveLimit(Some(l)));
  }

  /** The total does not depend on limit or offset. */
  lemma TotalIgnoresPaging(db: Db, pid: PetitionId, caller: UserId,
                           l1: Option<int>, o1: Option<int>, l2: Option<int>, o2: Option<int>)
    ensures ListSigners(db, pid, Some(caller), l1, o1).total == ListSigners(db, pid, Some(caller), l2, o2).total
  {
  }
}
