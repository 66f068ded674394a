/** The repository's test fixtures, stated as facts about the model: the
    first-name cases and the pair of signatures (one confirmed, one not) on
    a petition owned by the first test author. */
module Fixtures {
  import opened Optional
  import opened Schema
  import Tokens
  import Names
  import Signers

  /** "राज कुमार", written with code-point escapes. */
  const HindiName: string := "\U{930}\U{93E}\U{91C} \U{915}\U{941}\U{92E}\U{93E}\U{930}"
  const HindiFirst: string := "\U{930}\U{93E}\U{91C}"

  lemma SingleWordName()
    ensures Names.FirstName("Madonna") == "Madonna"
  {
    Names.SingleTokenIsItsOwnFirstName("Madonna");
  }

  lemma TwoLetterName()
    ensures Names.FirstName("A B") == "A"
  {
    assert "A B" == "A" + [' '] + "B";
    Names.TrailingTextIgnored("A", ' ', "B");
  }

  lemma PaddedName()
    ensures Names.FirstName("  John Smith  ") == "John"
  {
    var tail := "John" + [' '] + "Smith  ";
    Names.TrailingTextIgnored("John", ' ', "Smith  ");
    assert Names.AllWhitespace("  ");
    Names.LeadingWhitespaceIgnored("  ", tail);
    assert "  " + tail == "  John Smith  ";
  }

  lemma DevanagariName()
    ensures Names.FirstName(HindiName) == HindiFirst
  {
    assert HindiName == HindiFirst + [' '] + "\U{915}\U{941}\U{92E}\U{93E}\U{930}";
    Names.TrailingTextIgnored(HindiFirst, ' ', "\U{915}\U{941}\U{92E}\U{93E}\U{930}");
  }

  lemma ThreeWordName()
    ensures Names.FirstName("Mohammed ibn Abdullah") == "Mohammed"
  {
    assert "Mohammed ibn Abdullah" == "Mohammed" + [' '] + "ibn Abdullah";
    Names.TrailingTextIgnored("Mohammed", ' ', "ibn Abdullah");
  }

  lemma BlankNames()
    ensures Names.FirstName("") == ""
    ensures Names.FirstName("   ") == ""
  {
    Names.FirstNameEmptyIffBlank("   ");
  }

  const AuthorA: UserId := "00000000-0000-0000-0000-000000000001"
  const AuthorB: UserId := "00000000-0000-0000-0000-000000000002"
  const P1: PetitionId := "10000000-0000-0000-0000-000000000001"
  const P2: PetitionId := "10000000-0000-0000-0000-000000000002"
  const ConfirmedId: SignatureId := "20000000-0000-0000-0000-000000000001"
  const UnconfirmedId: SignatureId := "20000000-0000-0000-0000-000000000002"

  /** The fixture store: P1 by author A, P2 by author B; on P1, John Smith
      confirmed at time t and Jane Doe not confirmed. */
  function FixtureDb(t: Tokens.Timestamp): Db
  {
    Db(map[P1 := Petition("Test Petition 1 by Author A", "active", AuthorA, 1),
           P2 := Petition("Test Petition 2 by Author B", "active", AuthorB, 0)],
       map[ConfirmedId := Signature(P1, "John Smith", "john@test.com", "john@test.com", None,
                                    Some("192.168.1.1"), Some("Mozilla/5.0"), Confirmed, Some(t)),
           UnconfirmedId := Signature(P1, "Jane Doe", "jane@test.com", "jane@test.com", None,
                                      Some("192.168.1.2"), Some("Mozilla/5.0"), Unconfirmed, None)],
       [ConfirmedId, UnconfirmedId])
  }

  /** Only John's row is a confirmed row of P1. */
  lemma FixtureRows(t: Tokens.Timestamp)
    ensures Signers.ConfirmedRows(FixtureDb(t).order, FixtureDb(t).signatures, P1)
            == [Signers.Row(ConfirmedId, FixtureDb(t).signatures[ConfirmedId])]
  {
    var db := FixtureDb(t);
    assert ConfirmedId != UnconfirmedId;
    assert db.signatures[UnconfirmedId].status == Unconfirmed;
    assert db.signatures[ConfirmedId].petitionId == P1 && db.signatures[ConfirmedId].status == Confirmed;
    assert db.order[1..] == [UnconfirmedId];
    assert [UnconfirmedId][1..] == [];
    assert Signers.ConfirmedRows([UnconfirmedId], db.signatures, P1) == [];
  }

  /** Author A, who owns P1, sees exactly John: as "John", verified. */
  lemma FixtureOwnerListing(t: Tokens.Timestamp)
    ensures Signers.ListSigners(FixtureDb(t), P1, Some(AuthorA), None, None)
            == Signers.Signers([Signers.SignerView("John", true, Some(t))], 1, 50, 0)
  {
    var db := FixtureDb(t);
    FixtureRows(t);
    var rows := Signers.ConfirmedRows(db.order, db.signatures, P1);
    assert Signers.Owns(db, AuthorA, P1);
    assert Signers.Page(rows, 0, 50) == rows;
    assert "John Smith" == "John" + [' '] + "Smith";
    Names.TrailingTextIgnored("John", ' ', "Smith");
    assert Signers.Redact(rows[0]) == Signers.SignerView("John", true, Some(t));
  }

  /** Author B asking about P1, which exists and has a confirmed signer,
      gets an empty page; an anonymous caller is refused. */
  lemma FixtureOtherCallers(t: Tokens.Timestamp)
    ensures Signers.ListSigners(FixtureDb(t), P1, Some(AuthorB), None, None)
            == Signers.Signers([], 0, 50, 0)
    ensures Signers.ListSigners(FixtureDb(t), P1, None, None, None) == Signers.Unauthorized
  {
    assert AuthorA != AuthorB;
    assert !Signers.Owns(FixtureDb(t), AuthorB, P1);
  }
}
