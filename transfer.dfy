/** Moving a serviced person to another servant (`POST /api/serviced/transfer`): after three
    checks, the serviced row takes the new servant's family and every link row of the
    serviced person is pointed at the new servant. The route runs the two updates as two
    separate statements, with no transaction around them; `TransferAsWritten` models that,
    and `Transfer` the two updates as one transaction. */
module ServicedTransfer {
  import opened Wrappers
  import opened Http
  import opened Store

  /** What the route's checks decide: refuse, or go ahead with the family the serviced
      person moves to (the new servant's `family_id`, which may be `NULL`). */
  datatype Checked = Refused(why: Why) | Go(familyId: Option<int>)

  predicate IsServant(us: seq<User>, id: int) {
    exists i :: 0 <= i < |us| && us[i].id == id && us[i].role == "Khadem"
  }

  /** `SELECT family_id FROM users WHERE user_id = $1 AND role_group = 'Khadem'`: the family
      of the first matching row. */
  function ServantFamily(us: seq<User>, id: int): (r: Option<int>)
    requires IsServant(us, id)
    ensures exists i :: 0 <= i < |us| && us[i].id == id && us[i].role == "Khadem" &&
                        us[i].familyId == r
  {
    if us[0].id == id && us[0].role == "Khadem" then us[0].familyId
    else
      assert IsServant(us[1..], id) by {
        var i :| 0 <= i < |us| && us[i].id == id && us[i].role == "Khadem";
        assert us[1..][i - 1] == us[i];
      }
      var r := ServantFamily(us[1..], id);
      assert exists i :: 0 <= i < |us| && us[i].id == id && us[i].role == "Khadem" &&
                         us[i].familyId == r by {
        var i :| 0 <= i < |us[1..]| && us[1..][i].id == id && us[1..][i].role == "Khadem" &&
                 us[1..][i].familyId == r;
        assert us[i + 1] == us[1..][i];
      }
      r
  }

  /** `SELECT class_id FROM serviced_class_link WHERE serviced_id = $1` finds a row. */
  predicate HasClass(classLinks: set<(int, int)>, servicedId: int) {
    exists p :: p in classLinks && p.0 == servicedId
  }

  /** The checks, in order: both ids are given, the new servant is a user with role
      `'Khadem'`, and the serviced person has a class. */
  function CheckTransfer(db: Db, servicedId: Option<int>, newServantId: Option<int>)
    : (c: Checked)
    ensures c == Refused(MissingData) <==> !TruthyInt(servicedId) || !TruthyInt(newServantId)
    ensures c == Refused(ServantNotFound) <==>
      TruthyInt(servicedId) && TruthyInt(newServantId) && !IsServant(db.users, newServantId.value)
    ensures c == Refused(NoClass) <==>
      && TruthyInt(servicedId) && TruthyInt(newServantId) && IsServant(db.users, newServantId.value)
      && !HasClass(db.classLinks, servicedId.value)
    ensures c.Go? <==>
      && TruthyInt(servicedId) && TruthyInt(newServantId) && IsServant(db.users, newServantId.value)
      && HasClass(db.classLinks, servicedId.value)
    ensures c.Go? ==> c.familyId == ServantFamily(db.users, newServantId.value)
  {
    if !TruthyInt(servicedId) || !TruthyInt(newServantId) then Refused(MissingData)
    else if !IsServant(db.users, newServantId.value) then Refused(ServantNotFound)
    else if !HasClass(db.classLinks, servicedId.value) then Refused(NoClass)
    else Go(ServantFamily(db.users, newServantId.value))
  }

  /** `UPDATE serviced SET family_id = $1 WHERE serviced_id = $2`. */
  function MoveFamily(ss: seq<Serviced>, id: int, familyId: Option<int>): (r: seq<Serviced>)
    ensures |r| == |ss|
  {
    seq(|ss|, i requires 0 <= i < |ss| =>
      if ss[i].id == id then ss[i].(familyId := familyId) else ss[i])
  }

  /** `UPDATE servant_serviced_link SET servant_user_id = $1 WHERE serviced_id = $2`, when it
      succeeds. */
  function Repointed(links: set<(int, int)>, servicedId: int, servant: int): set<(int, int)> {
    set p | p in links :: if p.1 == servicedId then (servant, servicedId) else p
  }

  /** The link update would give two rows the same (servant_user_id, serviced_id): the
      serviced person has link rows to two different servants. The unique key then refuses
      the whole statement. */
  predicate Collides(links: set<(int, int)>, servicedId: int) {
    exists p, q :: p in links && q in links && p.1 == servicedId && q.1 == servicedId && p.0 != q.0
  }

  // ---------------------------------------------------------------------------------
  // The route as written: two statements, no transaction.

  /** The route as written. A refused check changes nothing; a link update the unique key
      refuses is caught and reported as a failure, but the family update before it has
      already been made and stays. */
  method TransferAsWritten(db: Db, servicedId: Option<int>, newServantId: Option<int>)
    returns (reply: Reply<()>, db': Db)
    ensures CheckTransfer(db, servicedId, newServantId).Refused? ==>
      reply == Fail(200, CheckTransfer(db, servicedId, newServantId).why) && db' == db
    ensures CheckTransfer(db, servicedId, newServantId).Go? && Collides(db.links, servicedId.value) ==>
      && reply == Fail(200, ServerError)
      && db' == db.(serviced := MoveFamily(db.serviced, servicedId.value,
                                           CheckTransfer(db, servicedId, newServantId).familyId))
    ensures CheckTransfer(db, servicedId, newServantId).Go? && !Collides(db.links, servicedId.value) ==>
      && reply == Ok(200, ())
      && db' == db.(serviced := MoveFamily(db.serviced, servicedId.value,
                                           CheckTransfer(db, servicedId, newServantId).familyId),
                    links := Repointed(db.links, servicedId.value, newServantId.value))
  {
    var c := CheckTransfer(db, servicedId, newServantId);
    if c.Refused? {
      return Fail(200, c.why), db;
    }
    db' := db.(serviced := MoveFamily(db.serviced, servicedId.value, c.familyId));
    if Collides(db'.links, servicedId.value) {
      return Fail(200, ServerError), db';
    }
    db' := db'.(links := Repointed(db'.links, servicedId.value, newServantId.value));
    reply := Ok(200, ());
  }

  /** When the serviced person is in another family than the new servant's and has links to
      two servants, the route as written reports a failure and yet has moved the serviced
      person's family. */
  lemma AsWrittenFailureMovesFamily(db: Db, servicedId: int, newServantId: int, i: int)
    requires CheckTransfer(db, Some(servicedId), Some(newServantId)).Go?
    requires Collides(db.links, servicedId)
    requires 0 <= i < |db.serviced| && db.serviced[i].id == servicedId
    requires db.serviced[i].familyId != CheckTransfer(db, Some(servicedId), Some(newServantId)).familyId
    ensures var fam := CheckTransfer(db, Some(servicedId), Some(newServantId)).familyId;
      db.(serviced := MoveFamily(db.serviced, servicedId, fam)) != db
  {
    var fam := CheckTransfer(db, Some(servicedId), Some(newServantId)).familyId;
    assert MoveFamily(db.serviced, servicedId, fam)[i].familyId == fam;
  }

  /** A well-formed store that meets the conditions above: serviced person 5, of family 2
      and linked to servants 10 and 11, transferred to servant 12 of family 3. */
  function HalfTransferStore(): Db {
    Db([Family(2, "A"), Family(3, "B")],
       [User(10, "a", "h", "Khadem", Some(2)), User(11, "b", "h", "Khadem", Some(2)),
        User(12, "c", "h", "Khadem", Some(3))],
       [Serviced(5, "s", Some(2), Some("c"))],
       {(10, 5), (11, 5)}, {(5, 1)}, map[], map[], map[], map[], map[], 4, 13, 6)
  }

  lemma HalfTransferInput()
    ensures Valid(HalfTransferStore())
    ensures CheckTransfer(HalfTransferStore(), Some(5), Some(12)) == Go(Some(3))
    ensures Collides(HalfTransferStore().links, 5)
    ensures HalfTransferStore().serviced[0].id == 5
    ensures HalfTransferStore().serviced[0].familyId != Some(3)
  {
    var db := HalfTransferStore();
    HalfTransferStoreValid();
    assert db.users[2].id == 12 && db.users[2].role == "Khadem";
    assert (5, 1) in db.classLinks;
    assert (10, 5) in db.links && (11, 5) in db.links;
  }

  lemma HalfTransferStoreValid()
    ensures Valid(HalfTransferStore())
  {
    var db := HalfTransferStore();
    assert FamiliesValid(db.families, db.nextFamilyId);
    assert UsersValid(db.users, db.nextUserId);
    assert ServicedValid(db.serviced, db.nextServicedId);
  }

  // ---------------------------------------------------------------------------------
  // The route with both updates in one transaction.

  /** The route with the two updates in one transaction: every failure leaves the store as
      it was; success moves the family and the links together. */
  method Transfer(db: Db, servicedId: Option<int>, newServantId: Option<int>)
    returns (reply: Reply<()>, db': Db)
    ensures reply.Fail? ==> db' == db
    ensures CheckTransfer(db, servicedId, newServantId).Refused? ==>
      reply == Fail(200, CheckTransfer(db, servicedId, newServantId).why)
    ensures CheckTransfer(db, servicedId, newServantId).Go? && Collides(db.links, servicedId.value) ==>
      reply == Fail(200, ServerError)
    ensures CheckTransfer(db, servicedId, newServantId).Go? && !Collides(db.links, servicedId.value) ==>
      && reply == Ok(200, ())
      && db' == db.(serviced := MoveFamily(db.serviced, servicedId.value,
                                           CheckTransfer(db, servicedId, newServantId).familyId),
                    links := Repointed(db.links, servicedId.value, newServantId.value))
  {
    var c := CheckTransfer(db, servicedId, newServantId);
    if c.Refused? {
      return Fail(200, c.why), db;
    }
    var moved := db.(serviced := MoveFamily(db.serviced, servicedId.value, c.familyId));
    if Collides(moved.links, servicedId.value) {
      return Fail(200, ServerError), db;
    }
    db' := moved.(links := Repointed(moved.links, servicedId.value, newServantId.value));
    reply := Ok(200, ());
  }

  // ---------------------------------------------------------------------------------
  // What a successful transfer does.

  /** The family update changes the family of the serviced person with the id and nothing
      else, and keeps the table well formed. */
  lemma MoveFamilyChangesOnlyThatRow(db: Db, id: int, familyId: Option<int>)
    requires Valid(db)
    ensures var ss := MoveFamily(db.serviced, id, familyId);
      && (forall i :: 0 <= i < |ss| && ss[i].id == id ==>
            ss[i] == db.serviced[i].(familyId := familyId))
      && (forall i :: 0 <= i < |ss| && ss[i].id != id ==> ss[i] == db.serviced[i])
      && Valid(db.(serviced := ss))
  {
  }

  /** After the link update every link row of the serviced person points to the new servant,
      the serviced person is linked exactly when it was before, the other link rows are as
      they were, and, the update having passed the unique key, no row is lost. */
  lemma RepointedLinks(links: set<(int, int)>, servicedId: int, servant: int)
    requires !Collides(links, servicedId)
    ensures forall p :: p in Repointed(links, servicedId, servant) && p.1 == servicedId ==>
      p.0 == servant
    ensures forall p: (int, int) :: p.1 != servicedId ==> (p in Repointed(links, servicedId, servant) <==> p in links)
    ensures (servant, servicedId) in Repointed(links, servicedId, servant) <==>
      exists p :: p in links && p.1 == servicedId
    ensures |Repointed(links, servicedId, servant)| == |links|
  {
    var r := Repointed(links, servicedId, servant);
    if p :| p in links && p.1 == servicedId {
      assert (servant, servicedId) in r;
      var rest := links - {p};
      assert forall q :: q in rest ==> q.1 != servicedId;
      assert r == rest + {(servant, servicedId)};
      assert (servant, servicedId) !in rest;
    } else {
      assert r == links;
    }
  }
}
