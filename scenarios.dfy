/** Properties that relate several handlers: what one request leaves behind
    for the next. */
module Scenarios {
  import opened Values
  import opened Tables
  import opened Replies
  import opened Queries
  import opened Handlers

  /** A successful join followed by a leave of the same pair restores the
      database; only the link counter has moved on. */
  lemma JoinThenLeave(db: Db, clubId: nat, body: Json)
    requires Join(db, clubId, body).reply.status == 200
    ensures Leave(Join(db, clubId, body).db, clubId, body)
         == Step(Ok("Successfully left club"), db.(nextLink := db.nextLink + 1))
  {
    var memberId := Field(body, "memberId").v;
    JoinThenLeaveRestores(db.links, db.nextLink, JNum(clubId), memberId);
  }

  /** Joining twice is refused the second time. */
  lemma JoinTwiceConflicts(db: Db, clubId: nat, body: Json)
    requires Join(db, clubId, body).reply.status == 200
    ensures Join(Join(db, clubId, body).db, clubId, body) == Step(Error(409, "Already a member of this club"), Join(db, clubId, body).db)
  {
  }

  /** Leaving twice is refused the second time. */
  lemma LeaveTwiceNotFound(db: Db, clubId: nat, body: Json)
    requires Leave(db, clubId, body).reply.status == 200
    ensures Leave(Leave(db, clubId, body).db, clubId, body) == Step(Error(404, "Not a member of this club"), Leave(db, clubId, body).db)
  {
  }

  /** The leader's removal route repeated answers the same and changes
      nothing more. */
  lemma RemoveMemberIdempotent(db: Db, clubId: nat, memberId: nat)
    ensures RemoveMember(RemoveMember(db, clubId, memberId).db, clubId, memberId) == RemoveMember(db, clubId, memberId)
  {
    var s := RemoveMember(db, clubId, memberId);
    if s.reply.status == 200 {
      RemovePairIdempotent(db.links, JNum(clubId), JNum(memberId));
    }
  }

  /** A created club can be read back under its new key, with an empty
      roster, no announcements and no events as long as no row names the
      new key yet. */
  lemma CreateClubThenGet(db: Db, body: Json)
    requires db.Valid()
    requires CreateClub(db, body).reply.status == 201
    ensures var s := CreateClub(db, body);
      var r := GetClub(s.db, db.nextClub);
      r.status == 200 && r.body.club == s.reply.body.club
    ensures (forall l :: l in db.links ==> l.clubId != JNum(db.nextClub))
      ==> GetClub(CreateClub(db, body).db, db.nextClub).body.roster == []
    ensures (forall n :: n in db.clubNotes ==> n.clubId != JNum(db.nextClub))
      ==> GetClub(CreateClub(db, body).db, db.nextClub).body.announcements == []
    ensures (forall e :: e in db.events ==> e.clubId != JNum(db.nextClub))
      ==> GetClub(CreateClub(db, body).db, db.nextClub).body.events == []
  {
    var s := CreateClub(db, body);
    var c := s.reply.body.club;
    assert c in s.db.clubs;
    forall d | d in db.clubs ensures d.id != db.nextClub { }
    assert forall d :: d in s.db.clubs && d.id == db.nextClub ==> d == c;
    var r := GetClub(s.db, db.nextClub);
    if r.body.roster != [] {
      assert r.body.roster[0] in r.body.roster;
    }
    if r.body.announcements != [] {
      assert r.body.announcements[0] in r.body.announcements;
    }
    if r.body.events != [] {
      assert r.body.events[0] in r.body.events;
    }
  }

  /** Deleting a club does not cascade: its links stay, and each of its
      events is afterwards listed without a club name. */
  lemma DeleteClubLeavesOrphans(db: Db, clubId: nat, e: Event)
    requires db.Valid()
    requires exists c :: c in db.clubs && c.id == clubId
    requires e in db.events && e.clubId == JNum(clubId)
    ensures DeleteClub(db, clubId).db.links == db.links
    ensures e in DeleteClub(db, clubId).db.events
    ensures ViewEvent(DeleteClub(db, clubId).db.clubs, e).clubName == JNull
  {
    var s := DeleteClub(db, clubId);
    assert forall c :: c in s.db.clubs ==> JNum(c.id) != e.clubId;
  }

  /** After a deletion the row can no longer be read back. */
  lemma DeleteEventThenGet(db: Db, eventId: nat)
    ensures GetEvent(DeleteEvent(db, eventId).db, eventId).status == 404
  {
  }

  /** A created event can be read back under its new key. */
  lemma CreateEventThenGet(db: Db, body: Json)
    requires db.Valid()
    requires CreateEvent(db, body).reply.status == 201
    ensures var s := CreateEvent(db, body);
      var r := GetEvent(s.db, db.nextEvent);
      r.status == 200 && r.body.view.event == s.reply.body.event
  {
    var s := CreateEvent(db, body);
    var e := s.reply.body.event;
    assert e in s.db.events;
    forall d | d in db.events ensures d.id != db.nextEvent { }
    assert forall d :: d in s.db.events && d.id == db.nextEvent ==> d == e;
  }

  /** `PUT /users/:id` never stores a role outside the whitelist: the
      updated user ends with a known role or the role it had. */
  lemma UpdateUserRoleWhitelisted(db: Db, userId: nat, body: Json, j: nat)
    requires UpdateUser(db, userId, body).reply.status == 200
    requires j < |db.users| && db.users[j].id == userId
    ensures var after := UpdateUser(db, userId, body).db.users[j];
      KnownRole(after.role) || after.role == db.users[j].role
  {
  }

  /** An empty string clears a profile field ... */
  lemma EmptyStringClearsProfile(db: Db, memberId: nat, j: nat)
    requires j < |db.members| && db.members[j].id == memberId
    ensures UpdateMember(db, memberId, JObj(map["name" := JStr("")])).db.members[j].name == JStr("")
  {
    var body := JObj(map["name" := JStr("")]);
    assert Field(body, "name") == Defined(JStr(""));
    assert db.members[j] in db.members;
  }

  /** ... but leaves a club field as it was. */
  lemma EmptyStringKeepsClubField(db: Db, clubId: nat, j: nat)
    requires j < |db.clubs| && db.clubs[j].id == clubId
    ensures var body := JObj(map["name" := JStr(""), "description" := JStr("new")]);
      UpdateClub(db, clubId, body).db.clubs[j].name == db.clubs[j].name
  {
    var body := JObj(map["name" := JStr(""), "description" := JStr("new")]);
    assert Field(body, "name") == Defined(JStr(""));
    assert Field(body, "description") == Defined(JStr("new"));
    assert db.clubs[j] in db.clubs;
  }

  /** An admin whose credentials also belong to a member is still logged in
      as the admin. */
  lemma AdminShadowsMember(db: Db, body: Json, m: Member)
    requires HasCredentials(body)
    requires exists u :: u in db.users && u.email == EmailOf(body) && u.password == PasswordOf(body)
    requires m in db.members && m.email == EmailOf(body) && m.password == PasswordOf(body)
    ensures Login(db, body).body.user.AdminIdentity?
  {
    LoginAdmin(db, body);
  }

  /** A created club is counted once by `GET /stats`; the other counts stay. */
  lemma CreateClubCounted(db: Db, body: Json)
    requires CreateClub(db, body).reply.status == 201
    ensures var before := Stats(db).body;
      var after := Stats(CreateClub(db, body).db).body;
      after == before.(totalClubs := before.totalClubs + 1)
  {
  }

  /** `totalMemberships` counts member accounts: joining a club, which adds
      a link row, leaves every count of `GET /stats` as it was. */
  lemma JoinLeavesStatsAlone(db: Db, clubId: nat, body: Json)
    ensures Stats(Join(db, clubId, body).db) == Stats(db)
  {
  }
}
