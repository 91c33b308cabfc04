/** The handlers that only read: login identity resolution, the membership
    plan, the listings and the single-row reads. Each maps a database
    snapshot (and the body or path ids) to a reply. */
module Queries {
  import opened Values
  import opened Tables
  import opened Replies

  /** Every image of some element and nothing else. */
  function Map<A, B>(s: seq<A>, f: A -> B): (r: seq<B>)
    ensures |r| == |s|
    ensures forall i :: 0 <= i < |s| ==> r[i] == f(s[i])
  {
    seq(|s|, i requires 0 <= i < |s| => f(s[i]))
  }

  lemma MapMembers<A(!new), B(!new)>(s: seq<A>, f: A -> B)
    ensures forall y :: y in Map(s, f) <==> exists x :: x in s && y == f(x)
  {
    var r := Map(s, f);
    forall y | y in r ensures exists x :: x in s && y == f(x) {
      var i :| 0 <= i < |r| && r[i] == y;
      assert s[i] in s;
    }
    forall y | exists x :: x in s && y == f(x) ensures y in r {
      var x :| x in s && y == f(x);
      var i :| 0 <= i < |s| && s[i] == x;
      assert r[i] == y;
    }
  }

  // ---------------------------------------------------------------------
  // Login (POST /auth/login)
  // ---------------------------------------------------------------------

  /** Both credentials are present and truthy. */
  predicate HasCredentials(body: Json) {
    body != JNull && Truthy(Field(body, "email")) && Truthy(Field(body, "password"))
  }

  function EmailOf(body: Json): Json
    requires HasCredentials(body)
  {
    Field(body, "email").v
  }

  function PasswordOf(body: Json): Json
    requires HasCredentials(body)
  {
    Field(body, "password").v
  }

  /** `SELECT * FROM users WHERE email = ? AND password = ?` then `.first()`. */
  function FindAdmin(users: seq<User>, email: Json, password: Json): (r: Option<User>)
    ensures r.Some? ==> r.value in users && r.value.email == email && r.value.password == password
    ensures r.None? <==> forall u :: u in users ==> !(u.email == email && u.password == password)
  {
    First(users, (u: User) => u.email == email && u.password == password)
  }

  /** `SELECT * FROM club_members WHERE email = ? AND password = ?` then `.first()`. */
  function FindByCredentials(members: seq<Member>, email: Json, password: Json): (r: Option<Member>)
    ensures r.Some? ==> r.value in members && r.value.email == email && r.value.password == password
    ensures r.None? <==> forall m :: m in members ==> !(m.email == email && m.password == password)
  {
    First(members, (m: Member) => m.email == email && m.password == password)
  }

  /** `SELECT id, name FROM clubs WHERE leader_id = ?` then `.first()`. */
  function LedClub(clubs: seq<Club>, memberId: nat): (r: Option<Club>)
    ensures r.Some? ==> r.value in clubs && r.value.leaderId == JNum(memberId)
    ensures r.None? <==> forall c :: c in clubs ==> c.leaderId != JNum(memberId)
  {
    First(clubs, (c: Club) => c.leaderId == JNum(memberId))
  }

  /** `joined.results.map(r => r.club_id)` over
      `SELECT club_id FROM club_member_links WHERE member_id = ?`. */
  function JoinedClubs(links: seq<Link>, memberId: nat): (r: seq<Json>)
    ensures |r| <= |links|
    ensures forall c :: c in r <==> exists l :: l in links && l.memberId == JNum(memberId) && l.clubId == c
  {
    if links == [] then []
    else
      var rest := JoinedClubs(links[1..], memberId);
      assert forall l :: l in links[1..] ==> l in links;
      assert forall l :: l in links ==> l == links[0] || l in links[1..];
      if links[0].memberId == JNum(memberId) then [links[0].clubId] + rest else rest
  }

  /** The identity of a logged-in member: a club whose `leader_id` is the
      member makes them `Leader` of it, otherwise their stored role (or
      `Member`) applies; `clubs` lists the clubs of their link rows. */
  function MemberIdentityOf(db: Db, m: Member): (who: Identity)
    ensures who.MemberIdentity? && who.id == m.id && who.name == m.name
    ensures who.email == m.email && who.studentId == m.studentId
    ensures forall c :: c in who.clubs <==>
      exists l :: l in db.links && l.memberId == JNum(m.id) && l.clubId == c
    ensures (exists c :: c in db.clubs && c.leaderId == JNum(m.id)) ==>
      who.role == JStr("Leader") && who.kind == "Leader" && who.leaderOf.Some?
      && exists c :: c in db.clubs && c.leaderId == JNum(m.id) && c.id == who.leaderOf.value
    ensures (forall c :: c in db.clubs ==> c.leaderId != JNum(m.id)) ==>
      who.role == OrElse(m.role, JStr("Member")) && who.kind == "Member" && who.leaderOf == None
  {
    var leader := LedClub(db.clubs, m.id);
    MemberIdentity(
      m.id, m.name, m.email, m.studentId,
      if leader.Some? then JStr("Leader") else OrElse(m.role, JStr("Member")),
      JoinedClubs(db.links, m.id),
      if leader.Some? then Some(leader.value.id) else None,
      if leader.Some? then "Leader" else "Member")
  }

  /** `POST /auth/login`: admins first, then members. When neither table
      matches, the code reads `member.id` of a null `member`; the TypeError
      lands in the catch, so the reply is a 500 and never the 401 written
      after it. */
  function Login(db: Db, body: Json): (r: Reply)
    ensures body == JNull ==> r == Reply(500, Crash)
    ensures body != JNull && !HasCredentials(body) ==> r == Reply(400, Failure("Email and password required"))
    ensures r.status != 401
    ensures r.status == 200 <==> (HasCredentials(body) &&
      ((exists u :: u in db.users && u.email == EmailOf(body) && u.password == PasswordOf(body))
       || (exists m :: m in db.members && m.email == EmailOf(body) && m.password == PasswordOf(body))))
    ensures r.status == 200 ==> r.body.LoggedIn?
    ensures r.status in {200, 400, 500}
  {
    if body == JNull then Reply(500, Crash)
    else if !HasCredentials(body) then Reply(400, Failure("Email and password required"))
    else
      var email, password := EmailOf(body), PasswordOf(body);
      match FindAdmin(db.users, email, password)
      case Some(admin) =>
        Reply(200, LoggedIn(AdminIdentity(admin.id, admin.email, OrElse(admin.role, JStr("Admin")), "Admin")))
      case None =>
        match FindByCredentials(db.members, email, password)
        case Some(member) => Reply(200, LoggedIn(MemberIdentityOf(db, member)))
        case None => Reply(500, Crash)
  }

  /** An admin whose email and password match is logged in as `Admin`, with
      the stored role or `Admin`, and it is the first matching `users` row. */
  lemma LoginAdmin(db: Db, body: Json)
    requires HasCredentials(body)
    requires exists u :: u in db.users && u.email == EmailOf(body) && u.password == PasswordOf(body)
    ensures var admin := FindAdmin(db.users, EmailOf(body), PasswordOf(body)).value;
      Login(db, body) == Reply(200, LoggedIn(AdminIdentity(admin.id, admin.email, OrElse(admin.role, JStr("Admin")), "Admin")))
  {
  }

  /** Once an admin matches, the member, link and club tables play no part. */
  lemma LoginAdminIgnoresMembers(db: Db, body: Json, members: seq<Member>, links: seq<Link>, clubs: seq<Club>)
    requires HasCredentials(body)
    requires exists u :: u in db.users && u.email == EmailOf(body) && u.password == PasswordOf(body)
    ensures Login(db, body) == Login(db.(members := members, links := links, clubs := clubs), body)
  {
  }

  /** With no admin match, the first matching member is logged in with the
      derived leader role. */
  lemma LoginMember(db: Db, body: Json)
    requires HasCredentials(body)
    requires forall u :: u in db.users ==> !(u.email == EmailOf(body) && u.password == PasswordOf(body))
    requires exists m :: m in db.members && m.email == EmailOf(body) && m.password == PasswordOf(body)
    ensures var member := FindByCredentials(db.members, EmailOf(body), PasswordOf(body)).value;
      Login(db, body) == Reply(200, LoggedIn(MemberIdentityOf(db, member)))
  {
  }

  /** Wrong credentials crash into a 500. */
  lemma LoginFailureCrashes(db: Db, body: Json)
    requires HasCredentials(body)
    requires forall u :: u in db.users ==> !(u.email == EmailOf(body) && u.password == PasswordOf(body))
    requires forall m :: m in db.members ==> !(m.email == EmailOf(body) && m.password == PasswordOf(body))
    ensures Login(db, body) == Reply(500, Crash)
  {
  }

  // ---------------------------------------------------------------------
  // Members, membership plan, announcements, events, users, stats
  // ---------------------------------------------------------------------

  function Summary(m: Member): MemberSummary {
    MemberSummary(m.id, m.name, m.email, m.studentId, m.role)
  }

  /** `GET /members`: one summary per member row. */
  function ListMembers(db: Db): (r: Reply)
    ensures r.status == 200 && r.body.MemberList?
    ensures |r.body.members| == |db.members|
    ensures forall i :: 0 <= i < |db.members| ==> r.body.members[i] == Summary(db.members[i])
  {
    Reply(200, MemberList(Map(db.members, Summary)))
  }

  /** `GET /clubs/:id/membership`: the club's plan row, or `{}` when it has
      none; never a 404. */
  function GetMembership(db: Db, clubId: nat): (r: Reply)
    ensures r.status == 200
    ensures r.body == EmptyObject <==> forall p :: p in db.plans ==> p.clubId != JNum(clubId)
    ensures r.body != EmptyObject ==> r.body.PlanRow? && r.body.plan in db.plans && r.body.plan.clubId == JNum(clubId)
  {
    match First(db.plans, (p: Plan) => p.clubId == JNum(clubId))
    case Some(plan) => Reply(200, PlanRow(plan))
    case None => Reply(200, EmptyObject)
  }

  function ClubNoteView(n: ClubNote): NoteView { NoteView(n.id, n.text) }
  function NoteViewOf(n: Note): NoteView { NoteView(n.id, n.text) }

  /** The announcements of one club. */
  function ClubNotesOf(clubNotes: seq<ClubNote>, clubId: nat): (r: seq<NoteView>)
    ensures forall v :: v in r <==> exists n :: n in clubNotes && n.clubId == JNum(clubId) && v == ClubNoteView(n)
  {
    var mine := Filter(clubNotes, (n: ClubNote) => n.clubId == JNum(clubId));
    MapMembers(mine, ClubNoteView);
    Map(mine, ClubNoteView)
  }

  /** `GET /clubs/:id/announcements`: exactly the club's announcements.
      Whether the club exists is not checked. */
  function ListClubAnnouncements(db: Db, clubId: nat): (r: Reply)
    ensures r.status == 200 && r.body.Announcements?
    ensures forall v :: v in r.body.notes <==>
      exists n :: n in db.clubNotes && n.clubId == JNum(clubId) && v == ClubNoteView(n)
  {
    Reply(200, Announcements(ClubNotesOf(db.clubNotes, clubId)))
  }

  /** `GET /announcements`: every general announcement. */
  function ListAnnouncements(db: Db): (r: Reply)
    ensures r.status == 200 && r.body.Announcements?
    ensures |r.body.notes| == |db.notes|
    ensures forall i :: 0 <= i < |db.notes| ==> r.body.notes[i] == NoteView(db.notes[i].id, db.notes[i].text)
  {
    Reply(200, Announcements(Map(db.notes, NoteViewOf)))
  }

  /** `events e LEFT JOIN clubs c ON e.club_id = c.id`: the club name, or
      NULL when no club has the event's `club_id`. */
  function ViewEvent(clubs: seq<Club>, e: Event): (v: EventView)
    ensures v.event == e
    ensures v.clubName == JNull || exists c :: c in clubs && JNum(c.id) == e.clubId && c.name == v.clubName
    ensures (forall c :: c in clubs ==> JNum(c.id) != e.clubId) ==> v.clubName == JNull
    ensures (exists c :: c in clubs && JNum(c.id) == e.clubId) ==>
      exists c :: c in clubs && JNum(c.id) == e.clubId && v.clubName == c.name
  {
    match FindClub(clubs, e.clubId)
    case Some(c) => EventView(e, c.name)
    case None => EventView(e, JNull)
  }

  /** `GET /events`: every event with its club's name. */
  function ListEvents(db: Db): (r: Reply)
    ensures r.status == 200 && r.body.EventList?
    ensures |r.body.views| == |db.events|
    ensures forall i :: 0 <= i < |db.events| ==> r.body.views[i] == ViewEvent(db.clubs, db.events[i])
  {
    Reply(200, EventList(Map(db.events, (e: Event) => ViewEvent(db.clubs, e))))
  }

  /** `GET /events/:id`: the event with its club's name, or 404. */
  function GetEvent(db: Db, eventId: nat): (r: Reply)
    ensures r.status == 404 <==> forall e :: e in db.events ==> e.id != eventId
    ensures r.status == 404 ==> r.body == Failure("Event not found")
    ensures r.status != 404 ==> (r.status == 200 && r.body.EventFound?
      && r.body.view.event in db.events && r.body.view.event.id == eventId
      && r.body.view == ViewEvent(db.clubs, r.body.view.event))
  {
    match FindEvent(db.events, eventId)
    case None => Reply(404, Failure("Event not found"))
    case Some(e) => Reply(200, EventFound(ViewEvent(db.clubs, e)))
  }

  function ViewUser(u: User): UserView { UserView(u.id, u.email, u.role) }

  /** `GET /users`: every admin account without its password. */
  function ListUsers(db: Db): (r: Reply)
    ensures r.status == 200 && r.body.UserList?
    ensures |r.body.users| == |db.users|
    ensures forall i :: 0 <= i < |db.users| ==>
      r.body.users[i].id == db.users[i].id && r.body.users[i].email == db.users[i].email
      && r.body.users[i].role == db.users[i].role
  {
    Reply(200, UserList(Map(db.users, ViewUser)))
  }

  /** `GET /stats`: the live row counts. `totalMemberships` counts member
      accounts, not links. */
  function Stats(db: Db): (r: Reply)
    ensures r == Reply(200, Statistics(|db.clubs|, |db.users|, |db.events|, |db.members|))
  {
    Reply(200, Statistics(|db.clubs|, |db.users|, |db.events|, |db.members|))
  }

  /** The link, plan and announcement tables and the key counters play no
      part in `GET /stats`: whatever they hold, the counts are the same. */
  lemma StatsIgnoresOtherTables(db: Db, links: seq<Link>, plans: seq<Plan>, clubNotes: seq<ClubNote>, notes: seq<Note>)
    ensures Stats(db.(links := links, plans := plans, clubNotes := clubNotes, notes := notes)) == Stats(db)
  {
  }

  // ---------------------------------------------------------------------
  // Member profile and club detail
  // ---------------------------------------------------------------------

  function ProfileOf(m: Member): Profile {
    Profile(m.id, m.name, m.username, m.email, m.aboutMe, m.yearSection, m.course, m.birthday, m.clubId, m.role)
  }

  function SummaryOf(c: Club): ClubSummary {
    ClubSummary(c.id, c.name, c.description, c.image)
  }

  /** `GET /members/:id`: the profile, with the club its `club_id` names
      when that is truthy and such a club exists, otherwise `null`. */
  function GetMember(db: Db, memberId: nat): (r: Reply)
    ensures r.status == 404 <==> forall m :: m in db.members ==> m.id != memberId
    ensures r.status == 404 ==> r.body == Failure("Member not found")
    ensures r.status != 404 ==> (r.status == 200 && r.body.MemberProfile?
      && exists m :: (m in db.members && m.id == memberId && r.body.profile == ProfileOf(m)
           && (!Truthy(Defined(m.clubId)) ==> r.body.memberClub == None)
           && (Truthy(Defined(m.clubId)) && (exists c :: c in db.clubs && JNum(c.id) == m.clubId) ==> r.body.memberClub.Some?)
           && (r.body.memberClub.Some? ==>
                 exists c :: c in db.clubs && JNum(c.id) == m.clubId && r.body.memberClub.value == SummaryOf(c))))
  {
    match FindMember(db.members, memberId)
    case None => Reply(404, Failure("Member not found"))
    case Some(m) =>
      var club := if Truthy(Defined(m.clubId)) then FindClub(db.clubs, m.clubId) else None;
      Reply(200, MemberProfile(ProfileOf(m), if club.Some? then Some(SummaryOf(club.value)) else None))
  }

  function Entry(m: Member): RosterEntry { RosterEntry(m.id, m.name, m.role) }

  /** `club_members cm JOIN club_member_links cml ON cm.id = cml.member_id
      WHERE cml.club_id = ?`: one entry per matching (member, link) pair. */
  function Roster(links: seq<Link>, members: seq<Member>, clubId: nat): (r: seq<RosterEntry>)
    ensures forall e :: e in r <==>
      exists l, m :: l in links && m in members && l.clubId == JNum(clubId) && JNum(m.id) == l.memberId && e == Entry(m)
  {
    if links == [] then []
    else
      var l := links[0];
      var rest := Roster(links[1..], members, clubId);
      var here := if l.clubId == JNum(clubId) then Filter(members, (m: Member) => JNum(m.id) == l.memberId) else [];
      MapMembers(here, Entry);
      assert forall k :: k in links ==> k == l || k in links[1..];
      Map(here, Entry) + rest
  }

  function EventSummaryOf(e: Event): EventSummary {
    EventSummary(e.id, e.title, e.description, e.date)
  }

  /** `GET /clubs/:id`: the club with its roster, announcements and events,
      or 404. */
  function GetClub(db: Db, clubId: nat): (r: Reply)
    ensures r.status == 404 <==> forall c :: c in db.clubs ==> c.id != clubId
    ensures r.status == 404 ==> r.body == Failure("Club not found")
    ensures r.status != 404 ==> (r.status == 200 && r.body.ClubDetail?
      && r.body.club in db.clubs && r.body.club.id == clubId
      && r.body.roster == Roster(db.links, db.members, clubId)
      && r.body.announcements == ClubNotesOf(db.clubNotes, clubId)
      && forall v :: v in r.body.events <==>
           exists e :: e in db.events && e.clubId == JNum(clubId) && v == EventSummaryOf(e))
  {
    match FindClub(db.clubs, JNum(clubId))
    case None => Reply(404, Failure("Club not found"))
    case Some(c) =>
      var mine := Filter(db.events, (e: Event) => e.clubId == JNum(clubId));
      MapMembers(mine, EventSummaryOf);
      Reply(200, ClubDetail(c, Roster(db.links, db.members, clubId), ClubNotesOf(db.clubNotes, clubId), Map(mine, EventSummaryOf)))
  }
}
