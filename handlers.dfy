/** The handlers that write, as functions from a database snapshot to the
    reply and the database they leave. Each function states which reply a
    request gets in which case, that a failing request leaves the database
    as it was, and what a successful one changes and what it leaves alone;
    the lemmas below show that each keeps `Db.Valid`. The store class
    performs the same steps in place and is proved equal to these. */
module Handlers {
  import opened Values
  import opened Tables
  import opened Replies

  function Ok(message: string): Reply { Reply(200, Message(message)) }
  function Error(status: nat, message: string): Reply { Reply(status, Failure(message)) }

  // ---------------------------------------------------------------------
  // Clubs
  // ---------------------------------------------------------------------

  /** The row `INSERT INTO clubs … RETURNING *` creates. */
  function NewClub(db: Db, body: Json): Club
    requires body != JNull && Truthy(Field(body, "name")) && Truthy(Field(body, "description")) && Truthy(Field(body, "image"))
  {
    Club(db.nextClub, Field(body, "name").v, Field(body, "description").v, Field(body, "image").v,
         OrNull(Field(body, "adminId")), OrNull(Field(body, "leaderId")))
  }

  /** `POST /clubs`: name, description and image are all required; the new
      club gets a fresh key, and a falsy admin or leader id is stored NULL. */
  function CreateClub(db: Db, body: Json): (s: Step)
    ensures body == JNull ==> s == Step(Reply(500, Crash), db)
    ensures body != JNull && !(Truthy(Field(body, "name")) && Truthy(Field(body, "description")) && Truthy(Field(body, "image")))
      ==> s == Step(Error(400, "Name, description, and image required"), db)
    ensures s.reply.status == 201 <==>
      (body != JNull && Truthy(Field(body, "name")) && Truthy(Field(body, "description")) && Truthy(Field(body, "image")))
    ensures s.reply.status == 201 ==> (s.reply.body.ClubCreated?
      && var c := s.reply.body.club;
         c.id == db.nextClub && Defined(c.name) == Field(body, "name")
         && Defined(c.description) == Field(body, "description") && Defined(c.image) == Field(body, "image")
         && c.adminId == OrNull(Field(body, "adminId")) && c.leaderId == OrNull(Field(body, "leaderId"))
         && (Truthy(Field(body, "leaderId")) <==> c.leaderId != JNull)
         && (Truthy(Field(body, "adminId")) <==> c.adminId != JNull)
         && s.db == db.(clubs := db.clubs + [c], nextClub := db.nextClub + 1))
  {
    if body == JNull then Step(Reply(500, Crash), db)
    else if !(Truthy(Field(body, "name")) && Truthy(Field(body, "description")) && Truthy(Field(body, "image"))) then
      Step(Error(400, "Name, description, and image required"), db)
    else
      var c := NewClub(db, body);
      Step(Reply(201, ClubCreated(c)), db.(clubs := db.clubs + [c], nextClub := db.nextClub + 1))
  }

  predicate AnyClubField(body: Json) {
    Truthy(Field(body, "name")) || Truthy(Field(body, "description")) || Truthy(Field(body, "image"))
    || Truthy(Field(body, "leaderId"))
  }

  /** `SET name = COALESCE(?, name), …, leader_id = COALESCE(?, leader_id)`
      bound to `name || null`, …, `leaderId || null`. */
  function ClubPatch(body: Json): Club -> Club {
    (c: Club) => c.(name := Coalesce(OrNull(Field(body, "name")), c.name),
                    description := Coalesce(OrNull(Field(body, "description")), c.description),
                    image := Coalesce(OrNull(Field(body, "image")), c.image),
                    leaderId := Coalesce(OrNull(Field(body, "leaderId")), c.leaderId))
  }

  function PatchClubs(clubs: seq<Club>, clubId: nat, body: Json): seq<Club> {
    UpdateWhere(clubs, ClubIs(clubId), ClubPatch(body))
  }

  /** What the update promises of the club row: each of name, description,
      image and leader takes the supplied value when truthy and keeps its
      old value otherwise; the key and the admin stay. */
  predicate ClubUpdated(body: Json, before: Club, after: Club) {
    && after.id == before.id && after.adminId == before.adminId
    && TruthyOverwrite(Field(body, "name"), before.name, after.name)
    && TruthyOverwrite(Field(body, "description"), before.description, after.description)
    && TruthyOverwrite(Field(body, "image"), before.image, after.image)
    && TruthyOverwrite(Field(body, "leaderId"), before.leaderId, after.leaderId)
  }

  /** `PUT /clubs/:id`: the body is read and checked before the club is
      looked up. */
  function UpdateClub(db: Db, clubId: nat, body: Json): (s: Step)
    ensures body == JNull ==> s == Step(Reply(500, Crash), db)
    ensures body != JNull && !AnyClubField(body) ==> s == Step(Error(400, "At least one field required"), db)
    ensures body != JNull && AnyClubField(body) && (forall c :: c in db.clubs ==> c.id != clubId)
      ==> s == Step(Error(404, "Club not found"), db)
    ensures s.reply.status == 200 <==> (body != JNull && AnyClubField(body) && exists c :: c in db.clubs && c.id == clubId)
    ensures s.reply.status == 200 ==> (s.reply == Ok("Club updated successfully")
      && s.db == db.(clubs := s.db.clubs) && |s.db.clubs| == |db.clubs|
      && forall j :: 0 <= j < |db.clubs| ==>
           if db.clubs[j].id == clubId then ClubUpdated(body, db.clubs[j], s.db.clubs[j])
           else s.db.clubs[j] == db.clubs[j])
  {
    if body == JNull then Step(Reply(500, Crash), db)
    else if !AnyClubField(body) then Step(Error(400, "At least one field required"), db)
    else if FindClub(db.clubs, JNum(clubId)).None? then Step(Error(404, "Club not found"), db)
    else Step(Ok("Club updated successfully"), db.(clubs := PatchClubs(db.clubs, clubId, body)))
  }

  /** `DELETE /clubs/:id`: only the club row goes; its links, plan,
      announcements and events stay. */
  function DeleteClub(db: Db, clubId: nat): (s: Step)
    ensures (forall c :: c in db.clubs ==> c.id != clubId) ==> s == Step(Error(404, "Club not found"), db)
    ensures s.reply.status == 200 <==> exists c :: c in db.clubs && c.id == clubId
    ensures s.reply.status == 200 ==> (s.reply == Ok("Club deleted successfully")
      && s.db == db.(clubs := s.db.clubs)
      && forall c :: c in s.db.clubs <==> c in db.clubs && c.id != clubId)
  {
    if FindClub(db.clubs, JNum(clubId)).None? then Step(Error(404, "Club not found"), db)
    else Step(Ok("Club deleted successfully"), db.(clubs := DropClub(db.clubs, clubId)))
  }

  // ---------------------------------------------------------------------
  // Membership links
  // ---------------------------------------------------------------------

  /** `POST /clubs/:id/join`: a second join of the same pair is refused;
      whether the club or the member exists is not checked. */
  function Join(db: Db, clubId: nat, body: Json): (s: Step)
    ensures body == JNull ==> s == Step(Reply(500, Crash), db)
    ensures body != JNull && !Truthy(Field(body, "memberId")) ==> s == Step(Error(400, "Member ID required"), db)
    ensures Truthy(Field(body, "memberId")) && HasLink(db.links, JNum(clubId), Field(body, "memberId").v)
      ==> s == Step(Error(409, "Already a member of this club"), db)
    ensures s.reply.status == 200 <==>
      (Truthy(Field(body, "memberId")) && !HasLink(db.links, JNum(clubId), Field(body, "memberId").v))
    ensures s.reply.status == 200 ==> (s.reply == Ok("Successfully joined club")
      && s.db == db.(links := db.links + [Link(db.nextLink, JNum(clubId), Field(body, "memberId").v)], nextLink := db.nextLink + 1)
      && HasLink(s.db.links, JNum(clubId), Field(body, "memberId").v))
  {
    if body == JNull then Step(Reply(500, Crash), db)
    else
      var memberId := Field(body, "memberId");
      if !Truthy(memberId) then Step(Error(400, "Member ID required"), db)
      else if HasLink(db.links, JNum(clubId), memberId.v) then Step(Error(409, "Already a member of this club"), db)
      else
        var link := Link(db.nextLink, JNum(clubId), memberId.v);
        assert link in db.links + [link];
        Step(Ok("Successfully joined club"), db.(links := db.links + [link], nextLink := db.nextLink + 1))
  }

  /** `POST /clubs/:id/leave`: only an existing link can be left. */
  function Leave(db: Db, clubId: nat, body: Json): (s: Step)
    ensures body == JNull ==> s == Step(Reply(500, Crash), db)
    ensures body != JNull && !Truthy(Field(body, "memberId")) ==> s == Step(Error(400, "Member ID required"), db)
    ensures Truthy(Field(body, "memberId")) && !HasLink(db.links, JNum(clubId), Field(body, "memberId").v)
      ==> s == Step(Error(404, "Not a member of this club"), db)
    ensures s.reply.status == 200 <==>
      (Truthy(Field(body, "memberId")) && HasLink(db.links, JNum(clubId), Field(body, "memberId").v))
    ensures s.reply.status == 200 ==> (s.reply == Ok("Successfully left club")
      && s.db == db.(links := s.db.links)
      && !HasLink(s.db.links, JNum(clubId), Field(body, "memberId").v)
      && forall l :: l in s.db.links <==> l in db.links && !(l.clubId == JNum(clubId) && l.memberId == Field(body, "memberId").v))
  {
    if body == JNull then Step(Reply(500, Crash), db)
    else
      var memberId := Field(body, "memberId");
      if !Truthy(memberId) then Step(Error(400, "Member ID required"), db)
      else if !HasLink(db.links, JNum(clubId), memberId.v) then Step(Error(404, "Not a member of this club"), db)
      else Step(Ok("Successfully left club"), db.(links := RemovePair(db.links, JNum(clubId), memberId.v)))
  }

  /** `DELETE /clubs/:id/members/:memberId`: the club must exist; the link
      need not. */
  function RemoveMember(db: Db, clubId: nat, memberId: nat): (s: Step)
    ensures (forall c :: c in db.clubs ==> c.id != clubId) ==> s == Step(Error(404, "Club not found"), db)
    ensures s.reply.status == 200 <==> exists c :: c in db.clubs && c.id == clubId
    ensures s.reply.status == 200 ==> (s.reply == Ok("Member removed successfully")
      && s.db == db.(links := s.db.links)
      && !HasLink(s.db.links, JNum(clubId), JNum(memberId))
      && forall l :: l in s.db.links <==> l in db.links && !(l.clubId == JNum(clubId) && l.memberId == JNum(memberId)))
  {
    if FindClub(db.clubs, JNum(clubId)).None? then Step(Error(404, "Club not found"), db)
    else Step(Ok("Member removed successfully"), db.(links := RemovePair(db.links, JNum(clubId), JNum(memberId))))
  }

  // ---------------------------------------------------------------------
  // Announcements
  // ---------------------------------------------------------------------

  /** `POST /clubs/:id/announcements`: the text is checked before the club. */
  function CreateClubAnnouncement(db: Db, clubId: nat, body: Json): (s: Step)
    ensures body == JNull ==> s == Step(Reply(500, Crash), db)
    ensures body != JNull && !Truthy(Field(body, "text")) ==> s == Step(Error(400, "Announcement text required"), db)
    ensures Truthy(Field(body, "text")) && (forall c :: c in db.clubs ==> c.id != clubId)
      ==> s == Step(Error(404, "Club not found"), db)
    ensures s.reply.status == 201 <==> (Truthy(Field(body, "text")) && exists c :: c in db.clubs && c.id == clubId)
    ensures s.reply.status == 201 ==> (s.reply.body.ClubNoteCreated?
      && var n := s.reply.body.clubNote;
         n.id == db.nextClubNote && n.clubId == JNum(clubId) && Defined(n.text) == Field(body, "text")
         && s.db == db.(clubNotes := db.clubNotes + [n], nextClubNote := db.nextClubNote + 1))
  {
    if body == JNull then Step(Reply(500, Crash), db)
    else if !Truthy(Field(body, "text")) then Step(Error(400, "Announcement text required"), db)
    else if FindClub(db.clubs, JNum(clubId)).None? then Step(Error(404, "Club not found"), db)
    else
      var n := ClubNote(db.nextClubNote, JNum(clubId), Field(body, "text").v);
      Step(Reply(201, ClubNoteCreated(n)), db.(clubNotes := db.clubNotes + [n], nextClubNote := db.nextClubNote + 1))
  }

  /** `DELETE /clubs/:clubId/announcements/:id`: succeeds whether or not
      the row exists; a row of another club is not touched. */
  function DeleteClubAnnouncement(db: Db, clubId: nat, noteId: nat): (s: Step)
    ensures s.reply == Ok("Announcement deleted successfully")
    ensures s.db == db.(clubNotes := s.db.clubNotes)
    ensures forall n :: n in s.db.clubNotes <==> n in db.clubNotes && !(n.id == noteId && n.clubId == JNum(clubId))
  {
    Step(Ok("Announcement deleted successfully"), db.(clubNotes := DropClubNote(db.clubNotes, noteId, JNum(clubId))))
  }

  /** `POST /announcements`. */
  function CreateAnnouncement(db: Db, body: Json): (s: Step)
    ensures body == JNull ==> s == Step(Reply(500, Crash), db)
    ensures body != JNull && !Truthy(Field(body, "text")) ==> s == Step(Error(400, "Announcement text required"), db)
    ensures s.reply.status == 201 <==> Truthy(Field(body, "text"))
    ensures s.reply.status == 201 ==> (s.reply.body.NoteCreated?
      && var n := s.reply.body.note;
         n.id == db.nextNote && Defined(n.text) == Field(body, "text")
         && s.db == db.(notes := db.notes + [n], nextNote := db.nextNote + 1))
  {
    if body == JNull then Step(Reply(500, Crash), db)
    else if !Truthy(Field(body, "text")) then Step(Error(400, "Announcement text required"), db)
    else
      var n := Note(db.nextNote, Field(body, "text").v);
      Step(Reply(201, NoteCreated(n)), db.(notes := db.notes + [n], nextNote := db.nextNote + 1))
  }

  /** `DELETE /announcements/:id`: succeeds whether or not the row exists. */
  function DeleteAnnouncement(db: Db, noteId: nat): (s: Step)
    ensures s.reply == Ok("Announcement deleted successfully")
    ensures s.db == db.(notes := s.db.notes)
    ensures forall n :: n in s.db.notes <==> n in db.notes && n.id != noteId
  {
    Step(Ok("Announcement deleted successfully"), db.(notes := DropNote(db.notes, noteId)))
  }

  // ---------------------------------------------------------------------
  // Events
  // ---------------------------------------------------------------------

  predicate EventFieldsPresent(body: Json) {
    body != JNull && Truthy(Field(body, "title")) && Truthy(Field(body, "description")) && Truthy(Field(body, "date"))
  }

  /** The club check of `POST /events` fails: a truthy club id names no club. */
  predicate UnknownEventClub(db: Db, body: Json) {
    Truthy(Field(body, "clubId")) && forall c :: c in db.clubs ==> JNum(c.id) != Field(body, "clubId").v
  }

  /** `POST /events`: the club is looked up only when a truthy club id is
      given; a platform-wide event stores NULL. */
  function CreateEvent(db: Db, body: Json): (s: Step)
    ensures body == JNull ==> s == Step(Reply(500, Crash), db)
    ensures body != JNull && !EventFieldsPresent(body) ==> s == Step(Error(400, "Title, description, and date required"), db)
    ensures EventFieldsPresent(body) && UnknownEventClub(db, body) ==> s == Step(Error(404, "Club not found"), db)
    ensures s.reply.status == 201 <==> EventFieldsPresent(body) && !UnknownEventClub(db, body)
    ensures s.reply.status == 201 ==> (s.reply.body.EventCreated?
      && var e := s.reply.body.event;
         e.id == db.nextEvent && Defined(e.title) == Field(body, "title")
         && Defined(e.description) == Field(body, "description") && Defined(e.date) == Field(body, "date")
         && e.clubId == OrNull(Field(body, "clubId"))
         && (e.clubId == JNull || exists c :: c in db.clubs && JNum(c.id) == e.clubId)
         && (!Truthy(Field(body, "clubId")) <==> e.clubId == JNull)
         && s.db == db.(events := db.events + [e], nextEvent := db.nextEvent + 1))
  {
    if body == JNull then Step(Reply(500, Crash), db)
    else if !EventFieldsPresent(body) then Step(Error(400, "Title, description, and date required"), db)
    else
      var clubId := Field(body, "clubId");
      if Truthy(clubId) && FindClub(db.clubs, clubId.v).None? then Step(Error(404, "Club not found"), db)
      else
        var e := Event(db.nextEvent, Field(body, "title").v, Field(body, "description").v, Field(body, "date").v, OrNull(clubId));
        Step(Reply(201, EventCreated(e)), db.(events := db.events + [e], nextEvent := db.nextEvent + 1))
  }

  /** `SET title = COALESCE(?, title), …, club_id = COALESCE(?, club_id)`
      bound to `title || null`, …, `clubId || null`. */
  function EventPatch(body: Json): Event -> Event {
    (e: Event) => e.(title := Coalesce(OrNull(Field(body, "title")), e.title),
                     description := Coalesce(OrNull(Field(body, "description")), e.description),
                     date := Coalesce(OrNull(Field(body, "date")), e.date),
                     clubId := Coalesce(OrNull(Field(body, "clubId")), e.clubId))
  }

  function PatchEvents(events: seq<Event>, eventId: nat, body: Json): seq<Event> {
    UpdateWhere(events, EventIs(eventId), EventPatch(body))
  }

  predicate EventUpdated(body: Json, before: Event, after: Event) {
    && after.id == before.id
    && TruthyOverwrite(Field(body, "title"), before.title, after.title)
    && TruthyOverwrite(Field(body, "description"), before.description, after.description)
    && TruthyOverwrite(Field(body, "date"), before.date, after.date)
    && TruthyOverwrite(Field(body, "clubId"), before.clubId, after.clubId)
  }

  /** `PUT /events/:id`: no field is required, and a new club id is not
      checked against the clubs. */
  function UpdateEvent(db: Db, eventId: nat, body: Json): (s: Step)
    ensures body == JNull ==> s == Step(Reply(500, Crash), db)
    ensures body != JNull && (forall e :: e in db.events ==> e.id != eventId) ==> s == Step(Error(404, "Event not found"), db)
    ensures s.reply.status == 200 <==> (body != JNull && exists e :: e in db.events && e.id == eventId)
    ensures s.reply.status == 200 ==> (s.reply == Ok("Event updated successfully")
      && s.db == db.(events := s.db.events) && |s.db.events| == |db.events|
      && forall j :: 0 <= j < |db.events| ==>
           if db.events[j].id == eventId then EventUpdated(body, db.events[j], s.db.events[j])
           else s.db.events[j] == db.events[j])
  {
    if body == JNull then Step(Reply(500, Crash), db)
    else if FindEvent(db.events, eventId).None? then Step(Error(404, "Event not found"), db)
    else Step(Ok("Event updated successfully"), db.(events := PatchEvents(db.events, eventId, body)))
  }

  /** `DELETE /events/:id`. */
  function DeleteEvent(db: Db, eventId: nat): (s: Step)
    ensures (forall e :: e in db.events ==> e.id != eventId) ==> s == Step(Error(404, "Event not found"), db)
    ensures s.reply.status == 200 <==> exists e :: e in db.events && e.id == eventId
    ensures s.reply.status == 200 ==> (s.reply == Ok("Event deleted successfully")
      && s.db == db.(events := s.db.events)
      && forall e :: e in s.db.events <==> e in db.events && e.id != eventId)
  {
    if FindEvent(db.events, eventId).None? then Step(Error(404, "Event not found"), db)
    else Step(Ok("Event deleted successfully"), db.(events := DropEvent(db.events, eventId)))
  }

  // ---------------------------------------------------------------------
  // Users
  // ---------------------------------------------------------------------

  /** `['Admin', 'Leader', 'Member'].includes(role)`. */
  predicate KnownRole(role: Json) {
    role == JStr("Admin") || role == JStr("Leader") || role == JStr("Member")
  }

  /** `role && !['Admin', 'Leader', 'Member'].includes(role)`. */
  predicate BadRole(body: Json) {
    Truthy(Field(body, "role")) && !KnownRole(Field(body, "role").v)
  }

  /** `SET email = COALESCE(?, email), …` bound to `email || null`, …. */
  function UserPatch(body: Json): User -> User {
    (u: User) => u.(email := Coalesce(OrNull(Field(body, "email")), u.email),
                    password := Coalesce(OrNull(Field(body, "password")), u.password),
                    role := Coalesce(OrNull(Field(body, "role")), u.role))
  }

  function PatchUsers(users: seq<User>, userId: nat, body: Json): seq<User> {
    UpdateWhere(users, UserIs(userId), UserPatch(body))
  }

  predicate UserUpdated(body: Json, before: User, after: User) {
    && after.id == before.id
    && TruthyOverwrite(Field(body, "email"), before.email, after.email)
    && TruthyOverwrite(Field(body, "password"), before.password, after.password)
    && TruthyOverwrite(Field(body, "role"), before.role, after.role)
  }

  /** `PUT /users/:id`: the user is looked up before the role is checked,
      so an unknown user with a bad role gets 404. */
  function UpdateUser(db: Db, userId: nat, body: Json): (s: Step)
    ensures body == JNull ==> s == Step(Reply(500, Crash), db)
    ensures body != JNull && (forall u :: u in db.users ==> u.id != userId) ==> s == Step(Error(404, "User not found"), db)
    ensures body != JNull && (exists u :: u in db.users && u.id == userId) && BadRole(body)
      ==> s == Step(Error(400, "Invalid role"), db)
    ensures s.reply.status == 200 <==> (body != JNull && (exists u :: u in db.users && u.id == userId) && !BadRole(body))
    ensures s.reply.status == 200 ==> (s.reply == Ok("User updated successfully")
      && s.db == db.(users := s.db.users) && |s.db.users| == |db.users|
      && forall j :: 0 <= j < |db.users| ==>
           if db.users[j].id == userId then UserUpdated(body, db.users[j], s.db.users[j])
           else s.db.users[j] == db.users[j])
  {
    if body == JNull then Step(Reply(500, Crash), db)
    else if FindUser(db.users, userId).None? then Step(Error(404, "User not found"), db)
    else if BadRole(body) then Step(Error(400, "Invalid role"), db)
    else
      Step(Ok("User updated successfully"), db.(users := PatchUsers(db.users, userId, body)))
  }

  /** `DELETE /users/:id`. */
  function DeleteUser(db: Db, userId: nat): (s: Step)
    ensures (forall u :: u in db.users ==> u.id != userId) ==> s == Step(Error(404, "User not found"), db)
    ensures s.reply.status == 200 <==> exists u :: u in db.users && u.id == userId
    ensures s.reply.status == 200 ==> (s.reply == Ok("User deleted successfully")
      && s.db == db.(users := s.db.users)
      && forall u :: u in s.db.users <==> u in db.users && u.id != userId)
  {
    if FindUser(db.users, userId).None? then Step(Error(404, "User not found"), db)
    else Step(Ok("User deleted successfully"), db.(users := DropUser(db.users, userId)))
  }

  // ---------------------------------------------------------------------
  // Member profiles
  // ---------------------------------------------------------------------

  /** `SET name = COALESCE(?, name), …, birthday = COALESCE(?, birthday)`
      bound to `body.name ?? null`, …, `body.birthday ?? null`. */
  function ProfilePatch(body: Json): Member -> Member
    requires body != JNull
  {
    (m: Member) => m.(name := Coalesce(NullishOrNull(Field(body, "name")), m.name),
                      username := Coalesce(NullishOrNull(Field(body, "username")), m.username),
                      email := Coalesce(NullishOrNull(Field(body, "email")), m.email),
                      aboutMe := Coalesce(NullishOrNull(Field(body, "about_me")), m.aboutMe),
                      yearSection := Coalesce(NullishOrNull(Field(body, "year_section")), m.yearSection),
                      course := Coalesce(NullishOrNull(Field(body, "course")), m.course),
                      birthday := Coalesce(NullishOrNull(Field(body, "birthday")), m.birthday))
  }

  function PatchMembers(members: seq<Member>, memberId: nat, body: Json): seq<Member>
    requires body != JNull
  {
    UpdateWhere(members, MemberIs(memberId), ProfilePatch(body))
  }

  /** Each profile column takes any supplied non-null value, `''` and `0`
      included; the key, credentials, role and club stay. */
  predicate ProfileUpdated(body: Json, before: Member, after: Member) {
    && after.id == before.id && after.studentId == before.studentId && after.password == before.password
    && after.role == before.role && after.clubId == before.clubId
    && NullishOverwrite(Field(body, "name"), before.name, after.name)
    && NullishOverwrite(Field(body, "username"), before.username, after.username)
    && NullishOverwrite(Field(body, "email"), before.email, after.email)
    && NullishOverwrite(Field(body, "about_me"), before.aboutMe, after.aboutMe)
    && NullishOverwrite(Field(body, "year_section"), before.yearSection, after.yearSection)
    && NullishOverwrite(Field(body, "course"), before.course, after.course)
    && NullishOverwrite(Field(body, "birthday"), before.birthday, after.birthday)
  }

  /** `PUT /members/:id`: the member is looked up before any property of
      the body is read, so a `null` body gives 404 for an unknown member
      and 500 for a known one. */
  function UpdateMember(db: Db, memberId: nat, body: Json): (s: Step)
    ensures (forall m :: m in db.members ==> m.id != memberId) ==> s == Step(Error(404, "Member not found"), db)
    ensures (exists m :: m in db.members && m.id == memberId) && body == JNull ==> s == Step(Reply(500, Crash), db)
    ensures s.reply.status == 200 <==> (body != JNull && exists m :: m in db.members && m.id == memberId)
    ensures s.reply.status == 200 ==> (s.reply == Ok("Profile updated successfully")
      && s.db == db.(members := s.db.members) && |s.db.members| == |db.members|
      && forall j :: 0 <= j < |db.members| ==>
           if db.members[j].id == memberId then ProfileUpdated(body, db.members[j], s.db.members[j])
           else s.db.members[j] == db.members[j])
  {
    if FindMember(db.members, memberId).None? then Step(Error(404, "Member not found"), db)
    else if body == JNull then Step(Reply(500, Crash), db)
    else
      PatchMembersUpdates(db.members, memberId, body);
      Step(Ok("Profile updated successfully"), db.(members := PatchMembers(db.members, memberId, body)))
  }

  lemma PatchMembersUpdates(members: seq<Member>, memberId: nat, body: Json)
    requires body != JNull
    ensures |PatchMembers(members, memberId, body)| == |members|
    ensures forall j :: 0 <= j < |members| ==>
      if members[j].id == memberId then ProfileUpdated(body, members[j], PatchMembers(members, memberId, body)[j])
      else PatchMembers(members, memberId, body)[j] == members[j]
  {
    var r := PatchMembers(members, memberId, body);
    forall j | 0 <= j < |members|
      ensures if members[j].id == memberId then ProfileUpdated(body, members[j], r[j]) else r[j] == members[j]
    {
      if members[j].id == memberId {
        PatchedProfile(body, members[j]);
      }
    }
  }

  lemma PatchedProfile(body: Json, m: Member)
    requires body != JNull
    ensures ProfileUpdated(body, m, ProfilePatch(body)(m))
  {
  }
}
