/** The database binding as a mutable object: one field per table and per
    key counter. Each writing route is a method that checks the request,
    looks rows up and inserts, deletes or updates them in place, one row at
    a time, as the handler's SQL statements do; each is proved to leave
    exactly the reply and the tables the corresponding pure handler
    describes, and to keep the tables well formed. */
module Api {
  import opened Values
  import opened Tables
  import opened Replies
  import H = Handlers
  import Q = Queries
  import R = Router
  import I = Invariants
  import S = Service

  // ---------------------------------------------------------------------
  // Row-at-a-time table scans
  // ---------------------------------------------------------------------

  /** `SELECT … WHERE p LIMIT 1` as a scan: the first row satisfying `p`. */
  method FirstRow<T(!new)>(s: seq<T>, p: T -> bool) returns (r: Option<T>)
    ensures r == First(s, p)
  {
    var i := 0;
    while i < |s|
      invariant 0 <= i <= |s|
      invariant forall j :: 0 <= j < i ==> !p(s[j])
    {
      if p(s[i]) {
        return Some(s[i]);
      }
      i := i + 1;
    }
    r := None;
  }

  /** `DELETE FROM … WHERE !keep` as a scan: the rows that `keep` spares,
      in table order. */
  method KeepRows<T(!new)>(s: seq<T>, keep: T -> bool) returns (r: seq<T>)
    ensures r == Filter(s, keep)
  {
    r := [];
    var i := 0;
    while i < |s|
      invariant 0 <= i <= |s|
      invariant r == Filter(s[..i], keep)
    {
      assert s[..i + 1] == s[..i] + [s[i]];
      FilterAppend(s[..i], [s[i]], keep);
      assert Filter([s[i]], keep) == if keep(s[i]) then [s[i]] else [] by {
        assert [s[i]][1..] == [];
      }
      if keep(s[i]) {
        r := r + [s[i]];
      }
      i := i + 1;
    }
    assert s[..i] == s;
  }

  /** `UPDATE … SET … WHERE sel` as a scan: every selected row is replaced
      by `f` of it where it stands. */
  method UpdateRows<T>(s: seq<T>, sel: T -> bool, f: T -> T) returns (r: seq<T>)
    ensures r == UpdateWhere(s, sel, f)
  {
    r := s;
    var i := 0;
    while i < |s|
      invariant 0 <= i <= |s| && |r| == |s|
      invariant forall j :: 0 <= j < i ==> r[j] == if sel(s[j]) then f(s[j]) else s[j]
      invariant forall j :: i <= j < |s| ==> r[j] == s[j]
    {
      if sel(r[i]) {
        r := r[i := f(r[i])];
      }
      i := i + 1;
    }
    assert forall j :: 0 <= j < |s| ==> r[j] == UpdateWhere(s, sel, f)[j];
  }

  // ---------------------------------------------------------------------
  // The store
  // ---------------------------------------------------------------------

  class Store {
    var users: seq<User>
    var members: seq<Member>
    var clubs: seq<Club>
    var links: seq<Link>
    var plans: seq<Plan>
    var clubNotes: seq<ClubNote>
    var notes: seq<Note>
    var events: seq<Event>
    var nextClub: nat
    var nextLink: nat
    var nextClubNote: nat
    var nextNote: nat
    var nextEvent: nat

    /** The tables as a snapshot. */
    function Tables(): Db
      reads this
    {
      Db(users, members, clubs, links, plans, clubNotes, notes, events,
         nextClub, nextLink, nextClubNote, nextNote, nextEvent)
    }

    ghost predicate Valid()
      reads this
    {
      Tables().Valid()
    }

    /** A binding over existing, well-formed tables. */
    constructor (db: Db)
      requires db.Valid()
      ensures Tables() == db && Valid()
    {
      users, members, clubs, links := db.users, db.members, db.clubs, db.links;
      plans, clubNotes, notes, events := db.plans, db.clubNotes, db.notes, db.events;
      nextClub, nextLink, nextClubNote := db.nextClub, db.nextLink, db.nextClubNote;
      nextNote, nextEvent := db.nextNote, db.nextEvent;
    }

    // -------------------------------------------------------------------
    // Clubs
    // -------------------------------------------------------------------

    method CreateClub(body: Json) returns (r: Reply)
      requires Valid()
      modifies this
      ensures Valid()
      ensures Step(r, Tables()) == H.CreateClub(old(Tables()), body)
    {
      ghost var db := Tables();
      I.CreateClubKeepsValid(db, body);
      if body == JNull {
        return Reply(500, Crash);
      }
      var name, description, image := Field(body, "name"), Field(body, "description"), Field(body, "image");
      if !(Truthy(name) && Truthy(description) && Truthy(image)) {
        return H.Error(400, "Name, description, and image required");
      }
      var c := Club(nextClub, name.v, description.v, image.v,
                    OrNull(Field(body, "adminId")), OrNull(Field(body, "leaderId")));
      clubs := clubs + [c];
      nextClub := nextClub + 1;
      r := Reply(201, ClubCreated(c));
      assert Tables() == db.(clubs := db.clubs + [c], nextClub := db.nextClub + 1);
    }

    method UpdateClub(clubId: nat, body: Json) returns (r: Reply)
      requires Valid()
      modifies this
      ensures Valid()
      ensures Step(r, Tables()) == H.UpdateClub(old(Tables()), clubId, body)
    {
      ghost var db := Tables();
      I.UpdateClubKeepsValid(db, clubId, body);
      if body == JNull {
        return Reply(500, Crash);
      }
      if !H.AnyClubField(body) {
        return H.Error(400, "At least one field required");
      }
      var found := FirstRow(clubs, ClubNumbered(JNum(clubId)));
      if found.None? {
        return H.Error(404, "Club not found");
      }
      clubs := UpdateRows(clubs, ClubIs(clubId), H.ClubPatch(body));
      r := H.Ok("Club updated successfully");
      assert Tables() == db.(clubs := H.PatchClubs(db.clubs, clubId, body));
    }

    method DeleteClub(clubId: nat) returns (r: Reply)
      requires Valid()
      modifies this
      ensures Valid()
      ensures Step(r, Tables()) == H.DeleteClub(old(Tables()), clubId)
    {
      ghost var db := Tables();
      I.DeleteClubKeepsValid(db, clubId);
      var found := FirstRow(clubs, ClubNumbered(JNum(clubId)));
      if found.None? {
        return H.Error(404, "Club not found");
      }
      clubs := KeepRows(clubs, ClubOtherThan(clubId));
      r := H.Ok("Club deleted successfully");
      assert Tables() == db.(clubs := DropClub(db.clubs, clubId));
    }

    // -------------------------------------------------------------------
    // Membership links
    // -------------------------------------------------------------------

    method Join(clubId: nat, body: Json) returns (r: Reply)
      requires Valid()
      modifies this
      ensures Valid()
      ensures Step(r, Tables()) == H.Join(old(Tables()), clubId, body)
    {
      ghost var db := Tables();
      I.JoinKeepsValid(db, clubId, body);
      if body == JNull {
        return Reply(500, Crash);
      }
      var memberId := Field(body, "memberId");
      if !Truthy(memberId) {
        return H.Error(400, "Member ID required");
      }
      var existing := FirstRow(links, PairIs(JNum(clubId), memberId.v));
      if existing.Some? {
        return H.Error(409, "Already a member of this club");
      }
      links := links + [Link(nextLink, JNum(clubId), memberId.v)];
      nextLink := nextLink + 1;
      r := H.Ok("Successfully joined club");
      assert Tables() == db.(links := db.links + [Link(db.nextLink, JNum(clubId), memberId.v)], nextLink := db.nextLink + 1);
    }

    method Leave(clubId: nat, body: Json) returns (r: Reply)
      requires Valid()
      modifies this
      ensures Valid()
      ensures Step(r, Tables()) == H.Leave(old(Tables()), clubId, body)
    {
      ghost var db := Tables();
      I.LeaveKeepsValid(db, clubId, body);
      if body == JNull {
        return Reply(500, Crash);
      }
      var memberId := Field(body, "memberId");
      if !Truthy(memberId) {
        return H.Error(400, "Member ID required");
      }
      var existing := FirstRow(links, PairIs(JNum(clubId), memberId.v));
      if existing.None? {
        return H.Error(404, "Not a member of this club");
      }
      links := KeepRows(links, PairOtherThan(JNum(clubId), memberId.v));
      r := H.Ok("Successfully left club");
      assert Tables() == db.(links := RemovePair(db.links, JNum(clubId), memberId.v));
    }

    method RemoveMember(clubId: nat, memberId: nat) returns (r: Reply)
      requires Valid()
      modifies this
      ensures Valid()
      ensures Step(r, Tables()) == H.RemoveMember(old(Tables()), clubId, memberId)
    {
      ghost var db := Tables();
      I.RemoveMemberKeepsValid(db, clubId, memberId);
      var found := FirstRow(clubs, ClubNumbered(JNum(clubId)));
      if found.None? {
        return H.Error(404, "Club not found");
      }
      links := KeepRows(links, PairOtherThan(JNum(clubId), JNum(memberId)));
      r := H.Ok("Member removed successfully");
      assert Tables() == db.(links := RemovePair(db.links, JNum(clubId), JNum(memberId)));
    }

    // -------------------------------------------------------------------
    // Announcements
    // -------------------------------------------------------------------

    method CreateClubAnnouncement(clubId: nat, body: Json) returns (r: Reply)
      requires Valid()
      modifies this
      ensures Valid()
      ensures Step(r, Tables()) == H.CreateClubAnnouncement(old(Tables()), clubId, body)
    {
      ghost var db := Tables();
      I.CreateClubAnnouncementKeepsValid(db, clubId, body);
      if body == JNull {
        return Reply(500, Crash);
      }
      var text := Field(body, "text");
      if !Truthy(text) {
        return H.Error(400, "Announcement text required");
      }
      var found := FirstRow(clubs, ClubNumbered(JNum(clubId)));
      if found.None? {
        return H.Error(404, "Club not found");
      }
      var n := ClubNote(nextClubNote, JNum(clubId), text.v);
      clubNotes := clubNotes + [n];
      nextClubNote := nextClubNote + 1;
      r := Reply(201, ClubNoteCreated(n));
      assert Tables() == db.(clubNotes := db.clubNotes + [n], nextClubNote := db.nextClubNote + 1);
    }

    method DeleteClubAnnouncement(clubId: nat, noteId: nat) returns (r: Reply)
      requires Valid()
      modifies this
      ensures Valid()
      ensures Step(r, Tables()) == H.DeleteClubAnnouncement(old(Tables()), clubId, noteId)
    {
      ghost var db := Tables();
      I.DeleteClubAnnouncementKeepsValid(db, clubId, noteId);
      clubNotes := KeepRows(clubNotes, ClubNoteOtherThan(noteId, JNum(clubId)));
      r := H.Ok("Announcement deleted successfully");
      assert Tables() == db.(clubNotes := DropClubNote(db.clubNotes, noteId, JNum(clubId)));
    }

    method CreateAnnouncement(body: Json) returns (r: Reply)
      requires Valid()
      modifies this
      ensures Valid()
      ensures Step(r, Tables()) == H.CreateAnnouncement(old(Tables()), body)
    {
      ghost var db := Tables();
      I.CreateAnnouncementKeepsValid(db, body);
      if body == JNull {
        return Reply(500, Crash);
      }
      var text := Field(body, "text");
      if !Truthy(text) {
        return H.Error(400, "Announcement text required");
      }
      var n := Note(nextNote, text.v);
      notes := notes + [n];
      nextNote := nextNote + 1;
      r := Reply(201, NoteCreated(n));
      assert Tables() == db.(notes := db.notes + [n], nextNote := db.nextNote + 1);
    }

    method DeleteAnnouncement(noteId: nat) returns (r: Reply)
      requires Valid()
      modifies this
      ensures Valid()
      ensures Step(r, Tables()) == H.DeleteAnnouncement(old(Tables()), noteId)
    {
      ghost var db := Tables();
      I.DeleteAnnouncementKeepsValid(db, noteId);
      notes := KeepRows(notes, NoteOtherThan(noteId));
      r := H.Ok("Announcement deleted successfully");
      assert Tables() == db.(notes := DropNote(db.notes, noteId));
    }

    // -------------------------------------------------------------------
    // Events
    // -------------------------------------------------------------------

    method CreateEvent(body: Json) returns (r: Reply)
      requires Valid()
      modifies this
      ensures Valid()
      ensures Step(r, Tables()) == H.CreateEvent(old(Tables()), body)
    {
      ghost var db := Tables();
      I.CreateEventKeepsValid(db, body);
      if body == JNull {
        return Reply(500, Crash);
      }
      if !H.EventFieldsPresent(body) {
        return H.Error(400, "Title, description, and date required");
      }
      var clubId := Field(body, "clubId");
      if Truthy(clubId) {
        var found := FirstRow(clubs, ClubNumbered(clubId.v));
        if found.None? {
          return H.Error(404, "Club not found");
        }
      }
      var e := Event(nextEvent, Field(body, "title").v, Field(body, "description").v, Field(body, "date").v, OrNull(clubId));
      events := events + [e];
      nextEvent := nextEvent + 1;
      r := Reply(201, EventCreated(e));
      assert Tables() == db.(events := db.events + [e], nextEvent := db.nextEvent + 1);
    }

    method UpdateEvent(eventId: nat, body: Json) returns (r: Reply)
      requires Valid()
      modifies this
      ensures Valid()
      ensures Step(r, Tables()) == H.UpdateEvent(old(Tables()), eventId, body)
    {
      ghost var db := Tables();
      I.UpdateEventKeepsValid(db, eventId, body);
      if body == JNull {
        return Reply(500, Crash);
      }
      var found := FirstRow(events, EventIs(eventId));
      if found.None? {
        return H.Error(404, "Event not found");
      }
      events := UpdateRows(events, EventIs(eventId), H.EventPatch(body));
      r := H.Ok("Event updated successfully");
      assert Tables() == db.(events := H.PatchEvents(db.events, eventId, body));
    }

    method DeleteEvent(eventId: nat) returns (r: Reply)
      requires Valid()
      modifies this
      ensures Valid()
      ensures Step(r, Tables()) == H.DeleteEvent(old(Tables()), eventId)
    {
      ghost var db := Tables();
      I.DeleteEventKeepsValid(db, eventId);
      var found := FirstRow(events, EventIs(eventId));
      if found.None? {
        return H.Error(404, "Event not found");
      }
      events := KeepRows(events, EventOtherThan(eventId));
      r := H.Ok("Event deleted successfully");
      assert Tables() == db.(events := DropEvent(db.events, eventId));
    }

    // -------------------------------------------------------------------
    // Users and member profiles
    // -------------------------------------------------------------------

    method UpdateUser(userId: nat, body: Json) returns (r: Reply)
      requires Valid()
      modifies this
      ensures Valid()
      ensures Step(r, Tables()) == H.UpdateUser(old(Tables()), userId, body)
    {
      ghost var db := Tables();
      I.UpdateUserKeepsValid(db, userId, body);
      if body == JNull {
        return Reply(500, Crash);
      }
      var found := FirstRow(users, UserIs(userId));
      if found.None? {
        return H.Error(404, "User not found");
      }
      if H.BadRole(body) {
        return H.Error(400, "Invalid role");
      }
      users := UpdateRows(users, UserIs(userId), H.UserPatch(body));
      r := H.Ok("User updated successfully");
      assert Tables() == db.(users := H.PatchUsers(db.users, userId, body));
    }

    method DeleteUser(userId: nat) returns (r: Reply)
      requires Valid()
      modifies this
      ensures Valid()
      ensures Step(r, Tables()) == H.DeleteUser(old(Tables()), userId)
    {
      ghost var db := Tables();
      I.DeleteUserKeepsValid(db, userId);
      var found := FirstRow(users, UserIs(userId));
      if found.None? {
        return H.Error(404, "User not found");
      }
      users := KeepRows(users, UserOtherThan(userId));
      r := H.Ok("User deleted successfully");
      assert Tables() == db.(users := DropUser(db.users, userId));
    }

    method UpdateMember(memberId: nat, body: Json) returns (r: Reply)
      requires Valid()
      modifies this
      ensures Valid()
      ensures Step(r, Tables()) == H.UpdateMember(old(Tables()), memberId, body)
    {
      ghost var db := Tables();
      I.UpdateMemberKeepsValid(db, memberId, body);
      var found := FirstRow(members, MemberIs(memberId));
      if found.None? {
        return H.Error(404, "Member not found");
      }
      if body == JNull {
        return Reply(500, Crash);
      }
      members := UpdateRows(members, MemberIs(memberId), H.ProfilePatch(body));
      r := H.Ok("Profile updated successfully");
      assert Tables() == db.(members := H.PatchMembers(db.members, memberId, body));
    }
  
    // -------------------------------------------------------------------
    // The request handler
    // -------------------------------------------------------------------

    /** Runs the handler a guard selected. */
    method Run(route: R.Route, body: Json, now: string) returns (r: Reply)
      requires Valid()
      requires |route.ids| == R.Arity(route.handler)
      modifies this
      ensures Valid()
      ensures Step(r, Tables()) == S.Run(old(Tables()), route, body, now)
    {
      if !R.Writes(route.handler) {
        r := Query(route, body, now);
      } else if route.handler in {R.CreateClub, R.UpdateClub, R.DeleteClub} {
        r := RunClubs(route, body);
      } else if route.handler in {R.JoinClub, R.LeaveClub, R.RemoveMember} {
        r := RunLinks(route, body);
      } else if route.handler in {R.CreateClubAnnouncement, R.DeleteClubAnnouncement, R.CreateAnnouncement, R.DeleteAnnouncement} {
        r := RunNotes(route, body);
      } else if route.handler in {R.CreateEvent, R.UpdateEvent, R.DeleteEvent} {
        r := RunEvents(route, body);
      } else {
        r := RunAccounts(route, body);
      }
    }

    /** The reading handlers compute their reply from the current tables
        and leave them alone. */
    method Query(route: R.Route, body: Json, now: string) returns (r: Reply)
      requires |route.ids| == R.Arity(route.handler)
      requires !R.Writes(route.handler)
      ensures Step(r, Tables()) == S.Run(Tables(), route, body, now)
    {
      var db, ids := Tables(), route.ids;
      match route.handler
      case Login => r := Q.Login(db, body);
      case ListMembers => r := Q.ListMembers(db);
      case GetMembership => r := Q.GetMembership(db, ids[0]);
      case ListClubAnnouncements => r := Q.ListClubAnnouncements(db, ids[0]);
      case ListAnnouncements => r := Q.ListAnnouncements(db);
      case ListEvents => r := Q.ListEvents(db);
      case GetEvent => r := Q.GetEvent(db, ids[0]);
      case ListUsers => r := Q.ListUsers(db);
      case GetUser => r := Reply(200, Unspecified);
      case Stats => r := Q.Stats(db);
      case GetMember => r := Q.GetMember(db, ids[0]);
      case GetClub => r := Q.GetClub(db, ids[0]);
      case Health => r := Reply(200, Healthy(now));
    }

    /** The writing handlers, a few at a time; none of them reads the clock. */
    method RunClubs(route: R.Route, body: Json) returns (r: Reply)
      requires Valid()
      requires |route.ids| == R.Arity(route.handler)
      requires route.handler in {R.CreateClub, R.UpdateClub, R.DeleteClub}
      modifies this
      ensures Valid()
      ensures forall now :: Step(r, Tables()) == S.Run(old(Tables()), route, body, now)
    {
      if route.handler == R.CreateClub {
        r := CreateClub(body);
      } else if route.handler == R.UpdateClub {
        r := UpdateClub(route.ids[0], body);
      } else {
        r := DeleteClub(route.ids[0]);
      }
    }

    method RunLinks(route: R.Route, body: Json) returns (r: Reply)
      requires Valid()
      requires |route.ids| == R.Arity(route.handler)
      requires route.handler in {R.JoinClub, R.LeaveClub, R.RemoveMember}
      modifies this
      ensures Valid()
      ensures forall now :: Step(r, Tables()) == S.Run(old(Tables()), route, body, now)
    {
      if route.handler == R.JoinClub {
        r := Join(route.ids[0], body);
      } else if route.handler == R.LeaveClub {
        r := Leave(route.ids[0], body);
      } else {
        r := RemoveMember(route.ids[0], route.ids[1]);
      }
    }

    method RunNotes(route: R.Route, body: Json) returns (r: Reply)
      requires Valid()
      requires |route.ids| == R.Arity(route.handler)
      requires route.handler in {R.CreateClubAnnouncement, R.DeleteClubAnnouncement, R.CreateAnnouncement, R.DeleteAnnouncement}
      modifies this
      ensures Valid()
      ensures forall now :: Step(r, Tables()) == S.Run(old(Tables()), route, body, now)
    {
      if route.handler == R.CreateClubAnnouncement {
        r := CreateClubAnnouncement(route.ids[0], body);
      } else if route.handler == R.DeleteClubAnnouncement {
        r := DeleteClubAnnouncement(route.ids[0], route.ids[1]);
      } else if route.handler == R.CreateAnnouncement {
        r := CreateAnnouncement(body);
      } else {
        r := DeleteAnnouncement(route.ids[0]);
      }
    }

    method RunEvents(route: R.Route, body: Json) returns (r: Reply)
      requires Valid()
      requires |route.ids| == R.Arity(route.handler)
      requires route.handler in {R.CreateEvent, R.UpdateEvent, R.DeleteEvent}
      modifies this
      ensures Valid()
      ensures forall now :: Step(r, Tables()) == S.Run(old(Tables()), route, body, now)
    {
      if route.handler == R.CreateEvent {
        r := CreateEvent(body);
      } else if route.handler == R.UpdateEvent {
        r := UpdateEvent(route.ids[0], body);
      } else {
        r := DeleteEvent(route.ids[0]);
      }
    }

    method RunAccounts(route: R.Route, body: Json) returns (r: Reply)
      requires Valid()
      requires |route.ids| == R.Arity(route.handler)
      requires route.handler in {R.UpdateUser, R.DeleteUser, R.UpdateMember}
      modifies this
      ensures Valid()
      ensures forall now :: Step(r, Tables()) == S.Run(old(Tables()), route, body, now)
    {
      if route.handler == R.UpdateUser {
        r := UpdateUser(route.ids[0], body);
      } else if route.handler == R.DeleteUser {
        r := DeleteUser(route.ids[0]);
      } else {
        r := UpdateMember(route.ids[0], body);
      }
    }

    /** `fetch`: answers one request against the bound tables. */
    method Fetch(rawPath: string, verb: string, body: Json, hasDb: bool, now: string) returns (r: Reply)
      requires Valid()
      modifies this
      ensures Valid()
      ensures Step(r, Tables()) == S.Serve(old(Tables()), rawPath, verb, body, hasDb, now)
    {
      match R.Decide(rawPath, verb, hasDb)
      case Preflight => r := Reply(204, NoBody);
      case NoDatabase => r := Reply(500, Failure(S.DatabaseMissing));
      case EndpointNotFound(path, v) => r := Reply(404, EndpointMissing(path, v));
      case Handle(route) => r := Run(route, body, now);
    }
  }
}
