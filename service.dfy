/** The whole request handler: the dispatcher's decision followed by the
    handler it selects, as one function of the database, the request and
    the clock reading. */
module Service {
  import opened Values
  import opened Tables
  import opened Replies
  import R = Router
  import Q = Queries
  import H = Handlers
  import I = Invariants

  const DatabaseMissing := "Database not configured. Add D1 binding named \"DB\""

  /** Runs the handler a guard selected. `now` is the clock reading the
      health check reports. */
  function Run(db: Db, route: R.Route, body: Json, now: string): (s: Step)
    requires |route.ids| == R.Arity(route.handler)
    ensures !R.Writes(route.handler) ==> s.db == db
  {
    var ids := route.ids;
    match route.handler
    case Login => Step(Q.Login(db, body), db)
    case ListMembers => Step(Q.ListMembers(db), db)
    case GetMembership => Step(Q.GetMembership(db, ids[0]), db)
    case CreateClub => H.CreateClub(db, body)
    case UpdateClub => H.UpdateClub(db, ids[0], body)
    case DeleteClub => H.DeleteClub(db, ids[0])
    case JoinClub => H.Join(db, ids[0], body)
    case LeaveClub => H.Leave(db, ids[0], body)
    case RemoveMember => H.RemoveMember(db, ids[0], ids[1])
    case CreateClubAnnouncement => H.CreateClubAnnouncement(db, ids[0], body)
    case ListClubAnnouncements => Step(Q.ListClubAnnouncements(db, ids[0]), db)
    case DeleteClubAnnouncement => H.DeleteClubAnnouncement(db, ids[0], ids[1])
    case ListAnnouncements => Step(Q.ListAnnouncements(db), db)
    case CreateAnnouncement => H.CreateAnnouncement(db, body)
    case DeleteAnnouncement => H.DeleteAnnouncement(db, ids[0])
    case ListEvents => Step(Q.ListEvents(db), db)
    case GetEvent => Step(Q.GetEvent(db, ids[0]), db)
    case CreateEvent => H.CreateEvent(db, body)
    case UpdateEvent => H.UpdateEvent(db, ids[0], body)
    case DeleteEvent => H.DeleteEvent(db, ids[0])
    case ListUsers => Step(Q.ListUsers(db), db)
    case GetUser => Step(Reply(200, Unspecified), db)
    case UpdateUser => H.UpdateUser(db, ids[0], body)
    case DeleteUser => H.DeleteUser(db, ids[0])
    case UpdateMember => H.UpdateMember(db, ids[0], body)
    case Stats => Step(Q.Stats(db), db)
    case GetMember => Step(Q.GetMember(db, ids[0]), db)
    case GetClub => Step(Q.GetClub(db, ids[0]), db)
    case Health => Step(Reply(200, Healthy(now)), db)
  }

  /** `fetch`: the reply to one request and the database it leaves. */
  function Serve(db: Db, rawPath: string, verb: string, body: Json, hasDb: bool, now: string): (s: Step)
    ensures verb == "OPTIONS" ==> s == Step(Reply(204, NoBody), db)
    ensures verb != "OPTIONS" && !hasDb ==> s == Step(Reply(500, Failure(DatabaseMissing)), db)
    ensures verb != "OPTIONS" && hasDb && (forall j :: 0 <= j < |R.Guards| ==> !R.Accepts(R.Guards[j], R.StripApi(rawPath), verb))
      ==> s == Step(Reply(404, EndpointMissing(R.StripApi(rawPath), verb)), db)
    ensures verb != "OPTIONS" && hasDb && R.Dispatch(R.StripApi(rawPath), verb).Some?
      ==> s == Run(db, R.Dispatch(R.StripApi(rawPath), verb).value, body, now)
    ensures verb == "GET" ==> s.db == db
  {
    match R.Decide(rawPath, verb, hasDb)
    case Preflight => Step(Reply(204, NoBody), db)
    case NoDatabase => Step(Reply(500, Failure(DatabaseMissing)), db)
    case EndpointNotFound(path, v) => Step(Reply(404, EndpointMissing(path, v)), db)
    case Handle(route) => Run(db, route, body, now)
  }

  /** Every handler keeps the database well formed; the writing handlers
      are taken four at a time. */
  lemma RunKeepsValid(db: Db, route: R.Route, body: Json, now: string)
    requires db.Valid()
    requires |route.ids| == R.Arity(route.handler)
    ensures Run(db, route, body, now).db.Valid()
  {
    if route.handler in {R.CreateClub, R.UpdateClub, R.DeleteClub, R.JoinClub} {
      WritersKeepValid1(db, route, body, now);
    }
    else if route.handler in {R.LeaveClub, R.RemoveMember, R.CreateClubAnnouncement, R.DeleteClubAnnouncement} {
      WritersKeepValid2(db, route, body, now);
    }
    else if route.handler in {R.CreateAnnouncement, R.DeleteAnnouncement, R.CreateEvent, R.UpdateEvent} {
      WritersKeepValid3(db, route, body, now);
    }
    else if route.handler in {R.DeleteEvent, R.UpdateUser, R.DeleteUser, R.UpdateMember} {
      WritersKeepValid4(db, route, body, now);
    }
  }

  lemma WritersKeepValid1(db: Db, route: R.Route, body: Json, now: string)
    requires db.Valid()
    requires |route.ids| == R.Arity(route.handler)
    requires route.handler in {R.CreateClub, R.UpdateClub, R.DeleteClub, R.JoinClub}
    ensures Run(db, route, body, now).db.Valid()
  {
    var ids := route.ids;
    if route.handler == R.CreateClub {
      I.CreateClubKeepsValid(db, body);
    }
    else if route.handler == R.UpdateClub {
      I.UpdateClubKeepsValid(db, ids[0], body);
    }
    else if route.handler == R.DeleteClub {
      I.DeleteClubKeepsValid(db, ids[0]);
    }
    else {
      I.JoinKeepsValid(db, ids[0], body);
    }
  }

  lemma WritersKeepValid2(db: Db, route: R.Route, body: Json, now: string)
    requires db.Valid()
    requires |route.ids| == R.Arity(route.handler)
    requires route.handler in {R.LeaveClub, R.RemoveMember, R.CreateClubAnnouncement, R.DeleteClubAnnouncement}
    ensures Run(db, route, body, now).db.Valid()
  {
    var ids := route.ids;
    if route.handler == R.LeaveClub {
      I.LeaveKeepsValid(db, ids[0], body);
    }
    else if route.handler == R.RemoveMember {
      I.RemoveMemberKeepsValid(db, ids[0], ids[1]);
    }
    else if route.handler == R.CreateClubAnnouncement {
      I.CreateClubAnnouncementKeepsValid(db, ids[0], body);
    }
    else {
      I.DeleteClubAnnouncementKeepsValid(db, ids[0], ids[1]);
    }
  }

  lemma WritersKeepValid3(db: Db, route: R.Route, body: Json, now: string)
    requires db.Valid()
    requires |route.ids| == R.Arity(route.handler)
    requires route.handler in {R.CreateAnnouncement, R.DeleteAnnouncement, R.CreateEvent, R.UpdateEvent}
    ensures Run(db, route, body, now).db.Valid()
  {
    var ids := route.ids;
    if route.handler == R.CreateAnnouncement {
      I.CreateAnnouncementKeepsValid(db, body);
    }
    else if route.handler == R.DeleteAnnouncement {
      I.DeleteAnnouncementKeepsValid(db, ids[0]);
    }
    else if route.handler == R.CreateEvent {
      I.CreateEventKeepsValid(db, body);
    }
    else {
      I.UpdateEventKeepsValid(db, ids[0], body);
    }
  }

  lemma WritersKeepValid4(db: Db, route: R.Route, body: Json, now: string)
    requires db.Valid()
    requires |route.ids| == R.Arity(route.handler)
    requires route.handler in {R.DeleteEvent, R.UpdateUser, R.DeleteUser, R.UpdateMember}
    ensures Run(db, route, body, now).db.Valid()
  {
    var ids := route.ids;
    if route.handler == R.DeleteEvent {
      I.DeleteEventKeepsValid(db, ids[0]);
    }
    else if route.handler == R.UpdateUser {
      I.UpdateUserKeepsValid(db, ids[0], body);
    }
    else if route.handler == R.DeleteUser {
      I.DeleteUserKeepsValid(db, ids[0]);
    }
    else {
      I.UpdateMemberKeepsValid(db, ids[0], body);
    }
  }

  /** The counts of `GET /stats` move only where a route inserts or
      deletes a row of a counted table: a created club or event adds one,
      a deleted club, event or user takes one away, and since no route
      inserts or deletes a `club_members` row, `totalMemberships` never
      moves. */
  ghost predicate MovesStats(db: Db, handler: R.Handler, s: Step) {
    var before, after := Q.Stats(db).body, Q.Stats(s.db).body;
    && after.totalClubs == before.totalClubs
         + (if handler == R.CreateClub && s.reply.status == 201 then 1 else 0)
         - (if handler == R.DeleteClub && s.reply.status == 200 then 1 else 0)
    && after.totalEvents == before.totalEvents
         + (if handler == R.CreateEvent && s.reply.status == 201 then 1 else 0)
         - (if handler == R.DeleteEvent && s.reply.status == 200 then 1 else 0)
    && after.totalUsers == before.totalUsers
         - (if handler == R.DeleteUser && s.reply.status == 200 then 1 else 0)
    && after.totalMemberships == before.totalMemberships
  }

  /** Every route moves the counts as `MovesStats` says; the writing
      routes are taken a table group at a time. */
  lemma RunMovesStats(db: Db, route: R.Route, body: Json, now: string)
    requires db.Valid()
    requires |route.ids| == R.Arity(route.handler)
    ensures MovesStats(db, route.handler, Run(db, route, body, now))
  {
    if route.handler in {R.CreateClub, R.UpdateClub, R.DeleteClub} {
      ClubRoutesMoveStats(db, route, body, now);
    }
    else if route.handler in {R.JoinClub, R.LeaveClub, R.RemoveMember} {
      LinkRoutesMoveStats(db, route, body, now);
    }
    else if route.handler in {R.CreateClubAnnouncement, R.DeleteClubAnnouncement, R.CreateAnnouncement, R.DeleteAnnouncement} {
      NoteRoutesMoveStats(db, route, body, now);
    }
    else if route.handler in {R.CreateEvent, R.UpdateEvent, R.DeleteEvent} {
      EventRoutesMoveStats(db, route, body, now);
    }
    else if route.handler in {R.UpdateUser, R.DeleteUser, R.UpdateMember} {
      AccountRoutesMoveStats(db, route, body, now);
    }
    else {
      assert !R.Writes(route.handler);
    }
  }

  lemma ClubRoutesMoveStats(db: Db, route: R.Route, body: Json, now: string)
    requires db.Valid()
    requires |route.ids| == R.Arity(route.handler)
    requires route.handler in {R.CreateClub, R.UpdateClub, R.DeleteClub}
    ensures MovesStats(db, route.handler, Run(db, route, body, now))
  {
    if route.handler == R.CreateClub {
      ClubWritersMoveStats(db, 0, body);
    }
    else if route.handler == R.UpdateClub {
      ClubWritersMoveStats(db, route.ids[0], body);
    }
    else {
      DeleteClubMovesStats(db, route.ids[0]);
    }
  }

  lemma LinkRoutesMoveStats(db: Db, route: R.Route, body: Json, now: string)
    requires |route.ids| == R.Arity(route.handler)
    requires route.handler in {R.JoinClub, R.LeaveClub, R.RemoveMember}
    ensures MovesStats(db, route.handler, Run(db, route, body, now))
  {
    LinkWritersMoveStats(db, route.ids[0], if route.handler == R.RemoveMember then route.ids[1] else 0, body);
  }

  lemma NoteRoutesMoveStats(db: Db, route: R.Route, body: Json, now: string)
    requires |route.ids| == R.Arity(route.handler)
    requires route.handler in {R.CreateClubAnnouncement, R.DeleteClubAnnouncement, R.CreateAnnouncement, R.DeleteAnnouncement}
    ensures MovesStats(db, route.handler, Run(db, route, body, now))
  {
    if route.handler == R.CreateClubAnnouncement {
      NoteWritersMoveStats(db, route.ids[0], 0, body);
    }
    else if route.handler == R.DeleteClubAnnouncement {
      NoteWritersMoveStats(db, route.ids[0], route.ids[1], body);
    }
    else if route.handler == R.CreateAnnouncement {
      NoteWritersMoveStats(db, 0, 0, body);
    }
    else {
      NoteWritersMoveStats(db, route.ids[0], 0, body);
    }
  }

  lemma EventRoutesMoveStats(db: Db, route: R.Route, body: Json, now: string)
    requires db.Valid()
    requires |route.ids| == R.Arity(route.handler)
    requires route.handler in {R.CreateEvent, R.UpdateEvent, R.DeleteEvent}
    ensures MovesStats(db, route.handler, Run(db, route, body, now))
  {
    if route.handler == R.CreateEvent {
      EventWritersMoveStats(db, 0, body);
    }
    else if route.handler == R.UpdateEvent {
      EventWritersMoveStats(db, route.ids[0], body);
    }
    else {
      DeleteEventMovesStats(db, route.ids[0]);
    }
  }

  lemma AccountRoutesMoveStats(db: Db, route: R.Route, body: Json, now: string)
    requires db.Valid()
    requires |route.ids| == R.Arity(route.handler)
    requires route.handler in {R.UpdateUser, R.DeleteUser, R.UpdateMember}
    ensures MovesStats(db, route.handler, Run(db, route, body, now))
  {
    if route.handler == R.DeleteUser {
      DeleteUserMovesStats(db, route.ids[0]);
    }
    else {
      AccountWritersMoveStats(db, route.ids[0], body);
    }
  }

  lemma ClubWritersMoveStats(db: Db, clubId: nat, body: Json)
    ensures MovesStats(db, R.CreateClub, H.CreateClub(db, body))
    ensures MovesStats(db, R.UpdateClub, H.UpdateClub(db, clubId, body))
  {
  }

  /** Deleting a club by a key in use takes exactly one off `totalClubs`,
      because keys are distinct. */
  lemma DeleteClubMovesStats(db: Db, clubId: nat)
    requires db.Valid()
    ensures MovesStats(db, R.DeleteClub, H.DeleteClub(db, clubId))
  {
    if H.DeleteClub(db, clubId).reply.status == 200 {
      DropClubCount(db.clubs, clubId);
    }
  }

  lemma LinkWritersMoveStats(db: Db, clubId: nat, memberId: nat, body: Json)
    ensures MovesStats(db, R.JoinClub, H.Join(db, clubId, body))
    ensures MovesStats(db, R.LeaveClub, H.Leave(db, clubId, body))
    ensures MovesStats(db, R.RemoveMember, H.RemoveMember(db, clubId, memberId))
  {
  }

  lemma NoteWritersMoveStats(db: Db, clubId: nat, noteId: nat, body: Json)
    ensures MovesStats(db, R.CreateClubAnnouncement, H.CreateClubAnnouncement(db, clubId, body))
    ensures MovesStats(db, R.DeleteClubAnnouncement, H.DeleteClubAnnouncement(db, clubId, noteId))
    ensures MovesStats(db, R.CreateAnnouncement, H.CreateAnnouncement(db, body))
    ensures MovesStats(db, R.DeleteAnnouncement, H.DeleteAnnouncement(db, clubId))
  {
  }

  lemma EventWritersMoveStats(db: Db, eventId: nat, body: Json)
    ensures MovesStats(db, R.CreateEvent, H.CreateEvent(db, body))
    ensures MovesStats(db, R.UpdateEvent, H.UpdateEvent(db, eventId, body))
  {
  }

  /** Deleting an event by a key in use takes exactly one off `totalEvents`. */
  lemma DeleteEventMovesStats(db: Db, eventId: nat)
    requires db.Valid()
    ensures MovesStats(db, R.DeleteEvent, H.DeleteEvent(db, eventId))
  {
    if H.DeleteEvent(db, eventId).reply.status == 200 {
      DropEventCount(db.events, eventId);
    }
  }

  lemma AccountWritersMoveStats(db: Db, id: nat, body: Json)
    ensures MovesStats(db, R.UpdateUser, H.UpdateUser(db, id, body))
    ensures MovesStats(db, R.UpdateMember, H.UpdateMember(db, id, body))
  {
  }

  /** Deleting a user by a key in use takes exactly one off `totalUsers`. */
  lemma DeleteUserMovesStats(db: Db, userId: nat)
    requires db.Valid()
    ensures MovesStats(db, R.DeleteUser, H.DeleteUser(db, userId))
  {
    if H.DeleteUser(db, userId).reply.status == 200 {
      DropUserCount(db.users, userId);
    }
  }

  /** Whatever the request, the database stays well formed. */
  lemma ServeKeepsValid(db: Db, rawPath: string, verb: string, body: Json, hasDb: bool, now: string)
    requires db.Valid()
    ensures Serve(db, rawPath, verb, body, hasDb, now).db.Valid()
  {
    match R.Decide(rawPath, verb, hasDb)
    case Handle(route) => RunKeepsValid(db, route, body, now);
    case _ =>
  }

  /** A failed login is a 500, never a 401, end to end. */
  lemma LoginNever401(db: Db, rawPath: string, body: Json, hasDb: bool, now: string)
    requires R.Decide(rawPath, "POST", hasDb) == R.Handle(R.Route(R.Login, []))
    ensures Serve(db, rawPath, "POST", body, hasDb, now).reply.status in {200, 400, 500}
  {
  }

  /** `POST /api/clubs/7/join` reaches the join handler with club 7. */
  lemma ServeJoin(db: Db, body: Json, now: string)
    ensures Serve(db, "/api/clubs/007/join", "POST", body, true, now) == H.Join(db, 7, body)
  {
    R.ConcreteJoin();
  }
}
