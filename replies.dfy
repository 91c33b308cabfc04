/** What a request produces: a status code and a JSON body, and, for the
    handlers that write, the database they leave behind. */
module Replies {
  import opened Values
  import opened Tables

  /** The `user` object a successful login returns. `kind` is its `type`. */
  datatype Identity =
    | AdminIdentity(id: nat, email: Json, role: Json, kind: string)
    | MemberIdentity(
        id: nat, name: Json, email: Json, studentId: Json, role: Json,
        clubs: seq<Json>, leaderOf: Option<nat>, kind: string)

  /** `SELECT id, name, email, student_id, role FROM club_members`. */
  datatype MemberSummary = MemberSummary(id: nat, name: Json, email: Json, studentId: Json, role: Json)

  /** `SELECT id, email, role FROM users` (the creation date is not modelled). */
  datatype UserView = UserView(id: nat, email: Json, role: Json)

  /** An announcement as listed: `id, text` (the date is not modelled). */
  datatype NoteView = NoteView(id: nat, text: Json)

  /** An event joined with the name of its club, NULL when it has none. */
  datatype EventView = EventView(event: Event, clubName: Json)

  /** An event as listed under its club: `id, title, description, date`. */
  datatype EventSummary = EventSummary(id: nat, title: Json, description: Json, date: Json)

  /** A club member as listed under the club: `cm.id, cm.name, cm.role`. */
  datatype RosterEntry = RosterEntry(id: nat, name: Json, role: Json)

  /** The profile columns `GET /members/:id` selects. */
  datatype Profile = Profile(
    id: nat, name: Json, username: Json, email: Json, aboutMe: Json,
    yearSection: Json, course: Json, birthday: Json, clubId: Json, role: Json)

  /** `SELECT id, name, description, image FROM clubs`. */
  datatype ClubSummary = ClubSummary(id: nat, name: Json, description: Json, image: Json)

  datatype Body =
    | NoBody                                        // preflight
    | Failure(error: string)                        // { error: '<message>' }
    | Crash                                         // the catch: { error: e.message, stack }
    | EndpointMissing(path: string, verb: string)   // { error: 'Endpoint not found', path, method, hint }
    | Message(message: string)                      // { message: '<message>' }
    | LoggedIn(user: Identity)
    | MemberList(members: seq<MemberSummary>)
    | PlanRow(plan: Plan)
    | EmptyObject                                   // `{}`
    | ClubCreated(club: Club)                       // with empty members, announcements, events
    | ClubDetail(club: Club, roster: seq<RosterEntry>, announcements: seq<NoteView>, events: seq<EventSummary>)
    | ClubNoteCreated(clubNote: ClubNote)
    | NoteCreated(note: Note)
    | Announcements(notes: seq<NoteView>)
    | EventList(views: seq<EventView>)
    | EventFound(view: EventView)
    | EventCreated(event: Event)
    | UserList(users: seq<UserView>)
    | Statistics(totalClubs: nat, totalUsers: nat, totalEvents: nat, totalMemberships: nat)
    | MemberProfile(profile: Profile, memberClub: Option<ClubSummary>)
    | Healthy(timestamp: string)
    | Unspecified                                   // GET /users/:id, not modelled

  datatype Reply = Reply(status: nat, body: Body)

  /** A handler's reply and the database after it. */
  datatype Step = Step(reply: Reply, db: Db)
}
