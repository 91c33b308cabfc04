/** The relational store the handlers run against, as values: one record
    type per table, a `Db` snapshot of all tables, and the table operations
    the handlers' SQL statements perform (first row, keep rows, update rows). */
module Tables {
  import opened Values

  // ---------------------------------------------------------------------
  // Rows. The primary key `id` is a number; every other column holds
  // whatever value was bound into it, SQL NULL being `JNull`.
  // ---------------------------------------------------------------------

  /** `users`: administrative accounts. */
  datatype User = User(id: nat, email: Json, password: Json, role: Json)

  /** `club_members`: member accounts and their profiles. */
  datatype Member = Member(
    id: nat, studentId: Json, email: Json, password: Json, name: Json, role: Json,
    username: Json, aboutMe: Json, yearSection: Json, course: Json, birthday: Json,
    clubId: Json)

  /** `clubs`. */
  datatype Club = Club(id: nat, name: Json, description: Json, image: Json, adminId: Json, leaderId: Json)

  /** `club_member_links`: one row per (club, member) affiliation. */
  datatype Link = Link(id: nat, clubId: Json, memberId: Json)

  /** `membership`: a club's membership plan. */
  datatype Plan = Plan(id: nat, clubId: Json, name: Json, number: Json, description: Json, image: Json)

  /** `club_announcements`. */
  datatype ClubNote = ClubNote(id: nat, clubId: Json, text: Json)

  /** `general_announcements`. */
  datatype Note = Note(id: nat, text: Json)

  /** `events`; `clubId` is NULL for a platform-wide event. */
  datatype Event = Event(id: nat, title: Json, description: Json, date: Json, clubId: Json)

  // ---------------------------------------------------------------------
  // Generic row operations
  // ---------------------------------------------------------------------

  /** Index of the first row satisfying `p`: what `.first()` returns. */
  function FirstIndex<T>(s: seq<T>, p: T -> bool): (r: Option<nat>)
    ensures r.Some? ==> r.value < |s| && p(s[r.value])
    ensures r.Some? ==> forall j :: 0 <= j < r.value ==> !p(s[j])
    ensures r.None? <==> forall j :: 0 <= j < |s| ==> !p(s[j])
  {
    if s == [] then None
    else if p(s[0]) then Some(0)
    else match FirstIndex(s[1..], p)
      case None => None
      case Some(i) => Some(i + 1)
  }

  /** The first row satisfying `p`, or none. */
  function First<T(!new)>(s: seq<T>, p: T -> bool): (r: Option<T>)
    ensures r.Some? ==> r.value in s && p(r.value)
    ensures r.None? <==> forall x :: x in s ==> !p(x)
    ensures r.Some? ==> FirstIndex(s, p).Some? && r.value == s[FirstIndex(s, p).value]
  {
    match FirstIndex(s, p)
    case None => None
    case Some(i) => Some(s[i])
  }

  /** The rows satisfying `keep`, in table order: what remains after a
      `DELETE` of the others, or what a `SELECT … WHERE keep` returns. */
  function Filter<T(!new)>(s: seq<T>, keep: T -> bool): (r: seq<T>)
    ensures |r| <= |s|
    ensures forall x :: x in r <==> x in s && keep(x)
  {
    if s == [] then []
    else if keep(s[0]) then [s[0]] + Filter(s[1..], keep)
    else Filter(s[1..], keep)
  }

  /** Every row the test keeps is kept in place, every other one is gone:
      `Filter` of a table that has no rejected row is the table itself. */
  lemma {:induction false} FilterKeepsAll<T(!new)>(s: seq<T>, keep: T -> bool)
    requires forall j :: 0 <= j < |s| ==> keep(s[j])
    ensures Filter(s, keep) == s
  {
    if s != [] {
      FilterKeepsAll(s[1..], keep);
    }
  }

  lemma {:induction false} FilterAppend<T(!new)>(s: seq<T>, t: seq<T>, keep: T -> bool)
    ensures Filter(s + t, keep) == Filter(s, keep) + Filter(t, keep)
  {
    if s == [] {
      assert s + t == t;
    } else {
      assert (s + t)[0] == s[0] && (s + t)[1..] == s[1..] + t;
      FilterAppend(s[1..], t, keep);
    }
  }

  /** Deleting twice deletes nothing more. */
  lemma {:induction false} FilterIdempotent<T(!new)>(s: seq<T>, keep: T -> bool)
    ensures Filter(Filter(s, keep), keep) == Filter(s, keep)
  {
    var r := Filter(s, keep);
    assert forall j :: 0 <= j < |r| ==> keep(r[j]) by {
      forall j | 0 <= j < |r| ensures keep(r[j]) {
        assert r[j] in r;
      }
    }
    FilterKeepsAll(r, keep);
  }

  /** A property of pairs of distinct rows, such as "different ids". */
  ghost predicate Pairwise<T>(s: seq<T>, ok: (T, T) -> bool) {
    forall i, j :: 0 <= i < j < |s| ==> ok(s[i], s[j]) && ok(s[j], s[i])
  }

  /** Deleting rows keeps a pairwise property of the rest. */
  lemma {:induction false} FilterPairwise<T(!new)>(s: seq<T>, keep: T -> bool, ok: (T, T) -> bool)
    requires Pairwise(s, ok)
    ensures Pairwise(Filter(s, keep), ok)
  {
    if s != [] {
      assert Pairwise(s[1..], ok) by {
        forall i, j | 0 <= i < j < |s[1..]| ensures ok(s[1..][i], s[1..][j]) && ok(s[1..][j], s[1..][i]) {
          assert s[1..][i] == s[i + 1] && s[1..][j] == s[j + 1];
        }
      }
      FilterPairwise(s[1..], keep, ok);
      var rest := Filter(s[1..], keep);
      if keep(s[0]) {
        var r := [s[0]] + rest;
        forall i, j | 0 <= i < j < |r| ensures ok(r[i], r[j]) && ok(r[j], r[i]) {
          if i == 0 {
            assert r[j] in rest;
            var k :| 0 <= k < |s[1..]| && s[1..][k] == r[j];
            assert s[k + 1] == r[j];
          } else {
            assert r[i] == rest[i - 1] && r[j] == rest[j - 1];
          }
        }
      }
    }
  }

  /** Every row satisfying `sel` replaced by `f` of it: an `UPDATE … WHERE sel`. */
  function UpdateWhere<T>(s: seq<T>, sel: T -> bool, f: T -> T): (r: seq<T>)
    ensures |r| == |s|
    ensures forall j :: 0 <= j < |s| ==> r[j] == if sel(s[j]) then f(s[j]) else s[j]
  {
    seq(|s|, j requires 0 <= j < |s| => if sel(s[j]) then f(s[j]) else s[j])
  }

  // ---------------------------------------------------------------------
  // The database
  // ---------------------------------------------------------------------

  /** All tables, with the next primary key of every table a route inserts into. */
  datatype Db = Db(
    users: seq<User>, members: seq<Member>, clubs: seq<Club>, links: seq<Link>,
    plans: seq<Plan>, clubNotes: seq<ClubNote>, notes: seq<Note>, events: seq<Event>,
    nextClub: nat, nextLink: nat, nextClubNote: nat, nextNote: nat, nextEvent: nat)
  {
    /** Primary keys are distinct, every key a route may allocate is fresh,
        and no (club, member) pair is linked twice. */
    ghost predicate Valid() {
      && Pairwise(users, UsersDiffer)
      && Pairwise(members, MembersDiffer)
      && Pairwise(clubs, ClubsDiffer)
      && Pairwise(links, LinksDiffer)
      && Pairwise(clubNotes, ClubNotesDiffer)
      && Pairwise(notes, NotesDiffer)
      && Pairwise(events, EventsDiffer)
      && (forall c :: c in clubs ==> c.id < nextClub)
      && (forall l :: l in links ==> l.id < nextLink)
      && (forall n :: n in clubNotes ==> n.id < nextClubNote)
      && (forall n :: n in notes ==> n.id < nextNote)
      && (forall e :: e in events ==> e.id < nextEvent)
    }
  }

  predicate UsersDiffer(a: User, b: User) { a.id != b.id }
  predicate MembersDiffer(a: Member, b: Member) { a.id != b.id }
  predicate ClubsDiffer(a: Club, b: Club) { a.id != b.id }
  predicate ClubNotesDiffer(a: ClubNote, b: ClubNote) { a.id != b.id }
  predicate NotesDiffer(a: Note, b: Note) { a.id != b.id }
  predicate EventsDiffer(a: Event, b: Event) { a.id != b.id }

  /** Two links are distinct rows for distinct (club, member) pairs. */
  predicate LinksDiffer(a: Link, b: Link) {
    a.id != b.id && !(a.clubId == b.clubId && a.memberId == b.memberId)
  }

  /** Appending a row whose key is above every existing key keeps the keys
      distinct. */
  lemma {:induction false} AppendPairwise<T>(s: seq<T>, x: T, ok: (T, T) -> bool)
    requires Pairwise(s, ok)
    requires forall j :: 0 <= j < |s| ==> ok(s[j], x) && ok(x, s[j])
    ensures Pairwise(s + [x], ok)
  {
    var t := s + [x];
    forall i, j | 0 <= i < j < |t| ensures ok(t[i], t[j]) && ok(t[j], t[i]) {
      if j < |s| {
        assert t[i] == s[i] && t[j] == s[j];
      } else {
        assert t[i] == s[i] && t[j] == x;
      }
    }
  }

  /** A row update that leaves the key of every row alone leaves every key
      of the table where it was. */
  lemma UpdateKeepsKeys<T>(s: seq<T>, sel: T -> bool, f: T -> T, key: T -> nat)
    requires forall x :: key(f(x)) == key(x)
    ensures forall j :: 0 <= j < |s| ==> key(UpdateWhere(s, sel, f)[j]) == key(s[j])
  {
  }

  // ---------------------------------------------------------------------
  // Lookups by key (`SELECT … WHERE id = ?`)
  // ---------------------------------------------------------------------

  function FindClub(clubs: seq<Club>, id: Json): (r: Option<Club>)
    ensures r.Some? ==> r.value in clubs && JNum(r.value.id) == id
    ensures r.None? <==> forall c :: c in clubs ==> JNum(c.id) != id
  {
    First(clubs, ClubNumbered(id))
  }

  function FindEvent(events: seq<Event>, id: nat): (r: Option<Event>)
    ensures r.Some? ==> r.value in events && r.value.id == id
    ensures r.None? <==> forall e :: e in events ==> e.id != id
  {
    First(events, EventIs(id))
  }

  function FindUser(users: seq<User>, id: nat): (r: Option<User>)
    ensures r.Some? ==> r.value in users && r.value.id == id
    ensures r.None? <==> forall u :: u in users ==> u.id != id
  {
    First(users, UserIs(id))
  }

  function FindMember(members: seq<Member>, id: nat): (r: Option<Member>)
    ensures r.Some? ==> r.value in members && r.value.id == id
    ensures r.None? <==> forall m :: m in members ==> m.id != id
  {
    First(members, MemberIs(id))
  }

  // ---------------------------------------------------------------------
  // Deletes by key (`DELETE FROM … WHERE id = ?`)
  // ---------------------------------------------------------------------

  function ClubOtherThan(id: nat): Club -> bool { (c: Club) => c.id != id }
  function EventOtherThan(id: nat): Event -> bool { (e: Event) => e.id != id }
  function UserOtherThan(id: nat): User -> bool { (u: User) => u.id != id }
  function NoteOtherThan(id: nat): Note -> bool { (n: Note) => n.id != id }

  /** `DELETE FROM club_announcements WHERE id = ? AND club_id = ?` spares
      a row unless both match. */
  function ClubNoteOtherThan(id: nat, clubId: Json): ClubNote -> bool {
    (n: ClubNote) => !(n.id == id && n.clubId == clubId)
  }

  function DropClub(clubs: seq<Club>, id: nat): (r: seq<Club>)
    ensures forall c :: c in r <==> c in clubs && c.id != id
  {
    Filter(clubs, ClubOtherThan(id))
  }

  function DropEvent(events: seq<Event>, id: nat): (r: seq<Event>)
    ensures forall e :: e in r <==> e in events && e.id != id
  {
    Filter(events, EventOtherThan(id))
  }

  function DropUser(users: seq<User>, id: nat): (r: seq<User>)
    ensures forall u :: u in r <==> u in users && u.id != id
  {
    Filter(users, UserOtherThan(id))
  }

  function DropNote(notes: seq<Note>, id: nat): (r: seq<Note>)
    ensures forall n :: n in r <==> n in notes && n.id != id
  {
    Filter(notes, NoteOtherThan(id))
  }

  function DropClubNote(clubNotes: seq<ClubNote>, id: nat, clubId: Json): (r: seq<ClubNote>)
    ensures forall n :: n in r <==> n in clubNotes && !(n.id == id && n.clubId == clubId)
  {
    Filter(clubNotes, ClubNoteOtherThan(id, clubId))
  }

  /** A `DELETE` that rejects exactly one row of a table removes one row. */
  lemma {:induction false} FilterRemovesOne<T(!new)>(s: seq<T>, keep: T -> bool, j: nat)
    requires j < |s| && !keep(s[j])
    requires forall i :: 0 <= i < |s| && i != j ==> keep(s[i])
    ensures |Filter(s, keep)| == |s| - 1
  {
    if j == 0 {
      FilterKeepsAll(s[1..], keep);
    } else {
      FilterRemovesOne(s[1..], keep, j - 1);
    }
  }

  /** Deleting a club by a key in use removes exactly one row. */
  lemma DropClubCount(clubs: seq<Club>, id: nat)
    requires Pairwise(clubs, ClubsDiffer)
    requires exists c :: c in clubs && c.id == id
    ensures |DropClub(clubs, id)| == |clubs| - 1
  {
    var j :| 0 <= j < |clubs| && clubs[j].id == id;
    FilterRemovesOne(clubs, ClubOtherThan(id), j);
  }

  /** Deleting an event by a key in use removes exactly one row. */
  lemma DropEventCount(events: seq<Event>, id: nat)
    requires Pairwise(events, EventsDiffer)
    requires exists e :: e in events && e.id == id
    ensures |DropEvent(events, id)| == |events| - 1
  {
    var j :| 0 <= j < |events| && events[j].id == id;
    FilterRemovesOne(events, EventOtherThan(id), j);
  }

  /** Deleting a user by a key in use removes exactly one row. */
  lemma DropUserCount(users: seq<User>, id: nat)
    requires Pairwise(users, UsersDiffer)
    requires exists u :: u in users && u.id == id
    ensures |DropUser(users, id)| == |users| - 1
  {
    var j :| 0 <= j < |users| && users[j].id == id;
    FilterRemovesOne(users, UserOtherThan(id), j);
  }

  // ---------------------------------------------------------------------
  // Updates by key (`UPDATE … WHERE id = ?`)
  // ---------------------------------------------------------------------

  function ClubIs(id: nat): Club -> bool { (c: Club) => c.id == id }
  /** A club whose key equals a bound value, which may be any JSON value. */
  function ClubNumbered(id: Json): Club -> bool { (c: Club) => JNum(c.id) == id }
  function EventIs(id: nat): Event -> bool { (e: Event) => e.id == id }
  function UserIs(id: nat): User -> bool { (u: User) => u.id == id }
  function MemberIs(id: nat): Member -> bool { (m: Member) => m.id == id }

  // ---------------------------------------------------------------------
  // The club-member link table
  // ---------------------------------------------------------------------

  /** `SELECT id FROM club_member_links WHERE club_id = ? AND member_id = ?`
      finds a row. */
  function PairIs(clubId: Json, memberId: Json): Link -> bool {
    (l: Link) => l.clubId == clubId && l.memberId == memberId
  }

  predicate HasLink(links: seq<Link>, clubId: Json, memberId: Json) {
    exists l :: l in links && l.clubId == clubId && l.memberId == memberId
  }

  /** The rows a `DELETE … WHERE club_id = ? AND member_id = ?` spares. */
  function PairOtherThan(clubId: Json, memberId: Json): Link -> bool {
    (l: Link) => !(l.clubId == clubId && l.memberId == memberId)
  }

  /** `DELETE FROM club_member_links WHERE club_id = ? AND member_id = ?`:
      every link of the pair goes, every other link stays. */
  function RemovePair(links: seq<Link>, clubId: Json, memberId: Json): (r: seq<Link>)
    ensures !HasLink(r, clubId, memberId)
    ensures forall l :: l in r <==> l in links && !(l.clubId == clubId && l.memberId == memberId)
    ensures !HasLink(links, clubId, memberId) ==> r == links
  {
    if !HasLink(links, clubId, memberId) then
      FilterKeepsAll(links, PairOtherThan(clubId, memberId));
      Filter(links, PairOtherThan(clubId, memberId))
    else
      Filter(links, PairOtherThan(clubId, memberId))
  }

  /** A join followed by a leave of the same pair restores the link table. */
  lemma JoinThenLeaveRestores(links: seq<Link>, id: nat, clubId: Json, memberId: Json)
    requires !HasLink(links, clubId, memberId)
    ensures RemovePair(links + [Link(id, clubId, memberId)], clubId, memberId) == links
  {
    var keep := PairOtherThan(clubId, memberId);
    FilterAppend(links, [Link(id, clubId, memberId)], keep);
    FilterKeepsAll(links, keep);
    assert Filter([Link(id, clubId, memberId)], keep) == [];
  }

  /** Removing a pair a second time changes nothing: the leader's removal
      route is idempotent. */
  lemma RemovePairIdempotent(links: seq<Link>, clubId: Json, memberId: Json)
    ensures RemovePair(RemovePair(links, clubId, memberId), clubId, memberId) == RemovePair(links, clubId, memberId)
  {
  }

  /** Removing a pair keeps the link table free of duplicates. */
  lemma RemovePairValid(links: seq<Link>, clubId: Json, memberId: Json)
    requires Pairwise(links, LinksDiffer)
    ensures Pairwise(RemovePair(links, clubId, memberId), LinksDiffer)
  {
    FilterPairwise(links, PairOtherThan(clubId, memberId), LinksDiffer);
  }
}
