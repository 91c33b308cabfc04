/** Every writing handler keeps the database well formed: keys stay
    distinct, fresh keys stay above every key in use, and no (club, member)
    pair is linked twice. */
module Invariants {
  import opened Values
  import opened Tables
  import opened Replies
  import opened Handlers

  /** A row with a key above every key in use may be appended. */
  lemma AppendFresh<T>(s: seq<T>, x: T, key: T -> nat, ok: (T, T) -> bool, next: nat)
    requires Pairwise(s, ok)
    requires forall j :: 0 <= j < |s| ==> key(s[j]) < next
    requires key(x) == next
    requires forall a, b :: key(a) != key(b) ==> ok(a, b)
    ensures Pairwise(s + [x], ok)
  {
    forall j | 0 <= j < |s| ensures ok(s[j], x) && ok(x, s[j]) {
      assert key(s[j]) != key(x);
    }
    AppendPairwise(s, x, ok);
  }

  function ClubKey(c: Club): nat { c.id }
  function ClubNoteKey(n: ClubNote): nat { n.id }
  function NoteKey(n: Note): nat { n.id }
  function EventKey(e: Event): nat { e.id }
  function UserKey(u: User): nat { u.id }
  function MemberKey(m: Member): nat { m.id }

  lemma CreateClubKeepsValid(db: Db, body: Json)
    requires db.Valid()
    ensures CreateClub(db, body).db.Valid()
  {
    var s := CreateClub(db, body);
    if s.reply.status == 201 {
      var c := s.reply.body.club;
      forall j | 0 <= j < |db.clubs| ensures ClubKey(db.clubs[j]) < db.nextClub {
        assert db.clubs[j] in db.clubs;
      }
      AppendFresh(db.clubs, c, ClubKey, ClubsDiffer, db.nextClub);
    }
  }

  lemma PatchClubsKeepsValid(db: Db, clubId: nat, body: Json)
    requires db.Valid()
    ensures db.(clubs := PatchClubs(db.clubs, clubId, body)).Valid()
  {
    var r := PatchClubs(db.clubs, clubId, body);
    forall x: Club ensures ClubKey(ClubPatch(body)(x)) == ClubKey(x) { }
    UpdateKeepsKeys(db.clubs, ClubIs(clubId), ClubPatch(body), ClubKey);
    forall i, j | 0 <= i < j < |r| ensures ClubsDiffer(r[i], r[j]) && ClubsDiffer(r[j], r[i]) {
      assert ClubKey(r[i]) == ClubKey(db.clubs[i]) && ClubKey(r[j]) == ClubKey(db.clubs[j]);
    }
    forall x | x in r ensures x.id < db.nextClub {
      var j :| 0 <= j < |r| && r[j] == x;
      assert ClubKey(r[j]) == ClubKey(db.clubs[j]);
      assert db.clubs[j] in db.clubs;
    }
  }

  lemma UpdateClubKeepsValid(db: Db, clubId: nat, body: Json)
    requires db.Valid()
    ensures UpdateClub(db, clubId, body).db.Valid()
  {
    if UpdateClub(db, clubId, body).reply.status == 200 {
      PatchClubsKeepsValid(db, clubId, body);
    }
  }

  lemma DeleteClubKeepsValid(db: Db, clubId: nat)
    requires db.Valid()
    ensures DeleteClub(db, clubId).db.Valid()
  {
    var s := DeleteClub(db, clubId);
    if s.reply.status == 200 {
      FilterPairwise(db.clubs, ClubOtherThan(clubId), ClubsDiffer);
    }
  }

  lemma JoinKeepsValid(db: Db, clubId: nat, body: Json)
    requires db.Valid()
    ensures Join(db, clubId, body).db.Valid()
  {
    var s := Join(db, clubId, body);
    if s.reply.status == 200 {
      var link := Link(db.nextLink, JNum(clubId), Field(body, "memberId").v);
      forall j | 0 <= j < |db.links| ensures LinksDiffer(db.links[j], link) && LinksDiffer(link, db.links[j]) {
        assert db.links[j] in db.links;
      }
      AppendPairwise(db.links, link, LinksDiffer);
    }
  }

  lemma LeaveKeepsValid(db: Db, clubId: nat, body: Json)
    requires db.Valid()
    ensures Leave(db, clubId, body).db.Valid()
  {
    var s := Leave(db, clubId, body);
    if s.reply.status == 200 {
      RemovePairValid(db.links, JNum(clubId), Field(body, "memberId").v);
    }
  }

  lemma RemoveMemberKeepsValid(db: Db, clubId: nat, memberId: nat)
    requires db.Valid()
    ensures RemoveMember(db, clubId, memberId).db.Valid()
  {
    var s := RemoveMember(db, clubId, memberId);
    if s.reply.status == 200 {
      RemovePairValid(db.links, JNum(clubId), JNum(memberId));
    }
  }

  lemma CreateClubAnnouncementKeepsValid(db: Db, clubId: nat, body: Json)
    requires db.Valid()
    ensures CreateClubAnnouncement(db, clubId, body).db.Valid()
  {
    var s := CreateClubAnnouncement(db, clubId, body);
    if s.reply.status == 201 {
      forall j | 0 <= j < |db.clubNotes| ensures ClubNoteKey(db.clubNotes[j]) < db.nextClubNote {
        assert db.clubNotes[j] in db.clubNotes;
      }
      AppendFresh(db.clubNotes, s.reply.body.clubNote, ClubNoteKey, ClubNotesDiffer, db.nextClubNote);
    }
  }

  lemma DeleteClubAnnouncementKeepsValid(db: Db, clubId: nat, noteId: nat)
    requires db.Valid()
    ensures DeleteClubAnnouncement(db, clubId, noteId).db.Valid()
  {
    FilterPairwise(db.clubNotes, ClubNoteOtherThan(noteId, JNum(clubId)), ClubNotesDiffer);
  }

  lemma CreateAnnouncementKeepsValid(db: Db, body: Json)
    requires db.Valid()
    ensures CreateAnnouncement(db, body).db.Valid()
  {
    var s := CreateAnnouncement(db, body);
    if s.reply.status == 201 {
      forall j | 0 <= j < |db.notes| ensures NoteKey(db.notes[j]) < db.nextNote {
        assert db.notes[j] in db.notes;
      }
      AppendFresh(db.notes, s.reply.body.note, NoteKey, NotesDiffer, db.nextNote);
    }
  }

  lemma DeleteAnnouncementKeepsValid(db: Db, noteId: nat)
    requires db.Valid()
    ensures DeleteAnnouncement(db, noteId).db.Valid()
  {
    FilterPairwise(db.notes, NoteOtherThan(noteId), NotesDiffer);
  }

  lemma CreateEventKeepsValid(db: Db, body: Json)
    requires db.Valid()
    ensures CreateEvent(db, body).db.Valid()
  {
    var s := CreateEvent(db, body);
    if s.reply.status == 201 {
      forall j | 0 <= j < |db.events| ensures EventKey(db.events[j]) < db.nextEvent {
        assert db.events[j] in db.events;
      }
      AppendFresh(db.events, s.reply.body.event, EventKey, EventsDiffer, db.nextEvent);
    }
  }

  lemma PatchEventsKeepsValid(db: Db, eventId: nat, body: Json)
    requires db.Valid()
    ensures db.(events := PatchEvents(db.events, eventId, body)).Valid()
  {
    var r := PatchEvents(db.events, eventId, body);
    forall x: Event ensures EventKey(EventPatch(body)(x)) == EventKey(x) { }
    UpdateKeepsKeys(db.events, EventIs(eventId), EventPatch(body), EventKey);
    forall i, j | 0 <= i < j < |r| ensures EventsDiffer(r[i], r[j]) && EventsDiffer(r[j], r[i]) {
      assert EventKey(r[i]) == EventKey(db.events[i]) && EventKey(r[j]) == EventKey(db.events[j]);
    }
    forall x | x in r ensures x.id < db.nextEvent {
      var j :| 0 <= j < |r| && r[j] == x;
      assert EventKey(r[j]) == EventKey(db.events[j]);
      assert db.events[j] in db.events;
    }
  }

  lemma UpdateEventKeepsValid(db: Db, eventId: nat, body: Json)
    requires db.Valid()
    ensures UpdateEvent(db, eventId, body).db.Valid()
  {
    if UpdateEvent(db, eventId, body).reply.status == 200 {
      PatchEventsKeepsValid(db, eventId, body);
    }
  }

  lemma DeleteEventKeepsValid(db: Db, eventId: nat)
    requires db.Valid()
    ensures DeleteEvent(db, eventId).db.Valid()
  {
    var s := DeleteEvent(db, eventId);
    if s.reply.status == 200 {
      FilterPairwise(db.events, EventOtherThan(eventId), EventsDiffer);
    }
  }

  lemma PatchUsersKeepsValid(db: Db, userId: nat, body: Json)
    requires db.Valid()
    ensures db.(users := PatchUsers(db.users, userId, body)).Valid()
  {
    var r := PatchUsers(db.users, userId, body);
    forall x: User ensures UserKey(UserPatch(body)(x)) == UserKey(x) { }
    UpdateKeepsKeys(db.users, UserIs(userId), UserPatch(body), UserKey);
    forall i, j | 0 <= i < j < |r| ensures UsersDiffer(r[i], r[j]) && UsersDiffer(r[j], r[i]) {
      assert UserKey(r[i]) == UserKey(db.users[i]) && UserKey(r[j]) == UserKey(db.users[j]);
    }
  }

  lemma UpdateUserKeepsValid(db: Db, userId: nat, body: Json)
    requires db.Valid()
    ensures UpdateUser(db, userId, body).db.Valid()
  {
    if UpdateUser(db, userId, body).reply.status == 200 {
      PatchUsersKeepsValid(db, userId, body);
    }
  }

  lemma DeleteUserKeepsValid(db: Db, userId: nat)
    requires db.Valid()
    ensures DeleteUser(db, userId).db.Valid()
  {
    var s := DeleteUser(db, userId);
    if s.reply.status == 200 {
      FilterPairwise(db.users, UserOtherThan(userId), UsersDiffer);
    }
  }

  lemma PatchMembersKeepsValid(db: Db, memberId: nat, body: Json)
    requires db.Valid()
    requires body != JNull
    ensures db.(members := PatchMembers(db.members, memberId, body)).Valid()
  {
    var r := PatchMembers(db.members, memberId, body);
    forall x: Member ensures MemberKey(ProfilePatch(body)(x)) == MemberKey(x) { }
    UpdateKeepsKeys(db.members, MemberIs(memberId), ProfilePatch(body), MemberKey);
    forall i, j | 0 <= i < j < |r| ensures MembersDiffer(r[i], r[j]) && MembersDiffer(r[j], r[i]) {
      assert MemberKey(r[i]) == MemberKey(db.members[i]) && MemberKey(r[j]) == MemberKey(db.members[j]);
    }
  }

  lemma UpdateMemberKeepsValid(db: Db, memberId: nat, body: Json)
    requires db.Valid()
    ensures UpdateMember(db, memberId, body).db.Valid()
  {
    if UpdateMember(db, memberId, body).reply.status == 200 {
      PatchMembersKeepsValid(db, memberId, body);
    }
  }
}
