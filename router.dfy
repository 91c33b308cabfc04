/** The dispatcher of the `fetch` entry point: the `/api` prefix strip, the
    preflight and database-binding short cuts, and the ordered chain of
    `if (path-test && method === X)` guards with its not-found fall-through. */
module Router {
  import opened Values

  // ---------------------------------------------------------------------
  // Path patterns: the literal paths and the `^\/clubs\/\d+\/join$` regexes
  // ---------------------------------------------------------------------

  /** One piece of a path pattern: a literal text or `\d+`. */
  datatype Atom = Text(t: string) | Digits

  type Pattern = seq<Atom>

  predicate IsDigit(c: char) { '0' <= c <= '9' }

  predicate AllDigits(d: string) {
    forall i :: 0 <= i < |d| ==> IsDigit(d[i])
  }

  /** A `\d+` capture: a non-empty run of ASCII digits. */
  predicate IsNumeral(d: string) {
    d != [] && AllDigits(d)
  }

  /** Number of `\d+` positions, which is the number of captured ids. */
  function Holes(p: Pattern): nat {
    if p == [] then 0 else (if p[0] == Digits then 1 else 0) + Holes(p[1..])
  }

  /** Every `\d+` is followed by the end of the pattern or by a literal
      non-digit, so a greedy digit run is the only way the regex can match. */
  predicate WellFormed(p: Pattern) {
    forall i :: 0 <= i < |p| && p[i] == Digits ==>
      i + 1 == |p| || (p[i + 1].Text? && p[i + 1].t != [] && !IsDigit(p[i + 1].t[0]))
  }

  /** Length of the leading run of digits of `s`. */
  function DigitRun(s: string): (n: nat)
    ensures n <= |s|
    ensures AllDigits(s[..n])
    ensures n < |s| ==> !IsDigit(s[n])
  {
    if s != [] && IsDigit(s[0]) then 1 + DigitRun(s[1..]) else 0
  }

  /** Anchored regex match of `s` against `p`; on success, the digit
      strings captured by the `\d+` positions, left to right. */
  function Match(p: Pattern, s: string): Option<seq<string>>
    decreases |p|
  {
    if p == [] then
      if s == [] then Some([]) else None
    else match p[0]
      case Text(t) =>
        if t <= s then Match(p[1..], s[|t|..]) else None
      case Digits =>
        var n := DigitRun(s);
        if n == 0 then None
        else match Match(p[1..], s[n..])
          case None => None
          case Some(rest) => Some([s[..n]] + rest)
  }

  /** The path a pattern describes once its holes are filled with `caps`:
      the inverse of `Match`. */
  function Render(p: Pattern, caps: seq<string>): string
    requires |caps| == Holes(p)
    decreases |p|
  {
    if p == [] then []
    else match p[0]
      case Text(t) => t + Render(p[1..], caps)
      case Digits => caps[0] + Render(p[1..], caps[1..])
  }

  lemma WellFormedTail(p: Pattern)
    requires p != [] && WellFormed(p)
    ensures WellFormed(p[1..])
  {
    forall i | 0 <= i < |p[1..]| && p[1..][i] == Digits
      ensures i + 1 == |p[1..]| || (p[1..][i + 1].Text? && p[1..][i + 1].t != [] && !IsDigit(p[1..][i + 1].t[0]))
    {
      assert p[i + 1] == Digits;
    }
  }

  lemma {:induction false} DigitRunOf(d: string, t: string)
    requires AllDigits(d)
    requires t == [] || !IsDigit(t[0])
    ensures DigitRun(d + t) == |d|
  {
    if d != [] {
      assert (d + t)[1..] == d[1..] + t;
      DigitRunOf(d[1..], t);
    } else {
      assert d + t == t;
    }
  }

  /** Soundness of the matcher: whatever it accepts is the pattern rendered
      with numeral captures. */
  lemma {:induction false} MatchSound(p: Pattern, s: string, caps: seq<string>)
    requires Match(p, s) == Some(caps)
    ensures |caps| == Holes(p)
    ensures forall k :: 0 <= k < |caps| ==> IsNumeral(caps[k])
    ensures s == Render(p, caps)
    decreases |p|
  {
    if p == [] {
    } else {
      match p[0]
      case Text(t) =>
        MatchSound(p[1..], s[|t|..], caps);
        assert s == s[..|t|] + s[|t|..];
      case Digits =>
        var n := DigitRun(s);
        var rest := Match(p[1..], s[n..]).value;
        MatchSound(p[1..], s[n..], rest);
        assert caps == [s[..n]] + rest;
        assert caps[1..] == rest;
        assert s == s[..n] + s[n..];
    }
  }

  /** Completeness of the matcher: a well-formed pattern rendered with
      numeral captures is accepted, with exactly those captures. */
  lemma {:induction false} MatchComplete(p: Pattern, caps: seq<string>)
    requires WellFormed(p)
    requires |caps| == Holes(p)
    requires forall k :: 0 <= k < |caps| ==> IsNumeral(caps[k])
    ensures Match(p, Render(p, caps)) == Some(caps)
    decreases |p|
  {
    if p != [] {
      WellFormedTail(p);
      var s := Render(p, caps);
      match p[0]
      case Text(t) =>
        assert t <= s && s[|t|..] == Render(p[1..], caps);
        MatchComplete(p[1..], caps);
      case Digits =>
        var tail := Render(p[1..], caps[1..]);
        assert forall k :: 0 <= k < |caps[1..]| ==> IsNumeral(caps[1..][k]) by {
          forall k | 0 <= k < |caps[1..]| ensures IsNumeral(caps[1..][k]) {
            assert caps[1..][k] == caps[k + 1];
          }
        }
        MatchComplete(p[1..], caps[1..]);
        if |p| > 1 {
          assert p[1].Text? && p[1].t != [] && !IsDigit(p[1].t[0]);
          assert tail[0] == p[1].t[0];
        }
        DigitRunOf(caps[0], tail);
        assert s == caps[0] + tail;
        assert s[..|caps[0]|] == caps[0];
        assert s[|caps[0]|..] == tail;
        assert [caps[0]] + caps[1..] == caps;
    }
  }

  /** The regex test as an if-and-only-if: a well-formed pattern accepts a
      path exactly when the path is the pattern with numerals in its holes. */
  lemma MatchIff(p: Pattern, s: string, caps: seq<string>)
    requires WellFormed(p)
    ensures Match(p, s) == Some(caps) <==>
      |caps| == Holes(p) && (forall k :: 0 <= k < |caps| ==> IsNumeral(caps[k])) && s == Render(p, caps)
  {
    if Match(p, s) == Some(caps) {
      MatchSound(p, s, caps);
    }
    if |caps| == Holes(p) && (forall k :: 0 <= k < |caps| ==> IsNumeral(caps[k])) && s == Render(p, caps) {
      MatchComplete(p, caps);
    }
  }

  // ---------------------------------------------------------------------
  // Ids: `parseInt(path.split('/')[k])` and `Number(...)` of a numeral
  // ---------------------------------------------------------------------

  function DigitValue(c: char): nat
    requires IsDigit(c)
  {
    (c as int - '0' as int) as nat
  }

  /** The decimal value of a numeral, most significant digit first. */
  function Decimal(d: string): nat
    requires AllDigits(d)
    decreases |d|
  {
    if d == [] then 0 else 10 * Decimal(d[..|d| - 1]) + DigitValue(d[|d| - 1])
  }

  /** The canonical numeral of `n`, without leading zeros. */
  function ToDecimal(n: nat): (d: string)
    ensures IsNumeral(d)
    ensures |d| > 1 ==> d[0] != '0'
  {
    if n < 10 then ['0' + n as char]
    else ToDecimal(n / 10) + ['0' + (n % 10) as char]
  }

  /** Reading back the canonical numeral gives the number. */
  lemma {:induction false} DecimalOfToDecimal(n: nat)
    ensures Decimal(ToDecimal(n)) == n
  {
    var d := ToDecimal(n);
    if n >= 10 {
      assert d[..|d| - 1] == ToDecimal(n / 10);
      DecimalOfToDecimal(n / 10);
    }
  }

  /** Leading zeros do not change an id: `/clubs/007` names club 7. */
  lemma {:induction false} DecimalLeadingZero(d: string)
    requires AllDigits(d)
    ensures Decimal("0" + d) == Decimal(d)
    decreases |d|
  {
    if d != [] {
      var z := "0" + d;
      assert z[..|z| - 1] == "0" + d[..|d| - 1];
      DecimalLeadingZero(d[..|d| - 1]);
    } else {
      assert Decimal("0"[..0]) == 0;
    }
  }

  function Ids(caps: seq<string>): (ids: seq<nat>)
    requires forall k :: 0 <= k < |caps| ==> AllDigits(caps[k])
    ensures |ids| == |caps|
    ensures forall k :: 0 <= k < |caps| ==> ids[k] == Decimal(caps[k])
  {
    seq(|caps|, k requires 0 <= k < |caps| => Decimal(caps[k]))
  }

  // ---------------------------------------------------------------------
  // The guard chain
  // ---------------------------------------------------------------------

  /** What a guard hands the request to. */
  datatype Handler =
    | Login | ListMembers | GetMembership | CreateClub | UpdateClub | DeleteClub
    | JoinClub | LeaveClub | RemoveMember
    | CreateClubAnnouncement | ListClubAnnouncements | DeleteClubAnnouncement
    | ListAnnouncements | CreateAnnouncement | DeleteAnnouncement
    | ListEvents | GetEvent | CreateEvent | UpdateEvent | DeleteEvent
    | ListUsers | GetUser | UpdateUser | DeleteUser
    | UpdateMember | Stats | GetMember | GetClub | Health

  /** `if (<pattern test> && method === '<verb>')`. */
  datatype Verb = GET | POST | PUT | DELETE

  /** `method === '<verb>'`. */
  predicate IsVerb(m: string, v: Verb) {
    match v
    case GET => m == "GET"
    case POST => m == "POST"
    case PUT => m == "PUT"
    case DELETE => m == "DELETE"
  }

  datatype Guard = Guard(pattern: Pattern, verb: Verb, handler: Handler)

  /** How many numeric ids the handler's path carries. */
  function Arity(h: Handler): nat {
    match h
    case GetMembership | UpdateClub | DeleteClub | JoinClub | LeaveClub
       | CreateClubAnnouncement | ListClubAnnouncements | DeleteAnnouncement
       | GetEvent | UpdateEvent | DeleteEvent | GetUser | UpdateUser | DeleteUser
       | UpdateMember | GetMember | GetClub => 1
    case RemoveMember | DeleteClubAnnouncement => 2
    case _ => 0
  }

  /** The handlers that change the database. */
  predicate Writes(h: Handler) {
    h in {CreateClub, UpdateClub, DeleteClub, JoinClub, LeaveClub, RemoveMember,
          CreateClubAnnouncement, DeleteClubAnnouncement, CreateAnnouncement, DeleteAnnouncement,
          CreateEvent, UpdateEvent, DeleteEvent, UpdateUser, DeleteUser, UpdateMember}
  }


  /** The guards of `fetch` in source order, duplicates included: index 4
      repeats index 1 and index 27 repeats index 25, and the health check's
      two alternatives are the last two guards. */
  const PAuthLogin: Pattern := [Text("/auth/login")]
  const PMembers: Pattern := [Text("/members")]
  const PClubsIdMembership: Pattern := [Text("/clubs/"), Digits, Text("/membership")]
  const PClubs: Pattern := [Text("/clubs")]
  const PClubsId: Pattern := [Text("/clubs/"), Digits]
  const PClubsIdJoin: Pattern := [Text("/clubs/"), Digits, Text("/join")]
  const PClubsIdLeave: Pattern := [Text("/clubs/"), Digits, Text("/leave")]
  const PClubsIdIdMembers: Pattern := [Text("/clubs/"), Digits, Text("/members/"), Digits]
  const PClubsIdAnnouncements: Pattern := [Text("/clubs/"), Digits, Text("/announcements")]
  const PClubsIdIdAnnouncements: Pattern := [Text("/clubs/"), Digits, Text("/announcements/"), Digits]
  const PAnnouncements: Pattern := [Text("/announcements")]
  const PAnnouncementsId: Pattern := [Text("/announcements/"), Digits]
  const PEvents: Pattern := [Text("/events")]
  const PEventsId: Pattern := [Text("/events/"), Digits]
  const PUsers: Pattern := [Text("/users")]
  const PUsersId: Pattern := [Text("/users/"), Digits]
  const PMembersId: Pattern := [Text("/members/"), Digits]
  const PStats: Pattern := [Text("/stats")]
  const PRoot: Pattern := [Text("/")]
  const PHealth: Pattern := [Text("/health")]

  const Guards: seq<Guard> := [
    Guard(PAuthLogin, POST, Login),                                 // 0
    Guard(PMembers, GET, ListMembers),                              // 1
    Guard(PClubsIdMembership, GET, GetMembership),                  // 2
    Guard(PClubs, POST, CreateClub),                                // 3
    Guard(PMembers, GET, ListMembers),                              // 4
    Guard(PClubsId, PUT, UpdateClub),                               // 5
    Guard(PClubsId, DELETE, DeleteClub),                            // 6
    Guard(PClubsIdJoin, POST, JoinClub),                            // 7
    Guard(PClubsIdLeave, POST, LeaveClub),                          // 8
    Guard(PClubsIdIdMembers, DELETE, RemoveMember),                 // 9
    Guard(PClubsIdAnnouncements, POST, CreateClubAnnouncement),     // 10
    Guard(PClubsIdAnnouncements, GET, ListClubAnnouncements),       // 11
    Guard(PClubsIdIdAnnouncements, DELETE, DeleteClubAnnouncement), // 12
    Guard(PAnnouncements, GET, ListAnnouncements),                  // 13
    Guard(PAnnouncements, POST, CreateAnnouncement),                // 14
    Guard(PAnnouncementsId, DELETE, DeleteAnnouncement),            // 15
    Guard(PEvents, GET, ListEvents),                                // 16
    Guard(PEventsId, GET, GetEvent),                                // 17
    Guard(PEvents, POST, CreateEvent),                              // 18
    Guard(PEventsId, PUT, UpdateEvent),                             // 19
    Guard(PEventsId, DELETE, DeleteEvent),                          // 20
    Guard(PUsers, GET, ListUsers),                                  // 21
    Guard(PUsersId, GET, GetUser),                                  // 22
    Guard(PUsersId, PUT, UpdateUser),                               // 23
    Guard(PUsersId, DELETE, DeleteUser),                            // 24
    Guard(PMembersId, PUT, UpdateMember),                           // 25
    Guard(PStats, GET, Stats),                                      // 26
    Guard(PMembersId, PUT, UpdateMember),                           // 27
    Guard(PMembersId, GET, GetMember),                              // 28
    Guard(PClubsId, GET, GetClub),                                  // 29
    Guard(PRoot, GET, Health),                                      // 30
    Guard(PHealth, GET, Health)                                     // 31
  ]

  predicate Accepts(g: Guard, path: string, verb: string) {
    Match(g.pattern, path).Some? && IsVerb(verb, g.verb)
  }

  /** The first guard of `gs` at index `k` or later that accepts the
      request, with the digit strings its pattern captured. */
  function FirstGuard(gs: seq<Guard>, path: string, verb: string, k: nat): (r: Option<(nat, seq<string>)>)
    requires k <= |gs|
    ensures r.Some? ==> k <= r.value.0 < |gs|
    ensures r.Some? ==> Match(gs[r.value.0].pattern, path) == Some(r.value.1) && IsVerb(verb, gs[r.value.0].verb)
    ensures r.Some? ==> forall j :: k <= j < r.value.0 ==> !Accepts(gs[j], path, verb)
    ensures r.None? <==> forall j :: k <= j < |gs| ==> !Accepts(gs[j], path, verb)
    decreases |gs| - k
  {
    if k == |gs| then None
    else if Accepts(gs[k], path, verb) then Some((k, Match(gs[k].pattern, path).value))
    else FirstGuard(gs, path, verb, k + 1)
  }

  /** Every guard's pattern has as many `\d+` as its handler takes ids, no
      GET guard leads to a handler that writes, and every pattern is well
      formed, so the matcher lemmas apply to it; checked two guards at a
      time. */
  lemma GuardShape0(i: nat)
    requires 0 <= i < 2
    ensures Holes(Guards[i].pattern) == Arity(Guards[i].handler)
    ensures Guards[i].verb == GET ==> !Writes(Guards[i].handler)
    ensures WellFormed(Guards[i].pattern)
  {
    if i == 0 { assert Guards[0] == Guard(PAuthLogin, POST, Login); }
    else { assert Guards[1] == Guard(PMembers, GET, ListMembers); }
  }

  lemma GuardShape2(i: nat)
    requires 2 <= i < 4
    ensures Holes(Guards[i].pattern) == Arity(Guards[i].handler)
    ensures Guards[i].verb == GET ==> !Writes(Guards[i].handler)
    ensures WellFormed(Guards[i].pattern)
  {
    if i == 2 { assert Guards[2] == Guard(PClubsIdMembership, GET, GetMembership); }
    else { assert Guards[3] == Guard(PClubs, POST, CreateClub); }
  }

  lemma GuardShape4(i: nat)
    requires 4 <= i < 6
    ensures Holes(Guards[i].pattern) == Arity(Guards[i].handler)
    ensures Guards[i].verb == GET ==> !Writes(Guards[i].handler)
    ensures WellFormed(Guards[i].pattern)
  {
    if i == 4 { assert Guards[4] == Guard(PMembers, GET, ListMembers); }
    else { assert Guards[5] == Guard(PClubsId, PUT, UpdateClub); }
  }

  lemma GuardShape6(i: nat)
    requires 6 <= i < 8
    ensures Holes(Guards[i].pattern) == Arity(Guards[i].handler)
    ensures Guards[i].verb == GET ==> !Writes(Guards[i].handler)
    ensures WellFormed(Guards[i].pattern)
  {
    if i == 6 { assert Guards[6] == Guard(PClubsId, DELETE, DeleteClub); }
    else { assert Guards[7] == Guard(PClubsIdJoin, POST, JoinClub); }
  }

  lemma GuardShape8(i: nat)
    requires 8 <= i < 10
    ensures Holes(Guards[i].pattern) == Arity(Guards[i].handler)
    ensures Guards[i].verb == GET ==> !Writes(Guards[i].handler)
    ensures WellFormed(Guards[i].pattern)
  {
    if i == 8 { assert Guards[8] == Guard(PClubsIdLeave, POST, LeaveClub); }
    else { assert Guards[9] == Guard(PClubsIdIdMembers, DELETE, RemoveMember); }
  }

  lemma GuardShape10(i: nat)
    requires 10 <= i < 12
    ensures Holes(Guards[i].pattern) == Arity(Guards[i].handler)
    ensures Guards[i].verb == GET ==> !Writes(Guards[i].handler)
    ensures WellFormed(Guards[i].pattern)
  {
    if i == 10 { assert Guards[10] == Guard(PClubsIdAnnouncements, POST, CreateClubAnnouncement); }
    else { assert Guards[11] == Guard(PClubsIdAnnouncements, GET, ListClubAnnouncements); }
  }

  lemma GuardShape12(i: nat)
    requires 12 <= i < 14
    ensures Holes(Guards[i].pattern) == Arity(Guards[i].handler)
    ensures Guards[i].verb == GET ==> !Writes(Guards[i].handler)
    ensures WellFormed(Guards[i].pattern)
  {
    if i == 12 { assert Guards[12] == Guard(PClubsIdIdAnnouncements, DELETE, DeleteClubAnnouncement); }
    else { assert Guards[13] == Guard(PAnnouncements, GET, ListAnnouncements); }
  }

  lemma GuardShape14(i: nat)
    requires 14 <= i < 16
    ensures Holes(Guards[i].pattern) == Arity(Guards[i].handler)
    ensures Guards[i].verb == GET ==> !Writes(Guards[i].handler)
    ensures WellFormed(Guards[i].pattern)
  {
    if i == 14 { assert Guards[14] == Guard(PAnnouncements, POST, CreateAnnouncement); }
    else { assert Guards[15] == Guard(PAnnouncementsId, DELETE, DeleteAnnouncement); }
  }

  lemma GuardShape16(i: nat)
    requires 16 <= i < 18
    ensures Holes(Guards[i].pattern) == Arity(Guards[i].handler)
    ensures Guards[i].verb == GET ==> !Writes(Guards[i].handler)
    ensures WellFormed(Guards[i].pattern)
  {
    if i == 16 { assert Guards[16] == Guard(PEvents, GET, ListEvents); }
    else { assert Guards[17] == Guard(PEventsId, GET, GetEvent); }
  }

  lemma GuardShape18(i: nat)
    requires 18 <= i < 20
    ensures Holes(Guards[i].pattern) == Arity(Guards[i].handler)
    ensures Guards[i].verb == GET ==> !Writes(Guards[i].handler)
    ensures WellFormed(Guards[i].pattern)
  {
    if i == 18 { assert Guards[18] == Guard(PEvents, POST, CreateEvent); }
    else { assert Guards[19] == Guard(PEventsId, PUT, UpdateEvent); }
  }

  lemma GuardShape20(i: nat)
    requires 20 <= i < 22
    ensures Holes(Guards[i].pattern) == Arity(Guards[i].handler)
    ensures Guards[i].verb == GET ==> !Writes(Guards[i].handler)
    ensures WellFormed(Guards[i].pattern)
  {
    if i == 20 { assert Guards[20] == Guard(PEventsId, DELETE, DeleteEvent); }
    else { assert Guards[21] == Guard(PUsers, GET, ListUsers); }
  }

  lemma GuardShape22(i: nat)
    requires 22 <= i < 24
    ensures Holes(Guards[i].pattern) == Arity(Guards[i].handler)
    ensures Guards[i].verb == GET ==> !Writes(Guards[i].handler)
    ensures WellFormed(Guards[i].pattern)
  {
    if i == 22 { assert Guards[22] == Guard(PUsersId, GET, GetUser); }
    else { assert Guards[23] == Guard(PUsersId, PUT, UpdateUser); }
  }

  lemma GuardShape24(i: nat)
    requires 24 <= i < 26
    ensures Holes(Guards[i].pattern) == Arity(Guards[i].handler)
    ensures Guards[i].verb == GET ==> !Writes(Guards[i].handler)
    ensures WellFormed(Guards[i].pattern)
  {
    if i == 24 { assert Guards[24] == Guard(PUsersId, DELETE, DeleteUser); }
    else { assert Guards[25] == Guard(PMembersId, PUT, UpdateMember); }
  }

  lemma GuardShape26(i: nat)
    requires 26 <= i < 28
    ensures Holes(Guards[i].pattern) == Arity(Guards[i].handler)
    ensures Guards[i].verb == GET ==> !Writes(Guards[i].handler)
    ensures WellFormed(Guards[i].pattern)
  {
    if i == 26 { assert Guards[26] == Guard(PStats, GET, Stats); }
    else { assert Guards[27] == Guard(PMembersId, PUT, UpdateMember); }
  }

  lemma GuardShape28(i: nat)
    requires 28 <= i < 30
    ensures Holes(Guards[i].pattern) == Arity(Guards[i].handler)
    ensures Guards[i].verb == GET ==> !Writes(Guards[i].handler)
    ensures WellFormed(Guards[i].pattern)
  {
    if i == 28 { assert Guards[28] == Guard(PMembersId, GET, GetMember); }
    else { assert Guards[29] == Guard(PClubsId, GET, GetClub); }
  }

  lemma GuardShape30(i: nat)
    requires 30 <= i < 32
    ensures Holes(Guards[i].pattern) == Arity(Guards[i].handler)
    ensures Guards[i].verb == GET ==> !Writes(Guards[i].handler)
    ensures WellFormed(Guards[i].pattern)
  {
    if i == 30 { assert Guards[30] == Guard(PRoot, GET, Health); }
    else { assert Guards[31] == Guard(PHealth, GET, Health); }
  }

  lemma GuardShape(i: nat)
    requires i < |Guards|
    ensures Holes(Guards[i].pattern) == Arity(Guards[i].handler)
    ensures Guards[i].verb == GET ==> !Writes(Guards[i].handler)
    ensures WellFormed(Guards[i].pattern)
  {
    if i < 2 { GuardShape0(i); }
    else if i < 4 { GuardShape2(i); }
    else if i < 6 { GuardShape4(i); }
    else if i < 8 { GuardShape6(i); }
    else if i < 10 { GuardShape8(i); }
    else if i < 12 { GuardShape10(i); }
    else if i < 14 { GuardShape12(i); }
    else if i < 16 { GuardShape14(i); }
    else if i < 18 { GuardShape16(i); }
    else if i < 20 { GuardShape18(i); }
    else if i < 22 { GuardShape20(i); }
    else if i < 24 { GuardShape22(i); }
    else if i < 26 { GuardShape24(i); }
    else if i < 28 { GuardShape26(i); }
    else if i < 30 { GuardShape28(i); }
    else { GuardShape30(i); }
  }

  /** Both directions of one guard's test on the real table: it takes the
      request with captures `caps` exactly when the method fits and the path
      is the guard's pattern with one numeral per id its handler takes. */
  lemma GuardAcceptsIff(i: nat, path: string, verb: string, caps: seq<string>)
    requires i < |Guards|
    ensures (IsVerb(verb, Guards[i].verb) && Match(Guards[i].pattern, path) == Some(caps)) <==>
      && IsVerb(verb, Guards[i].verb)
      && |caps| == Holes(Guards[i].pattern) && |caps| == Arity(Guards[i].handler)
      && (forall k :: 0 <= k < |caps| ==> IsNumeral(caps[k]))
      && path == Render(Guards[i].pattern, caps)
  {
    GuardShape(i);
    MatchIff(Guards[i].pattern, path, caps);
  }

  /** The handler a request reaches, with the path's numeric ids. */
  datatype Route = Route(handler: Handler, ids: seq<nat>)

  function Dispatch(path: string, verb: string): (r: Option<Route>)
    ensures r.None? <==> forall j :: 0 <= j < |Guards| ==> !Accepts(Guards[j], path, verb)
    ensures r.Some? ==>
      exists i :: 0 <= i < |Guards| && Accepts(Guards[i], path, verb)
        && Guards[i].handler == r.value.handler
        && (forall j :: 0 <= j < i ==> !Accepts(Guards[j], path, verb))
    ensures r.Some? ==> |r.value.ids| == Arity(r.value.handler)
    ensures r.Some? && verb == "GET" ==> !Writes(r.value.handler)
  {
    match FirstGuard(Guards, path, verb, 0)
    case None => None
    case Some((i, caps)) =>
      MatchSound(Guards[i].pattern, path, caps);
      GuardShape(i);
      Some(Route(Guards[i].handler, Ids(caps)))
  }

  /** `if (path.startsWith('/api')) path = path.substring(4)`. */
  function StripApi(path: string): (r: string)
    ensures "/api" <= path ==> path == "/api" + r
    ensures !("/api" <= path) ==> r == path
  {
    if "/api" <= path then path[4..] else path
  }

  /** What `fetch` decides before any handler runs. */
  datatype Decision =
    | Preflight                                   // 204, no body
    | NoDatabase                                  // 500, binding missing
    | Handle(route: Route)
    | EndpointNotFound(path: string, verb: string) // 404 echoing both

  /** `fetch` up to the handler: OPTIONS is answered before the database
      binding is checked, and a request no guard accepts is a 404 that
      echoes the stripped path and the method. */
  function Decide(rawPath: string, verb: string, hasDb: bool): (r: Decision)
    ensures verb == "OPTIONS" ==> r == Preflight
    ensures verb != "OPTIONS" && !hasDb ==> r == NoDatabase
    ensures verb != "OPTIONS" && hasDb ==>
      (r.Handle? <==> exists i :: 0 <= i < |Guards| && Accepts(Guards[i], StripApi(rawPath), verb))
    ensures r.EndpointNotFound? ==> r == EndpointNotFound(StripApi(rawPath), verb)
    ensures r.Handle? ==> Dispatch(StripApi(rawPath), verb) == Some(r.route)
  {
    if verb == "OPTIONS" then Preflight
    else if !hasDb then NoDatabase
    else match Dispatch(StripApi(rawPath), verb)
      case None => EndpointNotFound(StripApi(rawPath), verb)
      case Some(route) => Handle(route)
  }

  // ---------------------------------------------------------------------
  // Properties of the dispatcher
  // ---------------------------------------------------------------------

  /** The prefix strip removes exactly four characters, also from `/apix…`. */
  lemma StripApiDropsFour(path: string)
    requires "/api" <= path
    ensures StripApi(path) == path[4..] && |StripApi(path)| == |path| - 4
  {
  }

  /** A preflight is answered before the database binding is looked at. */
  lemma OptionsBeforeDatabase(rawPath: string, hasDb: bool)
    ensures Decide(rawPath, "OPTIONS", hasDb) == Preflight
  {
  }

  /** Every request no guard accepts, including a known path under the wrong
      verb, falls through to the 404 carrying the stripped path and the
      verb; and only those do. */
  lemma UnmatchedIsNotFound(rawPath: string, verb: string)
    requires verb != "OPTIONS"
    ensures Decide(rawPath, verb, true) == EndpointNotFound(StripApi(rawPath), verb)
      <==> forall j :: 0 <= j < |Guards| ==> !Accepts(Guards[j], StripApi(rawPath), verb)
  {
  }

  /** The second `GET /members` guard never wins: the first has the same
      pattern and verb and comes earlier. */
  lemma SecondMembersListIsDead(path: string, verb: string)
    ensures FirstGuard(Guards, path, verb, 0).Some? ==> FirstGuard(Guards, path, verb, 0).value.0 != 4
  {
    assert Guards[1] == Guards[4];
  }

  /** The second `PUT /members/:id` guard never wins either. */
  lemma SecondMemberUpdateIsDead(path: string, verb: string)
    ensures FirstGuard(Guards, path, verb, 0).Some? ==> FirstGuard(Guards, path, verb, 0).value.0 != 27
  {
    assert Guards[25] == Guards[27];
  }

  // ---------------------------------------------------------------------
  // Evaluating the chain on particular paths
  // ---------------------------------------------------------------------

  /** An exact path test, `path === '<t>'`. */
  lemma MatchExact(t: string, s: string)
    ensures Match([Text(t)], s) == if s == t then Some([]) else None
  {
    assert [Text(t)][1..] == [];
    if t <= s && s[|t|..] == [] {
      assert s == s[..|t|] + s[|t|..];
    }
  }

  /** `/clubs/<numeral>` followed by `u`, against a pattern that starts
      with `/clubs/\d+`. */
  lemma MatchClubsId(tail: Pattern, d: string, u: string)
    requires IsNumeral(d)
    requires u == [] || !IsDigit(u[0])
    ensures Match([Text("/clubs/"), Digits] + tail, "/clubs/" + d + u) ==
      match Match(tail, u)
      case None => None
      case Some(caps) => Some([d] + caps)
  {
    var p := [Text("/clubs/"), Digits] + tail;
    var s := "/clubs/" + d + u;
    assert p[0] == Text("/clubs/") && p[1..] == [Digits] + tail;
    assert s[..7] == "/clubs/" && s[7..] == d + u;
    assert ([Digits] + tail)[0] == Digits && ([Digits] + tail)[1..] == tail;
    DigitRunOf(d, u);
    assert (d + u)[..|d|] == d && (d + u)[|d|..] == u;
  }

  /** The route of a request is fixed by the first guard that accepts it. */
  lemma DispatchAt(path: string, verb: string, i: nat, caps: seq<string>)
    requires i < |Guards|
    requires Match(Guards[i].pattern, path) == Some(caps) && IsVerb(verb, Guards[i].verb)
    requires forall j :: 0 <= j < i ==> !Accepts(Guards[j], path, verb)
    ensures forall k :: 0 <= k < |caps| ==> AllDigits(caps[k])
    ensures Dispatch(path, verb) == Some(Route(Guards[i].handler, Ids(caps)))
  {
    MatchSound(Guards[i].pattern, path, caps);
    var r := FirstGuard(Guards, path, verb, 0);
    assert Accepts(Guards[i], path, verb);
    assert r.Some? && r.value.0 == i;
  }

  lemma JoinGuardAccepts(d: string)
    requires IsNumeral(d)
    ensures Guards[7] == Guard(PClubsIdJoin, POST, JoinClub)
    ensures Match(PClubsIdJoin, "/clubs/" + d + "/join") == Some([d])
  {
    assert PClubsIdJoin == [Text("/clubs/"), Digits] + [Text("/join")];
    MatchClubsId([Text("/join")], d, "/join");
    MatchExact("/join", "/join");
    assert [d] + [] == [d];
  }

  lemma JoinEarlierGuardsReject(d: string)
    requires IsNumeral(d)
    ensures forall j :: 0 <= j < 7 ==> !Accepts(Guards[j], "/clubs/" + d + "/join", "POST")
  {
    var s := "/clubs/" + d + "/join";
    assert !Accepts(Guards[0], s, "POST") by {
      MatchExact("/auth/login", s);
      assert s[1] == 'c';
    }
    assert !Accepts(Guards[3], s, "POST") by {
      MatchExact("/clubs", s);
      assert |s| > 6;
    }
  }

  /** The join path with any numeral reaches the join handler with that
      numeral's decimal value: no earlier guard accepts it. */
  lemma JoinRoute(d: string)
    requires IsNumeral(d)
    ensures Dispatch("/clubs/" + d + "/join", "POST") == Some(Route(JoinClub, [Decimal(d)]))
  {
    JoinGuardAccepts(d);
    JoinEarlierGuardsReject(d);
    DispatchAt("/clubs/" + d + "/join", "POST", 7, [d]);
    assert Ids([d]) == [Decimal(d)];
  }

  /** `/clubs/<digits>` carries none of the suffixes the POST guards under
      `/clubs/<digits>` want. */
  lemma ClubsIdMissesSuffixes(d: string)
    requires IsNumeral(d)
    ensures Match(PClubsIdJoin, "/clubs/" + d) == None
    ensures Match(PClubsIdLeave, "/clubs/" + d) == None
    ensures Match(PClubsIdAnnouncements, "/clubs/" + d) == None
  {
    var s := "/clubs/" + d;
    assert s == "/clubs/" + d + "";
    assert PClubsIdJoin == [Text("/clubs/"), Digits] + [Text("/join")];
    MatchClubsId([Text("/join")], d, "");
    MatchExact("/join", "");
    assert PClubsIdLeave == [Text("/clubs/"), Digits] + [Text("/leave")];
    MatchClubsId([Text("/leave")], d, "");
    MatchExact("/leave", "");
    assert PClubsIdAnnouncements == [Text("/clubs/"), Digits] + [Text("/announcements")];
    MatchClubsId([Text("/announcements")], d, "");
    MatchExact("/announcements", "");
  }

  /** `/clubs/<digits>` is none of the literal POST paths. */
  lemma ClubsIdMissesLiterals(d: string)
    requires IsNumeral(d)
    ensures Match(PAuthLogin, "/clubs/" + d) == None
    ensures Match(PClubs, "/clubs/" + d) == None
    ensures Match(PAnnouncements, "/clubs/" + d) == None
    ensures Match(PEvents, "/clubs/" + d) == None
  {
    var s := "/clubs/" + d;
    assert s[1] == 'c' && |s| > 6;
    MatchExact("/auth/login", s);
    MatchExact("/clubs", s);
    MatchExact("/announcements", s);
    MatchExact("/events", s);
  }

  lemma ClubPostMissesLow(d: string)
    requires IsNumeral(d)
    ensures forall j :: 0 <= j < 16 ==> !Accepts(Guards[j], "/clubs/" + d, "POST")
  {
    ClubsIdMissesSuffixes(d);
    ClubsIdMissesLiterals(d);
  }

  lemma ClubPostMissesHigh(d: string)
    requires IsNumeral(d)
    ensures forall j :: 16 <= j < |Guards| ==> !Accepts(Guards[j], "/clubs/" + d, "POST")
  {
    ClubsIdMissesLiterals(d);
  }

  /** A numeric club path under a method no guard pairs with it, such as
      `POST /clubs/<id>`, is not found rather than refused. */
  lemma ClubPostIsNotFound(d: string)
    requires IsNumeral(d)
    ensures Dispatch("/clubs/" + d, "POST") == None
  {
    ClubPostMissesLow(d);
    ClubPostMissesHigh(d);
  }

  /** `POST /api/clubs/5` is the not-found reply echoing `/clubs/5`. */
  lemma ConcreteWrongMethod()
    ensures Decide("/api/clubs/5", "POST", true) == EndpointNotFound("/clubs/5", "POST")
  {
    assert StripApi("/api/clubs/5") == "/clubs/" + "5";
    ClubPostIsNotFound("5");
  }

  lemma DecimalSeven()
    ensures Decimal("007") == 7
  {
    DecimalLeadingZero("07");
    DecimalLeadingZero("7");
    assert Decimal("7") == 7;
  }

  /** Leading zeros select the same club. */
  lemma ConcreteJoin()
    ensures Decide("/api/clubs/007/join", "POST", true) == Handle(Route(JoinClub, [7]))
  {
    assert StripApi("/api/clubs/007/join") == "/clubs/" + "007" + "/join";
    JoinRoute("007");
    DecimalSeven();
  }
}
