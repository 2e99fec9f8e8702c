/** Safety over whole runs: when every state is sound, what the id counter stands for, and when rooms close. */
module LobbyRuns {
  import opened Bytes
  import opened Packets
  import opened PacketLaws
  import opened Lobbies
  import opened LobbyInvariants

  // ---- Reachable states ----

  /** No id is asked for while all of them are live. */
  ghost predicate WithinPool(net: Net, s: Lobby, events: seq<Event>)
    requires ValidRun(net, s, events)
    decreases |events|
  {
    events != [] ==>
      && (Allocates(net, s, events[0]) ==> LiveCount(s) < POOL)
      && WithinPool(net, Apply(net, s, events[0]), events[1..])
  }

  lemma {:induction false} WithinPoolAppend(net: Net, s: Lobby, events: seq<Event>, more: seq<Event>)
    requires ValidRun(net, s, events) && ValidRun(net, Final(net, s, events), more)
    ensures ValidRun(net, s, events + more)
    ensures WithinPool(net, s, events + more) <==>
      WithinPool(net, s, events) && WithinPool(net, Final(net, s, events), more)
    decreases |events|
  {
    hide Apply, Enabled, Allocates, LiveCount;
    RunAppend(net, s, events, more);
    if events == [] {
      assert [] + more == more;
    } else {
      assert (events + more)[1..] == events[1..] + more;
      WithinPoolAppend(net, Apply(net, s, events[0]), events[1..], more);
    }
  }

  lemma {:induction false} RunKeepsInv(net: Net, s: Lobby, events: seq<Event>)
    requires Inv(s) && ValidRun(net, s, events) && WithinPool(net, s, events)
    ensures Inv(Final(net, s, events))
    decreases |events|
  {
    hide Inv, Apply, Enabled, Allocates;
    if events != [] {
      StepKeepsInv(net, s, events[0]);
      RunKeepsInv(net, Apply(net, s, events[0]), events[1..]);
    }
  }

  /** Spelled out: live users, live rooms, live games and recycled ids split the issued interval. */
  lemma IdsArePartitioned(s: Lobby)
    requires Conserved(s)
    ensures s.users.Keys !! s.rooms.Keys !! s.games.Keys
    ensures forall id: Id :: Issued(s, id) <==>
      id in s.users || id in s.rooms || id in s.games || id in s.recycled
    ensures forall id: Id :: id in s.recycled ==>
      s.recycled[id] == 1 && id !in s.users && id !in s.rooms && id !in s.games
  {
    forall id: Id
      ensures Issued(s, id) <==> id in s.users || id in s.rooms || id in s.games || id in s.recycled
      ensures id in s.recycled ==> s.recycled[id] == 1 && id !in s.users && id !in s.rooms && id !in s.games
      ensures id in s.users ==> id !in s.rooms && id !in s.games
      ensures id in s.rooms ==> id !in s.games
    {
      assert Holders(s, id) == One(Issued(s, id));
    }
  }

  // ---- Exhaustion ----

  /** The allocator hands out a live id exactly when all ids are live: its check for exhaustion tests for 0,
      which it never returns. */
  lemma ReissuesExactlyWhenExhausted(s: Lobby, id: Id)
    requires IdsSound(s) && MayIssue(s, id)
    ensures id in s.users || id in s.rooms || id in s.games <==> LiveCount(s) >= POOL
    ensures id != 0
  {
    assert Holders(s, id) == One(Issued(s, id));
    if LiveCount(s) < POOL {
      IssueTakesFresh(s, id);
      IssueKeepsMaps(s, id);
      assert Holders(Issue(s, id), id) == 0;
    } else {
      assert |s.recycled| == 0 && s.nextId == 0;
      assert s.recycled == multiset{};
    }
  }

  /** Which id comes next: any recycled one, and if there is none, 4096 and as many more as are live. */
  lemma NextIdExactly(s: Lobby, id: Id)
    requires IdsSound(s) && LiveCount(s) < POOL
    ensures if s.recycled == multiset{} then MayIssue(s, id) <==> id == 0x1000 + LiveCount(s)
      else MayIssue(s, id) <==> id in s.recycled
  {
    hide LiveCount;
    if s.recycled == multiset{} {
      CounterNotSpent(s);
    }
  }

  lemma BusyStepOnlyAdds(net: Net, s: Lobby, e: Event)
    requires Enabled(net, s, e) && Allocates(net, s, e)
    ensures var t := Effect(net, s, e);
      s.users.Keys <= t.users.Keys && s.rooms.Keys <= t.rooms.Keys && s.games.Keys <= t.games.Keys
  {
    hide Issue, MayIssue, MayHost, RoomNameTaken, UserNameTaken, WellParsed, Enumerates;
    IssueKeepsMaps(s, e.id);
  }

  lemma ExhaustedStepBreaks(net: Net, s: Lobby, e: Event)
    requires IdsSound(s) && Enabled(net, s, e) && Allocates(net, s, e) && LiveCount(s) >= POOL
    ensures !Conserved(Effect(net, s, e))
  {
    hide Effect, Enabled, Allocates, LiveCount;
    var t := Effect(net, s, e);
    BusyStepIssues(net, s, e);
    BusyStepOnlyAdds(net, s, e);
    FullPool(s);
    var second: Id := K_START + 1;
    assert Holders(s, second) == One(Issued(s, second)) == 1;
    assert t.nextId == K_START + 1 && !Issued(t, second) && Holders(t, second) >= 1;
  }

  lemma FullPool(s: Lobby)
    requires Counted(s) && LiveCount(s) >= POOL
    ensures s.recycled == multiset{} && s.nextId == 0
  {
    assert |s.recycled| == 0;
  }

  /** An event keeps the ids sound if and only if it takes none, or some id is not live. */
  lemma StepKeepsIdsExactly(net: Net, s: Lobby, e: Event)
    requires Inv(s) && Enabled(net, s, e)
    ensures IdsSound(Apply(net, s, e)) <==> (Allocates(net, s, e) ==> LiveCount(s) < POOL)
  {
    hide Effect, Apply, Enabled, Allocates, Conserved, Counted, NoDangling, NamesSound, SameButMail;
    ApplyHasEffect(net, s, e);
    MailIsIrrelevant(Effect(net, s, e), Apply(net, s, e));
    if Allocates(net, s, e) && LiveCount(s) >= POOL {
      ExhaustedStepBreaks(net, s, e);
    } else {
      EffectKeepsIds(net, s, e);
    }
  }

  /** The invariant holds in every state of the run. */
  ghost predicate SoundThroughout(net: Net, s: Lobby, events: seq<Event>)
    requires ValidRun(net, s, events)
    decreases |events|
  {
    Inv(s) && (events != [] ==> SoundThroughout(net, Apply(net, s, events[0]), events[1..]))
  }

  lemma {:induction false} RunIsSoundExactly(net: Net, s: Lobby, events: seq<Event>)
    requires Inv(s) && ValidRun(net, s, events)
    ensures SoundThroughout(net, s, events) <==> WithinPool(net, s, events)
    decreases |events|
  {
    hide IdsSound, NoDangling, NamesSound, Apply, Enabled, Allocates, LiveCount;
    if events != [] {
      var (e, t) := (events[0], Apply(net, s, events[0]));
      StepKeepsIdsExactly(net, s, e);
      if Allocates(net, s, e) ==> LiveCount(s) < POOL {
        StepKeepsInv(net, s, e);
        RunIsSoundExactly(net, t, events[1..]);
      } else {
        assert !SoundThroughout(net, t, events[1..]);
      }
    }
  }

  /** From the empty lobby, ids are conserved, no reference dangles and names are unique in every state of a run, if and
      only if no id is asked for while all of them are live. */
  lemma ReachableIsSound(net: Net, events: seq<Event>)
    requires ValidRun(net, INITIAL, events)
    ensures SoundThroughout(net, INITIAL, events) <==> WithinPool(net, INITIAL, events)
    ensures WithinPool(net, INITIAL, events) ==> Inv(Final(net, INITIAL, events))
  {
    InitialIsSound();
    RunIsSoundExactly(net, INITIAL, events);
    if WithinPool(net, INITIAL, events) {
      RunKeepsInv(net, INITIAL, events);
    }
  }

  // ---- High-water mark ----

  function Max(a: int, b: int): int {
    if a < b then b else a
  }

  /** The most users, rooms and games live at once during a run. */
  function Peak(net: Net, s: Lobby, events: seq<Event>): nat
    requires ValidRun(net, s, events)
    decreases |events|
  {
    if events == [] then LiveCount(s)
    else Max(LiveCount(s), Peak(net, Apply(net, s, events[0]), events[1..]))
  }

  lemma VacateNeverGrows(s: Lobby, roomId: Id, leftId: Id)
    ensures LiveCount(Vacate(s, roomId, leftId)) <= LiveCount(s) && Vacate(s, roomId, leftId).nextId == s.nextId
  {
    hide Abandoned;
    var t := Vacate(s, roomId, leftId);
    if roomId in s.rooms && Abandoned(s, roomId, leftId) {
      assert t.rooms.Keys == s.rooms.Keys - {roomId};
      assert |t.rooms| == |t.rooms.Keys| && |s.rooms| == |s.rooms.Keys|;
    }
  }

  lemma DepartingNeverGrows(s: Lobby, me: Id, hosted: Option<Id>)
    requires me in s.users && (hosted.Some? ==> hosted.value in s.games)
    ensures LiveCount(Departed(s, me, hosted)) <= LiveCount(s) && Departed(s, me, hosted).nextId == s.nextId
  {
    var t := Departed(s, me, hosted);
    assert t.users.Keys == s.users.Keys - {me};
    assert |t.users| == |t.users.Keys| && |s.users| == |s.users.Keys|;
    if hosted.Some? {
      assert t.games.Keys == s.games.Keys - {hosted.value};
      assert |t.games| == |t.games.Keys| && |s.games| == |s.games.Keys|;
    }
  }

  lemma MovingNeverGrows(s: Lobby, me: Id, roomId: Id)
    requires me in s.users
    ensures LiveCount(SetRoomId(s, me, roomId)) == LiveCount(s) && SetRoomId(s, me, roomId).nextId == s.nextId
  {
    var t := SetRoomId(s, me, roomId);
    assert t.users.Keys == s.users.Keys;
    assert |t.users| == |t.users.Keys| && |s.users| == |s.users.Keys|;
  }

  /** An event that takes no id leaves the counter alone and makes nothing live. */
  lemma QuietStepNeverGrows(net: Net, s: Lobby, e: Event)
    requires Enabled(net, s, e) && !Allocates(net, s, e)
    ensures LiveCount(Effect(net, s, e)) <= LiveCount(s) && Effect(net, s, e).nextId == s.nextId
  {
    hide LiveCount, SetRoomId, Vacate, Departed, MayHost, RoomNameTaken, UserNameTaken, WellParsed, Enumerates;
    match e
    case Login(_, _, _) =>
    case Request(me, packet, _, _) =>
      var roomId := s.users[me].roomId;
      VacateNeverGrows(s, roomId, me);
      VacateKeepsUsers(s, roomId, me);
      MovingNeverGrows(Vacate(s, roomId, me), me, 0);
      if packet.fields.value2.Some? {
        MovingNeverGrows(s, me, packet.fields.value2.value);
      }
    case Disconnected(me, hosted) =>
      DepartingNeverGrows(s, me, hosted);
      VacateNeverGrows(Departed(s, me, hosted), RoomLeft(s, me, hosted),
                       if hosted.Some? then hosted.value else me);
  }

  lemma BusyStepIssues(net: Net, s: Lobby, e: Event)
    requires Enabled(net, s, e) && Allocates(net, s, e)
    ensures !e.Disconnected? && MayIssue(s, e.id)
    ensures Effect(net, s, e).nextId == Issue(s, e.id).nextId
    ensures Effect(net, s, e).recycled == Issue(s, e.id).recycled
  {
    hide Issue, MayIssue, MayHost, RoomNameTaken, UserNameTaken, WellParsed, Enumerates;
  }

  /** An event that takes an id makes one thing live, and moves the counter only when nothing was recycled. */
  lemma BusyStepGrowsByOne(net: Net, s: Lobby, e: Event)
    requires IdsSound(s) && Enabled(net, s, e) && Allocates(net, s, e) && LiveCount(s) < POOL
    ensures LiveCount(Effect(net, s, e)) == LiveCount(s) + 1
    ensures Ceiling(Effect(net, s, e)) == Ceiling(s) + if s.recycled == multiset{} then 1 else 0
  {
    hide Enabled, Allocates, Effect, Conserved, LiveCount;
    EffectKeepsIds(net, s, e);
    BusyStepIssues(net, s, e);
    CeilingAboveStart(s);
    if s.recycled == multiset{} {
      CounterNotSpent(s);
    }
  }

  lemma CounterNotSpent(s: Lobby)
    requires Counted(s) && LiveCount(s) < POOL && s.recycled == multiset{}
    ensures s.nextId != 0
  {
  }

  /** From a sound state the counter moves to the larger of where it was and the peak of the run. */
  lemma {:induction false} CounterFollowsPeak(net: Net, s: Lobby, events: seq<Event>)
    requires Inv(s) && ValidRun(net, s, events) && WithinPool(net, s, events)
    ensures Ceiling(Final(net, s, events)) - K_START == Max(Ceiling(s) - K_START, Peak(net, s, events))
    decreases |events|
  {
    hide Apply, Enabled, Allocates, Effect, SameButMail, NamesSound, NoDangling, Conserved, LiveCount;
    if events != [] {
      var e := events[0];
      var t := Apply(net, s, e);
      ApplyHasEffect(net, s, e);
      MailIsIrrelevant(Effect(net, s, e), t);
      if Allocates(net, s, e) {
        BusyStepGrowsByOne(net, s, e);
      } else {
        QuietStepNeverGrows(net, s, e);
      }
      StepKeepsInv(net, s, e);
      CounterFollowsPeak(net, t, events[1..]);
    }
  }

  /** The counter of a reachable state has issued as many ids as were ever live at once. */
  lemma CounterIsHighWaterMark(net: Net, events: seq<Event>)
    requires ValidRun(net, INITIAL, events) && WithinPool(net, INITIAL, events)
    ensures Ceiling(Final(net, INITIAL, events)) - K_START == Peak(net, INITIAL, events)
  {
    InitialIsSound();
    CounterFollowsPeak(net, INITIAL, events);
  }

  // ---- Rooms ----

  /** Some user or game is in the room. */
  predicate Referenced(s: Lobby, roomId: Id) {
    || (exists id :: id in s.users && s.users[id].roomId == roomId)
    || (exists id :: id in s.games && s.games[id].roomId == roomId)
  }

  /** Of the rooms of `s`, exactly `roomId` may be gone in `t`, and it is gone exactly when nothing refers to it. */
  ghost predicate ClosedExactly(s: Lobby, t: Lobby, roomId: Id) {
    && (roomId in t.rooms <==> roomId in s.rooms && Referenced(t, roomId))
    && (forall q: Id :: q != roomId ==> (q in t.rooms <==> q in s.rooms))
    && (forall q: Id :: q in t.rooms ==> t.rooms[q] == s.rooms[q])
  }

  lemma VacateClosesExactly(s: Lobby, roomId: Id, leftId: Id)
    requires leftId !in s.users && leftId !in s.games
    ensures ClosedExactly(s, Vacate(s, roomId, leftId), roomId)
  {
  }

  /** Leaving a room closes it exactly when nobody is left in it. */
  lemma LeaveClosesExactly(s: Lobby, me: Id, p: Fields)
    requires Inv(s) && me in s.users
    requires p.value2 == Some(s.users[me].roomId) && ValueOr(p.value10, 0) == me
    ensures ClosedExactly(s, OnLeave(s, me, p).lobby, s.users[me].roomId)
  {
    hide NamesSound, Counted, Vacate, OnLeave;
    var roomId := s.users[me].roomId;
    IdsDisjoint(s, me);
    LeaveEffect(s, me, p);
    LeaverVacatesExactly(s, me);
    VacateKeepsUsers(s, roomId, me);
    assert SameButMail(SetRoomId(Vacate(s, roomId, me), me, 0), OnLeave(s, me, p).lobby);
  }

  lemma LeaverVacatesExactly(s: Lobby, me: Id)
    requires Conserved(s) && NoDangling(s) && me in s.users
    ensures ClosedExactly(s, SetRoomId(Vacate(s, s.users[me].roomId, me), me, 0), s.users[me].roomId)
  {
    hide Conserved;
    IdsDisjoint(s, me);
    IdsDisjoint(s, 0);
    var roomId := s.users[me].roomId;
    var t := SetRoomId(Vacate(s, roomId, me), me, 0);
    if roomId in s.rooms && !Abandoned(s, roomId, me) {
      if id :| id in s.users && id != me && s.users[id].roomId == roomId {
        assert id in t.users && t.users[id].roomId == roomId;
      } else {
        var id :| id in s.games && id != me && s.games[id].roomId == roomId;
        assert id in t.games && t.games[id].roomId == roomId;
      }
    }
  }

  /** A disconnect closes the room of the hosted game, or else the user's room, exactly when nobody is left in it. */
  lemma DisconnectClosesExactly(net: Net, s: Lobby, e: Event)
    requires Inv(s) && e.Disconnected? && Enabled(net, s, e)
    ensures ClosedExactly(s, Apply(net, s, e), RoomLeft(s, e.user, e.hosted))
  {
    hide NamesSound, Counted, Vacate, NoDangling, Apply, MayFindGame, SameButMail, ClosedExactly, Departed;
    var (me, hosted) := (e.user, e.hosted);
    assert hosted.Some? ==> hosted.value in s.games by { FoundIsLive(s, s.users[me].name, hosted); }
    IdsDisjoint(s, me);
    DepartedForgets(s, me, hosted);
    var roomId := RoomLeft(s, me, hosted);
    var left := Departed(s, me, hosted);
    VacateClosesExactly(left, roomId, if hosted.Some? then hosted.value else me);
    ApplyHasEffect(net, s, e);
    DepartedKeepsRooms(s, me, hosted);
    ClosureIgnoresMail(s, left, Effect(net, s, e), Apply(net, s, e), roomId);
  }

  lemma DepartedKeepsRooms(s: Lobby, me: Id, hosted: Option<Id>)
    ensures Departed(s, me, hosted).rooms == s.rooms
  {
  }

  lemma FoundIsLive(s: Lobby, name: octets, found: Option<Id>)
    requires MayFindGame(s, name, found)
    ensures found.Some? ==> found.value in s.games
  {
  }

  lemma ClosureIgnoresMail(s: Lobby, left: Lobby, t: Lobby, u: Lobby, roomId: Id)
    requires ClosedExactly(left, t, roomId) && SameButMail(t, u) && left.rooms == s.rooms
    ensures ClosedExactly(s, u, roomId)
  {
  }

  /** A room created under a recycled id starts with no members and no games. */
  lemma NewRoomStartsEmpty(s: Lobby, id: Id)
    requires Inv(s) && MayIssue(s, id) && LiveCount(s) < POOL
    ensures !Referenced(s, id)
  {
    hide NamesSound, Counted;
    ReissuesExactlyWhenExhausted(s, id);
  }

  // ---- Rooms that stand empty ----

  /** A live room with no member and no game. */
  predicate Vacant(s: Lobby, r: Id) {
    r in s.rooms && !Referenced(s, r)
  }

  predicate Opens(net: Net, s: Lobby, e: Event, r: Id) {
    e.Request? && e.packet.code == CREATE_ROOM && Allocates(net, s, e) && e.id == r
  }

  predicate Enters(s: Lobby, e: Event, r: Id) {
    && e.Request? && e.packet.code == JOIN && e.user in s.users && r in s.rooms
    && e.packet.fields.value2 == Some(r) && ValueOr(e.packet.fields.value10, 0) == e.user
  }

  /** The last one in a room goes, and the server does not look whether anyone is left: a join straight into another
      room, or a disconnect of a user whose hosted game is in another room. */
  predicate Deserts(s: Lobby, e: Event, r: Id) {
    && !e.Login? && e.user in s.users && r in s.rooms && s.users[e.user].roomId == r && Abandoned(s, r, e.user)
    && match e
       case Request(me, packet, _, _) =>
         packet.fields.value2.Some? && packet.fields.value2.value != r && Enters(s, e, packet.fields.value2.value)
       case Disconnected(_, hosted) => hosted.Some? && hosted.value in s.games && s.games[hosted.value].roomId != r
  }

  lemma VacantAfterLogin(net: Net, s: Lobby, e: Event, r: Id)
    requires Inv(s) && e.Login? && Enabled(net, s, e)
    requires Allocates(net, s, e) ==> LiveCount(s) < POOL
    ensures Vacant(Effect(net, s, e), r) <==> Vacant(s, r)
  {
    hide Issue, MayIssue, UserNameTaken, WellParsed, NamesSound, NoDangling, Conserved, Counted, LiveCount;
    IssueKeepsMaps(s, e.id);
    IdsDisjoint(s, r);
    if Allocates(net, s, e) {
      ReissuesExactlyWhenExhausted(s, e.id);
      NewcomerIsNowhere(s, Effect(net, s, e), e.id, r);
    }
  }

  lemma NewcomerIsNowhere(s: Lobby, t: Lobby, id: Id, r: Id)
    requires id !in s.users && t.users.Keys == s.users.Keys + {id} && t.users[id].roomId == 0
    requires forall u :: u in s.users ==> t.users[u] == s.users[u]
    requires t.games == s.games && t.rooms == s.rooms && (r in s.rooms ==> r != 0)
    ensures Vacant(t, r) <==> Vacant(s, r)
  {
    if u :| u in s.users && s.users[u].roomId == r {
      assert t.users[u].roomId == r;
    }
  }

  lemma VacantAfterRoom(net: Net, s: Lobby, e: Event, r: Id)
    requires Inv(s) && e.Request? && Enabled(net, s, e) && Allocates(net, s, e) && LiveCount(s) < POOL
    requires e.packet.code == CREATE_ROOM
    ensures Vacant(Effect(net, s, e), r) <==> Vacant(s, r) || e.id == r
  {
    hide Issue, MayIssue, RoomNameTaken, WellParsed, Enumerates, Inv, Referenced, LiveCount, NewRoom;
    IssueKeepsMaps(s, e.id);
    BusyStepIssues(net, s, e);
    NewRoomStartsEmpty(s, e.id);
    SameReferences(s, Effect(net, s, e), r);
  }

  lemma SameReferences(s: Lobby, t: Lobby, r: Id)
    requires t.users == s.users && t.games == s.games
    ensures Referenced(s, r) <==> Referenced(t, r)
  {
  }

  lemma VacantAfterGame(net: Net, s: Lobby, e: Event, r: Id)
    requires Inv(s) && e.Request? && Enabled(net, s, e) && Allocates(net, s, e) && LiveCount(s) < POOL
    requires e.packet.code == CREATE_GAME
    ensures Vacant(Effect(net, s, e), r) <==> Vacant(s, r)
  {
    hide Issue, MayIssue, MayHost, WellParsed, Enumerates, NamesSound, NoDangling, Conserved, Counted, LiveCount;
    IssueKeepsMaps(s, e.id);
    ReissuesExactlyWhenExhausted(s, e.id);
    var t := Effect(net, s, e);
    assert t.games[e.id].roomId == s.users[e.user].roomId;
    if g :| g in s.games && s.games[g].roomId == r {
      assert t.games[g].roomId == r;
    }
  }

  lemma VacantAfterJoin(s: Lobby, e: Event, q: Id, r: Id)
    requires Inv(s) && e.Request? && Enters(s, e, q)
    ensures Vacant(SetRoomId(s, e.user, q), r) <==> (Vacant(s, r) && !Enters(s, e, r)) || Deserts(s, e, r)
  {
    hide NamesSound, NoDangling, Counted, Conserved;
    var me := e.user;
    IdsDisjoint(s, me);
    var t := SetRoomId(s, me, q);
    assert t.users[me].roomId == q;
    if u :| u in s.users && u != me && s.users[u].roomId == r {
      assert t.users[u].roomId == r;
    }
  }

  lemma VacantAfterLeave(s: Lobby, me: Id, r: Id)
    requires Inv(s) && me in s.users
    ensures Vacant(SetRoomId(Vacate(s, s.users[me].roomId, me), me, 0), r) <==> Vacant(s, r)
  {
    hide NamesSound, Counted, Conserved, Vacate, NoDangling, Abandoned;
    var room := s.users[me].roomId;
    VacateKeepsUsers(s, room, me);
    VacateKeepsAllGames(s, room, me);
    LeaverVacatesExactly(s, me);
    IdsDisjoint(s, r);
    var t := SetRoomId(Vacate(s, room, me), me, 0);
    if u :| u in s.users && u != me && s.users[u].roomId == r {
      assert t.users[u].roomId == r;
    }
  }

  lemma VacateKeepsAllGames(s: Lobby, roomId: Id, leftId: Id)
    ensures Vacate(s, roomId, leftId).games == s.games
  {
  }

  /** Of a room that is not the one checked, a departure leaves what is there besides its user. */
  lemma VacantAfterDeparture(s: Lobby, t: Lobby, me: Id, hosted: Option<Id>, r: Id)
    requires Conserved(s) && me in s.users && (hosted.Some? ==> hosted.value in s.games)
    requires t.users == s.users - {me} && t.games == (if hosted.Some? then s.games - {hosted.value} else s.games)
    requires r != RoomLeft(s, me, hosted) && (r in t.rooms <==> r in s.rooms)
    ensures Vacant(t, r) <==> Vacant(s, r) || Deserts(s, Disconnected(me, hosted), r)
  {
    hide Conserved;
    IdsDisjoint(s, me);
    if u :| u in s.users && u != me && s.users[u].roomId == r {
      assert t.users[u].roomId == r;
    }
    if g :| g in s.games && s.games[g].roomId == r {
      assert g in t.games && t.games[g].roomId == r;
    }
  }

  lemma VacantAfterDisconnect(net: Net, s: Lobby, e: Event, r: Id)
    requires Inv(s) && e.Disconnected? && Enabled(net, s, e)
    ensures Vacant(Effect(net, s, e), r) <==> Vacant(s, r) || Deserts(s, e, r)
  {
    hide NamesSound, Counted, NoDangling, Vacate, MayFindGame, Deserts, Vacant, Conserved, ClosedExactly, Departed;
    var (me, hosted) := (e.user, e.hosted);
    FoundIsLive(s, s.users[me].name, hosted);
    IdsDisjoint(s, me);
    DepartedForgets(s, me, hosted);
    var room := RoomLeft(s, me, hosted);
    var leftId := if hosted.Some? then hosted.value else me;
    var left := Departed(s, me, hosted);
    DepartedParts(s, me, hosted);
    VacateClosesExactly(left, room, leftId);
    VacateKeepsUsers(left, room, leftId);
    VacateKeepsAllGames(left, room, leftId);
    var t := Vacate(left, room, leftId);
    ClosedRooms(left, t, room, r);
    if r == room {
      LeftRoomIsTaken(s, me, hosted);
    } else {
      VacantAfterDeparture(s, t, me, hosted, r);
    }
  }

  lemma DepartedParts(s: Lobby, me: Id, hosted: Option<Id>)
    ensures var t := Departed(s, me, hosted);
      && t.users == s.users - {me} && t.rooms == s.rooms
      && t.games == (if hosted.Some? then s.games - {hosted.value} else s.games)
  {
  }

  lemma ClosedRooms(s: Lobby, t: Lobby, room: Id, r: Id)
    requires ClosedExactly(s, t, room)
    ensures !Vacant(t, room) && (r != room ==> (r in t.rooms <==> r in s.rooms))
  {
  }

  lemma LeftRoomIsTaken(s: Lobby, me: Id, hosted: Option<Id>)
    requires me in s.users && (hosted.Some? ==> hosted.value in s.games)
    ensures !Vacant(s, RoomLeft(s, me, hosted))
    ensures !Deserts(s, Disconnected(me, hosted), RoomLeft(s, me, hosted))
  {
  }

  lemma VacantAfterRequest(net: Net, s: Lobby, e: Event, r: Id)
    requires Inv(s) && e.Request? && Enabled(net, s, e)
    requires Allocates(net, s, e) ==> LiveCount(s) < POOL
    ensures Vacant(Effect(net, s, e), r) <==>
      (Vacant(s, r) && !Enters(s, e, r)) || Opens(net, s, e, r) || Deserts(s, e, r)
  {
    hide Inv, Vacant, Issue, MayIssue, MayHost, RoomNameTaken, WellParsed, Enumerates, Listed, LiveCount, Abandoned,
      Vacate, SetRoomId, AddRoom, AddGame, RoomRequestValid, NewRoom, NewGame;
    var (me, code, p) := (e.user, e.packet.code, e.packet.fields);
    if Allocates(net, s, e) {
      if code == CREATE_ROOM {
        VacantAfterRoom(net, s, e, r);
      } else {
        VacantAfterGame(net, s, e, r);
      }
    } else if code == JOIN && p.value2.Some? && Enters(s, e, p.value2.value) {
      VacantAfterJoin(s, e, p.value2.value, r);
    } else if code == LEAVE && p.value2 == Some(s.users[me].roomId) && ValueOr(p.value10, 0) == me {
      VacantAfterLeave(s, me, r);
    }
  }

  /** Exactly which rooms stand empty after an event: those that did and were not joined, a room just created, and a
      room whose last member went without the server looking. Nothing ever closes an empty room. */
  lemma EmptyRoomsExactly(net: Net, s: Lobby, e: Event, r: Id)
    requires Inv(s) && Enabled(net, s, e)
    requires Allocates(net, s, e) ==> LiveCount(s) < POOL
    ensures Vacant(Apply(net, s, e), r) <==>
      (Vacant(s, r) && !Enters(s, e, r)) || Opens(net, s, e, r) || Deserts(s, e, r)
  {
    hide Inv, Effect, Apply, Enabled, Allocates, LiveCount, Vacant, SameButMail;
    ApplyHasEffect(net, s, e);
    VacancyIgnoresMail(Effect(net, s, e), Apply(net, s, e), r);
    match e
    case Login(_, _, _) => VacantAfterLogin(net, s, e, r);
    case Request(_, _, _, _) => VacantAfterRequest(net, s, e, r);
    case Disconnected(_, _) => VacantAfterDisconnect(net, s, e, r);
  }

  lemma VacancyIgnoresMail(s: Lobby, t: Lobby, r: Id)
    requires SameButMail(s, t)
    ensures Vacant(s, r) <==> Vacant(t, r)
  {
  }
}
