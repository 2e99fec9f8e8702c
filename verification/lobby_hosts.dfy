/** Whose game is whose: games are tied to their hosts by name. */
module LobbyHosts {
  import opened Bytes
  import opened CodePages
  import opened SessionInfos
  import opened Packets
  import opened PacketLaws
  import opened Names
  import opened Lobbies
  import opened LobbyInvariants
  import opened LobbyRuns

  /** The games that carry a name. */
  function GamesNamed(s: Lobby, name: octets): set<Id> {
    set id | id in s.games && s.games[id].name == name
  }

  /** Every game is named after a connected user, and no two games share a name. */
  ghost predicate HostsSound(s: Lobby) {
    && (forall g :: g in s.games ==> exists u :: u in s.users && s.users[u].name == s.games[g].name)
    && (forall g, h :: g in s.games && h in s.games && g != h ==> s.games[g].name != s.games[h].name)
  }

  /** Nobody who hosts a game creates another. */
  predicate SingleGame(net: Net, s: Lobby, e: Event) {
    e.Request? && e.packet.code == CREATE_GAME && Allocates(net, s, e) ==>
      GamesNamed(s, s.users[e.user].name) == {}
  }

  ghost predicate SingleGames(net: Net, s: Lobby, events: seq<Event>)
    requires ValidRun(net, s, events)
    decreases |events|
  {
    events != [] ==>
      SingleGame(net, s, events[0]) && SingleGames(net, Apply(net, s, events[0]), events[1..])
  }

  lemma HostIsUnique(s: Lobby, u: Id, v: Id)
    requires NamesSound(s) && u in s.users && v in s.users && s.users[u].name == s.users[v].name
    ensures u == v
  {
    EqualsCaseInsensitiveIsEquivalence(s.users[u].name, s.users[v].name, []);
  }

  lemma NewGameKeepsHosts(s: Lobby, me: Id, id: Id, access: byte)
    requires HostsSound(s) && me in s.users && GamesNamed(s, s.users[me].name) == {}
    ensures HostsSound(AddGame(s, id, NewGame(s.users[me], access)))
  {
    var t := AddGame(s, id, NewGame(s.users[me], access));
    forall g | g in t.games ensures exists u :: u in t.users && t.users[u].name == t.games[g].name {
      if g == id {
        assert t.users[me].name == t.games[g].name;
      }
    }
    forall g | g in s.games ensures s.games[g].name != s.users[me].name {
      assert g !in GamesNamed(s, s.users[me].name);
    }
  }

  /** Keeping all games and all users, under their names, keeps the hosts. */
  lemma SameGamesKeepHosts(s: Lobby, t: Lobby)
    requires HostsSound(s) && t.games == s.games
    requires forall u :: u in s.users ==> u in t.users && t.users[u].name == s.users[u].name
    ensures HostsSound(t)
  {
    forall g | g in t.games ensures exists u :: u in t.users && t.users[u].name == t.games[g].name {
      var u :| u in s.users && s.users[u].name == s.games[g].name;
      assert u in t.users;
    }
  }

  lemma DepartingKeepsHosts(s: Lobby, me: Id, hosted: Option<Id>)
    requires HostsSound(s) && me in s.users && MayFindGame(s, s.users[me].name, hosted)
    ensures HostsSound(Departed(s, me, hosted))
  {
    var t := Departed(s, me, hosted);
    forall g | g in t.games ensures exists u :: u in t.users && t.users[u].name == t.games[g].name {
      assert t.games[g].name != s.users[me].name;
      var u :| u in s.users && s.users[u].name == s.games[g].name;
      assert u in t.users;
    }
  }

  lemma OtherRequestsKeepGames(net: Net, s: Lobby, e: Event)
    requires e.Request? && Enabled(net, s, e) && !(Allocates(net, s, e) && e.packet.code == CREATE_GAME)
    ensures var t := Effect(net, s, e);
      t.games == s.games && forall u :: u in s.users ==> u in t.users && t.users[u].name == s.users[u].name
  {
    hide Issue, MayIssue, Abandoned, RoomNameTaken, MayHost, WellParsed, Enumerates, Listed, NewRoom, NewGame;
    IssueKeepsMaps(s, e.id);
  }

  lemma RequestKeepsHosts(net: Net, s: Lobby, e: Event)
    requires HostsSound(s) && e.Request? && Enabled(net, s, e) && SingleGame(net, s, e)
    ensures HostsSound(Effect(net, s, e))
  {
    var Request(me, packet, id, _) := e;
    if Allocates(net, s, e) && packet.code == CREATE_GAME {
      hide HostsSound, Issue, MayIssue, RoomNameTaken, MayHost, WellParsed, Enumerates, Listed, GamesNamed, AddGame,
        NewGame;
      IssueKeepsMaps(s, id);
      SameGamesKeepHosts(s, Issue(s, id));
      NamedAlike(s, Issue(s, id), s.users[me].name);
      NewGameKeepsHosts(Issue(s, id), me, id, MayHostInfo(net, packet.fields, s.users[me]));
    } else {
      hide HostsSound, Effect, Enabled, Allocates, SingleGame;
      OtherRequestsKeepGames(net, s, e);
      SameGamesKeepHosts(s, Effect(net, s, e));
    }
  }

  lemma NamedAlike(s: Lobby, t: Lobby, name: octets)
    requires s.games == t.games
    ensures GamesNamed(s, name) == GamesNamed(t, name)
  {
  }

  lemma LoginKeepsHosts(net: Net, s: Lobby, e: Event)
    requires Inv(s) && HostsSound(s) && e.Login? && Enabled(net, s, e)
    requires Allocates(net, s, e) ==> LiveCount(s) < POOL
    ensures HostsSound(Effect(net, s, e))
  {
    hide HostsSound, Inv, Issue, MayIssue, UserNameTaken, WellParsed, LiveCount;
    IssueKeepsMaps(s, e.id);
    LoginKeepsUsers(net, s, e);
    SameGamesKeepHosts(s, Effect(net, s, e));
  }

  lemma DisconnectKeepsHosts(net: Net, s: Lobby, e: Event)
    requires HostsSound(s) && e.Disconnected? && Enabled(net, s, e)
    ensures HostsSound(Effect(net, s, e))
  {
    hide HostsSound, Abandoned, MayFindGame, Departed;
    if e.user != 0 {
      DepartingKeepsHosts(s, e.user, e.hosted);
      SameGamesKeepHosts(Departed(s, e.user, e.hosted), Effect(net, s, e));
    }
  }

  lemma HostsIgnoreMail(s: Lobby, t: Lobby)
    requires SameButMail(s, t)
    ensures HostsSound(s) <==> HostsSound(t)
  {
  }

  /** A second game under one name is one game too many. */
  lemma SecondGameSpoils(net: Net, s: Lobby, e: Event)
    requires IdsSound(s) && Enabled(net, s, e) && !SingleGame(net, s, e) && LiveCount(s) < POOL
    ensures !HostsSound(Effect(net, s, e))
  {
    hide IdsSound, Issue, MayIssue, RoomNameTaken, WellParsed, Enumerates, Listed, LiveCount, NewInfo;
    IssueKeepsMaps(s, e.id);
    ReissuesExactlyWhenExhausted(s, e.id);
    var name := s.users[e.user].name;
    var g :| g in GamesNamed(s, name);
    var t := Effect(net, s, e);
    assert g in t.games && e.id in t.games && g != e.id && t.games[g].name == t.games[e.id].name == name;
  }

  /** An event keeps games and hosts in step if and only if it is not the second game of its host. */
  lemma StepKeepsHostsExactly(net: Net, s: Lobby, e: Event)
    requires Inv(s) && HostsSound(s) && Enabled(net, s, e)
    requires Allocates(net, s, e) ==> LiveCount(s) < POOL
    ensures HostsSound(Apply(net, s, e)) <==> SingleGame(net, s, e)
  {
    hide HostsSound, IdsSound, NoDangling, NamesSound, Effect, Apply, Enabled, Allocates, LiveCount;
    ApplyHasEffect(net, s, e);
    HostsIgnoreMail(Effect(net, s, e), Apply(net, s, e));
    if !SingleGame(net, s, e) {
      SecondGameSpoils(net, s, e);
    } else {
      hide SingleGame, Inv;
      match e {
        case Login(_, _, _) => LoginKeepsHosts(net, s, e);
        case Request(_, _, _, _) => RequestKeepsHosts(net, s, e);
        case Disconnected(_, _) => DisconnectKeepsHosts(net, s, e);
      }
    }
  }

  lemma LoginKeepsUsers(net: Net, s: Lobby, e: Event)
    requires Inv(s) && e.Login? && Enabled(net, s, e)
    requires Allocates(net, s, e) ==> LiveCount(s) < POOL
    ensures forall u :: u in s.users ==> u in Effect(net, s, e).users && Effect(net, s, e).users[u] == s.users[u]
  {
    hide Issue, MayIssue, UserNameTaken, WellParsed, NamesSound, NoDangling, Conserved, Counted;
    IssueKeepsMaps(s, e.id);
    if Allocates(net, s, e) {
      ReissuesExactlyWhenExhausted(s, e.id);
    }
  }

  /** Games and hosts are in step in every state of the run. */
  ghost predicate HostsSoundThroughout(net: Net, s: Lobby, events: seq<Event>)
    requires ValidRun(net, s, events)
    decreases |events|
  {
    HostsSound(s) && (events != [] ==> HostsSoundThroughout(net, Apply(net, s, events[0]), events[1..]))
  }

  lemma {:induction false} RunKeepsHostsExactly(net: Net, s: Lobby, events: seq<Event>)
    requires Inv(s) && HostsSound(s) && ValidRun(net, s, events) && WithinPool(net, s, events)
    ensures HostsSoundThroughout(net, s, events) <==> SingleGames(net, s, events)
    decreases |events|
  {
    hide HostsSound, Inv, Apply, Enabled, Allocates, SingleGame;
    if events != [] {
      var t := Apply(net, s, events[0]);
      StepKeepsInv(net, s, events[0]);
      StepKeepsHostsExactly(net, s, events[0]);
      if HostsSound(t) {
        RunKeepsHostsExactly(net, t, events[1..]);
      } else {
        assert !HostsSoundThroughout(net, t, events[1..]);
      }
    }
  }

  lemma {:induction false} ThroughoutToTheEnd(net: Net, s: Lobby, events: seq<Event>)
    requires ValidRun(net, s, events) && HostsSoundThroughout(net, s, events)
    ensures HostsSound(Final(net, s, events))
    decreases |events|
  {
    hide HostsSound, Apply, Enabled;
    if events != [] {
      ThroughoutToTheEnd(net, Apply(net, s, events[0]), events[1..]);
    }
  }

  /** Over any run, every game belongs at all times to a connected user, by name, and no two games to one, if and only
      if nobody who hosts a game ever creates another. That user is the only one of its name. */
  lemma GamesBelongToHosts(net: Net, events: seq<Event>)
    requires ValidRun(net, INITIAL, events) && WithinPool(net, INITIAL, events)
    ensures HostsSoundThroughout(net, INITIAL, events) <==> SingleGames(net, INITIAL, events)
    ensures SingleGames(net, INITIAL, events) ==> HostsSound(Final(net, INITIAL, events))
    ensures var t := Final(net, INITIAL, events);
      forall u, v :: u in t.users && v in t.users && t.users[u].name == t.users[v].name ==> u == v
  {
    hide Inv;
    InitialIsSound();
    RunKeepsHostsExactly(net, INITIAL, events);
    if SingleGames(net, INITIAL, events) {
      ThroughoutToTheEnd(net, INITIAL, events);
    }
    RunKeepsInv(net, INITIAL, events);
    var t := Final(net, INITIAL, events);
    forall u, v | u in t.users && v in t.users && t.users[u].name == t.users[v].name ensures u == v {
      assert NamesSound(t) by { InvHasNames(t); }
      HostIsUnique(t, u, v);
    }
  }

  lemma InvHasNames(s: Lobby)
    requires Inv(s)
    ensures NamesSound(s)
  {
  }

  /** A disconnect leaves no game of its user exactly when the user hosted at most one. */
  lemma DisconnectClearsSingleHost(net: Net, s: Lobby, e: Event)
    requires Inv(s) && e.Disconnected? && Enabled(net, s, e)
    ensures var name := s.users[e.user].name;
      GamesNamed(Apply(net, s, e), name) == {} <==>
      forall g, h :: g in GamesNamed(s, name) && h in GamesNamed(s, name) ==> g == h
  {
    hide NoDangling, NamesSound, Counted, Apply, Vacate;
    var (me, hosted, name) := (e.user, e.hosted, s.users[e.user].name);
    IdsDisjoint(s, me);
    ApplyHasEffect(net, s, e);
    VacateKeepsGames(Departed(s, me, hosted), RoomLeft(s, me, hosted), if hosted.Some? then hosted.value else me);
    var t := Apply(net, s, e);
    assert t.games == Departed(s, me, hosted).games;
    if hosted.Some? {
      assert GamesNamed(t, name) == GamesNamed(s, name) - {hosted.value};
      assert hosted.value in GamesNamed(s, name);
      if g :| g in GamesNamed(t, name) {
        assert g in GamesNamed(s, name) && g != hosted.value;
      } else {
        forall g | g in GamesNamed(s, name) ensures g == hosted.value {
          assert g !in GamesNamed(t, name);
        }
      }
    } else {
      assert GamesNamed(t, name) == GamesNamed(s, name) == {};
    }
  }

  lemma VacateKeepsGames(s: Lobby, roomId: Id, leftId: Id)
    ensures Vacate(s, roomId, leftId).games == s.games
  {
  }

  // ---- A second game is orphaned ----

  /** A login that carries only what it must. */
  function LoginOf(name: octets, address: Ipv4): Event {
    Login(Packet(LOGIN, NO_FIELDS.(value1 := Some(0), value4 := Some(0), name := Some(name),
      info := Some(NewInfo(0, USER, PUBLIC_ACCESS)))), address, K_START)
  }

  /** An offer to host a game in a room, at the address that `text` spells. */
  function GameOffer(roomId: Id, name: octets, text: octets): Packet {
    Packet(CREATE_GAME, NO_FIELDS.(value1 := Some(0), value2 := Some(roomId), value4 := Some(0x800),
      dataLength := Some((|text| + 1) % 0x1_0000_0000), data := Some(text), name := Some(name),
      info := Some(NewInfo(0, GAME, PUBLIC_ACCESS))))
  }

  /** What the witnesses below are made of: texts that frames carry unchanged. */
  predicate PlainTexts(name: octets, text: octets) {
    Plain(name) && |name| <= MAX_NAME_LENGTH && Plain(text) && |text| < MAX_DATA_LENGTH
  }

  lemma WitnessesAreDeliverable(page: CodePage, roomId: Id, name: octets, text: octets, address: Ipv4)
    requires PlainTexts(name, text)
    ensures Deliverable(page, LoginOf(name, address).packet) && Deliverable(page, GameOffer(roomId, name, text))
    ensures WellParsed(LoginOf(name, address).packet) && WellParsed(GameOffer(roomId, name, text))
  {
    hide Deliverable, PlainPacket, WellParsed;
    PlainLogin(name, address);
    PlainIsDeliverable(page, LoginOf(name, address).packet);
    PlainOffer(roomId, name, text);
    PlainIsDeliverable(page, GameOffer(roomId, name, text));
  }

  lemma PlainLogin(name: octets, address: Ipv4)
    requires Plain(name) && |name| <= MAX_NAME_LENGTH
    ensures PlainPacket(LoginOf(name, address).packet)
  {
    hide Plain, NewInfo, Verified;
  }

  lemma PlainOffer(roomId: Id, name: octets, text: octets)
    requires PlainTexts(name, text)
    ensures PlainPacket(GameOffer(roomId, name, text))
  {
    hide Plain, NewInfo, Verified;
  }

  function HostEvent(name: octets, text: octets, id: Id): Event {
    Request(K_START, GameOffer(0, name, text), id, [])
  }

  /** A login followed by two games and a disconnect. */
  function TwoGamesRun(name: octets, text: octets, address: Ipv4): seq<Event> {
    [LoginOf(name, address), HostEvent(name, text, K_START + 1), HostEvent(name, text, K_START + 2),
     Disconnected(K_START, Some(K_START + 1))]
  }

  /** One user, not in a room, and the games it hosts; all ids below the next one are in use. */
  ghost predicate OneHost(s: Lobby, name: octets, address: Ipv4, games: set<Id>, next: Id) {
    && s.users.Keys == {K_START} && s.users[K_START].name == name
    && s.users[K_START].roomId == 0 && s.users[K_START].address == address
    && s.rooms == map[] && s.recycled == multiset{} && s.nextId == next
    && s.games.Keys == games && (forall g :: g in games ==> s.games[g].name == name && s.games[g].roomId == 0)
    && |games| < 10
  }

  lemma FirstLogin(net: Net, name: octets, address: Ipv4)
    requires WellParsed(LoginOf(name, address).packet)
    ensures Enabled(net, INITIAL, LoginOf(name, address))
    ensures OneHost(Apply(net, INITIAL, LoginOf(name, address)), name, address, {}, K_START + 1)
  {
    hide WellParsed, LoginPacket;
  }

  lemma HostAccepted(net: Net, s: Lobby, name: octets, text: octets, address: Ipv4, games: set<Id>, next: Id)
    requires OneHost(s, name, address, games, next) && next > K_START && next + 1 < 0x1_0000_0000
    requires WellParsed(GameOffer(0, name, text)) && net.parse(text) == Some(V4(address))
    ensures var e := HostEvent(name, text, next);
      && Enabled(net, s, e) && MayHost(net, e.packet.fields, s.users[K_START])
      && Effect(net, s, e)
         == s.(nextId := next + 1, games := s.games[next := NewGame(s.users[K_START], PUBLIC_ACCESS)])
  {
    hide HandlePacket, Abandoned, RoomNameTaken, NewGame, WellParsed;
  }

  lemma FewLive(s: Lobby, name: octets, address: Ipv4, games: set<Id>, next: Id)
    requires OneHost(s, name, address, games, next)
    ensures LiveCount(s) < POOL
  {
    assert |s.users| == |s.users.Keys| && |s.games| == |s.games.Keys|;
  }

  lemma OneMoreGame(s: Lobby, t: Lobby, name: octets, address: Ipv4, games: set<Id>, next: Id)
    requires OneHost(s, name, address, games, next) && |games + {next}| < 10 && next + 1 < 0x1_0000_0000
    requires SameButMail(
      s.(nextId := next + 1, games := s.games[next := NewGame(s.users[K_START], PUBLIC_ACCESS)]), t)
    ensures OneHost(t, name, address, games + {next}, next + 1)
  {
    hide NewInfo;
  }

  lemma HostsOnce(net: Net, s: Lobby, name: octets, text: octets, address: Ipv4, games: set<Id>, next: Id)
    requires OneHost(s, name, address, games, next) && next > K_START && next + 1 < 0x1_0000_0000
    requires WellParsed(GameOffer(0, name, text)) && net.parse(text) == Some(V4(address)) && |games + {next}| < 10
    ensures Enabled(net, s, HostEvent(name, text, next)) && LiveCount(s) < POOL
    ensures OneHost(Apply(net, s, HostEvent(name, text, next)), name, address, games + {next}, next + 1)
  {
    hide Apply, Effect, Enabled, HostEvent, NewInfo, OneHost, LiveCount, GameOffer, WellParsed;
    var e := HostEvent(name, text, next);
    FewLive(s, name, address, games, next);
    HostAccepted(net, s, name, text, address, games, next);
    ApplyHasEffect(net, s, e);
    OneMoreGame(s, Apply(net, s, e), name, address, games, next);
  }

  lemma HostLeaves(net: Net, s: Lobby, name: octets, address: Ipv4, games: set<Id>, next: Id, g: Id)
    requires OneHost(s, name, address, games, next) && g in games
    ensures var e := Disconnected(K_START, Some(g));
      && Enabled(net, s, e)
      && Apply(net, s, e).users == map[]
      && Apply(net, s, e).games == s.games - {g}
  {
    hide Post;
    ApplyHasEffect(net, s, Disconnected(K_START, Some(g)));
  }

  lemma RunCons(net: Net, s: Lobby, e: Event, rest: seq<Event>)
    requires Enabled(net, s, e) && ValidRun(net, Apply(net, s, e), rest)
    requires (Allocates(net, s, e) ==> LiveCount(s) < POOL) && WithinPool(net, Apply(net, s, e), rest)
    ensures ValidRun(net, s, [e] + rest) && WithinPool(net, s, [e] + rest)
    ensures Final(net, s, [e] + rest) == Final(net, Apply(net, s, e), rest)
  {
    hide Apply, Enabled, Allocates;
    assert ([e] + rest)[1..] == rest;
  }

  lemma OrphanRemains(net: Net, s: Lobby, name: octets, address: Ipv4)
    requires OneHost(s, name, address, {K_START + 1, K_START + 2}, K_START + 3)
    ensures var e := Disconnected(K_START, Some(K_START + 1));
      && Enabled(net, s, e) && !Allocates(net, s, e)
      && Apply(net, s, e).users == map[] && K_START + 2 in Apply(net, s, e).games
      && Apply(net, s, e).games[K_START + 2].name == name
  {
    hide Apply, Enabled;
    HostLeaves(net, s, name, address, {K_START + 1, K_START + 2}, K_START + 3, K_START + 1);
  }

  /** The server lets a user host twice, and then its disconnect leaves a game that nobody hosts: under any name and
      any address text that frames carry, on any network where the text spells the user's address. */
  lemma SecondGameIsOrphaned(net: Net, page: CodePage, name: octets, text: octets, address: Ipv4)
    requires PlainTexts(name, text) && net.parse(text) == Some(V4(address))
    ensures var events := TwoGamesRun(name, text, address);
      && ValidRun(net, INITIAL, events) && WithinPool(net, INITIAL, events)
      && (forall e :: e in events ==> e.Disconnected? || Deliverable(page, e.packet))
      && var t := Final(net, INITIAL, events);
         t.users == map[] && K_START + 2 in t.games && t.games[K_START + 2].name == name
  {
    hide Apply, Enabled, Allocates, LoginOf, HostEvent, GameOffer, Deliverable, WellParsed, OneHost, LiveCount,
      PlainTexts;
    WitnessesAreDeliverable(page, 0, name, text, address);
    var (e1, e2, e3, e4) := (LoginOf(name, address), HostEvent(name, text, K_START + 1),
                             HostEvent(name, text, K_START + 2), Disconnected(K_START, Some(K_START + 1)));
    FirstLogin(net, name, address);
    var s1 := Apply(net, INITIAL, e1);
    HostsOnce(net, s1, name, text, address, {}, K_START + 1);
    var s2 := Apply(net, s1, e2);
    assert {} + {K_START + 1} == {K_START + 1};
    HostsOnce(net, s2, name, text, address, {K_START + 1}, K_START + 2);
    var s3 := Apply(net, s2, e3);
    assert {K_START + 1} + {K_START + 2} == {K_START + 1, K_START + 2};
    OrphanRemains(net, s3, name, address);
    RunCons(net, s3, e4, []);
    RunCons(net, s2, e3, [e4]);
    RunCons(net, s1, e2, [e3, e4]);
    NobodyYet();
    RunCons(net, INITIAL, e1, [e2, e3, e4]);
    assert TwoGamesRun(name, text, address) == [e1] + ([e2] + ([e3] + ([e4] + [])));
    PacketsOfTwoGames(name, text, address);
  }

  lemma NobodyYet()
    ensures LiveCount(INITIAL) < POOL
  {
  }

  lemma PacketsOfTwoGames(name: octets, text: octets, address: Ipv4)
    ensures forall e :: e in TwoGamesRun(name, text, address) ==>
      e.Disconnected? || (!e.Disconnected? && e.packet in {LoginOf(name, address).packet, GameOffer(0, name, text)})
  {
    hide GameOffer;
  }
}
