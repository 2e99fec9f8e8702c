/** The ids run out: one client can make every id live, and then the next room takes the id of its own maker. */
module Exhaustion {
  import opened Bytes
  import opened CodePages
  import opened SessionInfos
  import opened Packets
  import opened PacketLaws
  import opened Names
  import opened Lobbies
  import opened LobbyInvariants
  import opened LobbyRuns
  import opened LobbyHosts

  // ---- Names enough for all rooms ----

  /** The last `k` hexadecimal digits of `i`, written with the letters a to p. */
  function Letters(i: nat, k: nat): (s: octets)
    ensures |s| == k && forall j :: 0 <= j < k ==> 0x61 <= s[j] <= 0x70
  {
    if k == 0 then [] else Letters(i / 0x10, k - 1) + [0x61 + i % 0x10]
  }

  function SixteenTo(k: nat): nat {
    if k == 0 then 1 else 0x10 * SixteenTo(k - 1)
  }

  lemma {:induction false} LettersDiffer(i: nat, j: nat, k: nat)
    requires i < SixteenTo(k) && j < SixteenTo(k)
    requires EqualsCaseInsensitive(Letters(i, k), Letters(j, k))
    ensures i == j
  {
    if k > 0 {
      var (a, b) := (Letters(i, k), Letters(j, k));
      var (a', b') := (Letters(i / 0x10, k - 1), Letters(j / 0x10, k - 1));
      assert a[k - 1] == 0x61 + i % 0x10 && b[k - 1] == 0x61 + j % 0x10;
      assert ToLower(a[k - 1]) == ToLower(b[k - 1]);
      forall m | 0 <= m < k - 1 ensures ToLower(a'[m]) == ToLower(b'[m]) {
        assert a[m] == a'[m] && b[m] == b'[m];
        assert ToLower(a[m]) == ToLower(b[m]);
      }
      LettersDiffer(i / 0x10, j / 0x10, k - 1);
    }
  }

  function RoomName(i: nat): octets {
    Letters(i, 8)
  }

  lemma RoomNamesDiffer(i: nat, j: nat)
    requires i < 0x1_0000_0000 && j < 0x1_0000_0000 && i != j
    ensures !EqualsCaseInsensitive(RoomName(i), RoomName(j))
  {
    assert SixteenTo(8) == 0x1_0000_0000 by {
      assert SixteenTo(4) == 0x1_0000;
    }
    if EqualsCaseInsensitive(RoomName(i), RoomName(j)) {
      LettersDiffer(i, j, 8);
    }
  }

  // ---- The run ----

  /** A request to create the `i`-th room. */
  function RoomRequest(i: nat): Packet {
    Packet(CREATE_ROOM, NO_FIELDS.(value1 := Some(0), value4 := Some(0), dataLength := Some(2), data := Some([0x20]),
      name := Some(RoomName(i)), info := Some(NewInfo(0, ROOM, PUBLIC_ACCESS))))
  }

  lemma RoomRequestIsDeliverable(page: CodePage, i: nat)
    ensures Deliverable(page, RoomRequest(i)) && WellParsed(RoomRequest(i)) && RoomRequestValid(RoomRequest(i).fields)
  {
    hide Deliverable, WellParsed;
    assert PlainPacket(RoomRequest(i)) by {
      hide NewInfo, Verified, RoomName;
      NameIsPlain(i);
    }
    PlainIsDeliverable(page, RoomRequest(i));
  }

  lemma NameIsPlain(i: nat)
    ensures Plain(RoomName(i)) && |RoomName(i)| == 8
  {
  }

  /** The `i`-th room takes the next id. */
  function RoomEvent(i: nat): Event
    requires i + 1 < POOL
  {
    Request(K_START, RoomRequest(i), K_START + 1 + i, [])
  }

  /** One login and `n` rooms. */
  function FillRun(name: octets, address: Ipv4, n: nat): (events: seq<Event>)
    requires n + 1 <= POOL
    ensures |events| == n + 1
  {
    if n == 0 then [LoginOf(name, address)] else FillRun(name, address, n - 1) + [RoomEvent(n - 1)]
  }

  /** One user outside every room, and `n` rooms under their own names; the first `n + 1` ids are live. */
  ghost predicate Filled(s: Lobby, n: nat) {
    && n + 1 <= POOL && Inv(s)
    && s.users.Keys == {K_START} && s.users[K_START].roomId == 0
    && (forall r :: r in s.rooms ==> K_START < r <= K_START + n && s.rooms[r].name == RoomName(r - K_START - 1))
    && s.games == map[] && s.recycled == multiset{} && s.nextId == (K_START + 1 + n) % 0x1_0000_0000
  }

  lemma FilledCounts(s: Lobby, n: nat)
    requires Filled(s, n)
    ensures LiveCount(s) == n + 1
  {
    hide NoDangling, NamesSound, Conserved, RoomName, LiveCount;
    assert Counted(s);
  }

  lemma NameIsFree(s: Lobby, n: nat)
    requires Filled(s, n)
    ensures !RoomNameTaken(s, RoomName(n))
  {
    hide Inv, RoomName, EqualsCaseInsensitive;
    forall r | r in s.rooms ensures !EqualsCaseInsensitive(RoomName(n), s.rooms[r].name) {
      RoomNamesDiffer(n, r - K_START - 1);
    }
  }

  lemma FirstUser(net: Net, name: octets, address: Ipv4)
    requires WellParsed(LoginOf(name, address).packet)
    ensures Enabled(net, INITIAL, LoginOf(name, address)) && LiveCount(INITIAL) < POOL
    ensures Filled(Apply(net, INITIAL, LoginOf(name, address)), 0)
  {
    hide Inv, WellParsed, LoginOf, Apply, Enabled, Allocates, LiveCount, RoomName;
    FirstLogin(net, name, address);
    NobodyYet();
    InitialIsSound();
    StepKeepsInv(net, INITIAL, LoginOf(name, address));
  }

  lemma NextRoomIsEnabled(net: Net, s: Lobby, n: nat, id: Id)
    requires Filled(s, n) && WellParsed(RoomRequest(n)) && RoomRequestValid(RoomRequest(n).fields)
    requires id == if n + 1 < POOL then K_START + 1 + n else K_START
    ensures var e := Request(K_START, RoomRequest(n), id, []);
      && Enabled(net, s, e) && Allocates(net, s, e) && (forall other :: MayIssue(s, other) <==> other == id)
      && Effect(net, s, e) == AddRoom(Issue(s, id), id, NewRoom(e.packet.fields, s.users[K_START]))
  {
    hide Inv, RoomName, WellParsed, RoomRequestValid, RoomNameTaken, HandlePacket, NewRoom, NewInfo, Issue;
    NameIsFree(s, n);
  }

  lemma RoomStored(s: Lobby, t: Lobby, n: nat, r: Room)
    requires Filled(s, n) && n + 1 < POOL && Inv(t) && r.name == RoomName(n)
    requires SameButMail(AddRoom(Issue(s, K_START + 1 + n), K_START + 1 + n, r), t)
    ensures Filled(t, n + 1)
  {
    hide Inv, RoomName;
  }

  lemma OneMoreRoom(net: Net, page: CodePage, s: Lobby, n: nat)
    requires Filled(s, n) && n + 1 < POOL
    ensures Enabled(net, s, RoomEvent(n)) && LiveCount(s) < POOL && Filled(Apply(net, s, RoomEvent(n)), n + 1)
  {
    hide Apply, Effect, Enabled, Allocates, Inv, LiveCount, RoomName, WellParsed, RoomRequestValid, NewInfo, MayIssue,
      Filled, Issue, AddRoom, SameButMail, Deliverable;
    var e := RoomEvent(n);
    RoomRequestIsDeliverable(page, n);
    FilledCounts(s, n);
    FilledHasUser(s, n);
    NextRoomIsEnabled(net, s, n, K_START + 1 + n);
    StepKeepsInv(net, s, e);
    ApplyHasEffect(net, s, e);
    RoomStored(s, Apply(net, s, e), n, NewRoom(RoomRequest(n).fields, s.users[K_START]));
  }

  lemma FilledHasUser(s: Lobby, n: nat)
    requires Filled(s, n)
    ensures Inv(s) && K_START in s.users
  {
    hide Inv;
  }

  lemma WithinPoolSnoc(net: Net, s: Lobby, events: seq<Event>, e: Event)
    requires ValidRun(net, s, events) && WithinPool(net, s, events) && Enabled(net, Final(net, s, events), e)
    requires LiveCount(Final(net, s, events)) < POOL
    ensures ValidRun(net, s, events + [e]) && WithinPool(net, s, events + [e])
    ensures Final(net, s, events + [e]) == Apply(net, Final(net, s, events), e)
  {
    hide Apply, Enabled, Allocates, LiveCount;
    RunSnoc(net, s, events, e);
    var t := Final(net, s, events);
    assert [e][1..] == [] && WithinPool(net, Apply(net, t, e), []) && ValidRun(net, t, [e]);
    WithinPoolAppend(net, s, events, [e]);
  }

  /** One login and `n` requests for rooms of different names, each sent in a frame, are a run of the lobby, within
      the pool, after which `n + 1` ids are live: for every `n`, up to the whole pool. */
  lemma {:induction false} PoolCanBeFilled(net: Net, page: CodePage, name: octets, address: Ipv4, n: nat)
    requires Plain(name) && |name| <= MAX_NAME_LENGTH && n + 1 <= POOL
    ensures var events := FillRun(name, address, n);
      && ValidRun(net, INITIAL, events) && WithinPool(net, INITIAL, events)
      && (forall i :: 0 <= i < |events| ==> !events[i].Disconnected? && Deliverable(page, events[i].packet))
      && Filled(Final(net, INITIAL, events), n) && LiveCount(Final(net, INITIAL, events)) == n + 1
  {
    hide Apply, Enabled, Allocates, Filled, Deliverable, WellParsed, LoginOf, RoomRequest, LiveCount, Plain;
    if n == 0 {
      var e := LoginOf(name, address);
      LoginIsDeliverable(page, name, address);
      FirstUser(net, name, address);
      EmptyRun(net, INITIAL);
      WithinPoolSnoc(net, INITIAL, [], e);
      assert [] + [e] == [e] == FillRun(name, address, n);
    } else {
      var events := FillRun(name, address, n - 1);
      PoolCanBeFilled(net, page, name, address, n - 1);
      RoomRequestIsDeliverable(page, n - 1);
      OneMoreRoom(net, page, Final(net, INITIAL, events), n - 1);
      WithinPoolSnoc(net, INITIAL, events, RoomEvent(n - 1));
    }
    FilledCounts(Final(net, INITIAL, FillRun(name, address, n)), n);
  }

  lemma LoginIsDeliverable(page: CodePage, name: octets, address: Ipv4)
    requires Plain(name) && |name| <= MAX_NAME_LENGTH
    ensures LoginOf(name, address).Login?
    ensures Deliverable(page, LoginOf(name, address).packet) && WellParsed(LoginOf(name, address).packet)
  {
    hide Deliverable, WellParsed;
    PlainLogin(name, address);
    PlainIsDeliverable(page, LoginOf(name, address).packet);
  }

  lemma EmptyRun(net: Net, s: Lobby)
    ensures ValidRun(net, s, []) && WithinPool(net, s, []) && Final(net, s, []) == s
  {
  }

  /** The input on which the allocator fails: with the pool full, the next request for a room has no other id to get
      than its own maker's, who stays connected, so that one id then names a user and a room. */
  lemma NextRoomTakesItsMakersId(net: Net, page: CodePage, name: octets, address: Ipv4, n: nat)
    requires Plain(name) && |name| <= MAX_NAME_LENGTH && n + 1 == POOL
    ensures var events, e := FillRun(name, address, n), Request(K_START, RoomRequest(n), K_START, []);
      && ValidRun(net, INITIAL, events) && Deliverable(page, e.packet)
      && var s := Final(net, INITIAL, events);
         && Enabled(net, s, e) && (forall id :: MayIssue(s, id) <==> id == K_START)
         && var t := Apply(net, s, e);
            K_START in t.users && K_START in t.rooms && !IdsSound(t)
  {
    hide ValidRun, Final, WithinPool, Filled, Deliverable, RoomRequest, Plain, FillRun;
    PoolCanBeFilled(net, page, name, address, n);
    RoomRequestIsDeliverable(page, n);
    FullPoolBreaks(net, Final(net, INITIAL, FillRun(name, address, n)), n);
  }

  lemma FullPoolBreaks(net: Net, s: Lobby, n: nat)
    requires Filled(s, n) && n + 1 == POOL && WellParsed(RoomRequest(n)) && RoomRequestValid(RoomRequest(n).fields)
    ensures var e := Request(K_START, RoomRequest(n), K_START, []);
      && Enabled(net, s, e) && (forall id :: MayIssue(s, id) <==> id == K_START)
      && var t := Apply(net, s, e);
         K_START in t.users && K_START in t.rooms && !IdsSound(t)
  {
    hide Apply, Effect, Enabled, Allocates, Filled, WellParsed, RoomRequest, LiveCount, MayIssue, RoomRequestValid,
      Issue, IdsSound, Inv;
    var e := Request(K_START, RoomRequest(n), K_START, []);
    NextRoomIsEnabled(net, s, n, K_START);
    ApplyHasEffect(net, s, e);
    FilledHasUser(s, n);
    FilledCounts(s, n);
    StepKeepsIdsExactly(net, s, e);
    IssueKeepsMaps(s, K_START);
  }
}
