/** What a game offer with an unparsable address does to the session that carries it. */
module Stalls {
  import opened Bytes
  import opened CodePages
  import opened Packets
  import opened PacketLaws
  import opened Sessions
  import opened SessionLaws
  import opened Dispatches
  import L = Lobbies
  import H = LobbyHosts

  /** A game offered in one's own room at an address that cannot be parsed. */
  ghost predicate Unreadable(net: L.Net, s: L.Lobby, me: L.Id, name: octets, text: octets) {
    me in s.users && H.PlainTexts(name, text) && net.parse(text).None?
  }

  function Offer(s: L.Lobby, me: L.Id, name: octets, text: octets): Packet
    requires me in s.users
  {
    H.GameOffer(s.users[me].roomId, name, text)
  }

  lemma OfferThrows(net: L.Net, page: CodePage, s: L.Lobby, me: L.Id, name: octets, text: octets)
    requires Unreadable(net, s, me, name, text)
    ensures var offer := Offer(s, me, name, text);
      && Parse(page, Print(page, offer)) == Complete(offer, |Print(page, offer)|)
      && 8 <= |Print(page, offer)| <= MAX_FRAME
      && var e := L.Request(me, offer, 0, []);
         && L.Enabled(net, s, e) && L.Apply(net, s, e) == s
         && L.HandlePacket(net, s, me, offer, 0, []).verdict.Threw?
  {
    hide Parse, Print, WellParsed, L.HandlePacket, Plain;
    var offer := Offer(s, me, name, text);
    H.PlainOffer(s.users[me].roomId, name, text);
    PlainIsDeliverable(page, offer);
    FrameBound(page, Print(page, offer));
    ThrowsExactly(net, s, me, offer, 0, []);
    assert L.GameRequestValid(offer.fields, s.users[me]);
  }

  // ---- The backlog ----

  lemma {:induction false} RepeatedOffers(net: L.Net, page: CodePage, s: L.Lobby, me: L.Id, name: octets, text: octets,
                                          n: nat)
    requires Unreadable(net, s, me, name, text)
    ensures var events := Repeat(L.Request(me, Offer(s, me, name, text), 0, []), n);
      && L.ValidRun(net, s, events) && L.Final(net, s, events) == s
      && VerdictsOf(net, s, events) == Repeat(Threw, n)
  {
    hide *;
    UnreadableIsByUser(net, s, me, name, text);
    var e := L.Request(me, Offer(s, me, name, text), 0, []);
    if n == 0 {
      assert Repeat(e, 0) == [] && Repeat(Threw, 0) == [];
      RunStarts(net, s, page, []);
    } else {
      RepeatedOffers(net, page, s, me, name, text, n - 1);
      OfferThrows(net, page, s, me, name, text);
      RepeatSnoc(e, n - 1);
      RepeatSnoc(Threw, n - 1);
      RepeatedRequests(e, n - 1);
      RepeatedRequests(e, n);
      VerdictsSnoc(net, s, Repeat(e, n - 1), e);
    }
  }

  lemma RepeatedRequests(e: L.Event, n: nat)
    requires e.Request?
    ensures AllRequests(Repeat(e, n))
  {
  }

  lemma UnreadableIsByUser(net: L.Net, s: L.Lobby, me: L.Id, name: octets, text: octets)
    requires Unreadable(net, s, me, name, text)
    ensures me in s.users
  {
  }

  lemma AllThrow(p: Packet, n: nat)
    ensures forall k :: 0 < k <= n ==> HandlerOf(Repeat(Threw, n))(Repeat(p, k)).Threw?
  {
  }

  lemma AtLeastHeaders(frame: octets, n: nat)
    requires |frame| >= 8
    ensures n * |frame| >= 8 * n
  {
  }

  /** The buffer of a session has no bound: each receive of two such offers dispatches one and buffers one more. After
      `n` of them the session is open, the lobby unchanged, and `n` frames wait. */
  lemma BufferGrowsWithoutBound(net: L.Net, page: CodePage, s: L.Lobby, me: L.Id, name: octets, text: octets, n: nat)
    requires Unreadable(net, s, me, name, text)
    ensures var offer := Offer(s, me, name, text);
      var (frame, events) := (Print(page, offer), Repeat(L.Request(me, offer, 0, []), n));
      && L.ValidRun(net, s, events) && L.Final(net, s, events) == s
      && Receivable(Repeat(frame + frame, n))
      && var r := ReceiveAll(page, HandlerOf(VerdictsOf(net, s, events)), START, Repeat(frame + frame, n));
         && r == Session(PacketsOf(events), Joined(Repeat(frame, n)), Open)
         && |r.buffer| == n * |frame| >= 8 * n
  {
    hide Parse, Print, Unreadable, Offer, L.Apply, L.Enabled, L.HandlePacket, L.Final, L.ValidRun, VerdictsOf,
      HandlerOf, ReceiveAll, Joined;
    UnreadableIsByUser(net, s, me, name, text);
    var offer := Offer(s, me, name, text);
    var (frame, events) := (Print(page, offer), Repeat(L.Request(me, offer, 0, []), n));
    OfferThrows(net, page, s, me, name, text);
    RepeatedOffers(net, page, s, me, name, text, n);
    AllThrow(offer, n);
    BacklogGrows(page, HandlerOf(VerdictsOf(net, s, events)), frame, offer, n);
    assert PacketsOf(events) == Repeat(offer, n);
    CopiesCommute(frame, n);
    AtLeastHeaders(frame, n);
  }

  // ---- The split that matters ----

  const LIST_REQUEST := Packet(LIST_ROOMS, NO_FIELDS)

  lemma ListIsAnswered(net: L.Net, page: CodePage, s: L.Lobby, me: L.Id, order: seq<L.Id>)
    requires me in s.users && L.Enumerates(order, s.rooms.Keys)
    ensures Parse(page, Print(page, LIST_REQUEST)) == Complete(LIST_REQUEST, |Print(page, LIST_REQUEST)|)
    ensures L.Enabled(net, s, L.Request(me, LIST_REQUEST, 0, order))
    ensures L.HandlePacket(net, s, me, LIST_REQUEST, 0, order).verdict.Handled?
  {
    hide Parse, Print, WellParsed, PlainPacket, L.OnListRooms, L.OnListUsers, L.OnListGames, L.OnChatRoom,
      L.OnCreateRoom, L.OnJoin, L.OnLeave, L.OnClose, L.OnCreateGame, L.OnConnectGame;
    ListIsPlain();
    PlainIsDeliverable(page, LIST_REQUEST);
    ListIsHandled(s, me, order);
  }

  lemma ListIsPlain()
    ensures PlainPacket(LIST_REQUEST)
  {
  }

  lemma ListIsHandled(s: L.Lobby, me: L.Id, order: seq<L.Id>)
    ensures L.OnListRooms(s, me, LIST_REQUEST.fields, order).verdict.Handled?
  {
    hide L.Post, L.RoomItems;
  }

  lemma OfferThenList(net: L.Net, page: CodePage, s: L.Lobby, me: L.Id, name: octets, text: octets, order: seq<L.Id>)
    requires Unreadable(net, s, me, name, text) && L.Enumerates(order, s.rooms.Keys)
    ensures var events := [L.Request(me, Offer(s, me, name, text), 0, []), L.Request(me, LIST_REQUEST, 0, order)];
      L.ValidRun(net, s, events) && VerdictsOf(net, s, events) == [Threw, Handled]
  {
    hide Unreadable, Offer, L.Apply, L.Enabled, L.HandlePacket, L.Final, L.ValidRun, VerdictsOf, L.Enumerates, Parse,
      Print;
    UnreadableIsByUser(net, s, me, name, text);
    var (e, e') := (L.Request(me, Offer(s, me, name, text), 0, []), L.Request(me, LIST_REQUEST, 0, order));
    RunStarts(net, s, page, []);
    OfferThrows(net, page, s, me, name, text);
    ListIsAnswered(net, page, s, me, order);
    VerdictsSnoc(net, s, [], e);
    assert [] + [e] == [e];
    VerdictsSnoc(net, s, [e], e');
    assert [e] + [e'] == [e, e'];
  }

  /** A frame that follows, in the same receive, one whose handler throws is left in the buffer, undispatched. */
  lemma FrameAfterThrowWaits(page: CodePage, h: Handler, frame: octets, next: octets)
    requires Parse(page, frame).Complete? && Parse(page, frame).consumed == |frame|
    requires h([Parse(page, frame).packet]).Threw?
    ensures var s := Receive(page, h, START, frame + next);
      && s == Session([Parse(page, frame).packet], next, Open)
      && (Stalled(page, s) <==> !Parse(page, next).Partial?)
  {
    hide Parse;
    FrameDispatched(page, h, START, Parse(page, frame).packet, frame, next);
    assert [] + [Parse(page, frame).packet] == [Parse(page, frame).packet];
  }

  /** A stream on which the server's own handlers make the split matter: an offer and a request for the rooms, in one
      receive or in two. In one, the request is not dispatched. */
  lemma SplitMatters(net: L.Net, page: CodePage, s: L.Lobby, me: L.Id, name: octets, text: octets, order: seq<L.Id>)
    requires Unreadable(net, s, me, name, text) && L.Enumerates(order, s.rooms.Keys)
    ensures var offer := Offer(s, me, name, text);
      var (f, g) := (Print(page, offer), Print(page, LIST_REQUEST));
      var events := [L.Request(me, offer, 0, []), L.Request(me, LIST_REQUEST, 0, order)];
      && L.ValidRun(net, s, events)
      && var h := HandlerOf(VerdictsOf(net, s, events));
         && SplitsOf(f + g, [f + g], [f, g])
         && ReceiveAll(page, h, START, [f + g]) == Session([offer], g, Open)
         && ReceiveAll(page, h, START, [f, g]) == Session([offer, LIST_REQUEST], [], Open)
         && !ThrowsOnlyAtEnd(page, h, f + g)
  {
    hide Unreadable, Offer, L.Apply, L.Enabled, L.HandlePacket, L.Final, L.ValidRun, VerdictsOf, L.Enumerates, Parse,
      Print, Receive, ReceiveAll, Stalled, ThrowsOnlyAtEnd, Joined;
    UnreadableIsByUser(net, s, me, name, text);
    var offer := Offer(s, me, name, text);
    var (f, g) := (Print(page, offer), Print(page, LIST_REQUEST));
    var events := [L.Request(me, offer, 0, []), L.Request(me, LIST_REQUEST, 0, order)];
    OfferThrows(net, page, s, me, name, text);
    ListIsAnswered(net, page, s, me, order);
    OfferThenList(net, page, s, me, name, text, order);
    var h := HandlerOf(VerdictsOf(net, s, events));
    FrameBound(page, g);
    OneReceive(page, h, START, f + g);
    FrameAfterThrowWaits(page, h, f, g);
    TwoReceives(page, h, START, f, g);
    FrameAfterThrowWaits(page, h, f, []);
    assert f + [] == f && [] + g == g + [] == g && [offer] + [LIST_REQUEST] == [offer, LIST_REQUEST];
    FrameDispatched(page, h, Session([offer], [], Open), LIST_REQUEST, g, []);
    StallsExactly(page, h, f + g);
  }
}
