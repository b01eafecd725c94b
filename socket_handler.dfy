/**
 * The socket.io server of the live-match companion: per-match viewer
 * presence (`matchRooms`) and fan-out of presence, chat and match events to
 * the room `match:<matchId>`.
 *
 * The transport is an outbox of deliveries.  `io.to(room).emit(event, p)`
 * appends one delivery of `p` to every connection that socket.io has in
 * `room` at that moment, in an order the model does not fix.
 */
module SocketHandler {
  import opened JsValues

  type SocketId = string
  type MatchId = string

  /** One message pushed to one connection. */
  datatype Delivery = Delivery(to: SocketId, event: string, payload: Json)

  /** The socket.io room of a match. */
  function RoomName(m: MatchId): string
  {
    "match:" + m
  }

  /** Distinct match ids never share a room. */
  lemma RoomNameInjective(a: MatchId, b: MatchId)
    ensures RoomName(a) == RoomName(b) <==> a == b
  {
    if RoomName(a) == RoomName(b) {
      assert a == RoomName(a)[6..];
      assert b == RoomName(b)[6..];
    }
  }

  /** Every room name starting with `match:` is the room of the match id after the prefix. */
  lemma RoomNameOnto(name: string)
    requires |name| >= 6 && name[..6] == "match:"
    ensures RoomName(name[6..]) == name
  {
  }

  /** The `viewers:update` payload `{matchId, count}`. */
  function ViewersPayload(m: MatchId, count: nat): Json
  {
    Obj(map["matchId" := Str(m), "count" := Num(count)])
  }

  /** A presence payload names its match and its count. */
  lemma ViewersPayloadInjective(m1: MatchId, c1: nat, m2: MatchId, c2: nat)
    ensures ViewersPayload(m1, c1) == ViewersPayload(m2, c2) <==> m1 == m2 && c1 == c2
  {
    if ViewersPayload(m1, c1) == ViewersPayload(m2, c2) {
      assert ViewersPayload(m1, c1).fields["matchId"] == Str(m1);
      assert ViewersPayload(m1, c1).fields["count"] == Num(c1);
    }
  }

  /**
   * The deliveries of one `emit` to a room whose members are `members`:
   * exactly one copy of `payload` under `event` to each member, nothing to
   * anybody else.
   */
  function Fanout(members: set<SocketId>, event: string, payload: Json): multiset<Delivery>
  {
    multiset(set s | s in members :: Delivery(s, event, payload))
  }

  /** Exactly one copy to each member under the given event, none to anybody else. */
  lemma FanoutCount(members: set<SocketId>, event: string, payload: Json, d: Delivery)
    ensures Fanout(members, event, payload)[d]
         == if d.to in members && d.event == event && d.payload == payload then 1 else 0
  {
    if d.to in members && d.event == event && d.payload == payload {
      assert d in (set s | s in members :: Delivery(s, event, payload));
    }
  }

  /** Adding one member to a room adds exactly that member's delivery. */
  lemma FanoutAdd(members: set<SocketId>, s: SocketId, event: string, payload: Json)
    requires s !in members
    ensures Fanout(members + {s}, event, payload)
         == Fanout(members, event, payload) + multiset{Delivery(s, event, payload)}
  {
    var lhs := Fanout(members + {s}, event, payload);
    var rhs := Fanout(members, event, payload) + multiset{Delivery(s, event, payload)};
    forall d ensures lhs[d] == rhs[d] {
      FanoutCount(members + {s}, event, payload, d);
      FanoutCount(members, event, payload, d);
    }
  }

  /** The set of members of `name` in a room table; absent rooms are empty. */
  function MembersOf(rooms: map<string, set<SocketId>>, name: string): set<SocketId>
  {
    if name in rooms then rooms[name] else {}
  }

  /** `matchRooms.get(m)` made present, then `.add(s)`. */
  function AddViewer(vs: map<MatchId, set<SocketId>>, m: MatchId, s: SocketId): (r: map<MatchId, set<SocketId>>)
    ensures r.Keys == vs.Keys + {m}
    ensures MembersOf(r, m) == MembersOf(vs, m) + {s}
    ensures forall m' :: m' != m ==> MembersOf(r, m') == MembersOf(vs, m')
  {
    vs[m := MembersOf(vs, m) + {s}]
  }

  /** `matchRooms.get(m)?.delete(s)`: no entry is created, none is deleted. */
  function RemoveViewer(vs: map<MatchId, set<SocketId>>, m: MatchId, s: SocketId): (r: map<MatchId, set<SocketId>>)
    ensures r.Keys == vs.Keys
    ensures MembersOf(r, m) == MembersOf(vs, m) - {s}
    ensures forall m' :: m' != m ==> MembersOf(r, m') == MembersOf(vs, m')
  {
    if m in vs then vs[m := vs[m] - {s}] else vs
  }

  /** Every set of the table without `s`; the keys stay, even of sets that become empty. */
  function RemoveEverywhere(rooms: map<string, set<SocketId>>, s: SocketId): (r: map<string, set<SocketId>>)
    ensures r.Keys == rooms.Keys
    ensures forall k :: MembersOf(r, k) == MembersOf(rooms, k) - {s}
  {
    map k | k in rooms :: rooms[k] - {s}
  }

  /** The table with `s` taken out of the sets of the rooms listed in `done`. */
  function RemoveAmong(vs: map<MatchId, set<SocketId>>, done: seq<MatchId>, s: SocketId): map<MatchId, set<SocketId>>
  {
    map k | k in vs :: if k in done then vs[k] - {s} else vs[k]
  }

  /** Taking `s` out of one more room of the visiting order. */
  lemma RemoveAmongStep(vs: map<MatchId, set<SocketId>>, rooms: seq<MatchId>, i: nat, s: SocketId)
    requires i < |rooms| && rooms[i] in vs
    ensures RemoveAmong(vs, rooms[..i + 1], s) == RemoveAmong(vs, rooms[..i], s)[rooms[i] := vs[rooms[i]] - {s}]
  {
    assert forall k :: k in rooms[..i + 1] <==> k in rooms[..i] || k == rooms[i];
  }

  /** Before the visit no set has lost `s`. */
  lemma RemoveAmongNone(vs: map<MatchId, set<SocketId>>, s: SocketId)
    ensures RemoveAmong(vs, [], s) == vs
  {
  }

  /** A visit of every key takes `s` out of every set. */
  lemma RemoveAmongAll(vs: map<MatchId, set<SocketId>>, rooms: seq<MatchId>, s: SocketId)
    requires forall k :: k in vs ==> k in rooms
    ensures RemoveAmong(vs, rooms, s) == RemoveEverywhere(vs, s)
  {
  }

  /** Joining twice is joining once: membership is a set. */
  lemma JoinIdempotent(vs: map<MatchId, set<SocketId>>, m: MatchId, s: SocketId)
    ensures AddViewer(AddViewer(vs, m, s), m, s) == AddViewer(vs, m, s)
  {
  }

  /** A join grows the room by one exactly when the socket was not yet in it. */
  lemma JoinCount(vs: map<MatchId, set<SocketId>>, m: MatchId, s: SocketId)
    ensures |MembersOf(AddViewer(vs, m, s), m)| == |MembersOf(vs, m)| + (if s in MembersOf(vs, m) then 0 else 1)
  {
    if s in MembersOf(vs, m) {
      assert MembersOf(vs, m) + {s} == MembersOf(vs, m);
    }
  }

  /** A leave shrinks the room by one exactly when the socket was in it. */
  lemma LeaveCount(vs: map<MatchId, set<SocketId>>, m: MatchId, s: SocketId)
    ensures |MembersOf(RemoveViewer(vs, m, s), m)| == |MembersOf(vs, m)| - (if s in MembersOf(vs, m) then 1 else 0)
  {
  }

  /** Leaving after joining restores the room (when the socket was not in it before). */
  lemma JoinThenLeave(vs: map<MatchId, set<SocketId>>, m: MatchId, s: SocketId)
    requires s !in MembersOf(vs, m)
    ensures MembersOf(RemoveViewer(AddViewer(vs, m, s), m, s), m) == MembersOf(vs, m)
  {
  }

  /**
   * What the sweep sends for the entry `m` of `matchRooms`: if its set held
   * `s`, one presence update with the decremented size to each remaining
   * member; otherwise nothing.
   */
  function SweepBatch(vs: map<MatchId, set<SocketId>>, m: MatchId, s: SocketId): multiset<Delivery>
  {
    var rest := MembersOf(vs, m) - {s};
    if s in MembersOf(vs, m) then Fanout(rest, "viewers:update", ViewersPayload(m, |rest|))
    else multiset{}
  }

  /**
   * The presence deliveries of a disconnect sweep of `s` over the rooms
   * `rooms`, visited in order.
   */
  function SweepDeliveries(vs: map<MatchId, set<SocketId>>, rooms: seq<MatchId>, s: SocketId): multiset<Delivery>
  {
    if rooms == [] then multiset{}
    else SweepDeliveries(vs, rooms[..|rooms| - 1], s) + SweepBatch(vs, rooms[|rooms| - 1], s)
  }

  /** What a log holds past position `n` grows by what was appended to it. */
  lemma SliceGrows(before: seq<Delivery>, after: seq<Delivery>, n: nat)
    requires n <= |before| <= |after| && after[..|before|] == before
    ensures multiset(after[n..]) == multiset(before[n..]) + multiset(after[|before|..])
  {
    assert after[n..] == before[n..] + after[|before|..];
  }

  /** The deliveries of a sweep grow by those of the room visited next. */
  lemma SweepAppend(sent: multiset<Delivery>, batch: multiset<Delivery>, vs: map<MatchId, set<SocketId>>,
                    rooms: seq<MatchId>, i: nat, s: SocketId)
    requires i < |rooms|
    requires sent == SweepDeliveries(vs, rooms[..i], s)
    requires batch == SweepBatch(vs, rooms[i], s)
    ensures sent + batch == SweepDeliveries(vs, rooms[..i + 1], s)
  {
    assert rooms[..i + 1][..i] == rooms[..i];
  }

  /**
   * A sweep over distinct rooms sends one presence update per affected room
   * to each of its remaining members, with the decremented size, and nothing
   * else: no other event, no room outside the sweep, no room that did not
   * hold `s`, no other count.
   */
  lemma {:induction false} SweepExactlyOnce(vs: map<MatchId, set<SocketId>>, rooms: seq<MatchId>, s: SocketId, d: Delivery)
    requires forall i, j :: 0 <= i < j < |rooms| ==> rooms[i] != rooms[j]
    ensures SweepDeliveries(vs, rooms, s)[d] ==
      if exists m :: m in rooms && s in MembersOf(vs, m) && d.to in MembersOf(vs, m) - {s}
                     && d.event == "viewers:update" && d.payload == ViewersPayload(m, |MembersOf(vs, m) - {s}|)
      then 1 else 0
  {
    if rooms != [] {
      var init := rooms[..|rooms| - 1];
      var last := rooms[|rooms| - 1];
      SweepExactlyOnce(vs, init, s, d);
      FanoutCount(MembersOf(vs, last) - {s}, "viewers:update", ViewersPayload(last, |MembersOf(vs, last) - {s}|), d);
      forall m | m in init
        ensures d.payload == ViewersPayload(m, |MembersOf(vs, m) - {s}|)
            ==> d.payload != ViewersPayload(last, |MembersOf(vs, last) - {s}|)
      {
        ViewersPayloadInjective(m, |MembersOf(vs, m) - {s}|, last, |MembersOf(vs, last) - {s}|);
      }
      assert forall m :: m in rooms <==> m in init || m == last;
    }
  }

  /** socket.io's room `match:m` holds exactly the viewers of `m`, for every `m`. */
  ghost predicate Agree(io: map<string, set<SocketId>>, vs: map<MatchId, set<SocketId>>)
  {
    forall m {:trigger MembersOf(io, RoomName(m))} :: MembersOf(io, RoomName(m)) == MembersOf(vs, m)
  }

  /** `order` lists the keys of `vs`, once each. */
  ghost predicate Listed(vs: map<MatchId, set<SocketId>>, order: seq<MatchId>)
  {
    && (forall i, j :: 0 <= i < j < |order| ==> order[i] != order[j])
    && (forall m :: m in vs <==> m in order)
  }

  /** Writing the room of one match leaves the room of every other match as it was. */
  lemma OtherRoomUnchanged(io: map<string, set<SocketId>>, m: MatchId, m': MatchId, x: set<SocketId>)
    requires m' != m
    ensures MembersOf(io[RoomName(m) := x], RoomName(m')) == MembersOf(io, RoomName(m'))
  {
    RoomNameInjective(m', m);
  }

  /** A join updates both structures alike. */
  lemma JoinAgrees(io: map<string, set<SocketId>>, vs: map<MatchId, set<SocketId>>, m: MatchId, s: SocketId)
    requires Agree(io, vs)
    ensures Agree(io[RoomName(m) := MembersOf(io, RoomName(m)) + {s}], AddViewer(vs, m, s))
  {
    var io' := io[RoomName(m) := MembersOf(io, RoomName(m)) + {s}];
    var vs' := AddViewer(vs, m, s);
    forall m' ensures MembersOf(io', RoomName(m')) == MembersOf(vs', m') {
      if m' != m {
        OtherRoomUnchanged(io, m, m', MembersOf(io, RoomName(m)) + {s});
      }
    }
  }

  /** A join lists a new key at the end of the order. */
  lemma JoinListed(vs: map<MatchId, set<SocketId>>, order: seq<MatchId>, m: MatchId, s: SocketId)
    requires Listed(vs, order)
    ensures Listed(AddViewer(vs, m, s), if m in vs then order else order + [m])
  {
  }

  /** A leave updates both structures alike. */
  lemma LeaveAgrees(io: map<string, set<SocketId>>, vs: map<MatchId, set<SocketId>>, m: MatchId, s: SocketId)
    requires Agree(io, vs)
    ensures Agree(if RoomName(m) in io then io[RoomName(m) := io[RoomName(m)] - {s}] else io, RemoveViewer(vs, m, s))
  {
    var io' := if RoomName(m) in io then io[RoomName(m) := io[RoomName(m)] - {s}] else io;
    forall m' ensures MembersOf(io', RoomName(m')) == MembersOf(RemoveViewer(vs, m, s), m') {
      assert MembersOf(io, RoomName(m')) == MembersOf(vs, m');
      if m' != m && RoomName(m) in io {
        OtherRoomUnchanged(io, m, m', io[RoomName(m)] - {s});
      }
    }
  }

  /** A disconnect takes the socket out of both structures alike. */
  lemma DisconnectAgrees(io: map<string, set<SocketId>>, vs: map<MatchId, set<SocketId>>, s: SocketId)
    requires Agree(io, vs)
    ensures Agree(RemoveEverywhere(io, s), RemoveEverywhere(vs, s))
  {
    forall m ensures MembersOf(RemoveEverywhere(io, s), RoomName(m)) == MembersOf(RemoveEverywhere(vs, s), m) {
      assert MembersOf(io, RoomName(m)) == MembersOf(vs, m);
    }
  }

  /**
   * The server state: socket.io's own room table, the `matchRooms` map, the
   * order in which `matchRooms` received its keys (the order `forEach`
   * visits them), and every delivery pushed so far.
   */
  class MatchServer {
    /** socket.io's rooms: room name to the connections in it. */
    var ioRooms: map<string, set<SocketId>>
    /** `matchRooms`: match id to the ids of the sockets viewing it. */
    var viewers: map<MatchId, set<SocketId>>
    /** The keys of `matchRooms` in insertion order; the source never deletes one. */
    var order: seq<MatchId>
    /** Every delivery pushed to a connection so far. */
    var outbox: seq<Delivery>

    /**
     * `order` lists the keys of `matchRooms` once each, and the two
     * membership structures agree: the room `match:m` holds exactly the
     * viewers of `m`.
     */
    ghost predicate Valid()
      reads this`ioRooms, this`viewers, this`order
    {
      Listed(viewers, order) && Agree(ioRooms, viewers)
    }

    /** The connections socket.io has in room `name`. */
    function IoMembers(name: string): set<SocketId>
      reads this`ioRooms
    {
      MembersOf(ioRooms, name)
    }

    /** `matchRooms.get(m)`, read as empty when absent. */
    function Viewers(m: MatchId): set<SocketId>
      reads this`viewers
    {
      MembersOf(viewers, m)
    }

    /** The count a `viewers:update` reports: `matchRooms.get(m)?.size || 0`. */
    function ViewerCount(m: MatchId): (n: nat)
      reads this`viewers
      ensures m !in viewers ==> n == 0
      ensures m in viewers ==> n == |viewers[m]|
    {
      |Viewers(m)|
    }

    /** The deliveries pushed since the outbox had `n` entries. */
    function SentSince(n: nat): seq<Delivery>
      reads this`outbox
      requires n <= |outbox|
    {
      outbox[n..]
    }

    /** A server with no rooms and nothing sent. */
    constructor ()
      ensures Valid()
      ensures ioRooms == map[] && viewers == map[] && order == [] && outbox == []
    {
      ioRooms, viewers, order, outbox := map[], map[], [], [];
    }

    /** `io.to(room).emit(event, payload)`: one delivery to each connection in `room`. */
    method Emit(room: string, event: string, payload: Json)
      modifies this`outbox
      ensures |outbox| >= |old(outbox)| && outbox[..|old(outbox)|] == old(outbox)
      ensures multiset(SentSince(|old(outbox)|)) == Fanout(IoMembers(room), event, payload)
    {
      var members := IoMembers(room);
      var pending := members;
      var batch: seq<Delivery> := [];
      while pending != {}
        invariant outbox == old(outbox)
        invariant pending <= members
        invariant multiset(batch) == Fanout(members - pending, event, payload)
        decreases |pending|
      {
        var t :| t in pending;
        FanoutAdd(members - pending, t, event, payload);
        assert members - (pending - {t}) == (members - pending) + {t};
        batch := batch + [Delivery(t, event, payload)];
        pending := pending - {t};
      }
      assert members - pending == members;
      outbox := outbox + batch;
      assert SentSince(|old(outbox)|) == batch;
    }

    /**
     * The membership half of `match:join`: socket.io puts the socket in the
     * room of the match, and the entry of `matchRooms` is created if absent
     * and the socket added to it.
     */
    method Admit(s: SocketId, m: MatchId)
      requires Valid()
      modifies this`ioRooms, this`viewers, this`order
      ensures Valid()
      ensures ioRooms == old(ioRooms)[RoomName(m) := MembersOf(old(ioRooms), RoomName(m)) + {s}]
      ensures viewers == AddViewer(old(viewers), m, s)
      ensures order == if m in old(viewers) then old(order) else old(order) + [m]
    {
      JoinAgrees(ioRooms, viewers, m, s);
      JoinListed(viewers, order, m, s);
      ioRooms, viewers, order :=
        ioRooms[RoomName(m) := MembersOf(ioRooms, RoomName(m)) + {s}],
        AddViewer(viewers, m, s),
        if m in viewers then order else order + [m];
    }

    /**
     * `match:join {matchId}`: socket.io puts the socket in the room, the
     * entry of `matchRooms` is created if absent and the socket added, then
     * the room, joiner included, is told the new count.
     */
    method Join(s: SocketId, m: MatchId)
      requires Valid()
      modifies this
      ensures Valid()
      ensures ioRooms == old(ioRooms)[RoomName(m) := MembersOf(old(ioRooms), RoomName(m)) + {s}]
      ensures viewers == AddViewer(old(viewers), m, s)
      ensures order == if m in old(viewers) then old(order) else old(order) + [m]
      ensures s in Viewers(m)
      ensures |outbox| >= |old(outbox)| && outbox[..|old(outbox)|] == old(outbox)
      ensures multiset(SentSince(|old(outbox)|))
           == Fanout(Viewers(m), "viewers:update", ViewersPayload(m, ViewerCount(m)))
    {
      Admit(s, m);
      assert IoMembers(RoomName(m)) == Viewers(m);
      Emit(RoomName(m), "viewers:update", ViewersPayload(m, |viewers[m]|));
    }

    /**
     * `match:leave {matchId}`: socket.io takes the socket out of the room,
     * `matchRooms.get(m)?.delete(s)` drops it from the set if the set exists
     * (leaving the set in place even when it becomes empty), and the
     * remaining members are told the new count, 0 for an unknown match.
     */
    method Leave(s: SocketId, m: MatchId)
      requires Valid()
      modifies this
      ensures Valid()
      ensures ioRooms == if RoomName(m) in old(ioRooms)
                         then old(ioRooms)[RoomName(m) := old(ioRooms)[RoomName(m)] - {s}]
                         else old(ioRooms)
      ensures viewers == RemoveViewer(old(viewers), m, s)
      ensures order == old(order)
      ensures s !in Viewers(m)
      ensures |outbox| >= |old(outbox)| && outbox[..|old(outbox)|] == old(outbox)
      ensures multiset(SentSince(|old(outbox)|))
           == Fanout(Viewers(m), "viewers:update", ViewersPayload(m, ViewerCount(m)))
    {
      LeaveAgrees(ioRooms, viewers, m, s);
      if RoomName(m) in ioRooms {
        ioRooms := ioRooms[RoomName(m) := ioRooms[RoomName(m)] - {s}];
      }
      if m in viewers {
        viewers := viewers[m := viewers[m] - {s}];
      }
      var count := if m in viewers then |viewers[m]| else 0;
      assert IoMembers(RoomName(m)) == Viewers(m);
      Emit(RoomName(m), "viewers:update", ViewersPayload(m, count));
    }

    /**
     * One step of the disconnect sweep, the `forEach` callback for the entry
     * `m`: if its set holds `s`, delete `s` and tell the room the new size.
     * socket.io has already taken `s` out of the room.
     */
    method SweepRoom(s: SocketId, m: MatchId)
      requires m in viewers
      requires IoMembers(RoomName(m)) == viewers[m] - {s}
      modifies this`viewers, this`outbox
      ensures viewers == old(viewers)[m := old(viewers)[m] - {s}]
      ensures |outbox| >= |old(outbox)| && outbox[..|old(outbox)|] == old(outbox)
      ensures multiset(SentSince(|old(outbox)|)) == SweepBatch(old(viewers), m, s)
    {
      if s in viewers[m] {
        viewers := viewers[m := viewers[m] - {s}];
        Emit(RoomName(m), "viewers:update", ViewersPayload(m, |viewers[m]|));
      } else {
        assert viewers[m] - {s} == viewers[m];
      }
    }

    /**
     * `disconnect`: socket.io has already taken the socket out of every
     * room; the handler then visits the entries of `matchRooms` in insertion
     * order and, for each set holding the socket, deletes it and tells the
     * room the new size.
     */
    method Disconnect(s: SocketId)
      requires Valid()
      modifies this
      ensures Valid()
      ensures ioRooms == RemoveEverywhere(old(ioRooms), s)
      ensures viewers == RemoveEverywhere(old(viewers), s)
      ensures order == old(order)
      ensures forall m :: s !in Viewers(m)
      ensures |outbox| >= |old(outbox)| && outbox[..|old(outbox)|] == old(outbox)
      ensures multiset(SentSince(|old(outbox)|)) == SweepDeliveries(old(viewers), order, s)
    {
      DisconnectAgrees(ioRooms, viewers, s);
      ghost var vs0 := viewers;
      ioRooms := RemoveEverywhere(ioRooms, s);
      assert forall i :: 0 <= i < |order| ==> IoMembers(RoomName(order[i])) == viewers[order[i]] - {s} by {
        forall i | 0 <= i < |order| ensures IoMembers(RoomName(order[i])) == viewers[order[i]] - {s} {
          assert MembersOf(ioRooms, RoomName(order[i])) == MembersOf(RemoveEverywhere(vs0, s), order[i]);
        }
      }
      SweepAll(s);
    }

    /**
     * The `forEach` over `matchRooms` of a disconnect, once socket.io has
     * taken `s` out of every room.
     */
    method SweepAll(s: SocketId)
      requires forall i, j :: 0 <= i < j < |order| ==> order[i] != order[j]
      requires forall m :: m in viewers <==> m in order
      requires forall i :: 0 <= i < |order| ==> IoMembers(RoomName(order[i])) == viewers[order[i]] - {s}
      modifies this`viewers, this`outbox
      ensures viewers == RemoveEverywhere(old(viewers), s)
      ensures |outbox| >= |old(outbox)| && outbox[..|old(outbox)|] == old(outbox)
      ensures multiset(SentSince(|old(outbox)|)) == SweepDeliveries(old(viewers), order, s)
    {
      ghost var vs0, n := viewers, |outbox|;
      RemoveAmongNone(vs0, s);
      assert order[..0] == [];
      var i := 0;
      while i < |order|
        invariant 0 <= i <= |order|
        invariant viewers == RemoveAmong(vs0, order[..i], s)
        invariant |outbox| >= n && outbox[..n] == old(outbox)
        invariant multiset(outbox[n..]) == SweepDeliveries(vs0, order[..i], s)
      {
        var m := order[i];
        ghost var before, vb := outbox, viewers;
        RemoveAmongStep(vs0, order, i, s);
        assert m !in order[..i];
        SweepRoom(s, m);
        SliceGrows(before, outbox, n);
        assert MembersOf(vb, m) == MembersOf(vs0, m);
        SweepAppend(multiset(before[n..]), multiset(outbox[|before|..]), vs0, order, i, s);
        i := i + 1;
      }
      assert order[..i] == order;
      RemoveAmongAll(vs0, order, s);
    }

    /** The room `match:${data.matchId}` that the chat relays address. */
    static function RelayRoom(data: Json): string
    {
      "match:" + ToJsString(Get(data, "matchId"))
    }

    /**
     * `chat:send`: the payload goes out unchanged as `chat:message` to the
     * room of `data.matchId`.  Reading `matchId` of `null`/`undefined`
     * throws, and nothing is sent.
     */
    method ChatSend(data: Json)
      modifies this`outbox
      ensures |outbox| >= |old(outbox)| && outbox[..|old(outbox)|] == old(outbox)
      ensures Nullish(data) ==> outbox == old(outbox)
      ensures !Nullish(data) ==>
        multiset(SentSince(|old(outbox)|)) == Fanout(IoMembers(RelayRoom(data)), "chat:message", data)
      ensures !Nullish(data) && Valid() ==>
        multiset(SentSince(|old(outbox)|)) == Fanout(Viewers(ToJsString(Get(data, "matchId"))), "chat:message", data)
    {
      if !Nullish(data) {
        ghost var m := ToJsString(Get(data, "matchId"));
        assert RelayRoom(data) == RoomName(m);
        assert Valid() ==> MembersOf(ioRooms, RoomName(m)) == Viewers(m);
        Emit(RelayRoom(data), "chat:message", data);
      }
    }

    /** `chat:react`: as `chat:send`, under the event `chat:reaction`. */
    method ChatReact(data: Json)
      modifies this`outbox
      ensures |outbox| >= |old(outbox)| && outbox[..|old(outbox)|] == old(outbox)
      ensures Nullish(data) ==> outbox == old(outbox)
      ensures !Nullish(data) ==>
        multiset(SentSince(|old(outbox)|)) == Fanout(IoMembers(RelayRoom(data)), "chat:reaction", data)
      ensures !Nullish(data) && Valid() ==>
        multiset(SentSince(|old(outbox)|)) == Fanout(Viewers(ToJsString(Get(data, "matchId"))), "chat:reaction", data)
    {
      if !Nullish(data) {
        ghost var m := ToJsString(Get(data, "matchId"));
        assert RelayRoom(data) == RoomName(m);
        assert Valid() ==> MembersOf(ioRooms, RoomName(m)) == Viewers(m);
        Emit(RelayRoom(data), "chat:reaction", data);
      }
    }

    /** `broadcastMatchUpdate`: `update` as `match:update` to the viewers of `m`. */
    method BroadcastMatchUpdate(m: MatchId, update: Json)
      modifies this`outbox
      ensures |outbox| >= |old(outbox)| && outbox[..|old(outbox)|] == old(outbox)
      ensures multiset(SentSince(|old(outbox)|)) == Fanout(IoMembers(RoomName(m)), "match:update", update)
      ensures Valid() ==> multiset(SentSince(|old(outbox)|)) == Fanout(Viewers(m), "match:update", update)
    {
      Emit(RoomName(m), "match:update", update);
    }

    /** `broadcastScoreUpdate`: `scores` as `match:score` to the viewers of `m`. */
    method BroadcastScoreUpdate(m: MatchId, scores: Json)
      modifies this`outbox
      ensures |outbox| >= |old(outbox)| && outbox[..|old(outbox)|] == old(outbox)
      ensures multiset(SentSince(|old(outbox)|)) == Fanout(IoMembers(RoomName(m)), "match:score", scores)
      ensures Valid() ==> multiset(SentSince(|old(outbox)|)) == Fanout(Viewers(m), "match:score", scores)
    {
      Emit(RoomName(m), "match:score", scores);
    }

    /** `broadcastPlayerEvent`: `event` as `player:event` to the viewers of `m`. */
    method BroadcastPlayerEvent(m: MatchId, event: Json)
      modifies this`outbox
      ensures |outbox| >= |old(outbox)| && outbox[..|old(outbox)|] == old(outbox)
      ensures multiset(SentSince(|old(outbox)|)) == Fanout(IoMembers(RoomName(m)), "player:event", event)
      ensures Valid() ==> multiset(SentSince(|old(outbox)|)) == Fanout(Viewers(m), "player:event", event)
    {
      Emit(RoomName(m), "player:event", event);
    }
  }
}
