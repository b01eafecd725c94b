/**
 * The chat list of the live-chat component: the updaters its two socket
 * listeners hand to `setMessages`, and the payload it emits after a message
 * is stored.  Events arrive as untyped values.  A listener or updater that
 * reads a property of `null` or `undefined` throws; the model returns `None`
 * for that, and the list is then not replaced.
 */
module LiveChat {
  import opened Wrappers
  import opened JsValues
  import opened SocketHandler

  /** `data.matchId === matchId || data.message?.matchId === matchId`, for non-nullish `data`. */
  predicate ForMatch(data: Json, matchId: string)
  {
    StrictEquals(Get(data, "matchId"), Str(matchId))
    || StrictEquals(OptionalGet(Get(data, "message"), "matchId"), Str(matchId))
  }

  /** `data.message || data`: the item a matching event appends. */
  function Appended(data: Json): Json
  {
    if Truthy(Get(data, "message")) then Get(data, "message") else data
  }

  /**
   * `handleNewMessage`: an event for this match appends exactly one item at
   * the end and keeps the list before it; an event for another match keeps
   * the list.  A nullish event throws.
   */
  function HandleNewMessage(prev: seq<Json>, data: Json, matchId: string): (r: Option<seq<Json>>)
    ensures r.None? <==> Nullish(data)
    ensures r.Some? && ForMatch(data, matchId) ==>
      |r.value| == |prev| + 1 && r.value[..|prev|] == prev && r.value[|prev|] == Appended(data)
    ensures r.Some? && !ForMatch(data, matchId) ==> r.value == prev
  {
    if Nullish(data) then None
    else if ForMatch(data, matchId) then Some(prev + [Appended(data)])
    else Some(prev)
  }

  /** The appended item is `data.message` when that is truthy, `data` itself otherwise. */
  lemma AppendedItem(data: Json, msg: Json)
    requires data.Obj? && "message" in data.fields && data.fields["message"] == msg
    ensures Truthy(msg) ==> Appended(data) == msg
    ensures !Truthy(msg) ==> Appended(data) == data
  {
  }

  /** `msg._id === data.messageId`: the message the reaction event is about. */
  predicate IsReactionTarget(msg: Json, data: Json)
  {
    StrictEquals(Get(msg, "_id"), Get(data, "messageId"))
  }

  /** The map callback: `{ ...msg, reactions: data.reactions }` for the target, `msg` otherwise. */
  function UpdateReactions(msg: Json, data: Json): Json
  {
    if IsReactionTarget(msg, data) then SpreadWith(msg, "reactions", Get(data, "reactions")) else msg
  }

  /** Some element of the list is `null` or `undefined`. */
  predicate HasNullish(prev: seq<Json>)
  {
    exists i :: 0 <= i < |prev| && Nullish(prev[i])
  }

  /**
   * `handleReaction`'s updater, `prev.map(...)`.  The callback reads
   * `msg._id` and `data.messageId`, so it throws when it meets a nullish
   * element or is called at all with nullish `data`.
   */
  function HandleReaction(prev: seq<Json>, data: Json): (r: Option<seq<Json>>)
    ensures r.None? <==> prev != [] && (Nullish(data) || HasNullish(prev))
    ensures r.Some? ==> |r.value| == |prev|
    ensures r.Some? ==> forall i :: 0 <= i < |prev| && !IsReactionTarget(prev[i], data) ==> r.value[i] == prev[i]
    ensures r.Some? ==> forall i :: 0 <= i < |prev| && IsReactionTarget(prev[i], data) ==>
      && r.value[i].Obj?
      && Get(r.value[i], "reactions") == Get(data, "reactions")
      && (forall k :: k != "reactions" ==> Get(r.value[i], k) == Get(prev[i], k))
  {
    if prev == [] then Some([])
    else if Nullish(data) || HasNullish(prev) then None
    else Some(seq(|prev|, i requires 0 <= i < |prev| => UpdateReactions(prev[i], data)))
  }

  /** A reaction for an id no message carries leaves the list as it is. */
  lemma UnknownMessageIdUnchanged(prev: seq<Json>, data: Json)
    requires !Nullish(data) && !HasNullish(prev)
    requires forall i :: 0 <= i < |prev| ==> !IsReactionTarget(prev[i], data)
    ensures HandleReaction(prev, data) == Some(prev)
  {
    if prev != [] {
      var r := HandleReaction(prev, data).value;
      assert forall i :: 0 <= i < |prev| ==> r[i] == prev[i];
      assert r == prev;
    }
  }

  /** The same reaction event applied twice leaves what applying it once left. */
  lemma ReactionIdempotent(prev: seq<Json>, data: Json)
    requires HandleReaction(prev, data).Some?
    ensures HandleReaction(HandleReaction(prev, data).value, data) == HandleReaction(prev, data)
  {
    var once := HandleReaction(prev, data).value;
    if prev != [] {
      forall i | 0 <= i < |once|
        ensures !Nullish(once[i])
        ensures IsReactionTarget(once[i], data) <==> IsReactionTarget(prev[i], data)
        ensures UpdateReactions(once[i], data) == once[i]
      {
        if IsReactionTarget(prev[i], data) {
          assert Get(once[i], "_id") == Get(prev[i], "_id");
          var f := OwnFields(prev[i]);
          assert once[i] == Obj(f["reactions" := Get(data, "reactions")]);
        } else {
          assert once[i] == prev[i];
          assert !Nullish(prev[i]);
        }
      }
      assert !HasNullish(once);
      var twice := HandleReaction(once, data).value;
      assert forall i :: 0 <= i < |once| ==> twice[i] == UpdateReactions(once[i], data);
      assert forall i :: 0 <= i < |once| ==> twice[i] == once[i];
      assert twice == once;
    }
  }

  /** The `chat:send` payload `{ matchId, message }` the component emits after storing a message. */
  function SendPayload(matchId: string, message: Json): (r: Json)
    ensures !Nullish(r) && ForMatch(r, matchId)
    ensures Get(r, "message") == message && ToJsString(Get(r, "matchId")) == matchId
  {
    Obj(map["matchId" := Str(matchId), "message" := message])
  }

  /**
   * Round trip: the relay addresses the payload to the room of its match,
   * and every copy it delivers makes a client showing that match append
   * exactly the stored message (when the stored message is truthy).
   */
  lemma ChatRoundTrip(matchId: string, message: Json, members: set<SocketId>, prev: seq<Json>, d: Delivery)
    requires Truthy(message)
    requires d in Fanout(members, "chat:message", SendPayload(matchId, message))
    ensures MatchServer.RelayRoom(SendPayload(matchId, message)) == RoomName(matchId)
    ensures d.to in members && d.event == "chat:message"
    ensures HandleNewMessage(prev, d.payload, matchId) == Some(prev + [message])
  {
    FanoutCount(members, "chat:message", SendPayload(matchId, message), d);
    assert ForMatch(SendPayload(matchId, message), matchId);
  }

  /** A client showing another match ignores the relayed payload. */
  lemma ChatOtherMatchIgnores(matchId: string, other: string, message: Json, prev: seq<Json>)
    requires other != matchId
    requires !StrictEquals(OptionalGet(message, "matchId"), Str(other))
    ensures HandleNewMessage(prev, SendPayload(matchId, message), other) == Some(prev)
  {
  }
}
