# CourtSide live-match core, modelled in Dafny

CourtSide is a live-sports companion web app. Viewers open a basketball
match, see its score move, and chat in a room of that match. This project
models six parts of it:

- **Real-time server** (`socket_handler.dfy`, module `SocketHandler`).
  - The class `MatchServer` holds socket.io's own room table, `ioRooms`, and
    the viewer map `matchRooms`, `viewers`.
  - It also holds the insertion order of the map's keys, which is the order
    `forEach` visits them, and an outbox of every delivery pushed to a
    connection.
  - `Join`, `Leave` and `Disconnect` update both membership structures and
    emit a `viewers:update` with the new count.
  - The chat relays and the three broadcast helpers emit to the room
    `match:<id>`.
  - `Valid()` states that the two membership structures agree room by room,
    and that the key order lists every key of the viewer map exactly once.
    Every handler (`Join`, `Leave`, `Disconnect`, the relays and the
    broadcasts) keeps it. The sweep helpers `SweepRoom` and `SweepAll` run in
    the intermediate disconnect state, after socket.io has emptied the
    socket's rooms and before the viewer map is swept, where the two
    structures disagree; they neither need nor promise it.
- **Basketball feed rules** (`sports_api.dfy`, module `SportsApi`).
  - The status and period tables.
  - The live and scheduled game filters, and the match records they produce.
  - Score defaulting.
  - The nested loops that flatten per-team player statistics.
- **VAPID key conversion** (`push_notifications.dfy`), `urlBase64ToUint8Array`.
  - It pads the key and switches it from the URL-safe alphabet of section 5
    of RFC 4648 to the standard alphabet of section 4.
  - It decodes with `atob`, modelled as the forgiving-base64 decode of the
    WHATWG Infra standard.
  - A loop then copies the char codes into a fresh byte array.
- **Bearer header parsing** (`auth.dfy`), `getUserFromRequest`, with the
  token verifier as a parameter.
- **Client auth store** (`auth_store.dfy`): `user`, `token` and
  `isAuthenticated`, under `setAuth`, `logout` and `updateUser`. It is given
  both as a state machine on values and as a class whose methods follow it.
- **Chat list updaters** (`live_chat.dfy`): `handleNewMessage`,
  `handleReaction`, and the `chat:send` payload. They close the round trip
  send → relay → append.

Shared definitions:

- `js_values.dfy` holds the untyped JavaScript values these handlers read,
  with truthiness, `?.`, `===`, spread and template-literal conversion.
- `js_numbers.dfy` holds `Number.prototype.toString` on integers and
  ECMAScript `parseInt`.
- `wrappers.dfy` holds `Option` and `Result`.

A handler that reads a property of `null` or `undefined` throws. The model
returns `None`, or sends nothing, in that case.

Three facts about the server shape the model:

- An emptied viewer set is never removed from `matchRooms`
  (server/socket-handler.ts:50, :80).
- The server keeps no registry of connections and rejects no connection.
  A join from any socket succeeds.
- Presence updates go only to the connections in the room at emit time.
  A connection that leaves or disconnects is not told.

## Model

| member | source | states |
|---|---|---|
| SocketHandler.RoomNameInjective | server/socket-handler.ts:27 | two match ids share a room name exactly when they are the same id |
| SocketHandler.RoomNameOnto | server/socket-handler.ts:27 | every `match:`-prefixed room name is the room of the id after the prefix |
| SocketHandler.ViewersPayloadInjective | server/socket-handler.ts:37-40 | a presence payload determines its match id and its count |
| SocketHandler.FanoutCount | server/socket-handler.ts:37-40 | one emit to a room delivers exactly one copy under the event to each member and none to anybody else |
| SocketHandler.FanoutAdd | server/socket-handler.ts:37-40 | one more member in the room adds exactly that member's delivery |
| SocketHandler.AddViewer | server/socket-handler.ts:30-33 | the entry for the match exists afterwards and gains the socket; every other match's set is unchanged |
| SocketHandler.RemoveViewer | server/socket-handler.ts:50 | the socket leaves the match's set; no entry is created or deleted; every other match's set is unchanged |
| SocketHandler.RemoveEverywhere | server/socket-handler.ts:78-81 | every set loses the socket and keeps its key, even when it becomes empty |
| SocketHandler.RemoveAmongStep | server/socket-handler.ts:78-80 | each visited entry of the sweep loses the socket |
| SocketHandler.RemoveAmongNone | server/socket-handler.ts:78 | before the visit no set has changed |
| SocketHandler.RemoveAmongAll | server/socket-handler.ts:78-88 | once every key is visited, the socket is gone from every set |
| SocketHandler.JoinIdempotent | server/socket-handler.ts:30-33 | joining twice leaves the table that joining once leaves |
| SocketHandler.JoinCount | server/socket-handler.ts:33-36 | a join grows the count by one exactly when the socket was not yet a viewer |
| SocketHandler.LeaveCount | server/socket-handler.ts:50-51 | a leave shrinks the count by one exactly when the socket was a viewer |
| SocketHandler.JoinThenLeave | server/socket-handler.ts:33-50 | leave after join restores the room of a socket that was not in it |
| SocketHandler.SweepAppend | server/socket-handler.ts:78-88 | the sweep's deliveries grow by the batch of the entry visited next |
| SocketHandler.SweepExactlyOnce | server/socket-handler.ts:78-88 | over distinct rooms, a disconnect sweep delivers exactly one `viewers:update` with the decremented size to each remaining member of each room that held the socket, and nothing else |
| SocketHandler.OtherRoomUnchanged | server/socket-handler.ts:27 | writing one match's socket.io room leaves the room of every other match as it was |
| SocketHandler.JoinAgrees | server/socket-handler.ts:27-33 | a join applied to both structures keeps them agreeing room by room |
| SocketHandler.JoinListed | server/socket-handler.ts:30-31 | a join keeps the key order listing each key once, appending a new match at the end |
| SocketHandler.LeaveAgrees | server/socket-handler.ts:47-50 | a leave applied to both structures keeps them agreeing room by room |
| SocketHandler.DisconnectAgrees | server/socket-handler.ts:74-81 | removing the socket from every socket.io room and from every viewer set keeps the two structures agreeing |
| SocketHandler.MatchServer.ViewerCount | server/socket-handler.ts:51 | the count is the size of the match's set, and 0 for an unknown match |
| SocketHandler.MatchServer.constructor | server/socket-handler.ts:20 | the server starts with no rooms, no viewers and nothing sent |
| SocketHandler.MatchServer.Emit | server/socket-handler.ts:37-40 | the outbox keeps its prefix and gains exactly the fan-out to the room's current members |
| SocketHandler.MatchServer.Admit | server/socket-handler.ts:27-33 | the socket is added to the socket.io room and to the match's set, a new match is appended to the key order, and `Valid()` is kept |
| SocketHandler.MatchServer.Join | server/socket-handler.ts:26-43 | the socket is in the socket.io room and in the match's set; other rooms are unchanged; the room, joiner included, gets one update with the new set size; `Valid()` is kept |
| SocketHandler.MatchServer.Leave | server/socket-handler.ts:46-59 | the socket is out of both structures; an unknown match gets no entry and reports 0; the remaining members get one update with the post-removal size; `Valid()` is kept |
| SocketHandler.MatchServer.SweepRoom | server/socket-handler.ts:79-87 | the visited set loses the socket; an update with its new size goes out only if the set held the socket |
| SocketHandler.MatchServer.SweepAll | server/socket-handler.ts:78-88 | the loop over `matchRooms` leaves no set holding the socket and sends exactly the sweep's deliveries |
| SocketHandler.MatchServer.Disconnect | server/socket-handler.ts:74-89 | the socket is in no room and no set; the keys and their order are kept; the deliveries are those of the sweep; `Valid()` is kept |
| SocketHandler.MatchServer.ChatSend | server/socket-handler.ts:62-65 | the payload goes out unchanged as `chat:message`, once to each member of the room of `data.matchId` and to no one else; a nullish payload sends nothing |
| SocketHandler.MatchServer.ChatReact | server/socket-handler.ts:68-71 | as `ChatSend`, under `chat:reaction` |
| SocketHandler.MatchServer.BroadcastMatchUpdate | server/socket-handler.ts:100-102 | `match:update` once to each viewer of the match and to no one else |
| SocketHandler.MatchServer.BroadcastScoreUpdate | server/socket-handler.ts:107-109 | `match:score` once to each viewer of the match and to no one else |
| SocketHandler.MatchServer.BroadcastPlayerEvent | server/socket-handler.ts:114-116 | `player:event` once to each viewer of the match and to no one else |
| JsValues.OptionalGet | components/LiveChat.tsx:75 | `?.` on a nullish value is `undefined`; a defined result is always the value of an own key of an object |
| JsValues.SpreadWith | components/LiveChat.tsx:84 | the spread object has the new key set to the new value and every other key as before |
| JsValues.ToJsString | server/socket-handler.ts:64 | a string converts to itself in a template literal |
| JsValues.Get | components/LiveChat.tsx:75 | a property read finds the own keys of an object; every other read is `undefined` |
| JsValues.StrictEquals | components/LiveChat.tsx:84 | `===`; `StrictEqualsFacts` states how it compares |
| JsValues.StrictEqualsFacts | components/LiveChat.tsx:84 | `===` compares strings by text and numbers by value, is never true of an object or array, even with itself, and holds with `undefined` only for `undefined` |
| JsNumbers.NatToDecimal | lib/sports-api.ts:123 | the decimal text of a natural number is non-empty and all digits |
| JsNumbers.IntToString | lib/sports-api.ts:123 | the text of a number starts with `-` exactly when the number is negative |
| JsNumbers.TrimStart | lib/sports-api.ts:385 | `parseInt` drops exactly the leading whitespace |
| JsNumbers.DigitPrefixLength | lib/sports-api.ts:385 | the digit run `parseInt` reads is maximal |
| JsNumbers.ParseInt | lib/sports-api.ts:385-397 | a number comes back only when the text after leading whitespace starts with a sign or a digit, and a negative one only after `-`; `ParseIntRoundTrip` and `ParseIntNaN` characterise it further |
| JsNumbers.DecimalValue | lib/sports-api.ts:385 | the digits of a number's decimal text are worth that number |
| JsNumbers.DecimalDigitsParse | lib/sports-api.ts:385 | the decimal text of a natural number has no hex prefix and its leading digits are read as the number |
| JsNumbers.LeadingDigitsWhole | lib/sports-api.ts:385 | a non-empty run of digits is read whole |
| JsNumbers.ParseIntRoundTrip | lib/sports-api.ts:385-397 | `parseInt` reads back the decimal text of every integer |
| JsNumbers.ParseIntNaN | lib/sports-api.ts:385-397 | text starting with something other than whitespace, a sign or a digit parses to `NaN` |
| SportsApi.Or | lib/sports-api.ts:55 | the result is one of the two operands, and it is truthy exactly when either operand is |
| SportsApi.MapStatus | lib/sports-api.ts:34-56 | the status is always one of the six values the match status enum allows; a code outside the table gives `'scheduled'` |
| SportsApi.NotStartedIsScheduled | lib/sports-api.ts:37 | the table classifies `NS` as `'scheduled'` |
| SportsApi.CurrentPeriod | lib/sports-api.ts:61-73 | the period is non-empty exactly for Q1, Q2, HT, Q3, Q4, OT and BT |
| SportsApi.MapStatusIgnoresLongText | lib/sports-api.ts:34-55 | the `apiStatus` argument never changes the result |
| SportsApi.TablesAgreeAwayFromPrototype | lib/sports-api.ts:36-55 | for every code that is not an `Object.prototype` key, both lookups as written equal the corrected functions |
| SportsApi.MapStatusAsWritten | lib/sports-api.ts:34-56 | the lookup as written is always truthy; a string result is one of the six statuses; any other result comes from an inherited `Object.prototype` key that is not in the table |
| SportsApi.CurrentPeriodAsWritten | lib/sports-api.ts:61-73 | a string result is non-empty exactly for the in-play codes; any other result comes from an inherited `Object.prototype` key |
| SportsApi.MapStatusAsWrittenEscapesEnum | lib/sports-api.ts:55 | as written, `mapStatus(_, 'constructor')` is not a string, so it is outside the status enum |
| SportsApi.CurrentPeriodAsWrittenNotEmpty | lib/sports-api.ts:72 | as written, `getCurrentPeriod('toString')` is not `''` |
| SportsApi.LiveCodesAreInPlay | lib/sports-api.ts:114 | every code the live filter accepts is classified live or halftime and has a period |
| SportsApi.InterruptedIsLiveButNotListed | lib/sports-api.ts:49 | `INT` is classified live but is not in the live list and has no period |
| SportsApi.Filter | lib/sports-api.ts:115-117 | the filter keeps each element that passes, as often as it occurs, and drops the rest; its order is stated by `FilterSnoc` and `FilterAppend` |
| SportsApi.FilterKeeps | lib/sports-api.ts:115-117 | every element the filter keeps passes the test |
| SportsApi.FilterSnoc | lib/sports-api.ts:115-117 | an element appended to the input is kept, or not, at the end of the output |
| SportsApi.FilterAppend | lib/sports-api.ts:115-117 | filtering a concatenation concatenates the filtered parts, so the input order is kept |
| SportsApi.MapSeqAppend | lib/sports-api.ts:122 | mapping a concatenation concatenates the mapped parts, so the order is kept |
| SportsApi.Score | lib/sports-api.ts:130 | a truthy total is kept, any other becomes 0 |
| SportsApi.IsLiveGame | lib/sports-api.ts:114-117 | the live test; `LiveFilterExact` states it is an in-play code and a league named exactly `NBA` |
| SportsApi.IsScheduledGame | lib/sports-api.ts:225-227 | the scheduled test; `ScheduledFilterExact` states it is code `NS` and a league named exactly `NBA` |
| SportsApi.ToLiveMatch | lib/sports-api.ts:122-142 | the external id and both team ids read back as the feed's numeric ids, and both scores are present |
| SportsApi.ToUpcomingMatch | lib/sports-api.ts:231-248 | the external id and both team ids read back as the feed's numeric ids, and neither score is set |
| SportsApi.LiveMatches | lib/sports-api.ts:113-142 | there are at most as many live records as games; `LiveMatchesInPlay`, `LiveMatchesComplete` and `LiveMatchesAppend` state what they are and in which order |
| SportsApi.UpcomingMatches | lib/sports-api.ts:224-248 | there are at most as many upcoming records as games; `UpcomingMatchesScheduled`, `UpcomingMatchesComplete` and `UpcomingMatchesAppend` state what they are and in which order |
| SportsApi.LiveFilterExact | lib/sports-api.ts:114-117 | the live filter keeps exactly the NBA games with an in-play code, each as often as it occurs, and a game appended to the feed is kept, or not, at the end of the list |
| SportsApi.ScheduledFilterExact | lib/sports-api.ts:225-227 | the scheduled filter keeps exactly the NBA games with code `NS`, each as often as it occurs, and a game appended to the feed is kept, or not, at the end of the list |
| SportsApi.LiveMatchesInPlay | lib/sports-api.ts:122-142 | every live record is an NBA game classified live or halftime, with a non-empty period and both scores present |
| SportsApi.LiveRecordInPlay | lib/sports-api.ts:122-142 | the record of a game the live filter accepts is classified live or halftime, is in the NBA, has a non-empty period and both scores |
| SportsApi.UpcomingMatchesScheduled | lib/sports-api.ts:231-248 | every upcoming record is an NBA game stamped `'scheduled'`, which is what the table gives `NS`, with no period |
| SportsApi.UpcomingRecordScheduled | lib/sports-api.ts:231-248 | the record of a game the scheduled filter accepts is stamped `'scheduled'`, is in the NBA, and has no period |
| SportsApi.LiveMatchesAppend | lib/sports-api.ts:113-142 | the live records of two game lists in a row are the records of the first followed by those of the second, so the feed order is kept |
| SportsApi.UpcomingMatchesAppend | lib/sports-api.ts:224-248 | the same for the upcoming records |
| SportsApi.LiveMatchesComplete | lib/sports-api.ts:113-142 | every in-play NBA game of the feed has its record in the live list |
| SportsApi.UpcomingMatchesComplete | lib/sports-api.ts:224-248 | every not-started NBA game of the feed has its record in the upcoming list |
| SportsApi.LiveScoreDefault | lib/sports-api.ts:130-136 | a missing or falsy team total is reported as 0 and any other total unchanged |
| SportsApi.Stat | lib/sports-api.ts:385-397 | `parseInt(raw) or 0` by the kind of value; `StatIsParseInt` states it equals `parseInt` of the text of the value, 0 for `NaN` |
| SportsApi.StatIsParseInt | lib/sports-api.ts:385-397 | each statistic is `parseInt` of the text of the raw value, and 0 for `NaN` |
| SportsApi.StatReadsDecimalText | lib/sports-api.ts:385 | a statistic sent as decimal text is read as its number |
| SportsApi.PlayerId | lib/sports-api.ts:381 | a nullish id falls back to the name; a numeric id becomes its decimal text |
| SportsApi.IsStarter | lib/sports-api.ts:400 | the starter test; `MissingPositionCountsAsStarter` and `BenchPositions` state which positions pass |
| SportsApi.ToPlayerStat | lib/sports-api.ts:380-401 | the record pushed for one player; `FlattenTeamFields`, `StatIsParseInt` and `PlayerId` state its fields |
| SportsApi.Flatten | lib/sports-api.ts:373-405 | the flattened statistics; `FlattenLength`, `FlattenAt` and `FlattenStep` state their length, order and contents |
| SportsApi.FlattenStep | lib/sports-api.ts:375-403 | each further team appends all of its players' records at the end |
| SportsApi.FlattenLength | lib/sports-api.ts:373-403 | there is one record per player over all team entries |
| SportsApi.FlattenAt | lib/sports-api.ts:373-403 | in team-then-player order, player `j` of team `i` sits after the players of the teams before it |
| SportsApi.FlattenTeamFields | lib/sports-api.ts:376-384 | each record carries the id and the name of the team it was listed under, and its player's name |
| SportsApi.MissingPositionCountsAsStarter | lib/sports-api.ts:399-400 | a missing position is recorded as `''` yet counts as a starter |
| SportsApi.BenchPositions | lib/sports-api.ts:400 | a position of `''` or `'DNP'` is never a starter |
| SportsApi.PushTeam | lib/sports-api.ts:379-402 | the inner loop appends exactly the team's records, in player order |
| SportsApi.FlattenPlayerStats | lib/sports-api.ts:373-405 | the nested loops build exactly the flattened statistics, one record per player |
| PushNotifications.Padding | lib/push-notifications.ts:22 | the padding is 0 to 3 characters, makes the length a multiple of four, and is empty exactly when the length already is one |
| PushNotifications.Repeat | lib/push-notifications.ts:22 | `repeat` gives `n` copies of the character |
| PushNotifications.ToStandardAlphabet | lib/push-notifications.ts:23 | the result has no `-` or `_`, has the same length, maps `-` to `+` and `_` to `/`, and keeps every other character |
| PushNotifications.Normalize | lib/push-notifications.ts:22-23 | the text handed to `atob` has a length that is a multiple of four, at most three longer than the key |
| PushNotifications.StripWhitespace | lib/push-notifications.ts:25 | the characters `atob` keeps are exactly those that are not ASCII whitespace; order and multiplicity are stated by `StripWhitespaceAppend` |
| PushNotifications.StripWhitespaceSnoc | lib/push-notifications.ts:25 | one more character is dropped when it is whitespace and kept at the end otherwise |
| PushNotifications.StripWhitespaceAppend | lib/push-notifications.ts:25 | removing whitespace from a concatenation concatenates the parts, so the other characters keep their order and their count |
| PushNotifications.SextetValue | lib/push-notifications.ts:25 | a standard-alphabet character has a value below 64 |
| PushNotifications.DecodeSextets | lib/push-notifications.ts:25 | four sextets give three bytes, and a final two or three give one or two |
| PushNotifications.StripPadding | lib/push-notifications.ts:25 | at most two `=` come off the end |
| PushNotifications.Atob | lib/push-notifications.ts:25 | a successful decode is a binary string, with every char code below 256 |
| PushNotifications.CharCodes | lib/push-notifications.ts:29 | one element per character, each its char code modulo 256 |
| PushNotifications.CharCodesOfBinary | lib/push-notifications.ts:28-30 | copying the char codes of a decoded text gives back the decoded bytes |
| PushNotifications.CopyCharCodes | lib/push-notifications.ts:26-30 | the loop fills a fresh array, as long as the decoded text, with the char code of each character |
| PushNotifications.UrlBase64ToUint8Array | lib/push-notifications.ts:21-32 | it throws exactly when `atob` throws on the normalised key; otherwise it returns a fresh array, one element per decoded character, each that character's code |
| PushNotifications.EncodeSextets | lib/push-notifications.ts:20 | unpadded encoding makes four sextets per three bytes and never leaves a group of one |
| PushNotifications.EncodeUrl | lib/push-notifications.ts:20 | the published key uses only the URL-safe alphabet, with no `=`, one character per sextet, and never has length 4k+1 |
| PushNotifications.DecodeEncode | lib/push-notifications.ts:25 | decoding the sextets of an encoding gives back its bytes |
| PushNotifications.GroupRoundTrip | lib/push-notifications.ts:25 | the four sextets of three bytes decode to those three bytes |
| PushNotifications.DecodeHead | lib/push-notifications.ts:25 | four or more sextets decode as their first group's three bytes followed by the decoding of the rest |
| PushNotifications.DecodeEncodeGroup | lib/push-notifications.ts:25 | a full group of three bytes decodes back, given that the bytes after it do |
| PushNotifications.DecodeEncodeShort | lib/push-notifications.ts:25 | one or two final bytes decode back from their two or three sextets |
| PushNotifications.UrlCharValue | lib/push-notifications.ts:23 | the character swap keeps the value of every URL-safe character |
| PushNotifications.StandardSextets | lib/push-notifications.ts:23 | after the swap, an encoding reads back as its sextets |
| PushNotifications.StripTwo | lib/push-notifications.ts:25 | two final `=` come off together |
| PushNotifications.StripOne | lib/push-notifications.ts:25 | a single `=` after a non-`=` comes off alone |
| PushNotifications.StripNone | lib/push-notifications.ts:25 | text not ending in `=` keeps its length |
| PushNotifications.PaddingText | lib/push-notifications.ts:22 | the padding is empty, `=`, `==` or `===` as the length is 0, 3, 2 or 1 modulo 4 |
| PushNotifications.NormalizeEncoding | lib/push-notifications.ts:22-23 | normalising an encoding is its swapped form followed by its padding |
| PushNotifications.StripWhitespaceNone | lib/push-notifications.ts:25 | text without whitespace is unchanged |
| PushNotifications.UrlKeyRoundTrip | lib/push-notifications.ts:21-32 | a key published as unpadded URL-safe base64 converts back to exactly its bytes |
| PushNotifications.AtobPadded | lib/push-notifications.ts:25 | standard-alphabet text of a decodable length, padded, decodes to the bytes of its sextets |
| PushNotifications.AtobNoPadding | lib/push-notifications.ts:25 | standard-alphabet text of length 4k decodes without padding |
| PushNotifications.AtobOnePadding | lib/push-notifications.ts:25 | standard-alphabet text of length 4k+3 decodes with one `=` |
| PushNotifications.AtobTwoPaddings | lib/push-notifications.ts:25 | standard-alphabet text of length 4k+2 decodes with two `=` |
| PushNotifications.LastNotPadding | lib/push-notifications.ts:25 | standard-alphabet text does not end in `=` |
| PushNotifications.AtobStripped | lib/push-notifications.ts:25 | once whitespace and padding are known to come off, `atob` decodes the sextets |
| PushNotifications.NoWhitespace | lib/push-notifications.ts:25 | standard-alphabet text with `=` padding holds no whitespace |
| PushNotifications.NormalizeBadLength | lib/push-notifications.ts:22-23 | a key of length 4k+1 is normalised to its swapped form followed by `===` |
| PushNotifications.SwappedKeySextets | lib/push-notifications.ts:23 | a key made of standard and URL-safe characters is all standard characters after the swap |
| PushNotifications.AtobLeftoverEquals | lib/push-notifications.ts:25 | text whose stripped padding still ends in `=` is rejected |
| PushNotifications.BadLengthFails | lib/push-notifications.ts:22-25 | a URL-safe key of length 4k+1 cannot be decoded, and the conversion throws |
| Auth.BearerToken | lib/auth.ts:55-61 | a credential exists exactly when the header is present and starts with `Bearer ` in that case; the header is then the prefix followed by the credential |
| Auth.GetUserFromRequest | lib/auth.ts:54-63 | a missing or malformed header gives null; any payload is the verifier's answer for the credential after the prefix |
| Auth.BearerRoundTrip | lib/auth.ts:61-62 | a header built from a credential yields that credential, and the result is the verifier's answer for it |
| Auth.SchemeIsCaseSensitive | lib/auth.ts:57 | `bearer ` and `BEARER ` are refused |
| Auth.SchemeNeedsSpace | lib/auth.ts:57 | `Bearer` without the space, and the empty header, are refused |
| Auth.EmptyCredentialReachesVerifier | lib/auth.ts:61-62 | `Bearer ` followed by nothing hands the empty credential to the verifier |
| AuthStore.Merge | store/authStore.ts:48 | the supplied properties override, every other property of the user is kept, and no other key appears |
| AuthStore.Step | store/authStore.ts:35-49 | one action; `StepKeepsConsistent`, `LogoutResets`, `SetAuthSignsIn` and `UpdateUserTouchesOnlyUser` state its effect |
| AuthStore.Run | store/authStore.ts:30-49 | a sequence of actions applied in order; `RunAppend`, `LastLogoutWins` and `RunKeepsConsistent` state its properties |
| AuthStore.RunAppend | store/authStore.ts:30-49 | running two action sequences one after the other is running their concatenation |
| AuthStore.LastLogoutWins | store/authStore.ts:41-45 | a run that ends with `logout` leaves the initial state, whatever came before |
| AuthStore.StepKeepsConsistent | store/authStore.ts:35-49 | each action keeps "signed in exactly when there is a user, and a token exactly when there is a user" |
| AuthStore.RunKeepsConsistent | store/authStore.ts:31-49 | from the initial state, every sequence of actions keeps that invariant |
| AuthStore.LogoutResets | store/authStore.ts:41-45 | `logout` yields the initial state, whatever the state before |
| AuthStore.SetAuthSignsIn | store/authStore.ts:35-39 | `setAuth(u, t)` records `u` and `t` and signs in |
| AuthStore.UpdateUserTouchesOnlyUser | store/authStore.ts:47-49 | `updateUser` keeps the token and the flag, keeps a missing user missing, and on a present user overrides exactly the supplied properties |
| AuthStore.UpdateUserIdempotent | store/authStore.ts:48 | the same update twice equals it once |
| AuthStore.NoUserAfterLogout | store/authStore.ts:41-48 | after `logout`, an update brings back no user |
| AuthStore.Store.constructor | store/authStore.ts:31-33 | a new store is signed out, with no user and no token |
| AuthStore.Store.SetAuthAction | store/authStore.ts:35-39 | the fields become the state `setAuth` gives |
| AuthStore.Store.LogoutAction | store/authStore.ts:41-45 | the fields become the initial state |
| AuthStore.Store.UpdateUserAction | store/authStore.ts:47-49 | only `user` is written, and the fields become the state `updateUser` gives |
| LiveChat.HandleNewMessage | components/LiveChat.tsx:74-79 | an event for this match appends exactly one item at the end and keeps the list before it; an event for another match keeps the list; a nullish event throws |
| LiveChat.ForMatch | components/LiveChat.tsx:75 | the match test; `ChatRoundTrip` and `ChatOtherMatchIgnores` state which payloads pass |
| LiveChat.Appended | components/LiveChat.tsx:76 | the appended item; `AppendedItem` states which one it is |
| LiveChat.AppendedItem | components/LiveChat.tsx:76 | the appended item is `data.message` when that is truthy, `data` otherwise |
| LiveChat.HandleReaction | components/LiveChat.tsx:81-87 | the length and order are kept; target messages get the new reactions with every other property kept; other messages are unchanged; a nullish event or message throws on a non-empty list |
| LiveChat.UpdateReactions | components/LiveChat.tsx:83-85 | the map callback; `HandleReaction` states its effect on each message |
| LiveChat.UnknownMessageIdUnchanged | components/LiveChat.tsx:83-84 | a reaction for an id no message carries leaves the list as it is |
| LiveChat.ReactionIdempotent | components/LiveChat.tsx:81-86 | applying the same reaction event twice equals applying it once |
| LiveChat.SendPayload | components/LiveChat.tsx:118 | the emitted payload is not nullish, is for its own match, carries the stored message, and names the match id as text |
| LiveChat.ChatRoundTrip | components/LiveChat.tsx:118 | the relay addresses the `{matchId, message}` payload to that match's room, and every delivered copy makes a client of that match append exactly the message |
| LiveChat.ChatOtherMatchIgnores | components/LiveChat.tsx:75 | a client showing another match leaves its list unchanged |

## Left out

- socket.io server setup, CORS and transports (server/socket-handler.ts:11-17), and the client socket singleton. Delivery is modelled as an outbox of per-connection deliveries, and the order of deliveries within one emit is left open.
- The disconnect model assumes that socket.io has taken the socket out of all its rooms before the `disconnect` handler runs, as socket.io does. So the disconnecting socket gets no presence update.
- Console logging is not modelled.
- The `match:join` and `match:leave` handlers destructure `{ matchId }`. A `null` payload, which throws there, is not modelled: the match id is a string parameter. So is a non-string `matchId`, which the source would use both as a map key and, converted to text, in the room name.
- Concurrency is not modelled. The server handlers run one at a time on the event loop, and the model treats each handler as one atomic step.
- `fetchLiveMatches`, `fetchUpcomingMatches` and `fetchPlayerStats` are modelled only through their filter, map and flattening logic. The HTTP requests, environment checks, mock fallbacks, the empty-response early returns and the logging are left out, because they are network I/O.
- SportsApi.Game: game and team ids are integers and `status.short` is a string. A missing field, which makes the source throw into its catch-all fallback, is not modelled.
- SportsApi.ToLiveMatch: `new Date(game.date)` is kept as the raw value, since dates are not modelled.
- JsValues.Json: numbers are integers. Floating-point values, and `parseInt` of a fractional number through its exponent form, are not modelled.
- JsValues.OwnFields: only plain objects contribute keys to a spread. Spreading a string or an array, which copies index keys, is not modelled, because the chat messages are objects.
- JsNumbers.IntToString: JavaScript writes numbers of 1e21 and above in exponent form; the model always writes every digit, because counts, scores and ids stay far below that.
- JsNumbers.ParseInt: this is ECMAScript `parseInt` with no radix. It covers whitespace, a sign, a `0x` prefix and the longest digit run; digit values beyond safe-integer precision are exact here.
- `verifyToken` (lib/auth.ts:43-49) is a parameter: a total function giving a payload or nothing. `jsonwebtoken` and `bcrypt` are foreign libraries, and the try/catch makes `verifyToken` never throw.
- Zustand's `persist` middleware (store/authStore.ts:29, 51-53) is left out, because it is local-storage I/O.
- The rest of lib/push-notifications.ts is left out: permission requests, service-worker registration and subscription. So are server/notification-service.ts and public/sw.js. These are browser Push API plumbing, an external service and concurrency.
- PushNotifications.Atob: `window.atob` is a browser built-in. It is modelled by its forgiving-base64 definition, including the non-zero leftover bits that the decoder discards.
- The page, Navbar, NotificationSetup and PlayerStats components and their rendering are left out, as are the message fetch and the reaction POST in LiveChat.tsx. They are UI, REST calls and floating point.
- Mongoose schemas, the API routes and the scripts are left out, because they are persistence. The status enum of models/Match.ts:76 appears only as `SportsApi.MatchStatuses`.
- The JSON serialisation on the wire is left out. Payloads are delivered as the same values that were emitted.

## Findings

| source | as written | input that shows it | evidently intended | confidence | as-written member | corrected member |
|---|---|---|---|---|---|---|
| lib/sports-api.ts:55 | the `statusMap` lookup with its `'scheduled'` default also finds the keys an object literal inherits from `Object.prototype` | `statusShort = 'constructor'` gives the `Object` function, which is not a match status | codes outside the table give `'scheduled'` | low: the feed is not expected to send such a code; not executed | SportsApi.MapStatusAsWrittenEscapesEnum | SportsApi.MapStatus |
| lib/sports-api.ts:72 | the `periodMap` lookup with its `''` default also finds the inherited `Object.prototype` keys | `statusShort = 'toString'` gives a function, not `''` | codes outside the table give `''` | low: the feed is not expected to send such a code; not executed | SportsApi.CurrentPeriodAsWrittenNotEmpty | SportsApi.CurrentPeriod |
