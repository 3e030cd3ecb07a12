/**
 * Rooms and the room store: the room value kept under `room:<id>`, the
 * invariant every stored room keeps, room-id generation (`random_room_id`,
 * app.py:47-48), room creation (`create_room`, app.py:196-213) and adding a
 * player on join (app.py:233-236).
 *
 * The store is the map from room id to room that Redis holds; loading a room
 * is a lookup and saving it an update of that map.
 */
module Rooms {

  import opened Wrappers
  import opened FlagCatalog
  import opened Rounds
  import opened Scoring

  type RoomId = string

  /** A room: its id, its players by participant id, the current round if any, and its creation time. */
  datatype Room = Room(
    roomId: RoomId,
    players: map<ParticipantId, Player>,
    round: Option<Round>,
    createdAt: int)

  type Store = map<RoomId, Room>

  /**
   * A stored room is filed under its own id, its scores are never negative,
   * it has players exactly when it has a round (a room gets both on its first
   * join), and its round is well formed.
   */
  predicate ValidRoom(c: Catalog, id: RoomId, room: Room) {
    && room.roomId == id
    && (forall p :: p in room.players ==> room.players[p].score >= 0)
    && (room.round.None? <==> room.players == map[])
    && (room.round.Some? ==> WellFormed(c, room.round.value))
  }

  predicate ValidStore(c: Catalog, store: Store) {
    forall id :: id in store ==> ValidRoom(c, id, store[id])
  }

  // ---------------------------------------------------------------------------
  // random_room_id

  /** The room-id alphabet: the 26 uppercase ASCII letters, then the 10 digits. */
  function RoomIdAlphabet(): string { "ABCDEFGHIJKLMNOPQRSTUVWXYZ0123456789" }
  const RoomIdLength: nat := 6

  predicate IsRoomIdChar(ch: char) {
    'A' <= ch <= 'Z' || '0' <= ch <= '9'
  }

  /** The indices `random.choices(alphabet, k=6)` draws. */
  predicate IdDrawsFit(draws: seq<nat>) {
    |draws| == RoomIdLength && forall k :: 0 <= k < |draws| ==> draws[k] < |RoomIdAlphabet()|
  }

  /** `random_room_id()`: six characters picked from the alphabet. */
  function RandomRoomId(draws: seq<nat>): RoomId
    requires IdDrawsFit(draws)
  {
    seq(|draws|, k requires 0 <= k < |draws| => RoomIdAlphabet()[draws[k]])
  }

  /** A generated room id is six characters, each an uppercase letter or a digit. */
  lemma RoomIdShape(draws: seq<nat>)
    requires IdDrawsFit(draws)
    ensures |RandomRoomId(draws)| == RoomIdLength
    ensures forall k :: 0 <= k < RoomIdLength ==> IsRoomIdChar(RandomRoomId(draws)[k])
  {
    AlphabetIsUppercaseAndDigits();
  }

  lemma AlphabetIsUppercaseAndDigits()
    ensures |RoomIdAlphabet()| == 36
    ensures forall i :: 0 <= i < |RoomIdAlphabet()| ==> IsRoomIdChar(RoomIdAlphabet()[i])
  {
  }

  // ---------------------------------------------------------------------------
  // create_room

  /** `create_room` tries at most this many ids. */
  const MaxCreateAttempts: nat := 5

  datatype CreateReply =
    | Created(roomId: RoomId)
    | CreateFailed(status: int, error: string)

  const CreateError: string := "Could not create room"

  /** The room `create_room` writes: no players, no round. */
  function EmptyRoom(id: RoomId, now: int): Room {
    Room(id, map[], None, now)
  }

  /**
   * `create_room`: draws up to five ids, stops at the first one the store
   * does not hold and writes an empty room there; when all five are taken it
   * answers 500 and writes nothing. `probed` lists the ids looked up, in order.
   */
  method CreateRoom(store: Store, idDraws: seq<seq<nat>>, now: int)
    returns (store': Store, probed: seq<RoomId>, reply: CreateReply)
    requires |idDraws| == MaxCreateAttempts
    requires forall k :: 0 <= k < |idDraws| ==> IdDrawsFit(idDraws[k])
    ensures 1 <= |probed| <= MaxCreateAttempts
    ensures forall k :: 0 <= k < |probed| ==> probed[k] == RandomRoomId(idDraws[k])
    ensures forall k :: 0 <= k < |probed| - 1 ==> probed[k] in store
    ensures reply.CreateFailed? <==> forall k :: 0 <= k < MaxCreateAttempts ==> RandomRoomId(idDraws[k]) in store
    ensures reply.CreateFailed? ==>
      && reply == CreateFailed(500, CreateError)
      && |probed| == MaxCreateAttempts
      && store' == store
    ensures reply.Created? ==>
      && reply.roomId == probed[|probed| - 1]
      && reply.roomId !in store
      && store' == store[reply.roomId := EmptyRoom(reply.roomId, now)]
  {
    probed := [];
    var i := 0;
    var found := false;
    var roomId := "";
    while i < MaxCreateAttempts && !found
      invariant 0 <= i <= MaxCreateAttempts
      invariant |probed| == i
      invariant found ==> 1 <= i && roomId == probed[i - 1] && roomId !in store
      invariant forall k :: 0 <= k < i ==> probed[k] == RandomRoomId(idDraws[k])
      invariant forall k :: 0 <= k < (if found then i - 1 else i) ==> probed[k] in store
    {
      roomId := RandomRoomId(idDraws[i]);
      probed := probed + [roomId];
      i := i + 1;
      found := roomId !in store;
    }
    if !found {
      return store, probed, CreateFailed(500, CreateError);
    }
    assert RandomRoomId(idDraws[i - 1]) !in store;
    store' := store[roomId := EmptyRoom(roomId, now)];
    reply := Created(roomId);
  }

  /** A freshly created room keeps every catalog's store invariant. */
  lemma EmptyRoomKeepsStoreValid(c: Catalog, store: Store, id: RoomId, now: int)
    requires ValidStore(c, store)
    ensures ValidStore(c, store[id := EmptyRoom(id, now)])
  {
  }

  // ---------------------------------------------------------------------------
  // Adding a player on join

  /** Adds the participant with score 0 unless they are already a player. */
  function AddPlayer(players: map<ParticipantId, Player>, sid: ParticipantId): map<ParticipantId, Player> {
    if sid in players then players else players[sid := Player(0)]
  }

  /** Joining adds the participant with score 0 when absent and leaves every existing entry, theirs included, as it was. */
  lemma AddPlayerRule(players: map<ParticipantId, Player>, sid: ParticipantId)
    ensures AddPlayer(players, sid).Keys == players.Keys + {sid}
    ensures sid !in players ==> AddPlayer(players, sid)[sid] == Player(0)
    ensures forall p :: p in players ==> AddPlayer(players, sid)[p] == players[p]
  {
  }

  /** Joining twice is joining once. */
  lemma AddPlayerIdempotent(players: map<ParticipantId, Player>, sid: ParticipantId)
    ensures AddPlayer(AddPlayer(players, sid), sid) == AddPlayer(players, sid)
  {
  }
}
