/**
 * The realtime gateway: the `join_room` and `submit_answer` handlers
 * (`on_join`, app.py:221-258; `on_submit_answer`, app.py:260-289) and the
 * round-end timer callback (`end_round` inside `schedule_round_end`,
 * app.py:84-123).
 *
 * Each handler loads one room from the store, changes its copy and writes it
 * back, so each takes the store and returns the store afterwards. What it
 * sends and the timer it arms are returned as effects, in order. The
 * participant id, the current time in milliseconds and the random draws are
 * parameters.
 */
module Gateway {

  import opened Wrappers
  import opened FlagCatalog
  import opened Rounds
  import opened Scoring
  import opened Rooms

  /** Who an event goes to: the connection that sent the request, or every connection in the room. */
  datatype Target = Sender | Members(roomId: RoomId)

  datatype Event =
    | Joined(roomId: RoomId, yourSessionId: ParticipantId, score: int)
    | RoundStart(flagFile: string, options: seq<FlagId>, optionNames: seq<string>, timeLimit: int)
    | RoundResult(correctFlagId: FlagId, correctFlagName: string, scores: map<ParticipantId, int>)
    | AnswerAck(accepted: bool, reason: Option<Rejection>)
    | Error(message: string)

  /**
   * An emitted event; a round-end timer armed for the room with its delay;
   * or an exception raised by round construction, which ends the handler
   * before the room is written back.
   */
  datatype Effect =
    | Emit(to: Target, event: Event)
    | ArmTimer(roomId: RoomId, delayMs: int)
    | Raised(error: RoundError)

  /** A timer that fires more than 0.05 s before the round's end does not end it. */
  const EarlyFireSlackMs: int := 50

  function RoundStartOf(r: Round): Event {
    RoundStart(r.flagFile, r.options, r.optionNames, RoundDurationSec)
  }

  // ---------------------------------------------------------------------------
  // join_room

  /**
   * The delay a join arms the round-end timer with so that the timer fires
   * when the room's round ends: the time left in the round, or at once if it
   * is already over. A round built by the join itself gets the full duration.
   */
  function JoinRearmDelayMs(r: Round, now: int): int {
    Max(0, RoundDurationMs - (now - r.startTime))
  }

  /**
   * The delay a join arms as written (app.py:258): `schedule_round_end`
   * cancels the room's timer and arms a full round duration (app.py:78-82,
   * app.py:125). The round and the time are ignored on purpose: the delay is
   * the same however far the current round has run.
   */
  function JoinRearmDelayMsAsWritten(r: Round, now: int): int {
    RoundDurationMs
  }

  /**
   * As written, a join 3 s into a round replaces the timer that would have
   * ended it at 5 s with one that fires 8 s after its start. That fire is not
   * early, so the round is scored only then, and an answer sent 6 s in,
   * while the round is still open, is rejected as late. The corrected delay
   * would have been the 2 s left.
   */
  lemma JoinRearmAsWrittenOverruns(c: Catalog, r: Round, sid: ParticipantId, choice: Option<FlagId>)
    requires r.flagId in c.names
    ensures var join := r.startTime + 3000;
      var next := join + JoinRearmDelayMsAsWritten(r, join);
      && next - r.startTime == 8000
      && next - r.startTime > RoundDurationMs
      && !FiredEarly(r, next)
      && RecordAnswer(c, r, sid, choice, r.startTime + 6000) == Rejected(Timeout)
      && JoinRearmDelayMs(r, join) == 2000
  {
  }

  /**
   * With the corrected delay, a join during a round leaves the round's end
   * where it was: the timer fires exactly one round duration after the start,
   * that fire is not early, and an answer sent at that moment is still in
   * time. A join after the round's end fires the timer at once.
   */
  lemma JoinRearmEndsOnTime(c: Catalog, r: Round, sid: ParticipantId, choice: FlagId, now: int)
    requires r.flagId in c.names && choice in c.names
    ensures now - r.startTime <= RoundDurationMs ==>
      var next := now + JoinRearmDelayMs(r, now);
      && next - r.startTime == RoundDurationMs
      && !FiredEarly(r, next)
      && RecordAnswer(c, r, sid, Some(choice), next).Accepted?
    ensures now - r.startTime > RoundDurationMs ==> JoinRearmDelayMs(r, now) == 0
    ensures r.startTime == now ==> JoinRearmDelayMs(r, now) == RoundDurationMs
  {
    if now - r.startTime <= RoundDurationMs {
      TimeoutBoundary(c, r, sid, Some(choice), now + JoinRearmDelayMs(r, now));
    }
  }

  /**
   * `on_join`: an unknown room gets an error to the sender and changes
   * nothing. Otherwise the participant is added with score 0 if absent, a
   * round is built only if the room has none, the room is written back, the
   * sender learns their score, the room is sent the current round and the
   * round-end timer is armed for a full round duration, even when the round
   * was already running (`JoinRearmDelayMsAsWritten`).
   */
  method OnJoin(c: Catalog, store: Store, roomId: RoomId, sid: ParticipantId, d: RoundDraws, now: int)
    returns (store': Store, out: seq<Effect>)
    requires Valid(c) && DrawsFit(|c.ids|, d)
    ensures roomId !in store ==> store' == store && out == [Emit(Sender, Error("Room not found"))]
    ensures roomId in store ==>
      var room := store[roomId];
      var players := AddPlayer(room.players, sid);
      var joined := Emit(Sender, Joined(roomId, sid, players[sid].score));
      if room.round.Some? then
        && store' == store[roomId := room.(players := players)]
        && out == [joined, Emit(Members(roomId), RoundStartOf(room.round.value)), ArmTimer(roomId, JoinRearmDelayMsAsWritten(room.round.value, now))]
      else
        match NewRound(c, d, now)
        case Failure(e) => store' == store && out == [Raised(e)]
        case Success(r) =>
          && store' == store[roomId := room.(players := players, round := Some(r))]
          && out == [joined, Emit(Members(roomId), RoundStartOf(r)), ArmTimer(roomId, JoinRearmDelayMsAsWritten(r, now))]
    ensures ValidStore(c, store) ==> ValidStore(c, store')
  {
    if roomId !in store {
      return store, [Emit(Sender, Error("Room not found"))];
    }
    var room := store[roomId];
    var players := room.players;
    if sid !in players {
      players := players[sid := Player(0)];
    }
    room := room.(players := players);
    if room.round.None? {
      var built := NewRoundState(c, d, now);
      if built.Failure? {
        return store, [Raised(built.error)];
      }
      NewRoundIsWellFormed(c, d, now);
      room := room.(round := Some(built.value));
    }
    store' := store[roomId := room];
    out := [
      Emit(Sender, Joined(roomId, sid, room.players[sid].score)),
      Emit(Members(roomId), RoundStartOf(room.round.value)),
      ArmTimer(roomId, JoinRearmDelayMsAsWritten(room.round.value, now))
    ];
  }

  // ---------------------------------------------------------------------------
  // submit_answer

  predicate HasRound(store: Store, roomId: RoomId) {
    roomId in store && store[roomId].round.Some?
  }

  /**
   * `on_submit_answer`: without the room or its round the sender gets an
   * error. A submission the round engine rejects gets a negative
   * acknowledgement and changes nothing; an accepted one is written back,
   * with the ledger as the engine left it, and acknowledged.
   */
  method OnSubmitAnswer(c: Catalog, store: Store, roomId: RoomId, sid: ParticipantId, choice: Option<FlagId>, now: int)
    returns (store': Store, out: seq<Effect>)
    requires ValidStore(c, store)
    ensures !HasRound(store, roomId) ==> store' == store && out == [Emit(Sender, Error("Room not ready"))]
    ensures HasRound(store, roomId) ==>
      var room := store[roomId];
      match RecordAnswer(c, room.round.value, sid, choice, now)
      case Rejected(reason) => store' == store && out == [Emit(Sender, AnswerAck(false, Some(reason)))]
      case Accepted(r) =>
        && store' == store[roomId := room.(round := Some(r))]
        && out == [Emit(Sender, AnswerAck(true, None))]
    ensures ValidStore(c, store')
  {
    if roomId !in store || store[roomId].round.None? {
      return store, [Emit(Sender, Error("Room not ready"))];
    }
    var room := store[roomId];
    var rnd := room.round.value;
    var elapsed := now - rnd.startTime;
    var inTime := elapsed <= RoundDurationMs;
    if !inTime {
      return store, [Emit(Sender, AnswerAck(false, Some(Timeout)))];
    }
    if choice.None? || choice.value !in c.names {
      return store, [Emit(Sender, AnswerAck(false, Some(InvalidChoice)))];
    }
    var answers := rnd.answers;
    if sid !in answers {
      var isCorrect := c.names[choice.value] == c.names[rnd.flagId];
      answers := answers[sid := Answer(choice.value, isCorrect)];
    }
    RecordAnswerKeepsWellFormed(c, rnd, sid, choice, now);
    room := room.(round := Some(rnd.(answers := answers)));
    store' := store[roomId := room];
    out := [Emit(Sender, AnswerAck(true, None))];
  }

  // ---------------------------------------------------------------------------
  // end_round

  /** The timer fired more than the slack before the round's end. */
  predicate FiredEarly(r: Round, now: int) {
    now - r.startTime < RoundDurationMs - EarlyFireSlackMs
  }

  /**
   * An early fire re-arms through `schedule_round_end`, which always arms a
   * full round duration (app.py:93, app.py:125), although the comment above it
   * speaks of the exact end. When the fire comes after the round's start, the
   * next fire is past the round's end and is not early, so it ends the round.
   */
  lemma EarlyRearmEndsRound(r: Round, now: int)
    requires FiredEarly(r, now) && now >= r.startTime
    ensures var next := now + RoundDurationMs;
      next - r.startTime >= RoundDurationMs && !FiredEarly(r, next)
  {
  }

  /**
   * `end_round`: a vanished room or a room without a round makes the fire a
   * no-op with no re-arm; an early fire only re-arms. Otherwise every player
   * is scored from the ledger, the result with the scores snapshot is sent to
   * the room, a new round replaces the old one, the room is written back, the
   * new round is sent and the timer is re-armed.
   */
  method EndRound(c: Catalog, store: Store, roomId: RoomId, d: RoundDraws, now: int)
    returns (store': Store, out: seq<Effect>)
    requires Valid(c) && DrawsFit(|c.ids|, d) && ValidStore(c, store)
    ensures !HasRound(store, roomId) ==> store' == store && out == []
    ensures HasRound(store, roomId) && FiredEarly(store[roomId].round.value, now) ==>
      && store' == store
      && out == [ArmTimer(roomId, RoundDurationMs)]
    ensures HasRound(store, roomId) && !FiredEarly(store[roomId].round.value, now) ==>
      var room := store[roomId];
      var rnd := room.round.value;
      var players := ScoreRound(room.players, rnd.answers);
      var result := Emit(Members(roomId), RoundResult(rnd.flagId, c.names[rnd.flagId], ScoresOf(players)));
      match NewRound(c, d, now)
      case Failure(e) => store' == store && out == [result, Raised(e)]
      case Success(next) =>
        && store' == store[roomId := room.(players := players, round := Some(next))]
        && out == [result, Emit(Members(roomId), RoundStartOf(next)), ArmTimer(roomId, RoundDurationMs)]
        && out[0].event.scores == ScoresOf(store'[roomId].players)
    ensures ValidStore(c, store')
  {
    if roomId !in store || store[roomId].round.None? {
      return store, [];
    }
    var room := store[roomId];
    var rnd := room.round.value;
    var elapsed := now - rnd.startTime;
    if elapsed < RoundDurationMs - EarlyFireSlackMs {
      return store, [ArmTimer(roomId, RoundDurationMs)];
    }
    var correctId := rnd.flagId;
    var players := ScorePlayers(room.players, rnd.answers);
    ScoreRoundRule(room.players, rnd.answers);
    room := room.(players := players);
    var result := Emit(Members(roomId), RoundResult(correctId, c.names[correctId], ScoresOf(room.players)));
    var next := NewRoundState(c, d, now);
    if next.Failure? {
      return store, [result, Raised(next.error)];
    }
    NewRoundIsWellFormed(c, d, now);
    room := room.(round := Some(next.value));
    store' := store[roomId := room];
    out := [result, Emit(Members(roomId), RoundStartOf(next.value)), ArmTimer(roomId, RoundDurationMs)];
  }

  // ---------------------------------------------------------------------------
  // A round seen end to end

  /**
   * A player who answers the target in time gains exactly 100 points at the
   * round's end, and a second submission of theirs in the same round changes
   * neither the ledger nor the points.
   */
  lemma CorrectAnswerEarnsBonus(
    c: Catalog, players: map<ParticipantId, Player>, r: Round, sid: ParticipantId, now: int,
    second: Option<FlagId>, later: int)
    requires r.flagId in c.names
    requires sid in players && sid !in r.answers
    requires now - r.startTime <= RoundDurationMs
    ensures var s := RecordAnswer(c, r, sid, Some(r.flagId), now);
      && s.Accepted?
      && ScoreRound(players, s.round.answers)[sid].score == players[sid].score + 100
      && (var s2 := RecordAnswer(c, s.round, sid, second, later);
          s2.Accepted? ==> s2.round == s.round && ScoreRound(players, s2.round.answers) == ScoreRound(players, s.round.answers))
  {
    var s := RecordAnswer(c, r, sid, Some(r.flagId), now);
    assert s.round.answers[sid] == Answer(r.flagId, true);
    FirstAnswerSticks(c, r, sid, Some(r.flagId), now, second, later);
  }
}
