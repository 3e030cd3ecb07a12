/**
 * Scoring: the per-player rule applied at the end of a multiplayer round
 * (the loop in `end_round`, app.py:97-102), the scores snapshot broadcast with
 * the result (app.py:105), and the same rule applied to the one session score
 * of the solo quiz (`solo_quiz_api`, app.py:164-182).
 */
module Scoring {

  import opened Wrappers
  import opened FlagCatalog
  import opened Rounds

  /** A player entry of a room: `{"score": n}`. */
  datatype Player = Player(score: int)

  /** Bonus for a correct answer and penalty for a wrong one. */
  const CorrectBonus: int := 100
  const WrongPenalty: int := 1

  /** A player's score after the round, given their ledger entry, if any. */
  function Rescore(score: int, ans: Option<Answer>): int {
    match ans
    case None => score
    case Some(a) => if a.correct then score + CorrectBonus else Max(0, score - WrongPenalty)
  }

  /** The scoring rule: +100 when correct; one less but never below zero when wrong; unchanged without an answer. */
  lemma RescoreRule(score: int, ans: Option<Answer>)
    ensures ans.None? ==> Rescore(score, ans) == score
    ensures ans.Some? && ans.value.correct ==> Rescore(score, ans) == score + 100
    ensures ans.Some? && !ans.value.correct ==> Rescore(score, ans) == (if score >= 1 then score - 1 else 0)
    ensures score >= 0 ==> Rescore(score, ans) >= 0
  {
  }

  /** Every player of the room rescored from the round's ledger. */
  function ScoreRound(players: map<ParticipantId, Player>, answers: map<ParticipantId, Answer>): map<ParticipantId, Player> {
    map p | p in players :: Player(Rescore(players[p].score, Get(answers, p)))
  }

  /**
   * Round-end scoring keeps the set of players, changes each score only by the
   * rule, ignores ledger entries of participants who never joined, and keeps
   * non-negative scores non-negative.
   */
  lemma ScoreRoundRule(players: map<ParticipantId, Player>, answers: map<ParticipantId, Answer>)
    ensures ScoreRound(players, answers).Keys == players.Keys
    ensures forall p :: p in players && p in answers && answers[p].correct ==>
      ScoreRound(players, answers)[p].score == players[p].score + 100
    ensures forall p :: p in players && p in answers && !answers[p].correct ==>
      ScoreRound(players, answers)[p].score == Max(0, players[p].score - 1)
    ensures forall p :: p in players && p !in answers ==> ScoreRound(players, answers)[p] == players[p]
    ensures (forall p :: p in players ==> players[p].score >= 0) ==>
      forall p :: p in players ==> ScoreRound(players, answers)[p].score >= 0
  {
  }

  /** The loop of `end_round`: each player's entry is updated in turn. */
  method ScorePlayers(players: map<ParticipantId, Player>, answers: map<ParticipantId, Answer>)
    returns (scored: map<ParticipantId, Player>)
    ensures scored == ScoreRound(players, answers)
  {
    scored := players;
    var todo := players.Keys;
    while todo != {}
      invariant todo <= players.Keys
      invariant scored.Keys == players.Keys
      invariant forall p :: p in todo ==> scored[p] == players[p]
      invariant forall p :: p in players && p !in todo ==> scored[p] == ScoreRound(players, answers)[p]
      decreases todo
    {
      var sid :| sid in todo;
      var ans := Get(answers, sid);
      if ans.Some? && ans.value.correct {
        scored := scored[sid := Player(scored[sid].score + CorrectBonus)];
      } else if ans.Some? && !ans.value.correct {
        scored := scored[sid := Player(Max(0, scored[sid].score - WrongPenalty))];
      }
      todo := todo - {sid};
    }
  }

  /** The scores snapshot sent with a round's result: each player's score by participant id. */
  function ScoresOf(players: map<ParticipantId, Player>): map<ParticipantId, int> {
    map p | p in players :: players[p].score
  }

  /**
   * The snapshot taken after round-end scoring names exactly the room's
   * players, each with their score rescored by the rule from their own ledger
   * entry: +100 for a correct answer, one less but not below zero for a wrong
   * one, unchanged without one. Non-negative scores give a non-negative
   * snapshot.
   */
  lemma ScoresAfterRound(players: map<ParticipantId, Player>, answers: map<ParticipantId, Answer>)
    ensures ScoresOf(ScoreRound(players, answers)).Keys == players.Keys
    ensures forall p :: p in players ==> ScoresOf(ScoreRound(players, answers))[p] == Rescore(players[p].score, Get(answers, p))
    ensures forall p :: p in players && p in answers && answers[p].correct ==>
      ScoresOf(ScoreRound(players, answers))[p] == players[p].score + 100
    ensures forall p :: p in players && p !in answers ==> ScoresOf(ScoreRound(players, answers))[p] == players[p].score
    ensures (forall p :: p in players ==> players[p].score >= 0) ==>
      forall p :: p in players ==> ScoresOf(ScoreRound(players, answers))[p] >= 0
  {
    ScoreRoundRule(players, answers);
  }

  // ---------------------------------------------------------------------------
  // The solo quiz

  /** The literal answer window of the solo quiz, in seconds, and the elapsed time assumed without a start time. */
  const SoloLimitMs: int := 5 * 1000
  const MissingStartElapsedMs: int := 999 * 1000

  /** The new session score and the message shown. */
  datatype SoloReply = SoloReply(score: int, message: Option<string>)

  /** Python truthiness of an optional string: present and non-empty. */
  predicate Truthy(s: Option<string>) {
    s.Some? && s.value != ""
  }

  /**
   * The answer branch of `solo_quiz_api`: the session's score (0 when
   * absent), the session's target id and start time, and the posted choice.
   */
  function SoloAnswer(
    c: Catalog, score: Option<int>, flagId: Option<FlagId>, startTime: Option<int>, choice: Option<FlagId>, now: int): SoloReply
    requires Truthy(flagId) ==> flagId.value in c.names
  {
    var s := score.GetOr(0);
    var elapsed := if startTime.Some? && startTime.value != 0 then now - startTime.value else MissingStartElapsedMs;
    if elapsed > SoloLimitMs then SoloReply(s, None)
    else if Truthy(flagId) && Truthy(choice) && choice.value in c.names then
      if c.names[flagId.value] == c.names[choice.value] then SoloReply(s + CorrectBonus, Some("Richtig!"))
      else SoloReply(Max(0, s - WrongPenalty), Some("Falsch!"))
    else SoloReply(s, None)
  }

  /**
   * The solo quiz scores with the multiplayer rule: an in-time answer naming a
   * catalog id is scored as a ledger entry judged by display name would be;
   * a late answer, or one without a target or a valid choice, leaves the
   * score as it was.
   */
  lemma SoloUsesRoundRule(
    c: Catalog, score: Option<int>, flagId: Option<FlagId>, startTime: Option<int>, choice: Option<FlagId>, now: int)
    requires Truthy(flagId) ==> flagId.value in c.names
    ensures var r := SoloAnswer(c, score, flagId, startTime, choice, now);
      var s := score.GetOr(0);
      && (startTime.Some? && startTime.value != 0 && now - startTime.value <= 5000
          && Truthy(flagId) && Truthy(choice) && choice.value in c.names
          ==> r.score == Rescore(s, Some(Answer(choice.value, c.names[choice.value] == c.names[flagId.value])))
              && r.message.Some?)
      && (startTime.None? || startTime.value == 0 || now - startTime.value > 5000 ==> r == SoloReply(s, None))
      && (!(Truthy(flagId) && Truthy(choice) && choice.value in c.names) ==> r == SoloReply(s, None))
      && (s >= 0 ==> r.score >= 0)
  {
  }
}
