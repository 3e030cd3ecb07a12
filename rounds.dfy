/**
 * The round engine: building a round from the catalog (`new_round_state`,
 * app.py:63-76) and recording one participant's answer in the round's answer
 * ledger (the core of `on_submit_answer`, app.py:270-286).
 *
 * The randomness of `random.choice`, `random.sample` and `random.shuffle` is
 * passed in as the indices those functions draw, and `time.time()` as an
 * integer count of milliseconds.
 */
module Rounds {

  import opened Wrappers
  import opened FlagCatalog

  type ParticipantId = string

  /** `ROUND_DURATION_SEC`: the length of the answer window. */
  const RoundDurationSec: int := 5
  const RoundDurationMs: int := RoundDurationSec * 1000

  /** One ledger entry: the id the participant chose and whether it was judged correct. */
  datatype Answer = Answer(choice: FlagId, correct: bool)

  /**
   * A round: the target flag, the image file shown, the four option ids and
   * their display names (same order), the start time and the answer ledger.
   */
  datatype Round = Round(
    flagId: FlagId,
    flagFile: string,
    options: seq<FlagId>,
    optionNames: seq<string>,
    startTime: int,
    answers: map<ParticipantId, Answer>)

  /** `str.lower()` on the ASCII letters a flag id is made of. */
  function LowerAscii(s: string): string {
    seq(|s|, i requires 0 <= i < |s| => if 'A' <= s[i] <= 'Z' then (s[i] as int + 32) as char else s[i])
  }

  /** The flag's image file: the id in lower case with the `.svg` extension. */
  function FlagFile(flagId: FlagId): string {
    LowerAscii(flagId) + ".svg"
  }

  /**
   * The flag's image file is the id with its capital letters lowered and
   * `.svg` appended: every other character is kept, and no capital is left.
   */
  lemma FlagFileShape(flagId: FlagId)
    ensures |FlagFile(flagId)| == |flagId| + 4
    ensures FlagFile(flagId)[|flagId|..] == ".svg"
    ensures forall i :: 0 <= i < |flagId| ==> !('A' <= FlagFile(flagId)[i] <= 'Z')
    ensures forall i :: 0 <= i < |flagId| && !('A' <= flagId[i] <= 'Z') ==> FlagFile(flagId)[i] == flagId[i]
    ensures forall i :: 0 <= i < |flagId| && 'A' <= flagId[i] <= 'Z' ==> FlagFile(flagId)[i] as int == flagId[i] as int + 32
  {
  }

  /** What every round the game builds satisfies, and every answer recorded in it. */
  predicate WellFormed(c: Catalog, r: Round) {
    && r.flagId in c.names
    && r.flagFile == FlagFile(r.flagId)
    && |r.options| == 4
    && Distinct(r.options)
    && r.flagId in r.options
    && (forall o :: o in r.options ==> o in c.names)
    && |r.optionNames| == |r.options|
    && (forall i :: 0 <= i < |r.options| ==> r.optionNames[i] == c.names[r.options[i]])
    && (forall p :: p in r.answers ==> LedgerEntryOk(c, r.flagId, r.answers[p]))
  }

  /** A ledger entry names a catalog id and is correct exactly when its display name is the target's. */
  predicate LedgerEntryOk(c: Catalog, target: FlagId, a: Answer)
    requires target in c.names
  {
    a.choice in c.names && a.correct == (c.names[a.choice] == c.names[target])
  }

  // ---------------------------------------------------------------------------
  // random.shuffle

  function Swap<T>(s: seq<T>, i: nat, j: nat): seq<T>
    requires i < |s| && j < |s|
  {
    s[i := s[j]][j := s[i]]
  }

  /**
   * The draws `random.shuffle` makes on a list of length n: for i from n-1
   * down to 1 an index j with 0 <= j <= i; js[k] is the draw for i = n-1-k.
   */
  predicate ShuffleFits(n: nat, js: seq<nat>) {
    && |js| == (if n == 0 then 0 else n - 1)
    && forall k :: 0 <= k < |js| ==> js[k] <= n - 1 - k
  }

  /** The list after the swaps for draws k, k+1, ... have been applied. */
  function ShuffleFrom<T>(s: seq<T>, js: seq<nat>, k: nat): seq<T>
    requires ShuffleFits(|s|, js) && k <= |js|
    decreases |js| - k
  {
    if k == |js| then s else ShuffleFrom(Swap(s, |s| - 1 - k, js[k]), js, k + 1)
  }

  function Shuffled<T>(s: seq<T>, js: seq<nat>): seq<T>
    requires ShuffleFits(|s|, js)
  {
    ShuffleFrom(s, js, 0)
  }

  lemma SwapPermutes<T>(s: seq<T>, i: nat, j: nat)
    requires i < |s| && j < |s|
    ensures multiset(Swap(s, i, j)) == multiset(s)
    ensures Distinct(s) ==> Distinct(Swap(s, i, j))
  {
    var t := Swap(s, i, j);
    if Distinct(s) {
      forall a, b | 0 <= a < b < |t| ensures t[a] != t[b] {
        var a' := if a == i then j else if a == j then i else a;
        var b' := if b == i then j else if b == j then i else b;
        assert t[a] == s[a'] && t[b] == s[b'];
      }
    }
  }

  /** A shuffle is a permutation: the same elements with the same multiplicities, so distinct stays distinct. */
  lemma {:induction false} ShuffleFromPermutes<T>(s: seq<T>, js: seq<nat>, k: nat)
    requires ShuffleFits(|s|, js) && k <= |js|
    ensures |ShuffleFrom(s, js, k)| == |s|
    ensures multiset(ShuffleFrom(s, js, k)) == multiset(s)
    ensures Distinct(s) ==> Distinct(ShuffleFrom(s, js, k))
    decreases |js| - k
  {
    if k < |js| {
      SwapPermutes(s, |s| - 1 - k, js[k]);
      ShuffleFromPermutes(Swap(s, |s| - 1 - k, js[k]), js, k + 1);
    }
  }

  /** A shuffle has the same members as the list it shuffles. */
  lemma ShuffledMembers<T>(s: seq<T>, js: seq<nat>)
    requires ShuffleFits(|s|, js)
    ensures forall x :: x in Shuffled(s, js) <==> x in s
  {
    ShuffleFromPermutes(s, js, 0);
    forall x ensures x in Shuffled(s, js) <==> x in s {
      assert x in Shuffled(s, js) <==> x in multiset(Shuffled(s, js));
      assert x in s <==> x in multiset(s);
    }
  }

  /** `random.shuffle(options)`: the Fisher-Yates loop, in place on the array. */
  method ShuffleInPlace(a: array<FlagId>, js: seq<nat>)
    requires ShuffleFits(a.Length, js)
    modifies a
    ensures a[..] == Shuffled(old(a[..]), js)
  {
    var k := 0;
    while k < |js|
      invariant 0 <= k <= |js|
      invariant ShuffleFits(|a[..]|, js)
      invariant ShuffleFrom(a[..], js, k) == Shuffled(old(a[..]), js)
    {
      var i, j := a.Length - 1 - k, js[k];
      ghost var before := a[..];
      var t := a[i];
      a[i] := a[j];
      a[j] := t;
      assert a[..] == Swap(before, i, j);
      k := k + 1;
    }
  }

  // ---------------------------------------------------------------------------
  // new_round_state

  /** The random draws one call of `new_round_state` makes. */
  datatype RoundDraws = RoundDraws(
    target: nat,       // random.choice(list(FLAGS.keys())): an index into the keys
    picks: seq<nat>,   // random.sample(population, 3): three distinct positions in the population
    swaps: seq<nat>)   // random.shuffle(options): the draws of the shuffle loop

  /** The draws the random module can make for a catalog of n keys. */
  predicate DrawsFit(n: nat, d: RoundDraws) {
    && (n > 0 ==> d.target < n)
    && (n >= 4 ==> |d.picks| == 3 && Distinct(d.picks) && forall k :: 0 <= k < |d.picks| ==> d.picks[k] < n - 1)
    && ShuffleFits(4, d.swaps)
  }

  /** `random.sample(pop, k)` given the k distinct positions it chose. */
  function Sample(pop: seq<FlagId>, picks: seq<nat>): seq<FlagId>
    requires forall k :: 0 <= k < |picks| ==> picks[k] < |pop|
  {
    seq(|picks|, k requires 0 <= k < |picks| => pop[picks[k]])
  }

  /** The exceptions `new_round_state` raises on a catalog too small to play with. */
  datatype RoundError =
    | EmptyCatalog               // random.choice on an empty list raises IndexError
    | SampleLargerThanPopulation // random.sample(pop, 3) with fewer than 3 others raises ValueError

  /** The round value `new_round_state` returns for a target and its shuffled options. */
  function BuildRound(c: Catalog, flagId: FlagId, options: seq<FlagId>, now: int): Round
    requires forall o :: o in options ==> o in c.names
  {
    Round(flagId, FlagFile(flagId), options, NamesOf(c, options), now, map[])
  }

  /** The round `new_round_state` builds from the given draws at time `now`. */
  function NewRound(c: Catalog, d: RoundDraws, now: int): Result<Round, RoundError>
    requires Valid(c) && DrawsFit(|c.ids|, d)
  {
    if |c.ids| == 0 then Failure(EmptyCatalog)
    else
      var flagId := c.ids[d.target];
      var pop := Others(c.ids, flagId);
      OthersOfDistinct(c.ids, flagId);
      if |pop| < 3 then Failure(SampleLargerThanPopulation)
      else
        var candidates := Sample(pop, d.picks) + [flagId];
        ShuffledMembers(candidates, d.swaps);
        Success(BuildRound(c, flagId, Shuffled(candidates, d.swaps), now))
  }

  /** `new_round_state` itself: the list of candidates is shuffled in place. */
  method NewRoundState(c: Catalog, d: RoundDraws, now: int) returns (res: Result<Round, RoundError>)
    requires Valid(c) && DrawsFit(|c.ids|, d)
    ensures res == NewRound(c, d, now)
  {
    if |c.ids| == 0 {
      return Failure(EmptyCatalog);
    }
    var flagId := c.ids[d.target];
    var pop := Others(c.ids, flagId);
    OthersOfDistinct(c.ids, flagId);
    if |pop| < 3 {
      return Failure(SampleLargerThanPopulation);
    }
    var candidates := Sample(pop, d.picks) + [flagId];
    var a := new FlagId[4];
    a[0], a[1], a[2], a[3] := candidates[0], candidates[1], candidates[2], candidates[3];
    assert a[..] == candidates;
    ShuffleInPlace(a, d.swaps);
    ShuffledMembers(candidates, d.swaps);
    assert NewRound(c, d, now) == Success(BuildRound(c, flagId, Shuffled(candidates, d.swaps), now));
    res := Success(BuildRound(c, flagId, a[..], now));
  }

  /**
   * A catalog with at least four flags always yields a round, and the round
   * is well formed: four distinct options, the target among them, each
   * option's display name beside it, the start time `now` and an empty ledger;
   * the three other options are the sampled distractors, none of them the
   * target. A smaller catalog makes the construction raise.
   */
  lemma NewRoundIsWellFormed(c: Catalog, d: RoundDraws, now: int)
    requires Valid(c) && DrawsFit(|c.ids|, d)
    ensures |c.ids| > 0 ==> |Others(c.ids, c.ids[d.target])| == |c.ids| - 1
    ensures NewRound(c, d, now).Success? <==> |c.ids| >= 4
    ensures NewRound(c, d, now).Success? ==>
      var r := NewRound(c, d, now).value;
      && WellFormed(c, r)
      && r.flagId == c.ids[d.target]
      && r.startTime == now
      && r.answers == map[]
      && multiset(r.options) == multiset(Sample(Others(c.ids, r.flagId), d.picks)) + multiset{r.flagId}
      && (forall x :: x in Sample(Others(c.ids, r.flagId), d.picks) ==> x != r.flagId && x in c.names)
  {
    if |c.ids| > 0 {
      OthersOfDistinct(c.ids, c.ids[d.target]);
    }
    if |c.ids| >= 4 {
      var flagId := c.ids[d.target];
      var pop := Others(c.ids, flagId);
      var wrong := Sample(pop, d.picks);
      var candidates := wrong + [flagId];
      SampleOfDistinct(pop, d.picks);
      assert Distinct(candidates);
      ShuffleFromPermutes(candidates, d.swaps, 0);
      ShuffledMembers(candidates, d.swaps);
      var options := Shuffled(candidates, d.swaps);
      var r := BuildRound(c, flagId, options, now);
      assert NewRound(c, d, now) == Success(r);
      assert multiset(candidates) == multiset(wrong) + multiset{flagId};
      assert WellFormed(c, r);
    }
  }

  /** Sampling distinct positions of a list of distinct keys gives distinct keys of that list. */
  lemma SampleOfDistinct(pop: seq<FlagId>, picks: seq<nat>)
    requires forall k :: 0 <= k < |picks| ==> picks[k] < |pop|
    requires Distinct(pop) && Distinct(picks)
    ensures Distinct(Sample(pop, picks))
    ensures forall x :: x in Sample(pop, picks) ==> x in pop
  {
    var w := Sample(pop, picks);
    forall a, b | 0 <= a < b < |w| ensures w[a] != w[b] {
      assert picks[a] != picks[b];
    }
  }

  /** In a well-formed round the target is exactly one of the four options. */
  lemma ExactlyOneTarget(c: Catalog, r: Round)
    requires WellFormed(c, r)
    ensures exists i :: (0 <= i < 4 && r.options[i] == r.flagId &&
                         forall j :: 0 <= j < 4 && j != i ==> r.options[j] != r.flagId)
  {
    var i :| 0 <= i < |r.options| && r.options[i] == r.flagId;
    assert forall j :: 0 <= j < 4 && j != i ==> r.options[j] != r.options[i];
  }

  // ---------------------------------------------------------------------------
  // The answer ledger (on_submit_answer)

  datatype Rejection = Timeout | InvalidChoice

  /** The verdict on one submission, with the round as it is afterwards when accepted. */
  datatype Submission = Rejected(reason: Rejection) | Accepted(round: Round)

  /**
   * Judges one submission: too late (more than the round duration since the
   * start), a choice that is not a catalog id, or accepted. The first answer
   * of a participant is recorded; a later one is acknowledged and ignored.
   */
  function RecordAnswer(c: Catalog, r: Round, sid: ParticipantId, choice: Option<FlagId>, now: int): Submission
    requires r.flagId in c.names
  {
    if !(now - r.startTime <= RoundDurationMs) then Rejected(Timeout)
    else if choice.None? || choice.value !in c.names then Rejected(InvalidChoice)
    else if sid in r.answers then Accepted(r)
    else
      var isCorrect := c.names[choice.value] == c.names[r.flagId];
      Accepted(r.(answers := r.answers[sid := Answer(choice.value, isCorrect)]))
  }

  /** A submission is rejected as late exactly when more than the round duration has elapsed; at exactly the duration it is still in time. */
  lemma TimeoutBoundary(c: Catalog, r: Round, sid: ParticipantId, choice: Option<FlagId>, now: int)
    requires r.flagId in c.names
    ensures RecordAnswer(c, r, sid, choice, now) == Rejected(Timeout) <==> now - r.startTime > RoundDurationMs
    ensures now - r.startTime == RoundDurationMs && choice.Some? && choice.value in c.names ==>
      RecordAnswer(c, r, sid, choice, now).Accepted?
  {
  }

  /** An in-time submission is rejected as invalid exactly when the choice is missing or not a catalog id. */
  lemma InvalidChoiceRule(c: Catalog, r: Round, sid: ParticipantId, choice: Option<FlagId>, now: int)
    requires r.flagId in c.names
    requires now - r.startTime <= RoundDurationMs
    ensures RecordAnswer(c, r, sid, choice, now) == Rejected(InvalidChoice) <==> choice.None? || choice.value !in c.names
  {
  }

  /**
   * What acceptance does to the round: nothing but the ledger changes; a
   * participant with an entry keeps it untouched; a new participant gets
   * exactly one entry, correct exactly when the chosen display name is the
   * target's.
   */
  lemma AcceptedLedger(c: Catalog, r: Round, sid: ParticipantId, choice: Option<FlagId>, now: int)
    requires r.flagId in c.names
    requires RecordAnswer(c, r, sid, choice, now).Accepted?
    ensures var r' := RecordAnswer(c, r, sid, choice, now).round;
      && r' == r.(answers := r'.answers)
      && choice.Some? && choice.value in c.names
      && (sid in r.answers ==> r'.answers == r.answers)
      && (sid !in r.answers ==>
            && r'.answers.Keys == r.answers.Keys + {sid}
            && |r'.answers| == |r.answers| + 1
            && (forall p :: p in r.answers ==> r'.answers[p] == r.answers[p])
            && r'.answers[sid].choice == choice.value
            && (r'.answers[sid].correct <==> c.names[choice.value] == c.names[r.flagId]))
  {
    var r' := RecordAnswer(c, r, sid, choice, now).round;
    if sid !in r.answers {
      assert |r'.answers.Keys| == |r.answers.Keys + {sid}|;
    }
  }

  /** The first answer sticks: once a participant's answer is in, no later submission of theirs changes the round. */
  lemma FirstAnswerSticks(c: Catalog, r: Round, sid: ParticipantId, first: Option<FlagId>, t1: int, second: Option<FlagId>, t2: int)
    requires r.flagId in c.names
    requires RecordAnswer(c, r, sid, first, t1).Accepted?
    ensures var r1 := RecordAnswer(c, r, sid, first, t1).round;
      RecordAnswer(c, r1, sid, second, t2).Rejected? || RecordAnswer(c, r1, sid, second, t2) == Accepted(r1)
  {
  }

  /** Choosing the target id itself is always judged correct. */
  lemma TargetIsCorrect(c: Catalog, r: Round, sid: ParticipantId, now: int)
    requires r.flagId in c.names
    requires now - r.startTime <= RoundDurationMs && sid !in r.answers
    ensures var s := RecordAnswer(c, r, sid, Some(r.flagId), now);
      s.Accepted? && s.round.answers[sid].correct
  {
  }

  /**
   * Correctness compares display names, not ids: a different id whose display
   * name equals the target's is judged correct too.
   */
  lemma SameNameIsCorrect(c: Catalog, r: Round, sid: ParticipantId, other: FlagId, now: int)
    requires r.flagId in c.names && other in c.names
    requires other != r.flagId && c.names[other] == c.names[r.flagId]
    requires now - r.startTime <= RoundDurationMs && sid !in r.answers
    ensures var s := RecordAnswer(c, r, sid, Some(other), now);
      s.Accepted? && s.round.answers[sid] == Answer(other, true)
  {
  }

  /** Recording an answer keeps a round well formed. */
  lemma RecordAnswerKeepsWellFormed(c: Catalog, r: Round, sid: ParticipantId, choice: Option<FlagId>, now: int)
    requires WellFormed(c, r)
    ensures RecordAnswer(c, r, sid, choice, now).Accepted? ==> WellFormed(c, RecordAnswer(c, r, sid, choice, now).round)
  {
  }
}
