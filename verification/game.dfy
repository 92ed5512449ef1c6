/** The round state of the game page and the four user actions that change
    it: start, new round, submit prompts, and vote. The page keeps this
    state in the globals `round`, `secretPrompt` and `generatedEntries`; here
    it is one value passed into and returned from each action. */
module Game {
  import opened Wrappers
  import opened Text
  import opened Entries
  import PromptHash
  import Voting
  import Ranking

  /** The candidate secret prompts, one of which each round picks. */
  const PromptSeeds: seq<string> := [
    "cinematic astronaut in neon jungle, volumetric lighting, ultra detailed",
    "cozy cabin by a frozen lake at sunrise, watercolor, soft pastel tones",
    "tiny dragon librarian reading glowing books, fantasy illustration",
    "retro-futuristic city with flying trams, rainy night, synthwave",
    "underwater temple covered in coral, sunrays through water, realism",
    "mountain village on floating islands, golden hour, digital painting"
  ]

  /** Seed `index` as the JavaScript string the page holds. */
  function SeedPrompt(index: nat): JsString
    requires index < |PromptSeeds|
  {
    Utf16(PromptSeeds[index])
  }

  predicate IsSeedPrompt(p: JsString) {
    exists index :: 0 <= index < |PromptSeeds| && p == SeedPrompt(index)
  }

  const ChoosePlayersAlert: string := "Choose between 2 and 8 players."
  const MissingPromptAlert: string := "All players must submit a prompt."
  const MissingVoteAlert: string := "Every player must cast a vote."

  /** A JavaScript number as `Number(input.value)` may return it. */
  datatype JsNumber = NaN | PositiveInfinity | NegativeInfinity | Finite(value: real)

  /** `n < x` on a JavaScript number: false whenever `n` is `NaN`. */
  predicate LessThan(n: JsNumber, x: real) {
    match n
    case NaN => false
    case PositiveInfinity => false
    case NegativeInfinity => true
    case Finite(v) => v < x
  }

  /** `n > x` on a JavaScript number: false whenever `n` is `NaN`. */
  predicate GreaterThan(n: JsNumber, x: real) {
    match n
    case NaN => false
    case PositiveInfinity => true
    case NegativeInfinity => false
    case Finite(v) => v > x
  }

  /** The start button's guard, as written:
      `!(Number.isNaN(count) || count < 2 || count > 8)`. */
  predicate PlayerCountAccepted(count: JsNumber) {
    !(count.NaN? || LessThan(count, 2.0) || GreaterThan(count, 8.0))
  }

  /** A player count is accepted exactly when it is a finite number from 2
      to 8; fractional counts such as 2.5 pass. */
  lemma PlayerCountAcceptedIff(count: JsNumber)
    ensures PlayerCountAccepted(count) <==> count.Finite? && 2.0 <= count.value <= 8.0
  {
  }

  /** How many prompt boxes `renderPlayerInputs(count)` creates: one for
      each `i = 1, 2, ...` with `i <= count`. */
  function PlayerSlots(count: real): (n: nat)
    ensures count < 1.0 ==> n == 0
    ensures count >= 1.0 ==> n as real <= count < n as real + 1.0
  {
    if count < 1.0 then 0 else count.Floor
  }

  /** An accepted count yields between 2 and 8 players. */
  lemma AcceptedCountSlots(count: JsNumber)
    requires PlayerCountAccepted(count)
    ensures 2 <= PlayerSlots(count.value) <= 8
  {
    var n := PlayerSlots(count.value);
    assert 2 <= n by { assert 2 as real <= count.value; }
    assert !(9 <= n) by { assert !(9 as real <= count.value); }
  }

  /** The page state: round ordinal, secret prompt, target image, number of
      prompt boxes, and `generatedEntries`. */
  datatype RoundState = RoundState(
    round: nat,
    secretPrompt: JsString,
    targetImage: string,
    playerSlots: nat,
    entries: seq<Entry>)

  /** The state when the page loads. */
  const Initial: RoundState := RoundState(1, [], "", 0, [])

  /** The outcome of an action: the new state and the alert shown, if any. */
  datatype Step = Step(state: RoundState, alert: Option<string>)

  /** An entry as built on a successful submission for player `player`. */
  predicate IsSubmittedEntry(e: Entry, player: nat) {
    && e.player == player
    && e.prompt != []
    && !IsWhitespace(e.prompt[0]) && !IsWhitespace(e.prompt[|e.prompt| - 1])
    && e.imageUrl == PromptHash.ImageFromPrompt(e.prompt)
  }

  /** The invariant every reachable state keeps. */
  predicate WellFormed(s: RoundState) {
    && s.round >= 1
    && (s.entries == [] || |s.entries| == s.playerSlots)
    && forall i :: 0 <= i < |s.entries| ==> IsSubmittedEntry(s.entries[i], i + 1)
  }

  lemma InitialWellFormed()
    ensures WellFormed(Initial)
  {
  }

  /** `createRound` with `Math.floor(Math.random() * promptSeeds.length)`
      given as `index`: a fresh secret, its target image, and no entries. */
  function CreateRound(s: RoundState, index: nat): (r: RoundState)
    requires index < |PromptSeeds|
    ensures r.round == s.round && r.playerSlots == s.playerSlots
    ensures IsSeedPrompt(r.secretPrompt)
    ensures r.targetImage == PromptHash.ImageFromPrompt(r.secretPrompt)
    ensures r.entries == []
  {
    var secret := SeedPrompt(index);
    s.(secretPrompt := secret,
       targetImage := PromptHash.ImageFromPrompt(secret),
       entries := [])
  }

  /** The start button: rejects a bad player count with an alert and no
      change; otherwise lays out the prompt boxes and creates a round. */
  function Start(s: RoundState, count: JsNumber, index: nat): (r: Step)
    requires index < |PromptSeeds|
    ensures r.alert.None? <==> count.Finite? && 2.0 <= count.value <= 8.0
    ensures r.alert.Some? ==> r.state == s && r.alert.value == ChoosePlayersAlert
    ensures r.alert.None? ==>
              && r.state.round == s.round
              && 2 <= r.state.playerSlots <= 8
              && r.state.entries == []
              && IsSeedPrompt(r.state.secretPrompt)
    ensures r.alert.None? ==>
              && r.state.playerSlots == PlayerSlots(count.value)
              && r.state.secretPrompt == SeedPrompt(index)
              && r.state.targetImage == PromptHash.ImageFromPrompt(r.state.secretPrompt)
    ensures WellFormed(s) ==> WellFormed(r.state)
  {
    PlayerCountAcceptedIff(count);
    if !PlayerCountAccepted(count) then
      Step(s, Some(ChoosePlayersAlert))
    else
      AcceptedCountSlots(count);
      Step(CreateRound(s.(playerSlots := PlayerSlots(count.value)), index), None)
  }

  /** The new-round button: the ordinal goes up by exactly one, the chosen
      seed and its placeholder image are installed, and every entry of the
      previous round is discarded. */
  function NewRound(s: RoundState, index: nat): (r: RoundState)
    requires index < |PromptSeeds|
    ensures r.round == s.round + 1
    ensures r.entries == []
    ensures r.playerSlots == s.playerSlots
    ensures r.secretPrompt == SeedPrompt(index)
    ensures r.targetImage == PromptHash.ImageFromPrompt(r.secretPrompt)
    ensures WellFormed(s) ==> WellFormed(r)
  {
    CreateRound(s.(round := s.round + 1), index)
  }

  /** The trimmed prompts of all boxes, paired with players 1..n. */
  function TrimmedPrompts(inputs: seq<JsString>): (r: seq<JsString>)
    ensures |r| == |inputs|
    ensures forall i :: 0 <= i < |r| ==> r[i] == Trim(inputs[i])
    ensures forall i :: 0 <= i < |r| ==> (r[i] == [] <==> AllWhitespace(inputs[i]))
  {
    forall i | 0 <= i < |inputs|
      ensures Trim(inputs[i]) == [] <==> AllWhitespace(inputs[i])
    {
      TrimEmptyIffAllWhitespace(inputs[i]);
    }
    seq(|inputs|, i requires 0 <= i < |inputs| => Trim(inputs[i]))
  }

  lemma BlankPromptIffWhitespace(inputs: seq<JsString>)
    ensures (exists i :: 0 <= i < |inputs| && TrimmedPrompts(inputs)[i] == [])
            <==> (exists i :: 0 <= i < |inputs| && AllWhitespace(inputs[i]))
  {
    var prompts := TrimmedPrompts(inputs);
    if exists i :: 0 <= i < |inputs| && AllWhitespace(inputs[i]) {
      var i :| 0 <= i < |inputs| && AllWhitespace(inputs[i]);
      assert prompts[i] == [];
    }
  }

  /** The entries built from non-blank trimmed prompts. */
  function SubmittedEntries(prompts: seq<JsString>): (entries: seq<Entry>)
    requires forall i :: 0 <= i < |prompts| ==>
               prompts[i] != [] && !IsWhitespace(prompts[i][0]) && !IsWhitespace(prompts[i][|prompts[i]| - 1])
    ensures |entries| == |prompts|
    ensures forall i :: 0 <= i < |prompts| ==>
              && IsSubmittedEntry(entries[i], i + 1)
              && entries[i].prompt == prompts[i]
              && entries[i].votes == 0
  {
    seq(|prompts|, i requires 0 <= i < |prompts| =>
      Entry(i + 1, prompts[i], PromptHash.ImageFromPrompt(prompts[i]), 0))
  }

  /** The prompt form: one raw text per prompt box. If any prompt is blank
      after trimming, the submission is refused and nothing changes;
      otherwise entry i belongs to player i + 1, holds the trimmed prompt,
      its placeholder image and no votes. */
  function Submit(s: RoundState, inputs: seq<JsString>): (r: Step)
    requires |inputs| == s.playerSlots
    ensures r.alert.Some? <==> exists i :: 0 <= i < |inputs| && AllWhitespace(inputs[i])
    ensures r.alert.Some? ==> r.state == s && r.alert.value == MissingPromptAlert
    ensures r.alert.None? ==>
              && r.state == s.(entries := r.state.entries)
              && |r.state.entries| == |inputs|
              && forall i :: 0 <= i < |inputs| ==>
                   && IsSubmittedEntry(r.state.entries[i], i + 1)
                   && r.state.entries[i].prompt == Trim(inputs[i])
                   && r.state.entries[i].votes == 0
    ensures WellFormed(s) ==> WellFormed(r.state)
  {
    var prompts := TrimmedPrompts(inputs);
    BlankPromptIffWhitespace(inputs);
    if exists i :: 0 <= i < |prompts| && prompts[i] == [] then
      Step(s, Some(MissingPromptAlert))
    else
      Step(s.(entries := SubmittedEntries(prompts)), None)
  }

  /** What the vote button shows. */
  datatype VoteResult =
    | NothingToVoteOn
    | VoteRefused(alert: string)
    | Results(ranked: seq<Entry>, winner: Entry)

  datatype VoteStep = VoteStep(state: RoundState, result: VoteResult)

  /** The vote button, with one select per entry. Does nothing without
      entries; refuses the whole vote, changing nothing, if any select still
      shows the placeholder or holds a number below 1; otherwise stores the
      tally in the entries and ranks them. */
  function CastVotes(s: RoundState, selections: seq<Option<nat>>): (r: VoteStep)
    requires |selections| == |s.entries|
    ensures r.result.NothingToVoteOn? <==> s.entries == []
    ensures r.result.VoteRefused? <==>
              s.entries != [] && exists i :: 0 <= i < |selections| && Voting.SelectedNumber(selections[i]) < 1
    ensures r.result.VoteRefused? ==> r.result.alert == MissingVoteAlert
    ensures !r.result.Results? ==> r.state == s
    ensures r.result.Results? ==>
              && r.state == s.(entries := Voting.Tally(s.entries, Voting.CollectVotes(s.entries, selections)))
              && r.state.entries != []
              && r.result == RankTallied(r.state.entries)
    ensures WellFormed(s) ==> WellFormed(r.state)
  {
    if s.entries == [] then
      VoteStep(s, NothingToVoteOn)
    else
      var votes := Voting.CollectVotes(s.entries, selections);
      if !Voting.AllVotesCast(votes) then
        VoteStep(s, VoteRefused(MissingVoteAlert))
      else
        var tallied := Voting.Tally(s.entries, votes);
        TallyKeepsWellFormed(s, votes);
        VoteStep(s.(entries := tallied), RankTallied(tallied))
  }

  /** Tallying changes only vote counts, so submitted entries stay
      submitted entries. */
  lemma TallyKeepsWellFormed(s: RoundState, votes: seq<Voting.Vote>)
    ensures WellFormed(s) ==> WellFormed(s.(entries := Voting.Tally(s.entries, votes)))
  {
  }

  /** The scoreboard and the winner: the tallied entries ranked by a stable
      descending sort, and the first of them. The winner has the most votes,
      and among the entries tied for the most it is the one submitted first,
      which for players numbered 1..n is the lowest-numbered player. */
  function RankTallied(tallied: seq<Entry>): (r: VoteResult)
    requires tallied != []
    ensures r.Results?
    ensures Ranking.IsStableRanking(tallied, r.ranked)
    ensures multiset(r.ranked) == multiset(tallied)
    ensures r.winner == r.ranked[0]
    ensures r.winner in tallied
    ensures forall e :: e in tallied ==> e.votes <= r.winner.votes
    ensures NumberedInOrder(tallied) ==>
              forall e :: e in tallied && e.votes == r.winner.votes ==> r.winner.player <= e.player
  {
    var ranked := Ranking.Rank(tallied);
    Ranking.RankIsStable(tallied);
    Ranking.RankSortedPermutation(tallied);
    WinnerOfNumberedRanking(tallied, ranked);
    Results(ranked, ranked[0])
  }

  /** The head of any stable ranking of entries numbered 1..n. */
  lemma WinnerOfNumberedRanking(entries: seq<Entry>, ranked: seq<Entry>)
    requires entries != []
    requires Ranking.IsStableRanking(entries, ranked)
    ensures ranked != [] && ranked[0] in entries
    ensures forall e :: e in entries ==> e.votes <= ranked[0].votes
    ensures NumberedInOrder(entries) ==>
              forall e :: e in entries && e.votes == ranked[0].votes ==> ranked[0].player <= e.player
  {
    var w := Ranking.FirstMax(entries);
    Ranking.StableRankingHead(entries, ranked);
    if NumberedInOrder(entries) {
      forall e | e in entries && e.votes == entries[w].votes
        ensures entries[w].player <= e.player
      {
        var j :| 0 <= j < |entries| && entries[j] == e;
      }
    }
  }

  /** Over a round whose entries were submitted, votes taken from the
      offered options are always accepted and each one is counted. */
  lemma OfferedVotesTallied(s: RoundState, selections: seq<Option<nat>>)
    requires WellFormed(s) && s.entries != []
    requires |selections| == |s.entries|
    requires forall i :: 0 <= i < |s.entries| ==>
               selections[i].Some? && selections[i].value in Voting.VoteOptions(s.entries, s.entries[i].player)
    ensures CastVotes(s, selections).result.Results?
    ensures TotalVotes(CastVotes(s, selections).state.entries) == |s.entries|
  {
    Voting.OfferedVotesAreCounted(s.entries, selections);
  }
}
