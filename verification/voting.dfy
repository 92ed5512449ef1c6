/** The voting step of the game page: the options each voter is offered,
    the gate on the collected votes, and the tally. */
module Voting {
  import opened Wrappers
  import opened Entries

  /** `{ voter, votedFor }` as collected from the vote form. */
  datatype Vote = Vote(voter: nat, votedFor: int)

  /** `Number(select.value)`: a voter's select holds either the placeholder,
      whose value `""` converts to 0, or an option whose value is a player
      number written in decimal. */
  function SelectedNumber(selection: Option<nat>): (n: int)
    ensures n >= 0
    ensures selection.Some? ==> n == selection.value
    ensures selection.None? ==> n < 1
  {
    match selection
    case None => 0
    case Some(p) => p
  }

  /** The player numbers offered to `voter`: every other entry's player, in
      entry order. */
  function VoteOptions(entries: seq<Entry>, voter: nat): (r: seq<nat>)
    ensures forall i :: 0 <= i < |r| ==> r[i] != voter
    ensures forall p :: p in r <==> p in Players(entries) && p != voter
    ensures |r| <= |entries|
  {
    if entries == [] then []
    else
      var rest := VoteOptions(entries[1..], voter);
      assert Players(entries) == [entries[0].player] + Players(entries[1..]);
      (if entries[0].player != voter then [entries[0].player] else []) + rest
  }

  /** With players numbered 1..n, a voter is offered exactly the n - 1
      other players. */
  lemma {:induction false} VoteOptionsCount(entries: seq<Entry>, voter: nat)
    requires DistinctPlayers(entries)
    requires voter in Players(entries)
    ensures |VoteOptions(entries, voter)| == |entries| - 1
  {
    var e := entries[0];
    if e.player != voter {
      assert voter in Players(entries[1..]) by {
        var i :| 0 <= i < |entries| && Players(entries)[i] == voter;
        assert Players(entries[1..])[i - 1] == voter;
      }
      VoteOptionsCount(entries[1..], voter);
    } else {
      assert voter !in Players(entries[1..]) by {
        forall i | 0 <= i < |entries| - 1 ensures Players(entries[1..])[i] != voter {
          assert entries[1..][i] == entries[i + 1];
        }
      }
      OptionsWithoutVoter(entries[1..], voter);
    }
  }

  /** A voter who is not among the entries is offered all of them. */
  lemma {:induction false} OptionsWithoutVoter(entries: seq<Entry>, voter: nat)
    requires voter !in Players(entries)
    ensures |VoteOptions(entries, voter)| == |entries|
  {
    if entries != [] {
      assert Players(entries)[0] == entries[0].player;
      assert voter !in Players(entries[1..]) by {
        forall i | 0 <= i < |entries| - 1 ensures Players(entries[1..])[i] != voter {
          assert Players(entries[1..])[i] == Players(entries)[i + 1];
        }
      }
      OptionsWithoutVoter(entries[1..], voter);
    }
  }

  /** One vote per entry: entry i votes with the number read from its
      select. */
  function CollectVotes(entries: seq<Entry>, selections: seq<Option<nat>>): (votes: seq<Vote>)
    requires |selections| == |entries|
    ensures |votes| == |entries|
    ensures forall i :: 0 <= i < |votes| ==>
              votes[i] == Vote(entries[i].player, SelectedNumber(selections[i]))
  {
    seq(|entries|, i requires 0 <= i < |entries| =>
      Vote(entries[i].player, SelectedNumber(selections[i])))
  }

  /** The gate: no vote may be below 1. */
  predicate AllVotesCast(votes: seq<Vote>) {
    forall i :: 0 <= i < |votes| ==> votes[i].votedFor >= 1
  }

  /** `voteValues.filter((vote) => vote.votedFor === player).length`. */
  function CountFor(votes: seq<Vote>, player: nat): (n: nat)
    ensures n <= |votes|
  {
    if votes == [] then 0
    else (if votes[0].votedFor == player then 1 else 0) + CountFor(votes[1..], player)
  }

  /** Every entry's `votes` set to the number of voters who chose it; nothing
      else about an entry changes. */
  function Tally(entries: seq<Entry>, votes: seq<Vote>): (r: seq<Entry>)
    ensures |r| == |entries|
    ensures forall i :: 0 <= i < |r| ==>
              r[i] == entries[i].(votes := CountFor(votes, entries[i].player))
  {
    seq(|entries|, i requires 0 <= i < |entries| =>
      entries[i].(votes := CountFor(votes, entries[i].player)))
  }

  /** The player number each vote names, in voter order. */
  function Choices(votes: seq<Vote>): (r: seq<int>)
    ensures |r| == |votes|
    ensures forall i :: 0 <= i < |votes| ==> r[i] == votes[i].votedFor
  {
    seq(|votes|, i requires 0 <= i < |votes| => votes[i].votedFor)
  }

  /** The recursive count agrees with the number of times `player` occurs
      among the choices. */
  lemma {:induction false} CountForIsMultiplicity(votes: seq<Vote>, player: nat)
    ensures CountFor(votes, player) == multiset(Choices(votes))[player]
  {
    if votes != [] {
      CountForIsMultiplicity(votes[1..], player);
      assert Choices(votes) == [votes[0].votedFor] + Choices(votes[1..]);
    }
  }

  /** After the tally every entry's count is the number of voters who chose
      its player, and its player, prompt and image are untouched. */
  lemma TallyCountsVoters(entries: seq<Entry>, votes: seq<Vote>)
    ensures |Tally(entries, votes)| == |entries|
    ensures forall i :: 0 <= i < |entries| ==>
              && Tally(entries, votes)[i].votes == multiset(Choices(votes))[entries[i].player]
              && Tally(entries, votes)[i] == entries[i].(votes := Tally(entries, votes)[i].votes)
  {
    forall i | 0 <= i < |entries|
      ensures Tally(entries, votes)[i].votes == multiset(Choices(votes))[entries[i].player]
    {
      CountForIsMultiplicity(votes, entries[i].player);
    }
  }

  /** How many of `players` equal `x`. */
  function Hits(players: seq<nat>, x: int): nat {
    if players == [] then 0 else (if players[0] == x then 1 else 0) + Hits(players[1..], x)
  }

  /** The votes counted for each of `players`, summed. */
  function SumOfCounts(players: seq<nat>, votes: seq<Vote>): nat {
    if players == [] then 0 else CountFor(votes, players[0]) + SumOfCounts(players[1..], votes)
  }

  lemma {:induction false} HitsOfDistinct(players: seq<nat>, x: int)
    requires Distinct(players)
    ensures Hits(players, x) <= 1
    ensures Hits(players, x) == 1 <==> x in players
  {
    if players != [] {
      HitsOfDistinct(players[1..], x);
      if players[0] == x {
        assert x !in players[1..] by {
          forall i | 0 <= i < |players| - 1 ensures players[1..][i] != x {
            assert players[i + 1] != players[0];
          }
        }
      }
      assert players == [players[0]] + players[1..];
    }
  }

  lemma {:induction false} SumOfCountsStep(players: seq<nat>, votes: seq<Vote>)
    requires votes != []
    ensures SumOfCounts(players, votes)
            == Hits(players, votes[0].votedFor) + SumOfCounts(players, votes[1..])
  {
    if players != [] {
      SumOfCountsStep(players[1..], votes);
    }
  }

  lemma {:induction false} SumOfCountsBound(players: seq<nat>, votes: seq<Vote>)
    requires Distinct(players)
    ensures SumOfCounts(players, votes) <= |votes|
    ensures (forall i :: 0 <= i < |votes| ==> votes[i].votedFor in players)
            ==> SumOfCounts(players, votes) == |votes|
  {
    if votes == [] {
      SumOfCountsEmpty(players);
    } else {
      SumOfCountsStep(players, votes);
      HitsOfDistinct(players, votes[0].votedFor);
      SumOfCountsBound(players, votes[1..]);
    }
  }

  lemma {:induction false} SumOfCountsEmpty(players: seq<nat>)
    ensures SumOfCounts(players, []) == 0
  {
    if players != [] {
      SumOfCountsEmpty(players[1..]);
    }
  }

  lemma {:induction false} TotalOfTally(entries: seq<Entry>, votes: seq<Vote>)
    ensures TotalVotes(Tally(entries, votes)) == SumOfCounts(Players(entries), votes)
  {
    if entries != [] {
      TotalOfTally(entries[1..], votes);
      assert Tally(entries, votes)[1..] == Tally(entries[1..], votes);
      assert Players(entries)[1..] == Players(entries[1..]);
    }
  }

  /** Vote conservation: with distinct players the tallied counts add up to
      at most the number of votes, and to exactly that number when every
      vote names one of the players. */
  lemma TallyConservesVotes(entries: seq<Entry>, votes: seq<Vote>)
    requires DistinctPlayers(entries)
    ensures TotalVotes(Tally(entries, votes)) <= |votes|
    ensures (forall i :: 0 <= i < |votes| ==> votes[i].votedFor in Players(entries))
            ==> TotalVotes(Tally(entries, votes)) == |votes|
  {
    TotalOfTally(entries, votes);
    SumOfCountsBound(Players(entries), votes);
  }

  /** Votes picked from the offered options always pass the gate, nobody
      votes for themselves, and every vote is counted for someone. */
  lemma OfferedVotesAreCounted(entries: seq<Entry>, selections: seq<Option<nat>>)
    requires NumberedInOrder(entries)
    requires |selections| == |entries|
    requires forall i :: 0 <= i < |entries| ==>
               selections[i].Some? && selections[i].value in VoteOptions(entries, entries[i].player)
    ensures AllVotesCast(CollectVotes(entries, selections))
    ensures forall i :: 0 <= i < |entries| ==>
              CollectVotes(entries, selections)[i].votedFor != entries[i].player
    ensures TotalVotes(Tally(entries, CollectVotes(entries, selections))) == |entries|
  {
    var votes := CollectVotes(entries, selections);
    forall i | 0 <= i < |votes| ensures votes[i].votedFor in Players(entries) && votes[i].votedFor >= 1 {
      var p := selections[i].value;
      assert p in Players(entries);
      var j :| 0 <= j < |entries| && Players(entries)[j] == p;
    }
    TallyConservesVotes(entries, votes);
  }
}
