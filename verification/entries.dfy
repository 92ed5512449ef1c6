/** The records the game page keeps for one round: `generatedEntries`. */
module Entries {
  import opened Text

  /** `{ player, prompt, imageUrl, votes }` as built on submission. */
  datatype Entry = Entry(player: nat, prompt: JsString, imageUrl: string, votes: nat)

  /** The player numbers of `entries`, in order. */
  function Players(entries: seq<Entry>): (r: seq<nat>)
    ensures |r| == |entries|
    ensures forall i :: 0 <= i < |entries| ==> r[i] == entries[i].player
  {
    seq(|entries|, i requires 0 <= i < |entries| => entries[i].player)
  }

  /** Players are numbered 1..n in submission order. */
  predicate NumberedInOrder(entries: seq<Entry>) {
    forall i :: 0 <= i < |entries| ==> entries[i].player == i + 1
  }

  /** No number occurs twice. */
  predicate Distinct(players: seq<nat>) {
    forall i, j :: 0 <= i < j < |players| ==> players[i] != players[j]
  }

  /** No two entries belong to the same player. */
  predicate DistinctPlayers(entries: seq<Entry>) {
    Distinct(Players(entries))
  }

  /** The sum of all vote counts. */
  function TotalVotes(entries: seq<Entry>): nat {
    if entries == [] then 0 else entries[0].votes + TotalVotes(entries[1..])
  }
}
