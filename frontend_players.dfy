/** The player entries the role screens fetch and the name filter both screens apply (components/roles). */
module FrontendPlayers {

  /** One element of the `/players` response as the screens keep it. */
  datatype Entry = Entry(name: string, sid: string)

  /** `allPlayers.filter((player) => player.name !== excludedName)` */
  function Candidates(players: seq<Entry>, excludedName: string): seq<Entry>
  {
    if players == [] then []
    else (if players[0].name != excludedName then [players[0]] else []) + Candidates(players[1..], excludedName)
  }

  /** The candidates are exactly the players not carrying the excluded name, in their original order. */
  lemma {:induction false} CandidatesFacts(players: seq<Entry>, excludedName: string)
    ensures forall e :: e in Candidates(players, excludedName) <==> e in players && e.name != excludedName
    ensures |Candidates(players, excludedName)| <= |players|
    ensures (forall e :: e in players ==> e.name != excludedName) ==> Candidates(players, excludedName) == players
  {
    if players != [] {
      CandidatesFacts(players[1..], excludedName);
      assert players == [players[0]] + players[1..];
    }
  }

  /** Filtering splits over concatenation, so the list order is preserved. */
  lemma {:induction false} CandidatesAppend(xs: seq<Entry>, ys: seq<Entry>, excludedName: string)
    ensures Candidates(xs + ys, excludedName) == Candidates(xs, excludedName) + Candidates(ys, excludedName)
  {
    if xs != [] {
      assert (xs + ys)[1..] == xs[1..] + ys;
      CandidatesAppend(xs[1..], ys, excludedName);
    } else {
      assert xs + ys == ys;
    }
  }
}
