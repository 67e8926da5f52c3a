/** The Hunter's single-target selection screen (loup-garou-frontend/components/roles/Hunter.tsx). */
module HunterScreen {
  import opened Wrappers
  import opened FrontendPlayers

  /**
   * `setSelectedPlayer(selectedPlayer === sid ? null : sid)`: at most one player is chosen at a
   * time; tapping the chosen one clears the choice, tapping anyone else makes them the choice.
   */
  function Toggle(selected: Option<string>, sid: string): (r: Option<string>)
    ensures r.None? <==> selected == Some(sid)
    ensures r.Some? ==> r.value == sid
  {
    if selected == Some(sid) then None else Some(sid)
  }

  /** `disabled={!selectedPlayer}`: `null` and the empty sid both count as no selection. */
  predicate ConfirmEnabled(selected: Option<string>)
  {
    selected.Some? && selected.value != ""
  }

  /** `players.find((player) => player.sid === selectedPlayer)` */
  function ChosenPlayer(candidates: seq<Entry>, sid: string): (r: Option<Entry>)
  {
    if candidates == [] then None
    else if candidates[0].sid == sid then Some(candidates[0])
    else ChosenPlayer(candidates[1..], sid)
  }

  /** The lookup finds the first candidate carrying the sid, and nothing when none does. */
  lemma {:induction false} ChosenPlayerFacts(candidates: seq<Entry>, sid: string)
    ensures ChosenPlayer(candidates, sid).None? <==> forall e :: e in candidates ==> e.sid != sid
    ensures ChosenPlayer(candidates, sid).Some? ==>
      exists i :: 0 <= i < |candidates| && candidates[i] == ChosenPlayer(candidates, sid).value
        && candidates[i].sid == sid && forall j :: 0 <= j < i ==> candidates[j].sid != sid
  {
    if candidates != [] {
      ChosenPlayerFacts(candidates[1..], sid);
      if candidates[0].sid != sid {
        assert candidates == [candidates[0]] + candidates[1..];
        var r := ChosenPlayer(candidates, sid);
        if r.Some? {
          var i :| 0 <= i < |candidates[1..]| && candidates[1..][i] == r.value
            && candidates[1..][i].sid == sid && forall j :: 0 <= j < i ==> candidates[1..][j].sid != sid;
          assert candidates[i + 1] == r.value;
          forall j | 0 <= j < i + 1 ensures candidates[j].sid != sid {
            if j > 0 { assert candidates[j] == candidates[1..][j - 1]; }
          }
        }
      }
    }
  }

  /**
   * The confirm button: `None` when it is disabled (nothing is sent), otherwise what
   * `hunter_selection` receives, possibly no player when the sid is not among the candidates.
   */
  function Confirm(candidates: seq<Entry>, selected: Option<string>): (r: Option<Option<Entry>>)
  {
    if ConfirmEnabled(selected) then Some(ChosenPlayer(candidates, selected.value)) else None
  }

  /** Nothing is sent without a selection; a selected candidate is sent itself. */
  lemma ConfirmSendsSelection(candidates: seq<Entry>, selected: Option<string>, name: string)
    ensures selected.None? ==> Confirm(candidates, selected).None?
    ensures selected.Some? && selected.value != "" && Entry(name, selected.value) in candidates
      && (forall e :: e in candidates && e.sid == selected.value ==> e.name == name)
      ==> Confirm(candidates, selected) == Some(Some(Entry(name, selected.value)))
  {
    if selected.Some? {
      ChosenPlayerFacts(candidates, selected.value);
    }
  }
}
