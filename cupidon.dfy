/** Cupid's two-player selection screen (loup-garou-frontend/components/roles/Cupidon.tsx). */
module CupidonScreen {
  import opened Seqs
  import opened FrontendPlayers

  /** `prevSelected.filter((id) => id !== sid)` */
  function Without(selected: seq<string>, sid: string): seq<string>
  {
    if selected == [] then []
    else (if selected[0] != sid then [selected[0]] else []) + Without(selected[1..], sid)
  }

  /** Deselecting drops exactly that sid, shortening a selection that held it. */
  lemma {:induction false} WithoutMembers(selected: seq<string>, sid: string)
    ensures forall x :: x in Without(selected, sid) <==> x in selected && x != sid
    ensures |Without(selected, sid)| <= |selected|
    ensures sid in selected ==> |Without(selected, sid)| < |selected|
    ensures sid !in selected ==> Without(selected, sid) == selected
  {
    if selected != [] {
      WithoutMembers(selected[1..], sid);
      assert selected == [selected[0]] + selected[1..];
    }
  }

  /** Deselecting keeps a duplicate-free selection duplicate-free. */
  lemma {:induction false} WithoutDistinct(selected: seq<string>, sid: string)
    requires Distinct(selected)
    ensures Distinct(Without(selected, sid))
  {
    if selected != [] {
      var rest := selected[1..];
      assert Distinct(rest) by {
        forall i, j | 0 <= i < j < |rest| ensures rest[i] != rest[j] {
          assert rest[i] == selected[i + 1] && rest[j] == selected[j + 1];
        }
      }
      WithoutDistinct(rest, sid);
      if selected[0] != sid {
        var wr := Without(rest, sid);
        WithoutMembers(rest, sid);
        assert selected[0] !in wr by {
          forall k | 0 <= k < |rest| ensures rest[k] != selected[0] {
            assert rest[k] == selected[k + 1];
          }
        }
        DistinctCons(selected[0], wr);
      }
    }
  }

  /** Putting a new element in front of a duplicate-free list. */
  lemma DistinctCons(x: string, s: seq<string>)
    requires Distinct(s) && x !in s
    ensures Distinct([x] + s)
  {
    var w := [x] + s;
    forall i, j | 0 <= i < j < |w| ensures w[i] != w[j] {
      assert w[j] == s[j - 1];
      if i > 0 { assert w[i] == s[i - 1]; }
    }
  }

  /** `togglePlayerSelection`: deselect, select while fewer than two are chosen, or ignore. */
  function Toggle(selected: seq<string>, sid: string): seq<string>
  {
    if sid in selected then Without(selected, sid)
    else if |selected| < 2 then selected + [sid]
    else selected
  }

  /** The three cases of the toggle, each with what it leaves selected. */
  lemma ToggleCases(selected: seq<string>, sid: string)
    ensures sid in selected ==> forall x :: x in Toggle(selected, sid) <==> x in selected && x != sid
    ensures sid !in selected && |selected| < 2 ==> Toggle(selected, sid) == selected + [sid]
    ensures sid !in selected && |selected| >= 2 ==> Toggle(selected, sid) == selected
  {
    WithoutMembers(selected, sid);
  }

  /** The selection stays duplicate-free and never holds more than two sids. */
  lemma ToggleKeepsSelectionValid(selected: seq<string>, sid: string)
    requires Distinct(selected) && |selected| <= 2
    ensures Distinct(Toggle(selected, sid)) && |Toggle(selected, sid)| <= 2
  {
    WithoutMembers(selected, sid);
    if sid in selected {
      WithoutDistinct(selected, sid);
    } else if |selected| < 2 {
      var r := selected + [sid];
      forall i, j | 0 <= i < j < |r| ensures r[i] != r[j] {
        if j == |selected| { assert r[i] in selected; }
      }
    }
  }

  /** Any run of taps from an empty selection keeps it valid. */
  lemma {:induction false} TapsKeepSelectionValid(selected: seq<string>, taps: seq<string>)
    requires Distinct(selected) && |selected| <= 2
    ensures Distinct(TapAll(selected, taps)) && |TapAll(selected, taps)| <= 2
    decreases |taps|
  {
    if taps != [] {
      ToggleKeepsSelectionValid(selected, taps[0]);
      TapsKeepSelectionValid(Toggle(selected, taps[0]), taps[1..]);
    }
  }

  /** The selection after the taps `taps`, in order. */
  function TapAll(selected: seq<string>, taps: seq<string>): seq<string>
    decreases |taps|
  {
    if taps == [] then selected else TapAll(Toggle(selected, taps[0]), taps[1..])
  }

  /** Tapping an unselected player twice, with room to select, returns to where it started. */
  lemma ToggleTwiceRestores(selected: seq<string>, sid: string)
    requires sid !in selected && |selected| < 2
    ensures Toggle(Toggle(selected, sid), sid) == selected
  {
    WithoutAppend(selected, sid);
  }

  lemma {:induction false} WithoutAppend(selected: seq<string>, sid: string)
    requires sid !in selected
    ensures Without(selected + [sid], sid) == selected
  {
    if selected == [] {
      assert Without([sid], sid) == [] + Without([], sid);
    } else {
      assert (selected + [sid])[1..] == selected[1..] + [sid];
      WithoutAppend(selected[1..], sid);
      assert selected == [selected[0]] + selected[1..];
    }
  }

  /** `players.filter((player) => selectedPlayers.includes(player.sid))`: the chosen players in list order. */
  function Chosen(candidates: seq<Entry>, selected: seq<string>): seq<Entry>
  {
    if candidates == [] then []
    else (if candidates[0].sid in selected then [candidates[0]] else []) + Chosen(candidates[1..], selected)
  }

  /** The filter splits over concatenation, so the chosen players keep the list's order. */
  lemma {:induction false} ChosenAppend(a: seq<Entry>, b: seq<Entry>, selected: seq<string>)
    ensures Chosen(a + b, selected) == Chosen(a, selected) + Chosen(b, selected)
  {
    if a == [] {
      assert a + b == b;
    } else {
      assert (a + b)[0] == a[0] && (a + b)[1..] == a[1..] + b;
      ChosenAppend(a[1..], b, selected);
    }
  }

  /** `r` is `c` with some elements dropped: what remains keeps its relative order. */
  predicate IsSubsequence(r: seq<Entry>, c: seq<Entry>)
    decreases |c|
  {
    r == [] || (c != [] && ((r[0] == c[0] && IsSubsequence(r[1..], c[1..])) || IsSubsequence(r, c[1..])))
  }

  /** A two-element subsequence sits at two increasing positions. */
  lemma {:induction false} PairPositions(x: Entry, y: Entry, c: seq<Entry>)
    requires IsSubsequence([x, y], c)
    ensures exists a, b :: 0 <= a < b < |c| && c[a] == x && c[b] == y
    decreases |c|
  {
    if [x, y][0] == c[0] && IsSubsequence([x, y][1..], c[1..]) {
      assert [x, y][1..] == [y];
      var b := OnePosition(y, c[1..]);
      assert c[b + 1] == y;
    } else {
      PairPositions(x, y, c[1..]);
      var a, b :| 0 <= a < b < |c[1..]| && c[1..][a] == x && c[1..][b] == y;
      assert c[a + 1] == x && c[b + 1] == y;
    }
  }

  /** A one-element subsequence sits at some position. */
  lemma {:induction false} OnePosition(y: Entry, c: seq<Entry>) returns (b: nat)
    requires IsSubsequence([y], c)
    ensures b < |c| && c[b] == y
    decreases |c|
  {
    if [y][0] == c[0] {
      b := 0;
    } else {
      b := OnePosition(y, c[1..]);
      b := b + 1;
    }
  }

  /** The candidate sids are distinct (the list is keyed by sid). */
  predicate SidsDistinct(candidates: seq<Entry>)
  {
    forall i, j :: 0 <= i < j < |candidates| ==> candidates[i].sid != candidates[j].sid
  }

  /** The sids of the candidates. */
  function Sids(candidates: seq<Entry>): set<string>
  {
    if candidates == [] then {} else {candidates[0].sid} + Sids(candidates[1..])
  }

  /** The chosen players are exactly the candidates whose sid is selected, in the candidates' order. */
  lemma {:induction false} ChosenMembers(candidates: seq<Entry>, selected: seq<string>)
    ensures forall e :: e in Chosen(candidates, selected) <==> e in candidates && e.sid in selected
    ensures IsSubsequence(Chosen(candidates, selected), candidates)
  {
    if candidates != [] {
      ChosenMembers(candidates[1..], selected);
      assert candidates == [candidates[0]] + candidates[1..];
      var r := Chosen(candidates, selected);
      if candidates[0].sid in selected {
        assert r == [candidates[0]] + Chosen(candidates[1..], selected);
        assert r[1..] == Chosen(candidates[1..], selected);
      } else {
        assert r == Chosen(candidates[1..], selected);
      }
    }
  }

  /** Peeling the head off a list with distinct sids. */
  lemma {:induction false} SidsCons(candidates: seq<Entry>)
    requires candidates != [] && SidsDistinct(candidates)
    ensures SidsDistinct(candidates[1..])
    ensures candidates[0].sid !in Sids(candidates[1..])
  {
    var rest := candidates[1..];
    assert SidsDistinct(rest) by {
      forall i, j | 0 <= i < j < |rest| ensures rest[i].sid != rest[j].sid {
        assert rest[i] == candidates[i + 1] && rest[j] == candidates[j + 1];
      }
    }
    SidsMembers(rest, candidates[0].sid);
    forall k | 0 <= k < |rest| ensures rest[k].sid != candidates[0].sid {
      assert rest[k] == candidates[k + 1];
    }
  }

  /** A sid is among the candidates' sids exactly when some candidate carries it. */
  lemma {:induction false} SidsMembers(candidates: seq<Entry>, sid: string)
    ensures sid in Sids(candidates) <==> exists k :: 0 <= k < |candidates| && candidates[k].sid == sid
  {
    if candidates != [] {
      SidsMembers(candidates[1..], sid);
      if sid in Sids(candidates[1..]) {
        var k :| 0 <= k < |candidates[1..]| && candidates[1..][k].sid == sid;
        assert candidates[k + 1].sid == sid;
      }
      if exists k :: 0 <= k < |candidates| && candidates[k].sid == sid {
        var k :| 0 <= k < |candidates| && candidates[k].sid == sid;
        if k > 0 { assert candidates[1..][k - 1].sid == sid; }
      }
    }
  }

  /** With distinct candidate sids there is one chosen player per selected sid among the candidates. */
  lemma {:induction false} ChosenCount(candidates: seq<Entry>, sel: set<string>, selected: seq<string>)
    requires SidsDistinct(candidates) && forall x :: x in sel <==> x in selected
    ensures |Chosen(candidates, selected)| == |Sids(candidates) * sel|
  {
    if candidates != [] {
      var h := candidates[0].sid;
      var rest := candidates[1..];
      SidsCons(candidates);
      ChosenCount(rest, sel, selected);
      if h in selected {
        assert Sids(candidates) * sel == {h} + Sids(rest) * sel;
        assert h !in Sids(rest) * sel;
      } else {
        assert Sids(candidates) * sel == Sids(rest) * sel;
      }
    }
  }

  /** `disabled={selectedPlayers.length !== 2}` */
  predicate ConfirmEnabled(selected: seq<string>)
  {
    |selected| == 2
  }

  /**
   * Confirming a valid selection of two candidates sends exactly those two players, in list
   * order (not in the order they were tapped).
   */
  lemma ConfirmSendsPair(candidates: seq<Entry>, selected: seq<string>)
    requires SidsDistinct(candidates) && Distinct(selected) && ConfirmEnabled(selected)
    requires forall s :: s in selected ==> s in Sids(candidates)
    ensures |Chosen(candidates, selected)| == 2
    ensures forall e :: e in Chosen(candidates, selected) <==> e in candidates && e.sid in selected
    ensures exists a, b :: 0 <= a < b < |candidates| && Chosen(candidates, selected) == [candidates[a], candidates[b]]
  {
    ChosenMembers(candidates, selected);
    var sel := {selected[0], selected[1]};
    assert selected == [selected[0], selected[1]];
    ChosenCount(candidates, sel, selected);
    assert Sids(candidates) * sel == sel;
    var r := Chosen(candidates, selected);
    assert r == [r[0], r[1]];
    PairPositions(r[0], r[1], candidates);
    var a, b :| 0 <= a < b < |candidates| && candidates[a] == r[0] && candidates[b] == r[1];
    assert r == [candidates[a], candidates[b]];
  }
}
