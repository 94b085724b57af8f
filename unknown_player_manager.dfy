/** The dialog that hands the goals of deleted players (those held by the placeholder player)
    back to real players: the goal-selection toggle, select-all, the list of players a goal
    can go to, and the guard and reset around the reassignment request. */
module UnknownPlayerManager {
  import opened Seqs
  import opened Schema

  /** No id occurs twice. */
  ghost predicate NoDuplicates(s: seq<int>)
  {
    DistinctBy(s, (x: int) => x)
  }

  function Other(id: int): int -> bool
  {
    (x: int) => x != id
  }

  /** `handleGoalSelection`: a selected id is dropped (every occurrence of it), any other id
      is appended. */
  function Toggle(prev: seq<int>, id: int): (r: seq<int>)
    ensures id in r <==> id !in prev
    ensures forall x :: x != id ==> (x in r <==> x in prev)
  {
    FilterMembers(prev, Other(id));
    if id in prev then Filter(prev, Other(id)) else prev + [id]
  }

  /** An unselected id is appended at the end, the rest kept in order; a selected id is
      removed, shortening the list (its order is in `ToggleDeselect`). */
  lemma ToggleShape(prev: seq<int>, id: int)
    ensures id !in prev ==> Toggle(prev, id) == prev + [id]
    ensures id in prev ==> |Toggle(prev, id)| < |prev|
  {
    if id in prev {
      var k :| 0 <= k < |prev| && prev[k] == id;
      assert prev == prev[..k] + [id] + prev[k + 1..];
      FilterAppend(prev[..k] + [id], prev[k + 1..], Other(id));
      FilterAppend(prev[..k], [id], Other(id));
      FilterSingle(id, Other(id));
    }
  }

  /** In a selection without duplicates, deselecting an id cuts out its one position and
      leaves the others in their order. */
  lemma ToggleDeselect(prev: seq<int>, id: int, k: nat)
    requires NoDuplicates(prev)
    requires k < |prev| && prev[k] == id
    ensures Toggle(prev, id) == prev[..k] + prev[k + 1..]
  {
    OnlyAt(prev, k);
    assert prev == prev[..k] + [id] + prev[k + 1..];
    CutOut(prev[..k], id, prev[k + 1..]);
  }

  /** Deselecting an id that occurs once, between `before` and `after`, joins the two. */
  lemma CutOut(before: seq<int>, id: int, after: seq<int>)
    requires id !in before && id !in after
    ensures Toggle(before + [id] + after, id) == before + after
  {
    assert id in before + [id] + after;
    FilterAround(before, id, after, Other(id));
    DropAbsent(before, id);
    DropAbsent(after, id);
  }

  /** An id that occurs once, at `k`, occurs in neither side of it. */
  lemma OnlyAt(s: seq<int>, k: nat)
    requires NoDuplicates(s) && k < |s|
    ensures s[k] !in s[..k] && s[k] !in s[k + 1..]
  {
  }

  /** Dropping an id a selection does not hold leaves it as it is. */
  lemma DropAbsent(s: seq<int>, id: int)
    requires id !in s
    ensures Filter(s, Other(id)) == s
  {
    FilterAll(s, Other(id));
  }

  /** Toggling an unselected id twice gives back the selection. */
  lemma ToggleTwice(prev: seq<int>, id: int)
    requires id !in prev
    ensures Toggle(Toggle(prev, id), id) == prev
  {
    assert id in prev + [id];
    FilterAppend(prev, [id], Other(id));
    FilterSingle(id, Other(id));
    FilterAll(prev, Other(id));
  }

  /** Toggling keeps a selection free of duplicates. */
  lemma ToggleKeepsDistinct(prev: seq<int>, id: int)
    requires NoDuplicates(prev)
    ensures NoDuplicates(Toggle(prev, id))
  {
    if id in prev {
      FilterDistinct(prev, Other(id), (x: int) => x);
    }
  }

  /** `unknownGoals.map(g => g.id)`. */
  function Ids(gs: seq<GoalView>): (r: seq<int>)
    ensures |r| == |gs|
    ensures forall i :: 0 <= i < |gs| ==> r[i] == gs[i].id
  {
    if gs == [] then [] else [gs[0].id as int] + Ids(gs[1..])
  }

  /** The header checkbox: checking it selects every listed goal, in list order; unchecking
      clears the selection. */
  function SelectAll(checked: bool, unknownGoals: seq<GoalView>): (r: seq<int>)
    ensures checked ==> |r| == |unknownGoals| && forall i :: 0 <= i < |r| ==> r[i] == unknownGoals[i].id
    ensures !checked ==> r == []
  {
    if checked then Ids(unknownGoals) else []
  }

  /** The header checkbox shows checked when as many goals are selected as are listed. */
  predicate HeaderChecked(selected: seq<int>, unknownGoals: seq<GoalView>)
  {
    |selected| == |unknownGoals|
  }

  /** Selecting all checks the header, whatever the listed goals; clearing unchecks it
      unless nothing is listed. */
  lemma {:induction false} SelectAllChecksHeader(unknownGoals: seq<GoalView>)
    ensures HeaderChecked(SelectAll(true, unknownGoals), unknownGoals)
    ensures !HeaderChecked(SelectAll(false, unknownGoals), unknownGoals) <==> unknownGoals != []
  {
  }

  /** The selection select-all makes has no duplicates when the listed goals have distinct
      ids. */
  lemma {:induction false} SelectAllDistinct(unknownGoals: seq<GoalView>)
    requires forall i, j :: 0 <= i < j < |unknownGoals| ==> unknownGoals[i].id != unknownGoals[j].id
    ensures NoDuplicates(SelectAll(true, unknownGoals))
  {
  }

  function IsReal(): PlayerView -> bool
  {
    (p: PlayerView) => p.name != UNKNOWN_PLAYER_NAME
  }

  /** `loadPlayers`: the fetched players, in order, without the placeholder. */
  function RealPlayers(players: seq<PlayerView>): seq<PlayerView>
  {
    Filter(players, IsReal())
  }

  /** The choice of target players is exactly the fetched players not named as the
      placeholder. */
  lemma RealPlayersMembers(players: seq<PlayerView>)
    ensures forall p :: p in RealPlayers(players) <==> p in players && p.name != UNKNOWN_PLAYER_NAME
    ensures |RealPlayers(players)| <= |players|
  {
    FilterMembers(players, IsReal());
  }

  /** The alert above the table. */
  datatype Message =
    | NoMessage
    | SelectPrompt                      // "Please select goals and a player to reassign to."
    | Reassigned(count: int)            // "Successfully reassigned <count> goals."
    | Rejected(detail: string)          // "Error: <detail>"
    | RequestFailed                     // "Error reassigning goals."

  /** The answer to a reassignment request. */
  datatype Outcome = Ok(reassignedGoals: int) | HttpError(detail: string) | NetworkError

  /** The body of a reassignment request. */
  datatype ReassignRequest = ReassignRequest(goalIds: seq<int>, playerId: int)

  /** `!selectedPlayer`: nothing chosen (the empty string) or the falsy id 0. */
  predicate NoPlayer(selectedPlayer: Option<int>)
  {
    selectedPlayer.None? || selectedPlayer.value == 0
  }

  /** The state of the dialog. */
  class ReassignDialog {
    var unknownGoals: seq<GoalView>
    var players: seq<PlayerView>
    var selectedGoals: seq<int>
    var selectedPlayer: Option<int>
    var message: Message

    constructor ()
      ensures unknownGoals == [] && players == [] && selectedGoals == []
      ensures selectedPlayer == None && message == NoMessage
    {
      unknownGoals, players, selectedGoals := [], [], [];
      selectedPlayer, message := None, NoMessage;
    }

    /** A fetch of the placeholder's goals succeeded. */
    method LoadUnknownGoals(data: seq<GoalView>)
      modifies this`unknownGoals
      ensures unknownGoals == data
    {
      unknownGoals := data;
    }

    /** A fetch of the players succeeded; the placeholder is dropped from the list. */
    method LoadPlayers(data: seq<PlayerView>)
      modifies this`players
      ensures players == RealPlayers(data)
    {
      players := Filter(data, IsReal());
    }

    /** A goal's checkbox changed. */
    method GoalSelection(goalId: int)
      modifies this`selectedGoals
      ensures selectedGoals == Toggle(old(selectedGoals), goalId)
    {
      if goalId in selectedGoals {
        selectedGoals := Filter(selectedGoals, Other(goalId));
      } else {
        selectedGoals := selectedGoals + [goalId];
      }
    }

    /** The header checkbox changed. */
    method SelectAllChanged(checked: bool)
      modifies this`selectedGoals
      ensures selectedGoals == SelectAll(checked, unknownGoals)
    {
      if checked {
        selectedGoals := Ids(unknownGoals);
      } else {
        selectedGoals := [];
      }
    }

    /** A target player was picked from the list. */
    method ChoosePlayer(id: int)
      modifies this`selectedPlayer
      ensures selectedPlayer == Some(id)
    {
      selectedPlayer := Some(id);
    }

    /** The guard of `handleReassign`: with no goal selected or no player chosen it only
        shows the prompt and sends nothing; otherwise it sends the selection and the chosen
        player, and changes nothing yet. */
    method StartReassign() returns (request: Option<ReassignRequest>)
      modifies this`message
      ensures request.None? <==> |selectedGoals| == 0 || NoPlayer(selectedPlayer)
      ensures request.None? ==> message == SelectPrompt
      ensures request.Some? ==> request.value == ReassignRequest(selectedGoals, selectedPlayer.value)
                                && message == old(message)
    {
      if |selectedGoals| == 0 || NoPlayer(selectedPlayer) {
        message := SelectPrompt;
        return None;
      }
      request := Some(ReassignRequest(selectedGoals, selectedPlayer.value));
    }

    /** The rest of `handleReassign`, once the request has been answered: on success it
        reports the count and clears both the selection and the chosen player; on an error
        it reports the error and keeps them. */
    method FinishReassign(outcome: Outcome)
      modifies this`message, this`selectedGoals, this`selectedPlayer
      ensures outcome.Ok? ==> message == Reassigned(outcome.reassignedGoals)
                              && selectedGoals == [] && selectedPlayer == None
      ensures outcome.HttpError? ==> message == Rejected(outcome.detail)
      ensures outcome.NetworkError? ==> message == RequestFailed
      ensures !outcome.Ok? ==> selectedGoals == old(selectedGoals) && selectedPlayer == old(selectedPlayer)
    {
      match outcome
      case Ok(n) =>
        message := Reassigned(n);
        selectedGoals := [];
        selectedPlayer := None;
      case HttpError(detail) =>
        message := Rejected(detail);
      case NetworkError =>
        message := RequestFailed;
    }
  }
}
