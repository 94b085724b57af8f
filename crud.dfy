/** The backend's table operations: creating and deleting players and matches, and the
    placeholder player "Unknown Player (Deleted)" that keeps the goals of deleted players
    until they are handed to a real player. */
module Crud {
  import opened Seqs
  import opened Schema

  function PlayerKey(): Player -> int { (p: Player) => p.id }
  function MatchKey(): Match -> int { (m: Match) => m.id }
  function GoalKey(): Goal -> int { (g: Goal) => g.id }

  /** The first player with id `id` (`get_player`). */
  function FindPlayer(players: seq<Player>, id: int): (r: Option<Player>)
    ensures r.Some? ==> r.value in players && r.value.id == id
    ensures r.None? <==> forall p :: p in players ==> p.id != id
  {
    if players == [] then None
    else if players[0].id == id then Some(players[0])
    else FindPlayer(players[1..], id)
  }

  /** The first player named exactly `name`: the comparison is plain string equality, so it
      is case-sensitive. */
  function FindByName(players: seq<Player>, name: string): (r: Option<Player>)
    ensures r.Some? ==> r.value in players && r.value.name == name
    ensures r.None? <==> forall p :: p in players ==> p.name != name
  {
    if players == [] then None
    else if players[0].name == name then Some(players[0])
    else FindByName(players[1..], name)
  }

  /** The first match with id `id`. */
  function FindMatch(matches: seq<Match>, id: int): (r: Option<Match>)
    ensures r.Some? ==> r.value in matches && r.value.id == id
    ensures r.None? <==> forall m :: m in matches ==> m.id != id
  {
    if matches == [] then None
    else if matches[0].id == id then Some(matches[0])
    else FindMatch(matches[1..], id)
  }

  /** A name found in a list is still found, unchanged, after an append. */
  lemma {:induction false} FindByNameAppend(players: seq<Player>, p: Player, name: string)
    ensures FindByName(players, name).Some? ==>
              FindByName(players + [p], name) == FindByName(players, name)
    ensures FindByName(players, name).None? && p.name == name ==>
              FindByName(players + [p], name) == Some(p)
  {
    if players != [] {
      assert (players + [p])[1..] == players[1..] + [p];
      FindByNameAppend(players[1..], p, name);
    }
  }

  /** The players table once the placeholder has been fetched or created: unchanged if a
      player of that name exists, otherwise with a new placeholder (no birthdate) appended
      under the next id. */
  function WithPlaceholder(players: seq<Player>, nextId: nat): (r: seq<Player>)
    ensures FindByName(r, UNKNOWN_PLAYER_NAME).Some?
    ensures players <= r && |r| <= |players| + 1
  {
    FindByNameAppend(players, Player(nextId, UNKNOWN_PLAYER_NAME, None), UNKNOWN_PLAYER_NAME);
    if FindByName(players, UNKNOWN_PLAYER_NAME).Some? then players
    else players + [Player(nextId, UNKNOWN_PLAYER_NAME, None)]
  }

  /** The id of the placeholder player. */
  function PlaceholderId(players: seq<Player>): int
    requires FindByName(players, UNKNOWN_PLAYER_NAME).Some?
  {
    FindByName(players, UNKNOWN_PLAYER_NAME).value.id
  }

  /** The players table without the player `id`. */
  function RemovePlayer(players: seq<Player>, id: int): (r: seq<Player>)
  {
    Filter(players, (p: Player) => p.id != id)
  }

  /** Removing a player drops exactly the rows with that id. */
  lemma RemovePlayerMembers(players: seq<Player>, id: int)
    ensures forall p :: p in RemovePlayer(players, id) <==> p in players && p.id != id
    ensures FindPlayer(RemovePlayer(players, id), id).None?
  {
    FilterMembers(players, (p: Player) => p.id != id);
  }

  function ByPlayer(id: int): Goal -> bool { (g: Goal) => g.playerId == id }
  function InMatch(id: int): Goal -> bool { (g: Goal) => g.matchId == id }
  function NotInMatch(id: int): Goal -> bool { (g: Goal) => g.matchId != id }

  /** The goals `reassign_goals` moves: listed in `goalIds` and currently held by `holder`. */
  function Selected(goalIds: seq<int>, holder: int): Goal -> bool
  {
    (g: Goal) => g.id in goalIds && g.playerId == holder
  }

  /** Every goal satisfying `p` credited to player `to`; every other goal, and every other
      field, unchanged. */
  function Reassign(goals: seq<Goal>, p: Goal -> bool, to: int): (r: seq<Goal>)
    ensures |r| == |goals|
    ensures forall k :: 0 <= k < |goals| ==>
              r[k] == if p(goals[k]) then goals[k].(playerId := to) else goals[k]
  {
    if goals == [] then []
    else [if p(goals[0]) then goals[0].(playerId := to) else goals[0]] + Reassign(goals[1..], p, to)
  }

  /** After reassigning, player `k` holds the goals it held that were not moved, plus every
      moved goal when it is the target. */
  lemma {:induction false} ReassignCount(goals: seq<Goal>, p: Goal -> bool, to: int, k: int)
    ensures Count(Reassign(goals, p, to), ByPlayer(k)) ==
            Count(goals, But(ByPlayer(k), p)) + (if k == to then Count(goals, p) else 0)
  {
    if goals != [] {
      ReassignCount(goals[1..], p, to, k);
      assert Reassign(goals, p, to)[1..] == Reassign(goals[1..], p, to);
    }
  }

  /** `delete_player`'s move: the deleted player keeps no goal, the placeholder gains all of
      them, every other player's goals stay where they were. */
  lemma {:induction false} MoveAllCounts(goals: seq<Goal>, from: int, to: int)
    requires from != to
    ensures Count(Reassign(goals, ByPlayer(from), to), ByPlayer(from)) == 0
    ensures Count(Reassign(goals, ByPlayer(from), to), ByPlayer(to)) ==
            Count(goals, ByPlayer(to)) + Count(goals, ByPlayer(from))
    ensures forall k :: k != from && k != to ==>
              Count(Reassign(goals, ByPlayer(from), to), ByPlayer(k)) == Count(goals, ByPlayer(k))
  {
    ReassignCount(goals, ByPlayer(from), to, from);
    FilterNone(goals, But(ByPlayer(from), ByPlayer(from)));
    ReassignCount(goals, ByPlayer(from), to, to);
    FilterCongruent(goals, But(ByPlayer(to), ByPlayer(from)), ByPlayer(to));
    forall k | k != from && k != to
      ensures Count(Reassign(goals, ByPlayer(from), to), ByPlayer(k)) == Count(goals, ByPlayer(k))
    {
      ReassignCount(goals, ByPlayer(from), to, k);
      FilterCongruent(goals, But(ByPlayer(k), ByPlayer(from)), ByPlayer(k));
    }
  }

  /** `reassign_goals`'s move: the target gains exactly the selected goals the placeholder
      held, the placeholder loses exactly those, every other player is untouched. */
  lemma {:induction false} MoveSelectedCounts(goals: seq<Goal>, goalIds: seq<int>, holder: int, to: int)
    requires holder != to
    ensures Count(Reassign(goals, Selected(goalIds, holder), to), ByPlayer(to)) ==
            Count(goals, ByPlayer(to)) + Count(goals, Selected(goalIds, holder))
    ensures Count(Reassign(goals, Selected(goalIds, holder), to), ByPlayer(holder)) +
            Count(goals, Selected(goalIds, holder)) == Count(goals, ByPlayer(holder))
    ensures forall k :: k != holder && k != to ==>
              Count(Reassign(goals, Selected(goalIds, holder), to), ByPlayer(k)) == Count(goals, ByPlayer(k))
  {
    var sel := Selected(goalIds, holder);
    ReassignCount(goals, sel, to, to);
    FilterCongruent(goals, But(ByPlayer(to), sel), ByPlayer(to));
    ReassignCount(goals, sel, to, holder);
    CountSplit(goals, ByPlayer(holder), (g: Goal) => g.id in goalIds);
    FilterCongruent(goals, But(ByPlayer(holder), sel), But(ByPlayer(holder), (g: Goal) => g.id in goalIds));
    FilterCongruent(goals, Both(ByPlayer(holder), (g: Goal) => g.id in goalIds), sel);
    forall k | k != holder && k != to
      ensures Count(Reassign(goals, sel, to), ByPlayer(k)) == Count(goals, ByPlayer(k))
    {
      ReassignCount(goals, sel, to, k);
      FilterCongruent(goals, But(ByPlayer(k), sel), ByPlayer(k));
    }
  }

  /** The goal rows `create_match` adds: one per requested goal, in request order, all in
      match `matchId`, with consecutive ids from `firstId`. */
  function NewGoals(requested: seq<GoalCreate>, matchId: nat, firstId: nat): (r: seq<Goal>)
    ensures |r| == |requested|
    ensures forall k :: 0 <= k < |r| ==>
              r[k] == Goal(firstId + k, matchId, requested[k].playerId, requested[k].isOwnGoal, requested[k].team)
  {
    if requested == [] then []
    else [Goal(firstId, matchId, requested[0].playerId, requested[0].isOwnGoal, requested[0].team)]
         + NewGoals(requested[1..], matchId, firstId + 1)
  }

  lemma {:induction false} NewGoalsSnoc(requested: seq<GoalCreate>, i: nat, matchId: nat, firstId: nat)
    requires i < |requested|
    ensures NewGoals(requested[..i + 1], matchId, firstId) ==
            NewGoals(requested[..i], matchId, firstId)
            + [Goal(firstId + i, matchId, requested[i].playerId, requested[i].isOwnGoal, requested[i].team)]
  {
    var l, r := NewGoals(requested[..i + 1], matchId, firstId), NewGoals(requested[..i], matchId, firstId);
    var t := r + [Goal(firstId + i, matchId, requested[i].playerId, requested[i].isOwnGoal, requested[i].team)];
    forall k | 0 <= k < |l| ensures l[k] == t[k] {
      assert requested[..i + 1][k] == requested[k];
      if k < i {
        assert requested[..i][k] == requested[k];
      }
    }
  }

  /** The goals of a newly created match are exactly the requested goals, in order, whatever
      scores were submitted with them. */
  lemma CreatedMatchGoals(goals: seq<Goal>, requested: seq<GoalCreate>, matchId: nat, firstId: nat)
    requires forall g :: g in goals ==> g.matchId != matchId
    ensures Filter(goals + NewGoals(requested, matchId, firstId), InMatch(matchId)) ==
            NewGoals(requested, matchId, firstId)
  {
    FilterAppend(goals, NewGoals(requested, matchId, firstId), InMatch(matchId));
    FilterNone(goals, InMatch(matchId));
    FilterAll(NewGoals(requested, matchId, firstId), InMatch(matchId));
  }

  /** Deleting a match's goals removes exactly those, and their number is what is reported. */
  lemma {:induction false} DropMatchGoals(goals: seq<Goal>, matchId: int)
    ensures forall g :: g in Filter(goals, NotInMatch(matchId)) <==> g in goals && g.matchId != matchId
    ensures |Filter(goals, NotInMatch(matchId))| + Count(goals, InMatch(matchId)) == |goals|
  {
    FilterMembers(goals, NotInMatch(matchId));
    FilterPartition(goals, NotInMatch(matchId), InMatch(matchId));
  }

  /** Player ids are unique and below the next one. */
  ghost predicate PlayersValid(players: seq<Player>, nextId: nat)
  {
    DistinctBy(players, PlayerKey()) && forall p :: p in players ==> p.id < nextId
  }

  /** Match ids are unique and below the next one. */
  ghost predicate MatchesValid(matches: seq<Match>, nextId: nat)
  {
    DistinctBy(matches, MatchKey()) && forall m :: m in matches ==> m.id < nextId
  }

  /** Goal ids are unique and below the next one, and every goal's match id was handed out. */
  ghost predicate GoalsValid(goals: seq<Goal>, nextId: nat, nextMatchId: nat)
  {
    DistinctBy(goals, GoalKey()) && forall g :: g in goals ==> g.id < nextId && g.matchId < nextMatchId
  }

  /** The placeholder is never the player being deleted: that player has another name, and
      a newly created placeholder gets an id no existing player has. */
  lemma {:induction false} PlaceholderIsAnotherPlayer(players: seq<Player>, nextId: nat, playerId: int)
    requires PlayersValid(players, nextId)
    requires FindPlayer(players, playerId).Some?
    requires FindPlayer(players, playerId).value.name != UNKNOWN_PLAYER_NAME
    ensures PlaceholderId(WithPlaceholder(players, nextId)) != playerId
  {
    var found := FindByName(players, UNKNOWN_PLAYER_NAME);
    if found.None? {
      FindByNameAppend(players, Player(nextId, UNKNOWN_PLAYER_NAME, None), UNKNOWN_PLAYER_NAME);
    } else {
      var p := FindPlayer(players, playerId).value;
      var i :| 0 <= i < |players| && players[i] == found.value;
      var j :| 0 <= j < |players| && players[j] == p;
      assert i != j;
    }
  }

  lemma RemovePlayerValid(players: seq<Player>, id: int, nextId: nat)
    requires PlayersValid(players, nextId)
    ensures PlayersValid(RemovePlayer(players, id), nextId)
  {
    FilterDistinct(players, (p: Player) => p.id != id, PlayerKey());
    FilterMembers(players, (p: Player) => p.id != id);
  }

  lemma {:induction false} ReassignValid(goals: seq<Goal>, p: Goal -> bool, to: int, nextId: nat, nextMatchId: nat)
    requires GoalsValid(goals, nextId, nextMatchId)
    ensures GoalsValid(Reassign(goals, p, to), nextId, nextMatchId)
  {
    var r := Reassign(goals, p, to);
    forall g | g in r ensures g.id < nextId && g.matchId < nextMatchId {
      var k :| 0 <= k < |r| && r[k] == g;
      assert goals[k] in goals;
    }
  }

  lemma {:induction false} NewGoalsValid(goals: seq<Goal>, requested: seq<GoalCreate>, matchId: nat, firstId: nat,
                      nextMatchId: nat)
    requires GoalsValid(goals, firstId, nextMatchId) && matchId < nextMatchId
    ensures GoalsValid(goals + NewGoals(requested, matchId, firstId), firstId + |requested|, nextMatchId)
  {
    var r := goals + NewGoals(requested, matchId, firstId);
    forall i, j | 0 <= i < j < |r| ensures GoalKey()(r[i]) != GoalKey()(r[j]) {
      if j < |goals| {
        assert r[i] == goals[i] && r[j] == goals[j];
      } else if i < |goals| {
        assert r[i] == goals[i] && goals[i] in goals;
      }
    }
  }

  lemma FilterGoalsValid(goals: seq<Goal>, p: Goal -> bool, nextId: nat, nextMatchId: nat)
    requires GoalsValid(goals, nextId, nextMatchId)
    ensures GoalsValid(Filter(goals, p), nextId, nextMatchId)
  {
    FilterDistinct(goals, p, GoalKey());
    FilterMembers(goals, p);
  }

  /** What `delete_player` reports. */
  datatype PlayerDeletion = PlayerDeletion(deletedPlayer: string, reassignedGoals: nat)

  /** What `delete_match` reports: the match's date and scores (formatted by the source as
      "date - old:young") and the number of goals deleted with it. */
  datatype MatchDeletion = MatchDeletion(date: Date, teamOldScore: int, teamYoungScore: int,
                                         deletedGoals: nat)

  /** The three tables, and the next id each one hands out. */
  class Database {
    var players: seq<Player>
    var matches: seq<Match>
    var goals: seq<Goal>
    var nextPlayerId: nat
    var nextMatchId: nat
    var nextGoalId: nat

    /** Ids are unique and below the next id of their table, and every goal's match id was
        handed out by the matches table. */
    ghost predicate Valid()
      reads this
    {
      PlayersValid(players, nextPlayerId) && MatchesValid(matches, nextMatchId)
      && GoalsValid(goals, nextGoalId, nextMatchId)
    }

    constructor ()
      ensures Valid()
      ensures players == [] && matches == [] && goals == []
      ensures nextPlayerId == 1 && nextMatchId == 1 && nextGoalId == 1
    {
      players, matches, goals := [], [], [];
      nextPlayerId, nextMatchId, nextGoalId := 1, 1, 1;
    }

    /** `Player.get_unknown_player`: the placeholder's id, creating the placeholder first if
        no player has its name. */
    method GetUnknownPlayer() returns (id: int)
      requires Valid()
      modifies this`players, this`nextPlayerId
      ensures Valid()
      ensures players == WithPlaceholder(old(players), old(nextPlayerId))
      ensures nextPlayerId == old(nextPlayerId) + |players| - |old(players)|
      ensures id == PlaceholderId(players)
    {
      var found := FindByName(players, UNKNOWN_PLAYER_NAME);
      if found.Some? {
        return found.value.id;
      }
      var placeholder := Player(nextPlayerId, UNKNOWN_PLAYER_NAME, None);
      FindByNameAppend(players, placeholder, UNKNOWN_PLAYER_NAME);
      DistinctAppend(players, placeholder, PlayerKey());
      players := players + [placeholder];
      nextPlayerId := nextPlayerId + 1;
      id := placeholder.id;
    }

    /** `create_player`: refused when a player of exactly that name exists; otherwise one
        row is added under the next id. */
    method CreatePlayer(name: string, birthdate: Option<Date>) returns (r: Option<Player>)
      requires Valid()
      modifies this`players, this`nextPlayerId
      ensures Valid()
      ensures FindByName(old(players), name).Some? ==>
                r.None? && players == old(players) && nextPlayerId == old(nextPlayerId)
      ensures FindByName(old(players), name).None? ==>
                r == Some(Player(old(nextPlayerId), name, birthdate))
                && players == old(players) + [r.value] && nextPlayerId == old(nextPlayerId) + 1
    {
      var existing := FindByName(players, name);
      if existing.Some? {
        return None;
      }
      var created := Player(nextPlayerId, name, birthdate);
      DistinctAppend(players, created, PlayerKey());
      players := players + [created];
      nextPlayerId := nextPlayerId + 1;
      r := Some(created);
    }

    /** The `for goal in ...: goal.player_id = to` loops: credits every goal satisfying `p`
        to `to` and returns how many there were. */
    method RetargetGoals(p: Goal -> bool, to: int) returns (n: nat)
      modifies this`goals
      ensures goals == Reassign(old(goals), p, to)
      ensures n == Count(old(goals), p)
    {
      ghost var before := goals;
      var i := 0;
      n := 0;
      while i < |goals|
        invariant 0 <= i <= |goals| == |before|
        invariant forall k :: 0 <= k < i ==> goals[k] == if p(before[k]) then before[k].(playerId := to) else before[k]
        invariant forall k :: i <= k < |goals| ==> goals[k] == before[k]
        invariant n == Count(before[..i], p)
      {
        CountPrefix(before, i, p);
        if p(goals[i]) {
          goals := goals[i := goals[i].(playerId := to)];
          n := n + 1;
        }
        i := i + 1;
      }
      assert before[..i] == before;
    }

    /** `crud.delete_player`: refused for an unknown id and for the placeholder itself;
        otherwise the placeholder is fetched or created, every goal of the player is credited
        to it, and the player's row is removed. */
    method DeletePlayer(playerId: int) returns (r: Option<PlayerDeletion>)
      requires Valid()
      modifies this`players, this`nextPlayerId, this`goals
      ensures Valid()
      ensures r.None? <==> FindPlayer(old(players), playerId).None?
                           || FindPlayer(old(players), playerId).value.name == UNKNOWN_PLAYER_NAME
      ensures r.None? ==> players == old(players) && goals == old(goals) && nextPlayerId == old(nextPlayerId)
      ensures r.Some? ==>
                var withPlaceholder := WithPlaceholder(old(players), old(nextPlayerId));
                var placeholder := PlaceholderId(withPlaceholder);
                placeholder != playerId
                && goals == Reassign(old(goals), ByPlayer(playerId), placeholder)
                && players == RemovePlayer(withPlaceholder, playerId)
                && nextPlayerId == old(nextPlayerId) + |withPlaceholder| - |old(players)|
                && r.value == PlayerDeletion(FindPlayer(old(players), playerId).value.name,
                                             Count(old(goals), ByPlayer(playerId)))
    {
      var player := FindPlayer(players, playerId);
      if player.None? {
        return None;
      }
      if player.value.name == UNKNOWN_PLAYER_NAME {
        return None;
      }
      var unknownId := GetUnknownPlayer();
      PlaceholderIsAnotherPlayer(old(players), old(nextPlayerId), playerId);
      var n := RetirePlayer(playerId, unknownId);
      r := Some(PlayerDeletion(player.value.name, n));
    }

    /** The rest of `crud.delete_player`, once the placeholder `unknownId` is known and is
        another player: every goal of the player is credited to the placeholder, and the
        player's row is removed. */
    method RetirePlayer(playerId: int, unknownId: int) returns (n: nat)
      requires Valid()
      modifies this`players, this`goals
      ensures Valid()
      ensures goals == Reassign(old(goals), ByPlayer(playerId), unknownId)
      ensures players == RemovePlayer(old(players), playerId)
      ensures n == Count(old(goals), ByPlayer(playerId))
    {
      ReassignValid(goals, ByPlayer(playerId), unknownId, nextGoalId, nextMatchId);
      n := RetargetGoals(ByPlayer(playerId), unknownId);
      RemovePlayerValid(players, playerId, nextPlayerId);
      players := RemovePlayer(players, playerId);
    }

    /** `create_match`: one match row under the next id with the submitted date and scores,
        then one goal row per requested goal; the scores are not checked against the goals. */
    method CreateMatch(m: MatchCreate) returns (created: Match)
      requires Valid()
      modifies this`matches, this`nextMatchId, this`goals, this`nextGoalId
      ensures Valid()
      ensures created == Match(old(nextMatchId), m.date, m.teamYoungScore, m.teamOldScore)
      ensures matches == old(matches) + [created] && nextMatchId == old(nextMatchId) + 1
      ensures goals == old(goals) + NewGoals(m.goals, created.id, old(nextGoalId))
      ensures nextGoalId == old(nextGoalId) + |m.goals|
    {
      created := Match(nextMatchId, m.date, m.teamYoungScore, m.teamOldScore);
      DistinctAppend(matches, created, MatchKey());
      matches := matches + [created];
      nextMatchId := nextMatchId + 1;
      ghost var firstId := nextGoalId;
      ghost var before := goals;
      assert GoalsValid(before, firstId, nextMatchId);
      AddGoals(m.goals, created.id);
      NewGoalsValid(before, m.goals, created.id, firstId, nextMatchId);
    }

    /** The `for goal in match.goals` loop of `create_match` and the commit after it: one
        goal row per requested goal, staged in order under consecutive new ids, then written
        to the table. */
    method AddGoals(requested: seq<GoalCreate>, matchId: nat)
      modifies this`goals, this`nextGoalId
      ensures goals == old(goals) + NewGoals(requested, matchId, old(nextGoalId))
      ensures nextGoalId == old(nextGoalId) + |requested|
    {
      var firstId := nextGoalId;
      var staged: seq<Goal> := [];
      var i := 0;
      while i < |requested|
        invariant 0 <= i <= |requested|
        invariant staged == NewGoals(requested[..i], matchId, firstId)
        invariant goals == old(goals) && firstId == old(nextGoalId)
      {
        NewGoalsSnoc(requested, i, matchId, firstId);
        staged := staged + [Goal(firstId + i, matchId, requested[i].playerId, requested[i].isOwnGoal, requested[i].team)];
        i := i + 1;
      }
      assert requested[..i] == requested;
      goals := goals + staged;
      nextGoalId := firstId + |requested|;
    }

    /** `delete_match`: refused for an unknown id; otherwise the match's goals and then the
        match row are deleted, and the match and the number of its goals are reported. */
    method DeleteMatch(matchId: int) returns (r: Option<MatchDeletion>)
      requires Valid()
      modifies this`matches, this`goals
      ensures Valid()
      ensures r.None? <==> FindMatch(old(matches), matchId).None?
      ensures r.None? ==> matches == old(matches) && goals == old(goals)
      ensures r.Some? ==>
                var m := FindMatch(old(matches), matchId).value;
                goals == Filter(old(goals), NotInMatch(matchId))
                && matches == Filter(old(matches), (x: Match) => x.id != matchId)
                && r.value == MatchDeletion(m.date, m.teamOldScore, m.teamYoungScore,
                                            Count(old(goals), InMatch(matchId)))
    {
      var found := FindMatch(matches, matchId);
      if found.None? {
        return None;
      }
      var goalsDeleted := Count(goals, InMatch(matchId));
      FilterGoalsValid(goals, NotInMatch(matchId), nextGoalId, nextMatchId);
      goals := Filter(goals, NotInMatch(matchId));
      FilterDistinct(matches, (x: Match) => x.id != matchId, MatchKey());
      FilterMembers(matches, (x: Match) => x.id != matchId);
      matches := Filter(matches, (x: Match) => x.id != matchId);
      var m := found.value;
      r := Some(MatchDeletion(m.date, m.teamOldScore, m.teamYoungScore, goalsDeleted));
    }

    /** `get_unknown_player_goals`: the goals held by the placeholder, which is created first
        if it does not exist. */
    method GetUnknownPlayerGoals() returns (held: seq<Goal>)
      requires Valid()
      modifies this`players, this`nextPlayerId
      ensures Valid()
      ensures players == WithPlaceholder(old(players), old(nextPlayerId))
      ensures nextPlayerId == old(nextPlayerId) + |players| - |old(players)|
      ensures held == Filter(goals, ByPlayer(PlaceholderId(players)))
      ensures forall g :: g in held <==> g in goals && g.playerId == PlaceholderId(players)
    {
      var unknownId := GetUnknownPlayer();
      FilterMembers(goals, ByPlayer(unknownId));
      held := Filter(goals, ByPlayer(unknownId));
    }

    /** `reassign_goals`: refused when the target player does not exist; otherwise the
        placeholder is fetched or created and the listed goals it holds are credited to the
        target.  Listed goals held by anyone else are skipped, and a target that is the
        placeholder itself is not refused. */
    method ReassignGoals(goalIds: seq<int>, newPlayerId: int) returns (r: Option<nat>)
      requires Valid()
      modifies this`players, this`nextPlayerId, this`goals
      ensures Valid()
      ensures r.None? <==> FindPlayer(old(players), newPlayerId).None?
      ensures r.None? ==> players == old(players) && goals == old(goals) && nextPlayerId == old(nextPlayerId)
      ensures r.Some? ==>
                players == WithPlaceholder(old(players), old(nextPlayerId))
                && nextPlayerId == old(nextPlayerId) + |players| - |old(players)|
                && goals == Reassign(old(goals), Selected(goalIds, PlaceholderId(players)), newPlayerId)
                && r.value == Count(old(goals), Selected(goalIds, PlaceholderId(players)))
    {
      var newPlayer := FindPlayer(players, newPlayerId);
      if newPlayer.None? {
        return None;
      }
      var unknownId := GetUnknownPlayer();
      ReassignValid(goals, Selected(goalIds, unknownId), newPlayerId, nextGoalId, nextMatchId);
      var n := RetargetGoals(Selected(goalIds, unknownId), newPlayerId);
      r := Some(n);
    }
  }
}
