/** The bodies of the HTTP handlers that change the tables directly rather than through the
    table operations: editing and deleting one player, emptying the players or matches
    table, and seeding the squad; plus the two handlers that pass a table operation's result
    through unchanged. */
module Api {
  import opened Seqs
  import opened Schema
  import opened Crud

  /** The players table with every row of id `id` given the new name and birthdate; ids and
      all other rows unchanged. */
  function Renamed(players: seq<Player>, id: int, name: string, birthdate: Option<Date>): (r: seq<Player>)
    ensures |r| == |players|
  {
    if players == [] then []
    else
      var first := if players[0].id == id then Player(players[0].id, name, birthdate) else players[0];
      [first] + Renamed(players[1..], id, name, birthdate)
  }

  /** Renaming edits only the row of that id and leaves the column of ids as it was. */
  lemma {:induction false} RenamedRows(players: seq<Player>, id: int, name: string, birthdate: Option<Date>)
    ensures forall i :: 0 <= i < |players| ==> Renamed(players, id, name, birthdate)[i].id == players[i].id
    ensures forall i :: 0 <= i < |players| && players[i].id != id ==>
              Renamed(players, id, name, birthdate)[i] == players[i]
    ensures forall i :: 0 <= i < |players| && players[i].id == id ==>
              Renamed(players, id, name, birthdate)[i] == Player(players[i].id, name, birthdate)
  {
    if players != [] {
      RenamedRows(players[1..], id, name, birthdate);
    }
  }

  /** After the edit, looking the player up gives the new name and birthdate under the same
      id, and every other player is found as before. */
  lemma {:induction false} RenamedLookup(players: seq<Player>, id: int, name: string, birthdate: Option<Date>)
    requires FindPlayer(players, id).Some?
    ensures FindPlayer(Renamed(players, id, name, birthdate), id) == Some(Player(id, name, birthdate))
    ensures forall k :: k != id ==> FindPlayer(Renamed(players, id, name, birthdate), k) == FindPlayer(players, k)
  {
    if players[0].id != id {
      RenamedLookup(players[1..], id, name, birthdate);
    } else {
      forall k | k != id
        ensures FindPlayer(Renamed(players, id, name, birthdate), k) == FindPlayer(players, k)
      {
        RenamedOthers(players[1..], id, name, birthdate, k);
      }
    }
  }

  lemma {:induction false} RenamedOthers(players: seq<Player>, id: int, name: string, birthdate: Option<Date>, k: int)
    requires k != id
    ensures FindPlayer(Renamed(players, id, name, birthdate), k) == FindPlayer(players, k)
  {
    if players != [] {
      RenamedOthers(players[1..], id, name, birthdate, k);
    }
  }

  /** The edit keeps the players table valid: no name check is made, and none is needed for
      the ids to stay unique. */
  lemma RenamedValid(players: seq<Player>, id: int, name: string, birthdate: Option<Date>, nextId: nat)
    requires PlayersValid(players, nextId)
    ensures PlayersValid(Renamed(players, id, name, birthdate), nextId)
  {
    var r := Renamed(players, id, name, birthdate);
    RenamedRows(players, id, name, birthdate);
    forall p | p in r ensures p.id < nextId {
      var k :| 0 <= k < |r| && r[k] == p;
      assert players[k] in players;
    }
  }

  /** `update_player`: 404 (`None`) when no player has the id; otherwise the row's name and
      birthdate are overwritten, with no duplicate-name check, and the edited row is
      returned; the goals and matches tables are untouched. */
  method UpdatePlayer(db: Database, playerId: int, name: string, birthdate: Option<Date>)
      returns (r: Option<Player>)
    requires db.Valid()
    modifies db`players
    ensures db.Valid()
    ensures r.None? <==> FindPlayer(old(db.players), playerId).None?
    ensures r.None? ==> db.players == old(db.players)
    ensures r.Some? ==> r.value == Player(playerId, name, birthdate)
                        && db.players == Renamed(old(db.players), playerId, name, birthdate)
  {
    var dbPlayer := FindPlayer(db.players, playerId);
    if dbPlayer.None? {
      return None;
    }
    RenamedValid(db.players, playerId, name, birthdate, db.nextPlayerId);
    db.players := Renamed(db.players, playerId, name, birthdate);
    r := Some(Player(playerId, name, birthdate));
  }

  /** The `DELETE /players/{id}` handler: 404 (`false`) when no player has the id; otherwise
      the row is removed directly, with no check for the placeholder and no reassignment of
      the player's goals to it. */
  method DeletePlayer(db: Database, playerId: int) returns (found: bool)
    requires db.Valid()
    modifies db`players
    ensures db.Valid()
    ensures found <==> FindPlayer(old(db.players), playerId).Some?
    ensures db.goals == old(db.goals)
    ensures !found ==> db.players == old(db.players)
    ensures found ==> db.players == RemovePlayer(old(db.players), playerId)
  {
    var dbPlayer := FindPlayer(db.players, playerId);
    if dbPlayer.None? {
      return false;
    }
    RemovePlayerValid(db.players, playerId, db.nextPlayerId);
    db.players := RemovePlayer(db.players, playerId);
    found := true;
  }

  /** The tables the handler leaves, against those the table operation leaves, for a player
      who scored: the handler keeps the goals table as it was, so the player's goals stay under
      the removed id, belong to no remaining player, and the placeholder gains none of them;
      the table operation moves every one of them to the placeholder. */
  lemma DeletedPlayersGoalsOrphaned(players: seq<Player>, goals: seq<Goal>, playerId: int, unknownId: int)
    requires playerId != unknownId
    requires Count(goals, ByPlayer(playerId)) > 0
    ensures forall g :: g in goals && g.playerId == playerId ==>
              FindPlayer(RemovePlayer(players, playerId), g.playerId).None?
    ensures exists g :: g in goals && FindPlayer(RemovePlayer(players, playerId), g.playerId).None?
    ensures Count(Reassign(goals, ByPlayer(playerId), unknownId), ByPlayer(playerId)) == 0
    ensures Count(goals, ByPlayer(unknownId))
            < Count(Reassign(goals, ByPlayer(playerId), unknownId), ByPlayer(unknownId))
  {
    RemovePlayerMembers(players, playerId);
    FilterMembers(goals, ByPlayer(playerId));
    var g := Filter(goals, ByPlayer(playerId))[0];
    assert g in Filter(goals, ByPlayer(playerId));
    assert g in goals && FindPlayer(RemovePlayer(players, playerId), g.playerId).None?;
    MoveAllCounts(goals, playerId, unknownId);
  }

  /** `delete_all_players`: the goals table and then the players table are emptied; the
      matches are kept. */
  method DeleteAllPlayers(db: Database)
    requires db.Valid()
    modifies db`goals, db`players
    ensures db.Valid()
    ensures db.goals == [] && db.players == []
  {
    db.goals := [];
    db.players := [];
  }

  /** `delete_all_matches`: the goals table and then the matches table are emptied; the
      players are kept. */
  method DeleteAllMatches(db: Database)
    requires db.Valid()
    modifies db`goals, db`matches
    ensures db.Valid()
    ensures db.goals == [] && db.matches == []
  {
    db.goals := [];
    db.matches := [];
  }

  /** The squad `add_default_players` seeds, in order, as name and birthdate. */
  const DEFAULT_PLAYERS: seq<(string, Date)> := [
    ("Adrian Huck", 20071002),
    ("Ferdi Forcher", 19950321),
    ("Johannes Boos", 20020825),
    ("Tom Altmann", 20070112),
    ("Linus Eberle", 20050312),
    ("Kaj Leimgruber", 20060818),
    ("Maximilian Gangloff", 19980804),
    ("Luka Misetic", 19980329),
    ("Maximilian Maier", 20071208),
    ("Tim Peter", 19980311),
    ("Stefan Schmitt", 19930917),
    ("Tim Schreck", 19970203),
    ("Salomon B\U{00F6}hm", 20070830),
    ("Johannes H\U{00F6}ll", 19930423),
    ("Jan Keller", 19981114),
    ("Jacob K\U{00F6}lmel", 20051028),
    ("Jaron Siefritz", 20080112),
    ("Daniel Leppert", 19970707)
  ]

  /** The rows the seeding adds: the default players in order, under consecutive ids from
      `firstId`. */
  function Seeded(defaults: seq<(string, Date)>, firstId: nat): (r: seq<Player>)
    ensures |r| == |defaults|
    ensures forall i :: 0 <= i < |r| ==> r[i] == Player(firstId + i, defaults[i].0, Some(defaults[i].1))
  {
    if defaults == [] then []
    else [Player(firstId, defaults[0].0, Some(defaults[0].1))] + Seeded(defaults[1..], firstId + 1)
  }

  /** Appending the seeded rows under fresh ids keeps the players table valid, whatever names
      are already there. */
  lemma {:induction false} SeededValid(players: seq<Player>, defaults: seq<(string, Date)>, firstId: nat)
    requires PlayersValid(players, firstId)
    ensures PlayersValid(players + Seeded(defaults, firstId), firstId + |defaults|)
  {
    var r := players + Seeded(defaults, firstId);
    forall i, j | 0 <= i < j < |r| ensures r[i].id != r[j].id {
      if j >= |players| && i < |players| {
        assert r[i] in players;
      }
    }
    forall p | p in r ensures p.id < firstId + |defaults| {
      var k :| 0 <= k < |r| && r[k] == p;
      if k < |players| {
        assert players[k] in players;
      }
    }
  }

  /** `add_default_players`: appends the 18 default players in order under new ids, with no
      duplicate check, and reports how many were added. */
  method AddDefaultPlayers(db: Database) returns (added: nat)
    requires db.Valid()
    modifies db`players, db`nextPlayerId
    ensures db.Valid()
    ensures db.players == old(db.players) + Seeded(DEFAULT_PLAYERS, old(db.nextPlayerId))
    ensures db.nextPlayerId == old(db.nextPlayerId) + 18
    ensures added == 18
  {
    SeededValid(db.players, DEFAULT_PLAYERS, db.nextPlayerId);
    AddPlayers(db, DEFAULT_PLAYERS);
    added := |DEFAULT_PLAYERS|;
  }

  /** The `for p in default_players` loop and the commit after it: one new row per listed
      player, staged in order under consecutive new ids, then written to the table. */
  method AddPlayers(db: Database, defaults: seq<(string, Date)>)
    modifies db`players, db`nextPlayerId
    ensures db.players == old(db.players) + Seeded(defaults, old(db.nextPlayerId))
    ensures db.nextPlayerId == old(db.nextPlayerId) + |defaults|
  {
    var firstId := db.nextPlayerId;
    var staged: seq<Player> := [];
    var i := 0;
    while i < |defaults|
      invariant 0 <= i <= |defaults|
      invariant staged == Seeded(defaults[..i], firstId)
      invariant db.players == old(db.players) && firstId == old(db.nextPlayerId)
    {
      var (name, birthdate) := defaults[i];
      SeededSnoc(defaults, i, firstId);
      staged := staged + [Player(firstId + i, name, Some(birthdate))];
      i := i + 1;
    }
    assert defaults[..i] == defaults;
    db.players := db.players + staged;
    db.nextPlayerId := firstId + |defaults|;
  }

  /** Seeding one more default adds its row at the end. */
  lemma {:induction false} SeededSnoc(defaults: seq<(string, Date)>, i: nat, firstId: nat)
    requires i < |defaults|
    ensures Seeded(defaults[..i + 1], firstId)
            == Seeded(defaults[..i], firstId) + [Player(firstId + i, defaults[i].0, Some(defaults[i].1))]
  {
    assert defaults[..i + 1][..i] == defaults[..i];
  }

  /** `POST /players/`: the table operation's result. A refused duplicate name yields no
      player, which the declared response shape does not admit, so the request fails rather
      than reporting the duplicate. */
  method CreatePlayer(db: Database, name: string, birthdate: Option<Date>) returns (r: Option<Player>)
    requires db.Valid()
    modifies db`players, db`nextPlayerId
    ensures db.Valid()
    ensures r.None? <==> FindByName(old(db.players), name).Some?
    ensures r.None? ==> db.players == old(db.players)
    ensures r.Some? ==> r.value == Player(old(db.nextPlayerId), name, birthdate)
                        && db.players == old(db.players) + [r.value]
  {
    r := db.CreatePlayer(name, birthdate);
  }

  /** `POST /matches/`: the table operation's result, the new match row. */
  method CreateMatch(db: Database, m: MatchCreate) returns (created: Match)
    requires db.Valid()
    modifies db`matches, db`nextMatchId, db`goals, db`nextGoalId
    ensures db.Valid()
    ensures created == Match(old(db.nextMatchId), m.date, m.teamYoungScore, m.teamOldScore)
    ensures db.matches == old(db.matches) + [created]
    ensures db.goals == old(db.goals) + NewGoals(m.goals, created.id, old(db.nextGoalId))
  {
    created := db.CreateMatch(m);
  }
}
