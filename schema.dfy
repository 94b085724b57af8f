/** The records of the football-stats backend (its table rows and request bodies) and the
    response shapes the frontend reads. */
module Schema {

  datatype Option<T> = None | Some(value: T)

  /** Calendar dates are totally ordered day keys (for example 20240720 for 2024-07-20). */
  type Date = int

  /** The two team names a goal can carry. */
  const YOUNG: string := "young"
  const OLD: string := "old"

  /** The name of the placeholder player that holds the goals of deleted players. */
  const UNKNOWN_PLAYER_NAME: string := "Unknown Player (Deleted)"

  /** A row of the players table.  The birthdate column is nullable; the placeholder player
      is not given one by this model. */
  datatype Player = Player(id: nat, name: string, birthdate: Option<Date>)

  /** A row of the matches table.  The two scores are stored as submitted. */
  datatype Match = Match(id: nat, date: Date, teamYoungScore: int, teamOldScore: int)

  /** A row of the goals table.  `playerId` is a plain integer column: nothing forces it to
      name an existing player. */
  datatype Goal = Goal(id: nat, matchId: nat, playerId: int, isOwnGoal: bool, team: string)

  /** The body of a goal in a match creation request. */
  datatype GoalCreate = GoalCreate(playerId: int, isOwnGoal: bool, team: string)

  /** The body of a match creation request. */
  datatype MatchCreate = MatchCreate(date: Date, teamYoungScore: int, teamOldScore: int,
                                     goals: seq<GoalCreate>)

  /** The match summary nested inside a goal of a response. */
  datatype ShallowMatch = ShallowMatch(id: nat, date: Date, teamYoungScore: int, teamOldScore: int)

  /** A goal as the frontend reads it: `matchInfo` (the nested `match`) may be missing, and `playerName` stands for the
      optional nested `player.name`. */
  datatype GoalView = GoalView(id: nat, playerId: int, isOwnGoal: bool, team: string,
                               matchInfo: Option<ShallowMatch>, playerName: Option<string>)

  /** A player as the frontend reads it; `goals` is `None` when the field is not an array. */
  datatype PlayerView = PlayerView(id: nat, name: string, birthdate: Date,
                                   goals: Option<seq<GoalView>>)

  /** A match as the frontend reads it; `goals` is `None` when the field is missing. */
  datatype MatchView = MatchView(id: nat, date: Date, teamYoungScore: int, teamOldScore: int,
                                 goals: Option<seq<GoalView>>)
}
