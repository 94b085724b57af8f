/** The player list: each player's count of regular goals, the list sorted by that count
    (most first) and the count's label. */
module PlayerList {
  import opened Seqs
  import opened Sorting
  import opened Schema

  /** A goal that is not an own goal. */
  function IsRegular(): GoalView -> bool
  {
    (g: GoalView) => !g.isOwnGoal
  }

  /** An own goal. */
  function IsOwn(): GoalView -> bool
  {
    (g: GoalView) => g.isOwnGoal
  }

  /** `Array.isArray(p.goals) ? p.goals.filter(g => !g.is_own_goal).length : 0`: every listed
      goal that is not an own goal is counted, so the count and the own goals make up the
      whole list. */
  function GoalCount(p: PlayerView): (n: nat)
    ensures p.goals.None? ==> n == 0
    ensures p.goals.Some? ==> n + Count(p.goals.value, IsOwn()) == |p.goals.value|
  {
    if p.goals.Some? then
      FilterPartition(p.goals.value, IsRegular(), IsOwn());
      Count(p.goals.value, IsRegular())
    else 0
  }

  /** One more listed goal raises the count by one exactly when it is not an own goal. */
  lemma GoalCountAppend(p: PlayerView, g: GoalView)
    requires p.goals.Some?
    ensures GoalCount(p.(goals := Some(p.goals.value + [g])))
            == GoalCount(p) + (if g.isOwnGoal then 0 else 1)
  {
    CountAppend(p.goals.value, [g], IsRegular());
    FilterSingle(g, IsRegular());
  }

  /** The key the sort callback `goalsB - goalsA` compares: the count, negated. */
  function ByGoalsDescending(): PlayerView -> int
  {
    (p: PlayerView) => -(GoalCount(p) as int)
  }

  /** `[...players].sort((a, b) => goalsB - goalsA)`, a stable sort of a copy. */
  function SortedPlayers(players: seq<PlayerView>): seq<PlayerView>
  {
    Sort(players, ByGoalsDescending())
  }

  /** The sorted copy holds the same players, and their goal counts never increase down the
      list. */
  lemma SortedPlayersSpec(players: seq<PlayerView>)
    ensures multiset(SortedPlayers(players)) == multiset(players)
    ensures var r := SortedPlayers(players);
            forall i, j :: 0 <= i < j < |r| ==> GoalCount(r[i]) >= GoalCount(r[j])
  {
    SortSorted(players, ByGoalsDescending());
    SortPermutes(players, ByGoalsDescending());
  }

  /** The players with exactly `n` regular goals, in list order. */
  function WithCount(players: seq<PlayerView>, n: nat): seq<PlayerView>
  {
    Filter(players, KeyIs(ByGoalsDescending(), -(n as int)))
  }

  /** `WithCount` holds exactly the players with `n` regular goals. */
  lemma WithCountMembers(players: seq<PlayerView>, n: nat)
    ensures forall p :: p in WithCount(players, n) <==> p in players && GoalCount(p) == n
  {
    FilterMembers(players, KeyIs(ByGoalsDescending(), -(n as int)));
  }

  /** Ties keep the fetched order: the players with any given count appear in the sorted list
      in the same order as in the fetched one. */
  lemma TiesKeepFetchedOrder(players: seq<PlayerView>, n: nat)
    ensures WithCount(SortedPlayers(players), n) == WithCount(players, n)
  {
    SortStable(players, ByGoalsDescending(), -(n as int));
  }

  /** The noun after the count: singular only for exactly one goal. */
  function GoalNoun(n: nat): (s: string)
    ensures s == "goal" <==> n == 1
    ensures s == "goal" || s == "goals"
  {
    "goal" + (if n == 1 then "" else "s")
  }
}
