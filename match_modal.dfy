/** The match detail dialog: the match's goals split by team, and the player cell of a goal
    row. */
module MatchModal {
  import opened Seqs
  import opened Schema

  /** The goals whose `team` is exactly `team`. */
  function OnTeam(team: string): GoalView -> bool
  {
    (g: GoalView) => g.team == team
  }

  /** The two lists the dialog renders. */
  datatype TeamGoals = TeamGoals(goalsYoung: seq<GoalView>, goalsOld: seq<GoalView>)

  /** `match.goals || []`. */
  function GoalsOrEmpty(m: MatchView): seq<GoalView>
  {
    if m.goals.Some? then m.goals.value else []
  }

  /** The dialog renders nothing for a null match; otherwise it filters the goals by team,
      keeping their order. */
  function SplitGoals(m: Option<MatchView>): (r: Option<TeamGoals>)
    ensures m.None? <==> r.None?
    ensures m.Some? && m.value.goals.None? ==> r == Some(TeamGoals([], []))
  {
    if m.None? then None
    else
      var gs := GoalsOrEmpty(m.value);
      Some(TeamGoals(Filter(gs, OnTeam(YOUNG)), Filter(gs, OnTeam(OLD))))
  }

  /** `goalsYoung` holds exactly the young goals and `goalsOld` exactly the old ones. */
  lemma SplitMembers(m: MatchView)
    ensures var r := SplitGoals(Some(m)).value;
            (forall g :: g in r.goalsYoung <==> g in GoalsOrEmpty(m) && g.team == YOUNG)
            && (forall g :: g in r.goalsOld <==> g in GoalsOrEmpty(m) && g.team == OLD)
  {
    FilterMembers(GoalsOrEmpty(m), OnTeam(YOUNG));
    FilterMembers(GoalsOrEmpty(m), OnTeam(OLD));
  }

  /** The lists keep the goals' order and how often each occurs: the goals of a list made of
      two parts split into the first part's lists followed by the second part's, and a single
      goal lands in the list of its team and nowhere else. */
  lemma SplitOrder(m: MatchView, s: seq<GoalView>, t: seq<GoalView>, g: GoalView)
    ensures var r := SplitGoals(Some(m.(goals := Some(s + t)))).value;
            var rs := SplitGoals(Some(m.(goals := Some(s)))).value;
            var rt := SplitGoals(Some(m.(goals := Some(t)))).value;
            r.goalsYoung == rs.goalsYoung + rt.goalsYoung && r.goalsOld == rs.goalsOld + rt.goalsOld
    ensures SplitGoals(Some(m.(goals := Some([g])))).value
            == TeamGoals(if g.team == YOUNG then [g] else [], if g.team == OLD then [g] else [])
  {
    FilterAppend(s, t, OnTeam(YOUNG));
    FilterAppend(s, t, OnTeam(OLD));
    FilterSingle(g, OnTeam(YOUNG));
    FilterSingle(g, OnTeam(OLD));
  }

  /** When every goal is young or old, the two lists together are the goal list, rearranged;
      a goal with any other team string is in neither list. */
  lemma SplitPartition(m: MatchView)
    ensures var r := SplitGoals(Some(m)).value;
            forall g :: (g in GoalsOrEmpty(m) && g.team != YOUNG && g.team != OLD) ==>
                          g !in r.goalsYoung && g !in r.goalsOld
    ensures (forall g :: g in GoalsOrEmpty(m) ==> g.team == YOUNG || g.team == OLD) ==>
            var r := SplitGoals(Some(m)).value;
            |r.goalsYoung| + |r.goalsOld| == |GoalsOrEmpty(m)|
            && multiset(r.goalsYoung) + multiset(r.goalsOld) == multiset(GoalsOrEmpty(m))
  {
    SplitMembers(m);
    if forall g :: g in GoalsOrEmpty(m) ==> g.team == YOUNG || g.team == OLD {
      FilterPartition(GoalsOrEmpty(m), OnTeam(YOUNG), OnTeam(OLD));
    }
  }

  /** What the player cell shows. */
  datatype Cell = NameCell(name: string) | IdCell(id: int)

  /** `g.player?.name || g.player_id`: the player's name unless it is missing or empty. */
  function PlayerCell(g: GoalView): (c: Cell)
    ensures c.NameCell? <==> g.playerName.Some? && g.playerName.value != ""
    ensures c.NameCell? ==> c.name == g.playerName.value
    ensures c.IdCell? ==> c.id == g.playerId
  {
    if g.playerName.Some? && g.playerName.value != "" then NameCell(g.playerName.value)
    else IdCell(g.playerId)
  }
}
