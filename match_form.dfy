/** The match entry form: per-player scorer lines for the two teams, the team scores derived
    from them (an own goal credits the other team), the flat goal list that is submitted,
    and the form state that the add/remove/change handlers replace. */
module MatchForm {
  import opened Seqs
  import opened Schema

  /** What a player select holds: a player id, or the empty string before players load. */
  datatype PlayerRef = Unset | PlayerId(id: int)

  /** One scorer line: a player with a count of regular goals and a count of own goals. */
  datatype Entry = Entry(player: PlayerRef, goals: nat, ownGoals: nat)

  /** One goal of the submitted list. */
  datatype GoalPayload = GoalPayload(player: PlayerRef, isOwnGoal: bool, team: string)

  /** What the form hands to its submit callback. */
  datatype MatchPayload = MatchPayload(date: string, teamYoungScore: nat, teamOldScore: nat,
                                       goals: seq<GoalPayload>)

  // ---------------------------------------------------------------------------------------
  // The number inputs

  /** `Math.max(0, Number(value))`: a typed count is never negative. The result is one of the
      two arguments and at least both, so it is their maximum. */
  function Clamp(raw: int): (n: nat)
    ensures n >= raw
    ensures n == 0 || n == raw
    ensures raw >= 0 ==> n == raw
    ensures raw < 0 ==> n == 0
  {
    if raw < 0 then 0 else raw
  }

  /** The goals field of a scorer line changes: only `goals` changes, clamped. */
  function WithGoals(e: Entry, raw: int): (r: Entry)
    ensures r.player == e.player && r.ownGoals == e.ownGoals
    ensures raw >= 0 ==> r.goals == raw
    ensures raw < 0 ==> r.goals == 0
  {
    e.(goals := Clamp(raw))
  }

  /** The own goals field of a scorer line changes: only `ownGoals` changes, clamped. */
  function WithOwnGoals(e: Entry, raw: int): (r: Entry)
    ensures r.player == e.player && r.goals == e.goals
    ensures raw >= 0 ==> r.ownGoals == raw
    ensures raw < 0 ==> r.ownGoals == 0
  {
    e.(ownGoals := Clamp(raw))
  }

  // ---------------------------------------------------------------------------------------
  // Scores

  /** `entries.reduce((sum, g) => sum + g.goals, 0)`. */
  function SumGoals(es: seq<Entry>): nat
  {
    if es == [] then 0 else es[0].goals + SumGoals(es[1..])
  }

  /** `entries.reduce((sum, g) => sum + g.own_goals, 0)`. */
  function SumOwnGoals(es: seq<Entry>): nat
  {
    if es == [] then 0 else es[0].ownGoals + SumOwnGoals(es[1..])
  }

  /** The young team's regular goals plus the old team's own goals. */
  function TeamYoungScore(youngs: seq<Entry>, olds: seq<Entry>): nat
  {
    SumGoals(youngs) + SumOwnGoals(olds)
  }

  /** The old team's regular goals plus the young team's own goals. */
  function TeamOldScore(youngs: seq<Entry>, olds: seq<Entry>): nat
  {
    SumGoals(olds) + SumOwnGoals(youngs)
  }

  /** The submit button is enabled when a date is set and either score is positive. */
  function CanSubmit(date: string, youngs: seq<Entry>, olds: seq<Entry>): bool
  {
    date != "" && (TeamYoungScore(youngs, olds) > 0 || TeamOldScore(youngs, olds) > 0)
  }

  // ---------------------------------------------------------------------------------------
  // The flat goal list

  /** One scorer line becomes its regular goals followed by its own goals, each record
      carrying the line's player and the team. */
  function Expand(e: Entry, team: string): (r: seq<GoalPayload>)
    ensures |r| == e.goals + e.ownGoals
    ensures forall k :: 0 <= k < |r| ==>
              r[k] == GoalPayload(e.player, k >= e.goals, team)
  {
    Repeat(GoalPayload(e.player, false, team), e.goals)
      + Repeat(GoalPayload(e.player, true, team), e.ownGoals)
  }

  /** `entries.flatMap(...)` over one team's lines. */
  function ExpandAll(es: seq<Entry>, team: string): seq<GoalPayload>
  {
    if es == [] then [] else Expand(es[0], team) + ExpandAll(es[1..], team)
  }

  /** The submitted list: all young records, then all old records. */
  function FlattenGoals(youngs: seq<Entry>, olds: seq<Entry>): seq<GoalPayload>
  {
    ExpandAll(youngs, YOUNG) + ExpandAll(olds, OLD)
  }

  /** The records of one team, regular or own goals. */
  function IsKind(team: string, own: bool): GoalPayload -> bool
  {
    (g: GoalPayload) => g.team == team && g.isOwnGoal == own
  }

  lemma {:induction false} ExpandAllLength(es: seq<Entry>, team: string)
    ensures |ExpandAll(es, team)| == SumGoals(es) + SumOwnGoals(es)
  {
    if es != [] {
      ExpandAllLength(es[1..], team);
    }
  }

  /** The flat list holds one record per goal and own goal entered, which is as many as
      the two scores together. */
  lemma {:induction false} FlattenLength(youngs: seq<Entry>, olds: seq<Entry>)
    ensures |FlattenGoals(youngs, olds)|
         == SumGoals(youngs) + SumOwnGoals(youngs) + SumGoals(olds) + SumOwnGoals(olds)
         == TeamYoungScore(youngs, olds) + TeamOldScore(youngs, olds)
  {
    ExpandAllLength(youngs, YOUNG);
    ExpandAllLength(olds, OLD);
  }

  lemma ExpandCount(e: Entry, team: string, t: string, own: bool)
    ensures Count(Expand(e, team), IsKind(t, own))
         == if t != team then 0 else if own then e.ownGoals else e.goals
  {
    var p := IsKind(t, own);
    CountAppend(Repeat(GoalPayload(e.player, false, team), e.goals),
                Repeat(GoalPayload(e.player, true, team), e.ownGoals), p);
    CountRepeat(GoalPayload(e.player, false, team), e.goals, p);
    CountRepeat(GoalPayload(e.player, true, team), e.ownGoals, p);
  }

  lemma {:induction false} ExpandAllCount(es: seq<Entry>, team: string, t: string, own: bool)
    ensures Count(ExpandAll(es, team), IsKind(t, own))
         == if t != team then 0 else if own then SumOwnGoals(es) else SumGoals(es)
  {
    if es != [] {
      ExpandAllCount(es[1..], team, t, own);
      ExpandCount(es[0], team, t, own);
      CountAppend(Expand(es[0], team), ExpandAll(es[1..], team), IsKind(t, own));
    }
  }

  /** Counting the flat list per team and kind gives back the sums the scores add up. */
  lemma FlattenCounts(youngs: seq<Entry>, olds: seq<Entry>)
    ensures Count(FlattenGoals(youngs, olds), IsKind(YOUNG, false)) == SumGoals(youngs)
    ensures Count(FlattenGoals(youngs, olds), IsKind(YOUNG, true)) == SumOwnGoals(youngs)
    ensures Count(FlattenGoals(youngs, olds), IsKind(OLD, false)) == SumGoals(olds)
    ensures Count(FlattenGoals(youngs, olds), IsKind(OLD, true)) == SumOwnGoals(olds)
  {
    forall t: string, own: bool | t in {YOUNG, OLD}
      ensures Count(FlattenGoals(youngs, olds), IsKind(t, own))
           == Count(ExpandAll(youngs, YOUNG), IsKind(t, own)) + Count(ExpandAll(olds, OLD), IsKind(t, own))
    {
      CountAppend(ExpandAll(youngs, YOUNG), ExpandAll(olds, OLD), IsKind(t, own));
    }
    ExpandAllCount(youngs, YOUNG, YOUNG, false);
    ExpandAllCount(youngs, YOUNG, YOUNG, true);
    ExpandAllCount(youngs, YOUNG, OLD, false);
    ExpandAllCount(youngs, YOUNG, OLD, true);
    ExpandAllCount(olds, OLD, YOUNG, false);
    ExpandAllCount(olds, OLD, YOUNG, true);
    ExpandAllCount(olds, OLD, OLD, false);
    ExpandAllCount(olds, OLD, OLD, true);
  }

  /** The ledger rule: the scores computed from the scorer lines equal the tallies recomputed
      from the submitted goals (a team's regular goals plus the other team's own goals). */
  lemma ScoresMatchGoals(youngs: seq<Entry>, olds: seq<Entry>)
    ensures TeamYoungScore(youngs, olds)
         == Count(FlattenGoals(youngs, olds), IsKind(YOUNG, false))
          + Count(FlattenGoals(youngs, olds), IsKind(OLD, true))
    ensures TeamOldScore(youngs, olds)
         == Count(FlattenGoals(youngs, olds), IsKind(OLD, false))
          + Count(FlattenGoals(youngs, olds), IsKind(YOUNG, true))
  {
    FlattenCounts(youngs, olds);
  }

  /** A record of team `team` for the player of one of the lines `es`. */
  ghost predicate FromTeam(g: GoalPayload, team: string, es: seq<Entry>)
  {
    g.team == team && exists e :: e in es && g.player == e.player
  }

  lemma {:induction false} ExpandAllShape(es: seq<Entry>, team: string)
    ensures forall g :: g in ExpandAll(es, team) ==> FromTeam(g, team, es)
  {
    if es != [] {
      ExpandAllShape(es[1..], team);
      forall g | g in ExpandAll(es, team) ensures FromTeam(g, team, es) {
        if g in Expand(es[0], team) {
          assert es[0] in es;
        } else {
          assert g in ExpandAll(es[1..], team);
          var e :| e in es[1..] && g.player == e.player;
          assert e in es;
        }
      }
    }
  }

  /** The submitted list starts with the young records and ends with the old ones; every
      record carries its team and the player of one of that team's lines. */
  lemma FlattenOrder(youngs: seq<Entry>, olds: seq<Entry>)
    ensures var f := FlattenGoals(youngs, olds);
            var n := SumGoals(youngs) + SumOwnGoals(youngs);
            n <= |f|
            && (forall k :: 0 <= k < n ==> FromTeam(f[k], YOUNG, youngs))
            && (forall k :: n <= k < |f| ==> FromTeam(f[k], OLD, olds))
  {
    var a, b := ExpandAll(youngs, YOUNG), ExpandAll(olds, OLD);
    ExpandAllLength(youngs, YOUNG);
    ExpandAllShape(youngs, YOUNG);
    ExpandAllShape(olds, OLD);
    var f := a + b;
    assert FlattenGoals(youngs, olds) == f;
    forall k | 0 <= k < |a| ensures FromTeam(f[k], YOUNG, youngs) {
      assert f[k] == a[k] && a[k] in a;
    }
    forall k | |a| <= k < |f| ensures FromTeam(f[k], OLD, olds) {
      assert f[k] == b[k - |a|] && b[k - |a|] in b;
    }
  }

  lemma {:induction false} PositiveSums(es: seq<Entry>)
    ensures SumGoals(es) + SumOwnGoals(es) > 0
        <==> exists e :: e in es && (e.goals > 0 || e.ownGoals > 0)
  {
    if es != [] {
      PositiveSums(es[1..]);
      if SumGoals(es[1..]) + SumOwnGoals(es[1..]) > 0 {
        var e :| e in es[1..] && (e.goals > 0 || e.ownGoals > 0);
        assert e in es;
      }
      forall e | e in es && (e.goals > 0 || e.ownGoals > 0)
        ensures SumGoals(es) + SumOwnGoals(es) > 0
      {
        if e != es[0] {
          assert e in es[1..];
        }
      }
    }
  }

  /** Submission is enabled exactly when a date is set and some line of either team has a
      positive goal or own goal count. */
  lemma CanSubmitIff(date: string, youngs: seq<Entry>, olds: seq<Entry>)
    ensures CanSubmit(date, youngs, olds)
        <==> date != "" && exists e :: e in youngs + olds && (e.goals > 0 || e.ownGoals > 0)
  {
    PositiveSums(youngs);
    PositiveSums(olds);
    forall e | e in youngs + olds ensures e in youngs || e in olds { }
  }

  // ---------------------------------------------------------------------------------------
  // The form state

  /** `list.filter((_, i) => i !== idx)`: drops index `idx` when it exists. */
  function RemoveAt(s: seq<Entry>, idx: int): (r: seq<Entry>)
    ensures 0 <= idx < |s| ==> |r| == |s| - 1
                               && (forall k :: 0 <= k < idx ==> r[k] == s[k])
                               && (forall k :: idx <= k < |r| ==> r[k] == s[k + 1])
    ensures !(0 <= idx < |s|) ==> r == s
  {
    if 0 <= idx < |s| then s[..idx] + s[idx + 1..] else s
  }

  /** `list.map((g, i) => i === idx ? value : g)`: replaces index `idx` when it exists. */
  function ReplaceAt(s: seq<Entry>, idx: int, value: Entry): (r: seq<Entry>)
    ensures |r| == |s|
    ensures forall k :: 0 <= k < |s| ==> r[k] == if k == idx then value else s[k]
  {
    if 0 <= idx < |s| then s[idx := value] else s
  }

  /** Removing line `idx` takes exactly that line's counts out of the sums. */
  lemma {:induction false} RemoveAtSums(s: seq<Entry>, idx: int)
    requires 0 <= idx < |s|
    ensures SumGoals(RemoveAt(s, idx)) == SumGoals(s) - s[idx].goals
    ensures SumOwnGoals(RemoveAt(s, idx)) == SumOwnGoals(s) - s[idx].ownGoals
  {
    if idx > 0 {
      RemoveAtSums(s[1..], idx - 1);
      assert RemoveAt(s, idx) == [s[0]] + RemoveAt(s[1..], idx - 1);
    } else {
      assert RemoveAt(s, idx) == s[1..];
    }
  }

  /** The form's three state fields. */
  class FormState {
    var date: string
    var youngGoals: seq<Entry>
    var oldGoals: seq<Entry>

    constructor ()
      ensures date == "" && youngGoals == [] && oldGoals == []
    {
      date := "";
      youngGoals := [];
      oldGoals := [];
    }

    /** Scores shown in the read-only score fields. */
    function Scores(): (nat, nat)
      reads this
    {
      (TeamYoungScore(youngGoals, oldGoals), TeamOldScore(youngGoals, oldGoals))
    }

    method SetDate(d: string)
      modifies this
      ensures date == d && youngGoals == old(youngGoals) && oldGoals == old(oldGoals)
    {
      date := d;
    }

    /** `handleAddGoal`: appends an empty line to the chosen team, defaulting its player to
        the first loaded player (`players[0]?.id || ""`).  Any team other than "young"
        goes to the olds team. */
    method AddGoal(team: string, players: seq<int>)
      modifies this
      ensures var e := Entry(if |players| > 0 && players[0] != 0 then PlayerId(players[0]) else Unset, 0, 0);
              if team == YOUNG then youngGoals == old(youngGoals) + [e] && oldGoals == old(oldGoals)
              else oldGoals == old(oldGoals) + [e] && youngGoals == old(youngGoals)
      ensures date == old(date)
      ensures Scores() == old(Scores())
    {
      var first := if |players| > 0 && players[0] != 0 then PlayerId(players[0]) else Unset;
      var e := Entry(first, 0, 0);
      if team == YOUNG {
        AppendZeroSums(youngGoals, e);
        youngGoals := youngGoals + [e];
      } else {
        AppendZeroSums(oldGoals, e);
        oldGoals := oldGoals + [e];
      }
    }

    /** `handleRemoveGoal`: drops line `idx` of the chosen team only. */
    method RemoveGoal(team: string, idx: int)
      modifies this
      ensures if team == YOUNG then youngGoals == RemoveAt(old(youngGoals), idx) && oldGoals == old(oldGoals)
              else oldGoals == RemoveAt(old(oldGoals), idx) && youngGoals == old(youngGoals)
      ensures date == old(date)
    {
      if team == YOUNG {
        youngGoals := RemoveAt(youngGoals, idx);
      } else {
        oldGoals := RemoveAt(oldGoals, idx);
      }
    }

    /** `handleGoalChange`: replaces line `idx` of the chosen team only. */
    method GoalChange(team: string, idx: int, value: Entry)
      modifies this
      ensures if team == YOUNG then youngGoals == ReplaceAt(old(youngGoals), idx, value) && oldGoals == old(oldGoals)
              else oldGoals == ReplaceAt(old(oldGoals), idx, value) && youngGoals == old(youngGoals)
      ensures date == old(date)
    {
      if team == YOUNG {
        youngGoals := ReplaceAt(youngGoals, idx, value);
      } else {
        oldGoals := ReplaceAt(oldGoals, idx, value);
      }
    }

    /** `handleSubmit`: builds the payload from the current state and hands it to the
        callback that sends it (outside the model). `settled` says whether that callback
        settled: only then is the form reset; when it rejects, the handler stops there and the
        form keeps its state. */
    method Submit(settled: bool) returns (payload: MatchPayload)
      modifies this
      ensures payload.date == old(date)
      ensures payload.goals == FlattenGoals(old(youngGoals), old(oldGoals))
      ensures (payload.teamYoungScore, payload.teamOldScore) == old(Scores())
      ensures settled ==> date == "" && youngGoals == [] && oldGoals == []
      ensures !settled ==> date == old(date) && youngGoals == old(youngGoals)
                           && oldGoals == old(oldGoals)
    {
      payload := MatchPayload(date, TeamYoungScore(youngGoals, oldGoals),
                              TeamOldScore(youngGoals, oldGoals),
                              FlattenGoals(youngGoals, oldGoals));
      if settled {
        date := "";
        youngGoals := [];
        oldGoals := [];
      }
    }
  }

  /** An appended empty line leaves both sums unchanged. */
  lemma {:induction false} AppendZeroSums(s: seq<Entry>, e: Entry)
    requires e.goals == 0 && e.ownGoals == 0
    ensures SumGoals(s + [e]) == SumGoals(s) && SumOwnGoals(s + [e]) == SumOwnGoals(s)
  {
    if s != [] {
      assert (s + [e])[1..] == s[1..] + [e];
      AppendZeroSums(s[1..], e);
    } else {
      assert s + [e] == [e];
    }
  }
}
