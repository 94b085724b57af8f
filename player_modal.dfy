/** The player detail dialog's per-match summary: the player's goals grouped by match, one
    row per match with the match's date and scores and the player's goal and own-goal counts
    in it. */
module PlayerModal {
  import opened Seqs
  import opened Schema

  /** One row of the dialog's match table. */
  datatype Summary = Summary(date: Date, team: string, teamYoungScore: int, teamOldScore: int,
                             goals: nat, ownGoals: nat)

  /** The goals the grouping walks over: none unless the player is loaded and its `goals`
      field is an array. */
  function PlayerGoals(player: Option<PlayerView>): seq<GoalView>
  {
    if player.Some? && player.value.goals.Some? then player.value.goals.value else []
  }

  predicate InMatch(g: GoalView, id: nat)
  {
    g.matchInfo.Some? && g.matchInfo.value.id == id
  }

  /** The goals of match `id` that are own goals (`own`) or regular ones (`!own`). */
  function OfMatch(id: nat, own: bool): GoalView -> bool
  {
    (g: GoalView) => InMatch(g, id) && g.isOwnGoal == own
  }

  /** The goals that carry their match. */
  function HasMatch(): GoalView -> bool
  {
    (g: GoalView) => g.matchInfo.Some?
  }

  /** The id of the match `g` carries, if any. */
  function CarriedId(g: GoalView): set<nat>
  {
    if g.matchInfo.Some? then {g.matchInfo.value.id} else {}
  }

  /** The ids of the matches the goals carry. */
  function MatchIds(gs: seq<GoalView>): set<nat>
  {
    if gs == [] then {} else CarriedId(gs[0]) + MatchIds(gs[1..])
  }

  /** A match id is collected exactly when some goal carries it. */
  lemma {:induction false} MatchIdsMembers(gs: seq<GoalView>)
    ensures forall k :: k in MatchIds(gs) <==> exists g :: g in gs && InMatch(g, k)
  {
    if gs != [] {
      MatchIdsMembers(gs[1..]);
      assert gs == [gs[0]] + gs[1..];
      forall k ensures k in MatchIds(gs) <==> exists g :: g in gs && InMatch(g, k) {
        if k in MatchIds(gs) && !InMatch(gs[0], k) {
          assert k in MatchIds(gs[1..]);
          var g :| g in gs[1..] && InMatch(g, k);
          assert g in gs;
        }
        if InMatch(gs[0], k) {
          assert gs[0] in gs;
        }
      }
    }
  }

  /** The first goal of match `id`: the one whose match and team fill the row. */
  function FirstOf(gs: seq<GoalView>, id: nat): (g: GoalView)
    requires id in MatchIds(gs)
    ensures g in gs && InMatch(g, id)
  {
    if InMatch(gs[0], id) then gs[0]
    else
      var g := FirstOf(gs[1..], id);
      assert g in gs[1..];
      g
  }

  /** A fresh row for the match of `g`, with no goals counted yet. */
  function NewRow(g: GoalView): Summary
    requires g.matchInfo.Some?
  {
    var m := g.matchInfo.value;
    Summary(m.date, g.team, m.teamYoungScore, m.teamOldScore, 0, 0)
  }

  /** The row of match `id` once every goal in `gs` has been counted: its fields from the
      first goal of that match, and how many of the goals are regular and own goals in it. */
  function SummaryOf(gs: seq<GoalView>, id: nat): (r: Summary)
    requires id in MatchIds(gs)
    ensures r.goals + r.ownGoals >= 1
  {
    var first := FirstOf(gs, id);
    var row := NewRow(first);
    assert first in Filter(gs, OfMatch(id, first.isOwnGoal)) by {
      FilterMembers(gs, OfMatch(id, first.isOwnGoal));
    }
    row.(goals := Count(gs, OfMatch(id, false)), ownGoals := Count(gs, OfMatch(id, true)))
  }

  /** The keys of `matchMap` as `Object.values` visits them: integer keys ascending. */
  ghost predicate Increasing(s: seq<nat>)
  {
    forall i, j :: 0 <= i < j < |s| ==> s[i] < s[j]
  }

  lemma {:induction false} MatchIdsAppend(s: seq<GoalView>, g: GoalView)
    ensures MatchIds(s + [g]) == MatchIds(s) + CarriedId(g)
    ensures forall k :: k in MatchIds(s + [g]) <==> k in MatchIds(s) || InMatch(g, k)
  {
    if s == [] {
      assert s + [g] == [g];
    } else {
      assert (s + [g])[0] == s[0];
      assert (s + [g])[1..] == s[1..] + [g];
      MatchIdsAppend(s[1..], g);
    }
  }

  /** Appending a goal does not move the first goal of a match already seen. */
  lemma {:induction false} FirstOfAppend(s: seq<GoalView>, g: GoalView, id: nat)
    requires id in MatchIds(s)
    ensures id in MatchIds(s + [g]) && FirstOf(s + [g], id) == FirstOf(s, id)
  {
    MatchIdsAppend(s, g);
    assert (s + [g])[0] == s[0];
    if !InMatch(s[0], id) {
      assert (s + [g])[1..] == s[1..] + [g];
      FirstOfAppend(s[1..], g, id);
    }
  }

  /** The first goal of a match not seen before is the appended one. */
  lemma {:induction false} FirstOfNew(s: seq<GoalView>, g: GoalView, id: nat)
    requires id !in MatchIds(s) && InMatch(g, id)
    ensures id in MatchIds(s + [g]) && FirstOf(s + [g], id) == g
  {
    MatchIdsAppend(s, g);
    if s != [] {
      assert (s + [g])[0] == s[0];
      assert s[0] in s;
      assert (s + [g])[1..] == s[1..] + [g];
      FirstOfNew(s[1..], g, id);
    } else {
      assert s + [g] == [g];
    }
  }

  /** `row` with the goal `g` counted in it. */
  function Counted(row: Summary, g: GoalView): Summary
  {
    if g.isOwnGoal then row.(ownGoals := row.ownGoals + 1) else row.(goals := row.goals + 1)
  }

  lemma CountOneMore(s: seq<GoalView>, g: GoalView, p: GoalView -> bool)
    ensures Count(s + [g], p) == Count(s, p) + (if p(g) then 1 else 0)
  {
    CountAppend(s, [g], p);
    FilterSingle(g, p);
  }

  /** One step of the grouping: how the row of match `k` changes when goal `g` is counted. */
  lemma SummaryStep(s: seq<GoalView>, g: GoalView, k: nat)
    requires k in MatchIds(s + [g])
    ensures k in MatchIds(s) && !InMatch(g, k) ==> SummaryOf(s + [g], k) == SummaryOf(s, k)
    ensures k in MatchIds(s) && InMatch(g, k) ==>
              SummaryOf(s + [g], k) == Counted(SummaryOf(s, k), g)
    ensures k !in MatchIds(s) ==> InMatch(g, k) && SummaryOf(s + [g], k) == Counted(NewRow(g), g)
  {
    MatchIdsAppend(s, g);
    CountOneMore(s, g, OfMatch(k, false));
    CountOneMore(s, g, OfMatch(k, true));
    if k in MatchIds(s) {
      FirstOfAppend(s, g, k);
    } else {
      FirstOfNew(s, g, k);
      MatchIdsMembers(s);
      FilterNone(s, OfMatch(k, false));
      FilterNone(s, OfMatch(k, true));
    }
  }

  /** The ascending key list with `k` put in its place. */
  function InsertKey(keys: seq<nat>, k: nat): (r: seq<nat>)
    ensures |r| == |keys| + 1
    ensures forall x :: x in r <==> x in keys || x == k
  {
    if keys == [] || k < keys[0] then [k] + keys
    else [keys[0]] + InsertKey(keys[1..], k)
  }

  lemma {:induction false} InsertKeyIncreasing(keys: seq<nat>, k: nat)
    requires Increasing(keys) && k !in keys
    ensures Increasing(InsertKey(keys, k))
  {
    if keys != [] && k >= keys[0] {
      assert keys == [keys[0]] + keys[1..];
      InsertKeyIncreasing(keys[1..], k);
      var r := InsertKey(keys, k);
      forall j | 0 < j < |r| ensures keys[0] < r[j] {
        assert r[j] in InsertKey(keys[1..], k);
        if r[j] != k {
          assert r[j] in keys[1..];
        } else {
          assert k != keys[0];
        }
      }
    }
  }

  /** The total of the rows' goal and own-goal counts. */
  function Total(rows: seq<Summary>): nat
  {
    if rows == [] then 0 else rows[0].goals + rows[0].ownGoals + Total(rows[1..])
  }

  /** The two counts of match `k`'s row, before the row is built. */
  function Tally(gs: seq<GoalView>, k: nat): nat
  {
    Count(gs, OfMatch(k, false)) + Count(gs, OfMatch(k, true))
  }

  function SumTallies(gs: seq<GoalView>, ids: seq<nat>): nat
  {
    if ids == [] then 0 else Tally(gs, ids[0]) + SumTallies(gs, ids[1..])
  }

  lemma {:induction false} SumTalliesEmpty(ids: seq<nat>)
    ensures SumTallies([], ids) == 0
  {
    if ids != [] {
      SumTalliesEmpty(ids[1..]);
    }
  }

  lemma {:induction false} TallyCons(g: GoalView, rest: seq<GoalView>, k: nat)
    ensures Tally([g] + rest, k) == Tally(rest, k) + (if InMatch(g, k) then 1 else 0)
  {
    CountAppend([g], rest, OfMatch(k, false));
    CountAppend([g], rest, OfMatch(k, true));
    FilterSingle(g, OfMatch(k, false));
    FilterSingle(g, OfMatch(k, true));
  }

  /** Putting one goal in front adds one to the tallies exactly when its match is listed. */
  lemma {:induction false} SumTalliesCons(g: GoalView, rest: seq<GoalView>, ids: seq<nat>)
    requires Increasing(ids)
    ensures SumTallies([g] + rest, ids) ==
            SumTallies(rest, ids) + (if g.matchInfo.Some? && g.matchInfo.value.id in ids then 1 else 0)
  {
    if ids != [] {
      TallyCons(g, rest, ids[0]);
      assert Increasing(ids[1..]);
      SumTalliesCons(g, rest, ids[1..]);
      assert ids == [ids[0]] + ids[1..];
      assert ids[0] !in ids[1..];
    }
  }

  /** Summing the tallies of distinct ids that cover every match counts each goal with a
      match exactly once. */
  lemma {:induction false} TalliesCountGoals(gs: seq<GoalView>, ids: seq<nat>)
    requires Increasing(ids)
    requires forall k :: k in MatchIds(gs) ==> k in ids
    ensures SumTallies(gs, ids) == Count(gs, HasMatch())
  {
    if gs == [] {
      SumTalliesEmpty(ids);
    } else {
      assert gs == [gs[0]] + gs[1..];
      SumTalliesCons(gs[0], gs[1..], ids);
      TalliesCountGoals(gs[1..], ids);
      CountAppend([gs[0]], gs[1..], HasMatch());
      FilterSingle(gs[0], HasMatch());
    }
  }

  lemma {:induction false} TotalOfRows(gs: seq<GoalView>, ids: seq<nat>, rows: seq<Summary>)
    requires |rows| == |ids|
    requires forall i :: 0 <= i < |ids| ==> ids[i] in MatchIds(gs) && rows[i] == SummaryOf(gs, ids[i])
    ensures Total(rows) == SumTallies(gs, ids)
  {
    if ids != [] {
      TotalOfRows(gs, ids[1..], rows[1..]);
    }
  }

  /** `matchMap` with the goal `g` counted: a goal without a match changes nothing; otherwise
      its match's row, made fresh on first sight, counts it. */
  function CountInto(matchMap: map<nat, Summary>, g: GoalView): map<nat, Summary>
  {
    if g.matchInfo.None? then matchMap
    else
      var id := g.matchInfo.value.id;
      matchMap[id := Counted(if id in matchMap then matchMap[id] else NewRow(g), g)]
  }

  /** `matchMap` once the goals `s` have been counted one after the other. */
  ghost function Grouping(s: seq<GoalView>): map<nat, Summary>
  {
    if s == [] then map[] else CountInto(Grouping(s[..|s| - 1]), s[|s| - 1])
  }

  /** A map holding a row for exactly the matches the goals `s` carry, each row the
      `SummaryOf` its match. */
  ghost predicate Grouped(matchMap: map<nat, Summary>, s: seq<GoalView>)
  {
    (forall k :: k in matchMap <==> k in MatchIds(s))
    && forall k :: k in matchMap ==> k in MatchIds(s) && matchMap[k] == SummaryOf(s, k)
  }

  lemma GroupingStep(gs: seq<GoalView>, i: nat)
    requires i < |gs|
    ensures Grouping(gs[..i + 1]) == CountInto(Grouping(gs[..i]), gs[i])
  {
    assert gs[..i + 1][..i] == gs[..i];
  }

  /** Counting one more goal keeps a map grouped. */
  lemma GroupedAppend(s: seq<GoalView>, g: GoalView, matchMap: map<nat, Summary>)
    requires Grouped(matchMap, s)
    ensures Grouped(CountInto(matchMap, g), s + [g])
  {
    MatchIdsAppend(s, g);
    var after := CountInto(matchMap, g);
    forall k | k in after ensures k in MatchIds(s + [g]) && after[k] == SummaryOf(s + [g], k) {
      SummaryStep(s, g, k);
    }
  }

  /** Counting the goals one by one gives a row for each match they carry, and each row
      holds that match's date, scores and first team and the player's goal and own-goal
      counts in it. */
  lemma {:induction false} GroupingSpec(s: seq<GoalView>)
    ensures Grouped(Grouping(s), s)
  {
    if s != [] {
      var p, g := s[..|s| - 1], s[|s| - 1];
      GroupingSpec(p);
      GroupedAppend(p, g, Grouping(p));
      assert p + [g] == s;
    }
  }


  /** `Object.values(matchMap)` for a map whose keys, ascending, are `keys`. */
  method ValuesInKeyOrder(matchMap: map<nat, Summary>, keys: seq<nat>) returns (rows: seq<Summary>)
    requires forall k :: k in keys ==> k in matchMap
    ensures |rows| == |keys|
    ensures forall n :: 0 <= n < |keys| ==> rows[n] == matchMap[keys[n]]
  {
    rows := [];
    var j := 0;
    while j < |keys|
      invariant 0 <= j <= |keys|
      invariant |rows| == j
      invariant forall n :: 0 <= n < j ==> rows[n] == matchMap[keys[n]]
    {
      rows := rows + [matchMap[keys[j]]];
      j := j + 1;
    }
  }

  /** `keys` lists the keys of `matchMap` in ascending order. */
  ghost predicate KeysOf(keys: seq<nat>, matchMap: map<nat, Summary>)
  {
    Increasing(keys) && forall k :: k in keys <==> k in matchMap
  }

  /** One step of the `forEach`: a goal with a match has that match's row, made on first
      sight, count it as a goal or an own goal; the ascending key list follows the map. */
  method CountGoal(matchMap: map<nat, Summary>, keys: seq<nat>, goal: GoalView)
      returns (after: map<nat, Summary>, afterKeys: seq<nat>)
    requires KeysOf(keys, matchMap)
    ensures KeysOf(afterKeys, after)
    ensures after == CountInto(matchMap, goal)
  {
    after, afterKeys := matchMap, keys;
    if goal.matchInfo.Some? {
      var matchId := goal.matchInfo.value.id;
      var row := if matchId in matchMap then matchMap[matchId] else NewRow(goal);
      if matchId !in matchMap {
        InsertKeyIncreasing(keys, matchId);
        afterKeys := InsertKey(keys, matchId);
      }
      if goal.isOwnGoal {
        row := row.(ownGoals := row.ownGoals + 1);
      } else {
        row := row.(goals := row.goals + 1);
      }
      after := matchMap[matchId := row];
    }
  }

  /** The `forEach` over the goals: builds `matchMap`, and beside it the ascending list of
      its keys. */
  method GroupByMatch(gs: seq<GoalView>) returns (matchMap: map<nat, Summary>, keys: seq<nat>)
    ensures KeysOf(keys, matchMap)
    ensures matchMap == Grouping(gs)
  {
    matchMap, keys := map[], [];
    var i := 0;
    while i < |gs|
      invariant 0 <= i <= |gs|
      invariant KeysOf(keys, matchMap)
      invariant matchMap == Grouping(gs[..i])
    {
      var goal := gs[i];
      GroupingStep(gs, i);
      matchMap, keys := CountGoal(matchMap, keys, goal);
      i := i + 1;
    }
    assert gs[..i] == gs;
  }

  /** The dialog's `matchDetails`: one row per match the player scored in, in ascending match
      id order (the order `Object.values` gives integer keys), each row the `SummaryOf` its
      match; the counts of all rows add up to the player's goals that carry a match. */
  method MatchDetails(player: Option<PlayerView>) returns (details: seq<Summary>, ghost ids: seq<nat>)
    ensures PlayerGoals(player) == [] ==> details == []
    ensures Increasing(ids)
    ensures forall k :: k in ids <==> k in MatchIds(PlayerGoals(player))
    ensures |details| == |ids|
    ensures forall i :: 0 <= i < |ids| ==>
              ids[i] in MatchIds(PlayerGoals(player)) && details[i] == SummaryOf(PlayerGoals(player), ids[i])
    ensures Total(details) == Count(PlayerGoals(player), HasMatch())
  {
    details, ids := [], [];
    if player.Some? && player.value.goals.Some? && |player.value.goals.value| > 0 {
      var matchMap, keys := GroupByMatch(player.value.goals.value);
      GroupingSpec(player.value.goals.value);
      details := ValuesInKeyOrder(matchMap, keys);
      ids := keys;
    }
    TotalOfRows(PlayerGoals(player), ids, details);
    TalliesCountGoals(PlayerGoals(player), ids);
  }
}
