/** The match table: its column comparators, the sort-toggle state and the sorted copy of
    the fetched matches. */
module MatchList {
  import opened Seqs
  import opened Sorting
  import opened Schema

  /** The four sortable columns. */
  datatype Column = DateColumn | TeamOldScoreColumn | TeamYoungScoreColumn | GoalDiffColumn

  datatype Direction = Asc | Desc

  /** `Math.abs(team_old_score - team_young_score)`, computed whenever it is compared or
      shown and never stored. */
  function GoalDiff(m: MatchView): (d: nat)
    ensures d == m.teamOldScore - m.teamYoungScore || d == m.teamYoungScore - m.teamOldScore
    ensures m.teamOldScore == m.teamYoungScore <==> d == 0
  {
    if m.teamOldScore >= m.teamYoungScore then m.teamOldScore - m.teamYoungScore
    else m.teamYoungScore - m.teamOldScore
  }

  /** The value a column compares.  `new Date(date)` is modelled by the date key itself: the
      sort only looks at the sign of a comparison, which both agree on. */
  function Key(m: MatchView, col: Column): int
  {
    match col
    case DateColumn => m.date
    case TeamOldScoreColumn => m.teamOldScore
    case TeamYoungScoreColumn => m.teamYoungScore
    case GoalDiffColumn => GoalDiff(m)
  }

  /** `ascendingComparator(a, b, orderBy)`: negative, zero or positive as `a`'s value is
      below, equal to or above `b`'s. */
  function AscendingComparator(a: MatchView, b: MatchView, col: Column): (r: int)
    ensures r < 0 <==> Key(a, col) < Key(b, col)
    ensures r == 0 <==> Key(a, col) == Key(b, col)
  {
    match col
    case DateColumn => a.date - b.date
    case GoalDiffColumn => GoalDiff(a) - GoalDiff(b)
    case _ =>
      if Key(a, col) < Key(b, col) then -1
      else if Key(a, col) > Key(b, col) then 1
      else 0
  }

  /** `descendingComparator(a, b, orderBy)`: the exact negation of the ascending one. */
  function DescendingComparator(a: MatchView, b: MatchView, col: Column): (r: int)
    ensures r == -AscendingComparator(a, b, col)
  {
    match col
    case DateColumn => b.date - a.date
    case GoalDiffColumn => GoalDiff(b) - GoalDiff(a)
    case _ =>
      if Key(b, col) < Key(a, col) then -1
      else if Key(b, col) > Key(a, col) then 1
      else 0
  }

  /** Both comparators are antisymmetric and return zero on equal arguments. */
  lemma {:induction false} ComparatorsAntisymmetric(a: MatchView, b: MatchView, col: Column)
    ensures AscendingComparator(a, b, col) == -AscendingComparator(b, a, col)
    ensures DescendingComparator(a, b, col) == -DescendingComparator(b, a, col)
    ensures AscendingComparator(a, a, col) == 0 && DescendingComparator(a, a, col) == 0
  {
  }

  /** The callback handed to `sort`: the comparator of the current direction. */
  function Compare(order: Direction, col: Column, a: MatchView, b: MatchView): int
  {
    if order == Desc then DescendingComparator(a, b, col) else AscendingComparator(a, b, col)
  }

  /** The key the callback compares: the column's value, negated when descending. */
  function SortKey(order: Direction, col: Column): MatchView -> int
  {
    m => if order == Desc then -Key(m, col) else Key(m, col)
  }

  /** The callback is negative, zero or positive exactly as the sort key comparison is. */
  lemma {:induction false} CompareAgreesWithKey(order: Direction, col: Column, a: MatchView, b: MatchView)
    ensures Compare(order, col, a, b) < 0 <==> SortKey(order, col)(a) < SortKey(order, col)(b)
    ensures Compare(order, col, a, b) == 0 <==> SortKey(order, col)(a) == SortKey(order, col)(b)
  {
  }

  /** `[...matches].sort(...)`: a stable sort of a copy. */
  function SortedMatches(matches: seq<MatchView>, order: Direction, col: Column): seq<MatchView>
  {
    Sort(matches, SortKey(order, col))
  }

  /** The sorted copy holds the same matches, and no two neighbours are out of order under
      the current comparator. */
  lemma SortedMatchesOrdered(matches: seq<MatchView>, order: Direction, col: Column)
    ensures multiset(SortedMatches(matches, order, col)) == multiset(matches)
    ensures var r := SortedMatches(matches, order, col);
            forall i :: 0 <= i < |r| - 1 ==> Compare(order, col, r[i], r[i + 1]) <= 0
  {
    var r := SortedMatches(matches, order, col);
    SortSorted(matches, SortKey(order, col));
    SortPermutes(matches, SortKey(order, col));
    forall i | 0 <= i < |r| - 1 ensures Compare(order, col, r[i], r[i + 1]) <= 0 {
      CompareAgreesWithKey(order, col, r[i], r[i + 1]);
    }
  }

  /** When no two matches share a value in the column, the ascending and the descending
      table are reverses of each other. */
  lemma AscendingIsReversedDescending(matches: seq<MatchView>, col: Column)
    requires forall i, j :: 0 <= i < j < |matches| ==> Key(matches[i], col) != Key(matches[j], col)
    ensures SortedMatches(matches, Asc, col) == Reverse(SortedMatches(matches, Desc, col))
  {
    var down, up := SortKey(Desc, col), SortKey(Asc, col);
    assert DistinctKeys(matches, down);
    assert forall x :: up(x) == -down(x);
    SortReverse(matches, down, up);
  }

  /** The table's sort state and the fetched matches it shows. */
  class MatchTable {
    var matches: seq<MatchView>
    var order: Direction
    var orderBy: Column

    /** The table opens sorted by date, newest first. */
    constructor ()
      ensures matches == [] && orderBy == DateColumn && order == Desc
    {
      matches := [];
      orderBy := DateColumn;
      order := Desc;
    }

    /** A fetch replaced the matches. */
    method SetMatches(ms: seq<MatchView>)
      modifies this`matches
      ensures matches == ms
    {
      matches := ms;
    }

    /** `handleRequestSort`: the clicked column becomes active; it sorts descending only
        when it was already active and ascending, otherwise ascending. */
    method RequestSort(property: Column)
      modifies this`order, this`orderBy
      ensures orderBy == property
      ensures order == if old(orderBy) == property && old(order) == Asc then Desc else Asc
    {
      var isAsc := orderBy == property && order == Asc;
      order := if isAsc then Desc else Asc;
      orderBy := property;
    }

    /** The rows as shown; computing them leaves `matches` itself in its fetched order. */
    function Rows(): seq<MatchView>
      reads this
    {
      SortedMatches(matches, order, orderBy)
    }
  }
}
