/**
 * The two computations of `base_queries.py` that are not SQL: the count of check-ins
 * possible so far in a challenge, and the grouping of challenge weeks by challenge.
 */
module BaseQueries {
  import opened Wrappers
  import opened Weekdays
  import opened Runs

  /**
   * The tail of `total_possible_checkins_so_far`: the five check-ins of every earlier
   * week (`prior`, counted by SQL) plus one per day of the current week up to five.
   * `datetime.weekday()` numbers Monday 0, as `Index` does; the clock is the parameter.
   */
  function PossibleSoFar(prior: int, today: Weekday): (total: int)
    ensures prior + 1 <= total <= prior + 5
  {
    prior + Min(today.Index() + 1, 5)
  }

  /** Monday adds one; every day adds one more than the day before up to Friday, and the weekend adds nothing further. */
  lemma PossibleSoFarByDay(prior: int)
    ensures PossibleSoFar(prior, Monday) == prior + 1
    ensures PossibleSoFar(prior, Friday) == prior + 5
    ensures PossibleSoFar(prior, Saturday) == prior + 5
    ensures PossibleSoFar(prior, Sunday) == prior + 5
    ensures forall k :: 0 < k < 5 ==> PossibleSoFar(prior, Week[k]) == PossibleSoFar(prior, Week[k - 1]) + 1
  {
    WeekIndex();
  }

  /** A fetched challenge week: the challenge's name, the week's id and its start. */
  datatype ChallengeWeekRow = ChallengeWeekRow(name: string, id: int, start: int)

  function ChallengeName(row: ChallengeWeekRow): string
  {
    row.name
  }

  /**
   * `challenge_weeks`: `itertools.groupby` by challenge name over the rows in start
   * order. The groups give back the rows in order; each is non-empty and of one
   * challenge, and neighbouring groups are of different challenges.
   */
  function ChallengeWeeks(rows: seq<ChallengeWeekRow>): (groups: seq<seq<ChallengeWeekRow>>)
    ensures Flatten(groups) == rows
    ensures forall j :: 0 <= j < |groups| ==> groups[j] != []
    ensures forall j, m :: 0 <= j < |groups| && 0 <= m < |groups[j]| ==> groups[j][m].name == groups[j][0].name
    ensures forall j :: 0 < j < |groups| ==> groups[j][0].name != groups[j - 1][0].name
  {
    GroupRuns(rows, ChallengeName)
  }

  /**
   * When the weeks of each challenge are contiguous in start order (challenges do not
   * overlap), each group holds all weeks of its challenge and no challenge has two groups.
   */
  lemma ChallengeWeeksOfContiguous(rows: seq<ChallengeWeekRow>)
    requires forall i, j, m :: 0 <= i < j < m < |rows| && rows[i].name == rows[m].name ==> rows[j].name == rows[i].name
    ensures forall j :: 0 <= j < |ChallengeWeeks(rows)| ==>
      ChallengeWeeks(rows)[j] == KeyFilter(rows, ChallengeName, ChallengeWeeks(rows)[j][0].name)
    ensures forall j, m :: 0 <= j < m < |ChallengeWeeks(rows)| ==>
      ChallengeWeeks(rows)[j][0].name != ChallengeWeeks(rows)[m][0].name
  {
    assert Clustered(rows, ChallengeName);
    RunsOfClustered(rows, ChallengeName);
  }
}
