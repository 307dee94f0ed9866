/** The seven days of the week, in the Monday-first order every heat map uses. */
module Weekdays {

  datatype Weekday = Monday | Tuesday | Wednesday | Thursday | Friday | Saturday | Sunday
  {
    /** Position in the `weekdays` list (Monday = 0), as `weekdays.index(day)` computes it. */
    function Index(): nat
    {
      match this
      case Monday => 0
      case Tuesday => 1
      case Wednesday => 2
      case Thursday => 3
      case Friday => 4
      case Saturday => 5
      case Sunday => 6
    }

    /** The label stored in the `day_of_week` column. */
    function Name(): string
    {
      match this
      case Monday => "Monday"
      case Tuesday => "Tuesday"
      case Wednesday => "Wednesday"
      case Thursday => "Thursday"
      case Friday => "Friday"
      case Saturday => "Saturday"
      case Sunday => "Sunday"
    }
  }

  /** The module-level `weekdays` list. */
  const Week: seq<Weekday> := [Monday, Tuesday, Wednesday, Thursday, Friday, Saturday, Sunday]

  lemma WeekIndex()
    ensures |Week| == 7
    ensures forall k :: 0 <= k < 7 ==> Week[k].Index() == k
    ensures forall d: Weekday :: d.Index() < 7 && Week[d.Index()] == d
  {
  }
}
