/**
 Calendar-relative day naming from `pyxa/utils/system.py`: turning a day
 offset into a label, and a weekday name into an offset. The clock is a
 parameter: `today` is the weekday index `date.weekday` would return
 (Monday is 0), and the random choice between two labels is `pickSecond`.
 */
module Calendar {
  import opened Wrappers
  import opened Lists

  /** The Monday-first week both functions walk through. */
  const Week: seq<string> :=
    ["monday", "tuesday", "wednesday", "thursday", "friday", "saturday", "sunday"]

  /** What `resolve_number_of_days` returns: a label, or the offset itself. */
  datatype DayLabel = Named(name: string) | Offset(days: int)

  /** `islice(cycle(Week), start, stop)`: the days at positions start .. stop-1 of the endless week. */
  function CycleSlice(start: nat, stop: nat): (r: seq<string>)
    ensures |r| == if stop <= start then 0 else stop - start
    ensures forall i :: 0 <= i < |r| ==> r[i] == Week[(start + i) % 7]
    decreases stop
  {
    if stop <= start then [] else CycleSlice(start, stop - 1) + [Week[(stop - 1) % 7]]
  }

  lemma WeekDistinct(i: int, j: int)
    requires 0 <= i < 7 && 0 <= j < 7 && Week[i] == Week[j]
    ensures i == j
  {
  }

  /** The distance forward from `today` to weekday `d`, in 0 .. 6. */
  function DaysUntil(today: int, d: int): (k: int)
    requires 0 <= today < 7 && 0 <= d < 7
    ensures 0 <= k < 7 && (today + k) % 7 == d
  {
    if today <= d then d - today else d - today + 7
  }

  /** Every position of the endless week that holds weekday `d` lies at or past `DaysUntil`. */
  lemma DaysUntilIsFirst(today: int, d: int, i: int)
    requires 0 <= today < 7 && 0 <= d < 7 && 0 <= i
    requires (today + i) % 7 == d
    ensures DaysUntil(today, d) <= i
  {
    var m := (today + i) / 7;
    assert today + i == 7 * m + d;
  }

  /**
   `resolve_number_of_days`. For an offset of 2 the list of both alternatives
   is built before the choice, so `Week[today + 2]` is read without wrapping
   and fails on Saturday and Sunday whatever the choice.
   */
  function ResolveNumberOfDays(days: Option<int>, today: int, pickSecond: bool): (r: Result<DayLabel>)
    requires 0 <= today < 7
    ensures days == None || days == Some(0) ==> r == Ok(Named("today"))
    ensures days == Some(1) ==> r == Ok(Named("tomorrow"))
    ensures days == Some(2) ==> (r.Err? <==> today >= 5)
    ensures days == Some(2) && r.Err? ==> r.error == IndexError
    ensures days == Some(2) && r.Ok? ==>
              r.value.Named? && r.value.name in {"day after tomorrow", Week[today + 2]}
    ensures days.Some? && 3 <= days.value <= 6 ==>
              r == Ok(Named(Week[(today + days.value) % 7])) && r.value.name != Week[today]
    ensures days.Some? && (days.value < 0 || days.value >= 7) ==> r == Ok(Offset(days.value))
  {
    match days
    case None => Ok(Named("today"))
    case Some(d) =>
      if d == 0 then Ok(Named("today"))
      else if d == 1 then Ok(Named("tomorrow"))
      else if d == 2 then
        var afterNext :- PyIndex(Week, today + 2);
        Ok(Named(if pickSecond then afterNext else "day after tomorrow"))
      else if 2 < d < 7 then
        var idx := today + d;
        var name := CycleSlice(idx, idx + 1)[0];
        assert name != Week[today] by {
          if name == Week[today] {
            WeekDistinct((today + d) % 7, today);
          }
        }
        Ok(Named(name))
      else Ok(Offset(d))
  }

  /**
   `resolve_day`: slices the endless week from today's index up to
   `2 * today + dayIdx`, then answers with the slice's last index (`nextWeek`)
   or with the position of `day` in it. An unknown name raises `ValueError`.
   */
  function ResolveDay(day: string, today: int, nextWeek: bool): (r: Result<int>)
    requires 0 <= today < 7
    ensures day !in Week ==> r == Err(ValueError)
    ensures r.Err? ==> r.error == ValueError
  {
    match IndexOf(Week, day)
    case None => Err(ValueError)
    case Some(dayIdx) => ResolveInWindow(day, today, dayIdx, nextWeek)
  }

  /** The part of `resolve_day` after the day's index is known: the slice and the answer taken from it. */
  function ResolveInWindow(day: string, today: nat, dayIdx: nat, nextWeek: bool): (r: Result<int>)
    ensures nextWeek ==> r == Ok(today + dayIdx - 1)
    ensures !nextWeek ==> (r.Ok? <==> day in CycleSlice(today, 2 * today + dayIdx))
    ensures r.Err? ==> r.error == ValueError
  {
    var window := CycleSlice(today, 2 * today + dayIdx);
    if nextWeek then Ok(|window| - 1)
    else
      match IndexOf(window, day)
      case None => Err(ValueError)
      case Some(k) => Ok(k)
  }

  lemma IndexOfWeek(d: int)
    requires 0 <= d < 7
    ensures IndexOf(Week, Week[d]) == Some(d)
  {
    var r := IndexOf(Week, Week[d]);
    WeekDistinct(r.value, d);
  }

  /** With `nextWeek` the answer is `today + dayIdx - 1`: -1 for Monday asked on a Monday. */
  lemma ResolveDayNextWeek(d: int, today: int)
    requires 0 <= d < 7 && 0 <= today < 7
    ensures ResolveDay(Week[d], today, true) == Ok(today + d - 1)
  {
    IndexOfWeek(d);
  }

  /** Without `nextWeek`, `resolve_day` of a known day is the position of that day in the window. */
  lemma ResolveDayIsPositionInWindow(d: int, today: int)
    requires 0 <= d < 7 && 0 <= today < 7
    ensures ResolveDay(Week[d], today, false) == ResolveInWindow(Week[d], today, d, false)
  {
    IndexOfWeek(d);
  }

  /** The first position of weekday `d` in the window from `today` is `DaysUntil`, if the window reaches it. */
  lemma {:induction false} FirstInWindow(d: int, today: int)
    requires 0 <= d < 7 && 0 <= today < 7
    ensures var k := DaysUntil(today, d);
            IndexOf(CycleSlice(today, 2 * today + d), Week[d]) ==
            if k < today + d then Some(k) else None
  {
    var k := DaysUntil(today, d);
    var window := CycleSlice(today, 2 * today + d);
    assert |window| == today + d;
    forall i | 0 <= i < |window| && window[i] == Week[d]
      ensures k <= i
    {
      WeekDistinct((today + i) % 7, d);
      DaysUntilIsFirst(today, d, i);
    }
    var found := IndexOf(window, Week[d]);
    if k < today + d {
      assert window[k] == Week[d];
      assert found.Some? && found.value <= k;
    } else {
      assert Week[d] !in window;
    }
  }

  /**
   Without `nextWeek` the answer is the distance k from today forward to the
   named day, provided the slice is long enough to reach it (k < today + dayIdx);
   otherwise `ValueError`.
   */
  lemma ResolveDayThisWeek(d: int, today: int)
    requires 0 <= d < 7 && 0 <= today < 7
    ensures var k := DaysUntil(today, d);
            ResolveDay(Week[d], today, false) == if k < today + d then Ok(k) else Err(ValueError)
  {
    ResolveDayIsPositionInWindow(d, today);
    FirstInWindow(d, today);
  }

  /** Any position `resolve_day` returns lands, counted from today, on the named day. */
  lemma ResolveDayLandsOnDay(d: int, today: int)
    requires 0 <= d < 7 && 0 <= today < 7
    ensures var r := ResolveDay(Week[d], today, false);
            r.Ok? ==> 0 <= r.value < 7 && Week[(today + r.value) % 7] == Week[d]
  {
    ResolveDayThisWeek(d, today);
  }

  /** On a Monday every call without `nextWeek` fails: the slice is too short to reach the day. */
  lemma ResolveDayFailsOnMonday(day: string)
    ensures ResolveDay(day, 0, false) == Err(ValueError)
  {
    if day in Week {
      var d := IndexOf(Week, day).value;
      ResolveDayThisWeek(d, 0);
    }
  }
}
