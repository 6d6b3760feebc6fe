/** Due dates counted in business days: adding and subtracting working days on the calendar. */
module BusinessDays {

  /** Days are counted from 1 January 1970, a Thursday; Sunday is 0 and Saturday 6. */
  function Weekday(day: int): int {
    (day + 4) % 7
  }

  predicate Weekend(day: int) {
    Weekday(day) == 6 || Weekday(day) == 0
  }

  /** The number of working days from `a` on and before `b`. */
  function WorkingDays(a: int, b: int): nat
    requires a <= b
    decreases b - a
  {
    if a == b then 0 else WorkingDays(a, b - 1) + if Weekend(b - 1) then 0 else 1
  }

  /** How many days of weekend come next. */
  function WeekendAhead(day: int): nat {
    if Weekday(day) == 6 then 2 else if Weekday(day) == 0 then 1 else 0
  }

  /** How many days of weekend come just before `day`. */
  function WeekendBehind(day: int): nat {
    if Weekday(day - 1) == 0 then 2 else if Weekday(day - 1) == 6 then 1 else 0
  }

  lemma {:induction false} WorkingDaysSplit(a: int, b: int, c: int)
    requires a <= b <= c
    ensures WorkingDays(a, c) == WorkingDays(a, b) + WorkingDays(b, c)
    decreases c - b
  {
    if b < c { WorkingDaysSplit(a, b, c - 1); }
  }

  /** `result` is the working day that ends `days` working days after `start`. */
  predicate Added(start: int, days: int, result: int) {
    if days <= 0 then result == start
    else start < result && !Weekend(result) && WorkingDays(start + 1, result + 1) == days
  }

  /** `result` is the working day that begins `days` working days before `start`. */
  predicate Subtracted(start: int, days: int, result: int) {
    if days <= 0 then result == start
    else result < start && !Weekend(result) && WorkingDays(result, start) == days
  }

  method AddBusinessDays(start: int, days: int) returns (result: int)
    ensures Added(start, days, result)
  {
    if days <= 0 {
      return start;
    }
    var cursor := start;
    var added := 0;
    while added < days
      invariant start <= cursor && 0 <= added <= days && WorkingDays(start + 1, cursor + 1) == added
      invariant added == days ==> start < cursor && !Weekend(cursor)
      decreases days - added, WeekendAhead(cursor + 1)
    {
      cursor := cursor + 1;
      if Weekday(cursor) == 6 || Weekday(cursor) == 0 {
        continue;
      }
      added := added + 1;
    }
    result := cursor;
  }

  method SubtractBusinessDays(start: int, days: int) returns (result: int)
    ensures Subtracted(start, days, result)
  {
    if days <= 0 {
      return start;
    }
    var cursor := start;
    var removed := 0;
    while removed < days
      invariant cursor <= start && 0 <= removed <= days && WorkingDays(cursor, start) == removed
      invariant removed == days ==> cursor < start && !Weekend(cursor)
      decreases days - removed, WeekendBehind(cursor)
    {
      WorkingDaysSplit(cursor - 1, cursor, start);
      cursor := cursor - 1;
      if Weekday(cursor) == 6 || Weekday(cursor) == 0 {
        continue;
      }
      removed := removed + 1;
    }
    result := cursor;
  }

  /** There is only one such day. */
  lemma AddedUnique(start: int, days: int, r: int, q: int)
    requires Added(start, days, r) && Added(start, days, q)
    ensures r == q
  {
    if r < q {
      WorkingDaysSplit(start + 1, r + 1, q);
    } else if q < r {
      WorkingDaysSplit(start + 1, q + 1, r);
    }
  }

  lemma SubtractedUnique(start: int, days: int, r: int, q: int)
    requires Subtracted(start, days, r) && Subtracted(start, days, q)
    ensures r == q
  {
    if r < q {
      WorkingDaysSplit(r, r + 1, q);
      WorkingDaysSplit(r, q, start);
    } else if q < r {
      WorkingDaysSplit(q, q + 1, r);
      WorkingDaysSplit(q, r, start);
    }
  }

  /** The day itself when it is a working day, the Friday before it otherwise. */
  function LastWorkingDay(day: int): int {
    if Weekday(day) == 6 then day - 1 else if Weekday(day) == 0 then day - 2 else day
  }

  lemma FromLastWorkingDay(start: int, b: int)
    requires start < b
    ensures WorkingDays(LastWorkingDay(start), b) == 1 + WorkingDays(start + 1, b)
  {
    var f := LastWorkingDay(start);
    WorkingDaysSplit(f, start + 1, b);
    assert WorkingDays(f, f + 1) == 1;
    assert WorkingDays(f, start + 1) == 1;
  }

  /** Subtracting what was added leads back to the start, or to the Friday before a start in a weekend. */
  lemma AddThenSubtract(start: int, days: int, there: int, back: int)
    requires days > 0 && Added(start, days, there) && Subtracted(there, days, back)
    ensures back == LastWorkingDay(start)
  {
    FromLastWorkingDay(start, there);
    SubtractedUnique(there, days, LastWorkingDay(start), back);
  }

  /** The day itself when it is a working day, the Monday after it otherwise. */
  function NextWorkingDay(day: int): int {
    day + WeekendAhead(day)
  }

  /** Adding what was subtracted leads back to the start, or to the Monday after a start in a weekend. */
  lemma SubtractThenAdd(start: int, days: int, there: int, back: int)
    requires days > 0 && Subtracted(start, days, there) && Added(there, days, back)
    ensures back == NextWorkingDay(start)
  {
    var m := NextWorkingDay(start);
    WorkingDaysSplit(there, there + 1, start);
    WorkingDaysSplit(there + 1, start, m + 1);
    assert m > start ==> WorkingDays(start, start + 1) == 0;
    assert WorkingDays(start, m) == 0;
    AddedUnique(there, days, m, back);
  }
}
