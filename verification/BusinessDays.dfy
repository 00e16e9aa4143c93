/** The business-day clock behind the reporting deadline. A date is its day ordinal,
    counted so that day 1 is a Monday. */
module BusinessDays {

  datatype Result<T> = Success(value: T) | Failure

  /** Monday is 0, Sunday is 6. */
  function Weekday(d: int): nat { (d + 6) % 7 }

  predicate IsBusinessDay(d: int, holidays: set<int>) { Weekday(d) < 5 && d !in holidays }

  /** 1 January 2024, a Monday. */
  const NEW_YEAR_2024 := 738886

  /** Business days are the first five of each week counted from a Monday, holidays apart. */
  lemma {:induction false} BusinessDaysOfWeek(d: int, holidays: set<int>, week: int, day: int)
    requires 0 <= day < 7 && d == NEW_YEAR_2024 + 7 * week + day
    ensures IsBusinessDay(d, holidays) <==> day < 5 && d !in holidays
  {
    assert d + 6 == 7 * (week + 105556) + day;
  }

  /** Business days after `start`, up to and including `d`. */
  function Elapsed(start: int, d: int, holidays: set<int>): nat
    requires start <= d
    decreases d - start
  {
    if d == start then 0
    else Elapsed(start, d - 1, holidays) + if IsBusinessDay(d, holidays) then 1 else 0
  }

  /** `d` is the first day by whose end n business days have passed since `start`. */
  ghost predicate IsDeadline(start: int, n: nat, holidays: set<int>, d: int)
  {
    && start <= d
    && Elapsed(start, d, holidays) == n
    && forall e :: start <= e < d ==> Elapsed(start, e, holidays) < n
  }

  function Later(holidays: set<int>, d: int): set<int> { set h | h in holidays && d < h }

  method AddBusinessDays(start: int, offset: int, holidays: set<int>) returns (r: Result<int>)
    ensures r.Failure? <==> offset < 0
    ensures r.Success? ==> IsDeadline(start, offset, holidays, r.value)
  {
    if offset < 0 {
      return Failure;
    }
    var current, remaining := start, offset;
    while remaining > 0
      invariant start <= current && 0 <= remaining <= offset
      invariant Elapsed(start, current, holidays) == offset - remaining
      invariant forall e :: start <= e < current ==> Elapsed(start, e, holidays) < offset
      decreases remaining, |Later(holidays, current)|, 6 - Weekday(current)
    {
      ghost var before := current;
      current := current + 1;
      if IsBusinessDay(current, holidays) {
        remaining := remaining - 1;
      } else {
        LaterShrinks(holidays, before);
      }
    }
    return Success(current);
  }

  /** Every day passed over leaves fewer holidays ahead, or is a plain weekend day. */
  lemma {:induction false} LaterShrinks(holidays: set<int>, d: int)
    ensures |Later(holidays, d + 1)| <= |Later(holidays, d)|
    ensures d + 1 in holidays ==> |Later(holidays, d + 1)| < |Later(holidays, d)|
  {
    var rest := Later(holidays, d + 1);
    if d + 1 in holidays {
      assert Later(holidays, d) == rest + {d + 1};
    } else {
      assert Later(holidays, d) == rest;
    }
  }

  lemma {:induction false} ElapsedMonotone(start: int, d: int, e: int, holidays: set<int>)
    requires start <= d <= e
    ensures Elapsed(start, d, holidays) <= Elapsed(start, e, holidays)
    decreases e - d
  {
    if d < e {
      ElapsedMonotone(start, d, e - 1, holidays);
    }
  }

  lemma {:induction false} ElapsedAdds(start: int, d: int, e: int, holidays: set<int>)
    requires start <= d <= e
    ensures Elapsed(start, e, holidays) == Elapsed(start, d, holidays) + Elapsed(d, e, holidays)
    decreases e - d
  {
    if d < e {
      ElapsedAdds(start, d, e - 1, holidays);
    }
  }

  lemma {:induction false} ElapsedUnderMoreHolidays(start: int, d: int, fewer: set<int>, more: set<int>)
    requires start <= d && fewer <= more
    ensures Elapsed(start, d, more) <= Elapsed(start, d, fewer)
    decreases d - start
  {
    if start < d {
      ElapsedUnderMoreHolidays(start, d - 1, fewer, more);
    }
  }

  /** A day is before the deadline exactly when fewer than n business days have passed. */
  lemma {:induction false} BeforeDeadline(start: int, n: nat, holidays: set<int>, deadline: int, d: int)
    requires IsDeadline(start, n, holidays, deadline) && start <= d
    ensures d < deadline <==> Elapsed(start, d, holidays) < n
  {
    if deadline <= d {
      ElapsedMonotone(start, deadline, d, holidays);
    }
  }

  lemma {:induction false} DeadlineIsUnique(start: int, n: nat, holidays: set<int>, d: int, e: int)
    requires IsDeadline(start, n, holidays, d) && IsDeadline(start, n, holidays, e)
    ensures d == e
  {
    BeforeDeadline(start, n, holidays, d, e);
    BeforeDeadline(start, n, holidays, e, d);
  }

  /** Counting n days and then m more is counting n + m days. */
  lemma {:induction false} DeadlinesCompose(start: int, n: nat, m: nat, holidays: set<int>, d: int, e: int)
    requires IsDeadline(start, n, holidays, d) && IsDeadline(d, m, holidays, e)
    ensures IsDeadline(start, n + m, holidays, e)
  {
    ElapsedAdds(start, d, e, holidays);
    forall x | start <= x < e ensures Elapsed(start, x, holidays) < n + m {
      if x < d {
        ElapsedMonotone(start, x, d, holidays);
        BeforeDeadline(start, n, holidays, d, x);
      } else {
        ElapsedAdds(start, d, x, holidays);
      }
    }
  }

  /** Starting later or counting further never gives an earlier deadline. */
  lemma {:induction false} DeadlineMonotone(
      start: int, n: nat, d: int, start': int, n': nat, d': int, holidays: set<int>)
    requires start <= start' && n <= n'
    requires IsDeadline(start, n, holidays, d) && IsDeadline(start', n', holidays, d')
    ensures d <= d'
  {
    ElapsedAdds(start, start', d', holidays);
    BeforeDeadline(start, n, holidays, d, d');
  }

  /** More holidays never bring the deadline forward; leaving them out can only make it
      too early. */
  lemma {:induction false} HolidaysNeverAdvanceDeadline(
      start: int, n: nat, fewer: set<int>, more: set<int>, d: int, d': int)
    requires fewer <= more
    requires IsDeadline(start, n, fewer, d) && IsDeadline(start, n, more, d')
    ensures d <= d'
  {
    ElapsedUnderMoreHolidays(start, d', fewer, more);
    BeforeDeadline(start, n, fewer, d, d');
  }
}
