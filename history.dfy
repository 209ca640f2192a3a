/** The logical day and the history ledger: the day ends at 03:00 local
    time, and each logical day keeps one recorded completion percentage. */
module History {
  import opened Wrappers
  import opened Dates
  import opened Storage

  /** The day boundary lies three hours after midnight. */
  const CutoffMs: int := 3 * MsPerHour

  /** The logical day of a local timestamp: the calendar date three hours
      earlier. */
  function GetLogicalDate(now: int): (d: Date)
    ensures TimeOfDay(now) >= CutoffMs ==> d == CalendarDate(now)
    ensures TimeOfDay(now) < CutoffMs ==> d == Prev(CalendarDate(now))
  {
    ShiftedDayIndex(now);
    DateOfDayStep(now / MsPerDay - 1);
    CalendarDate(now - CutoffMs)
  }

  lemma ShiftedDayIndex(t: int)
    ensures TimeOfDay(t) >= CutoffMs ==> (t - CutoffMs) / MsPerDay == t / MsPerDay
    ensures TimeOfDay(t) < CutoffMs ==> (t - CutoffMs) / MsPerDay == t / MsPerDay - 1
  {
    var q, r := t / MsPerDay, t % MsPerDay;
    assert t == q * MsPerDay + r;
    if r >= CutoffMs {
      assert t - CutoffMs == q * MsPerDay + (r - CutoffMs);
    } else {
      assert t - CutoffMs == (q - 1) * MsPerDay + (r - CutoffMs + MsPerDay);
    }
  }

  /** From 03:00 on, the logical day is the calendar day. */
  lemma LogicalDateFromCutoff(t: int)
    requires TimeOfDay(t) >= CutoffMs
    ensures GetLogicalDate(t) == CalendarDate(t)
  {
    ShiftedDayIndex(t);
  }

  /** Before 03:00, the logical day is the previous calendar day. */
  lemma LogicalDateBeforeCutoff(t: int)
    requires TimeOfDay(t) < CutoffMs
    ensures GetLogicalDate(t) == Prev(CalendarDate(t))
  {
    ShiftedDayIndex(t);
    DateOfDayStep(t / MsPerDay - 1);
  }

  /** Before 03:00 on the first of January, the logical day is the last day
      of the previous year. */
  lemma LogicalDateOnNewYearNight(t: int, y: int)
    requires CalendarDate(t) == Date(y, 1, 1) && TimeOfDay(t) < CutoffMs
    ensures GetLogicalDate(t) == Date(y - 1, 12, 31)
  {
    LogicalDateBeforeCutoff(t);
  }

  /** Before 03:00 on the first of a month, the logical day is the last day
      of the previous month. */
  lemma LogicalDateOnMonthStart(t: int)
    requires CalendarDate(t).day == 1 && CalendarDate(t).month > 1 && TimeOfDay(t) < CutoffMs
    ensures var d := CalendarDate(t);
      GetLogicalDate(t) == Date(d.year, d.month - 1, DaysInMonth(d.year, d.month - 1))
  {
    LogicalDateBeforeCutoff(t);
  }

  /** Two timestamps fall on the same logical day exactly when they lie in
      the same 24-hour window that starts at 03:00; and a later timestamp
      never has an earlier logical day. */
  lemma LogicalDateOrder(t1: int, t2: int)
    ensures GetLogicalDate(t1) == GetLogicalDate(t2)
      <==> (t1 - CutoffMs) / MsPerDay == (t2 - CutoffMs) / MsPerDay
    ensures t1 <= t2 ==> !Before(GetLogicalDate(t2), GetLogicalDate(t1))
  {
    var n1, n2 := (t1 - CutoffMs) / MsPerDay, (t2 - CutoffMs) / MsPerDay;
    DateOfDayInjective(n1, n2);
    if t1 <= t2 {
      assert n1 <= n2;
      if n1 < n2 {
        DateOfDayIncreasing(n1, n2);
      }
    }
  }

  // ---------------------------------------------------------------------
  // The ledger

  /** The stored ledger, or the empty ledger when none is stored. */
  function GetHistory(store: Store): (h: Ledger)
    reads store
    ensures store.history.None? ==> h == map[]
    ensures store.history.Some? ==> h == store.history.value
  {
    if store.history.Some? then store.history.value else map[]
  }

  /** Whether recording p for today changes the ledger. */
  predicate NeedsWrite(h: Ledger, today: Date, p: real)
  {
    today !in h || h[today] != p
  }

  /** The ledger after p is recorded for today. */
  function Record(h: Ledger, today: Date, p: real): (r: Ledger)
    ensures today in r && r[today] == p
    ensures r.Keys == h.Keys + {today}
    ensures forall d :: d in h && d != today ==> r[d] == h[d]
  {
    h[today := p]
  }

  /** A write is needed exactly when recording changes the ledger. */
  lemma NeedsWriteIffChanged(h: Ledger, today: Date, p: real)
    ensures NeedsWrite(h, today, p) <==> Record(h, today, p) != h
  {
    if today !in h {
      assert today in Record(h, today, p);
    }
  }

  /** Recording a value that is already there leaves the ledger as it is. */
  lemma RecordUnchangedIsIdentity(h: Ledger, today: Date, p: real)
    requires !NeedsWrite(h, today, p)
    ensures Record(h, today, p) == h
  {
  }

  /** A second record of the same value needs no write. */
  lemma RecordTwiceNeedsNoWrite(h: Ledger, today: Date, p: real)
    ensures !NeedsWrite(Record(h, today, p), today, p)
    ensures Record(Record(h, today, p), today, p) == Record(h, today, p)
  {
  }

  /** The last value recorded for a day replaces the earlier one. */
  lemma RecordLastWriteWins(h: Ledger, today: Date, a: real, b: real)
    ensures Record(Record(h, today, a), today, b) == Record(h, today, b)
  {
  }

  /** Recording 40 and then 70 on one day leaves one entry, 70, for it. */
  lemma RecordFortyThenSeventy(h: Ledger, today: Date)
    ensures var r := Record(Record(h, today, 40.0), today, 70.0);
      r[today] == 70.0 && r.Keys == h.Keys + {today}
  {
    RecordLastWriteWins(h, today, 40.0, 70.0);
  }

  /** saveDailyProgress: records p for the logical day of `now`, and writes
      the ledger back only when that changes it. */
  method SaveDailyProgress(store: Store, now: int, p: real)
    modifies store
    ensures store.quests == old(store.quests) && store.lastVisit == old(store.lastVisit)
    ensures GetHistory(store) == Record(old(GetHistory(store)), GetLogicalDate(now), p)
    ensures NeedsWrite(old(GetHistory(store)), GetLogicalDate(now), p)
      ==> store.history == Some(Record(old(GetHistory(store)), GetLogicalDate(now), p))
    ensures !NeedsWrite(old(GetHistory(store)), GetLogicalDate(now), p) ==> unchanged(store)
  {
    var history := GetHistory(store);
    var today := GetLogicalDate(now);
    if NeedsWrite(history, today, p) {
      history := history[today := p];
      store.history := Some(history);
    }
  }
}
