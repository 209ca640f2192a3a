/** The app's state and the daily rollover: the quest list and the last
    visited logical day, initialised from the store, checked against the
    clock, and changed by the user's actions. */
module Lifecycle {
  import opened Wrappers
  import opened Dates
  import opened Quests
  import opened Storage
  import opened History

  /** The two pieces of state the rollover decision reads and writes. */
  datatype Session = Session(quests: seq<Quest>, lastVisit: Date)

  /** The stored quest list, or the seed list when none is stored. */
  function LoadedQuests(saved: Option<seq<Quest>>): (qs: seq<Quest>)
    ensures saved.None? ==> qs == SeedQuests
    ensures saved.Some? ==> qs == saved.value
  {
    if saved.Some? then saved.value else SeedQuests
  }

  /** Whether the stored marker names a day other than today. */
  predicate IsStale(stored: Option<Date>, today: Date)
  {
    stored.Some? && stored.value != today
  }

  /** The quest list the app starts with: the loaded list, reset when a
      marker from another day is stored. */
  function InitialQuests(saved: Option<seq<Quest>>, stored: Option<Date>, today: Date): (qs: seq<Quest>)
    ensures IsStale(stored, today) ==> qs == ResetDaily(LoadedQuests(saved))
    ensures !IsStale(stored, today) ==> qs == LoadedQuests(saved)
  {
    var loaded := LoadedQuests(saved);
    if IsStale(stored, today) then ResetDaily(loaded) else loaded
  }

  /** The marker the app starts with. Of its three cases (stale marker, marker
      of today, no marker) every one yields today. */
  function InitialLastVisit(stored: Option<Date>, today: Date): (d: Date)
    ensures d == today
  {
    if IsStale(stored, today) then today
    else if stored.Some? then stored.value
    else today
  }

  /** The initial session as the app builds it: the two initialisers each
      read the clock, at nowForQuests and at nowForVisit. */
  function InitialSessionAsWritten(saved: Option<seq<Quest>>, stored: Option<Date>,
                                   nowForQuests: int, nowForVisit: int): (s: Session)
    ensures s.lastVisit == GetLogicalDate(nowForVisit)
    ensures IsStale(stored, GetLogicalDate(nowForQuests)) ==> s.quests == ResetDaily(LoadedQuests(saved))
    ensures !IsStale(stored, GetLogicalDate(nowForQuests)) ==> s.quests == LoadedQuests(saved)
  {
    Session(InitialQuests(saved, stored, GetLogicalDate(nowForQuests)),
            InitialLastVisit(stored, GetLogicalDate(nowForVisit)))
  }

  /** The initial session with one reading of the clock for both
      initialisers. Its marker is today, and whenever the stored marker was
      another day the quests have been reset. */
  function InitialSession(saved: Option<seq<Quest>>, stored: Option<Date>, now: int): (s: Session)
    ensures s.lastVisit == GetLogicalDate(now)
    ensures IsStale(stored, s.lastVisit) ==> s.quests == ResetDaily(LoadedQuests(saved))
    ensures !IsStale(stored, s.lastVisit) ==> s.quests == LoadedQuests(saved)
  {
    InitialSessionAsWritten(saved, stored, now, now)
  }

  /** If the two clock readings straddle 03:00, the quests are not reset,
      yet the marker already names the new day, so later checks on that day
      do nothing and yesterday's completions carry over. */
  lemma InitAcrossCutoffKeepsYesterday()
    ensures var done := Quest("3", "晚上專注一小時", Boolean, true, None, None, None);
      var yesterday := GetLogicalDate(CutoffMs - 1);
      var s := InitialSessionAsWritten(Some([done]), Some(yesterday), CutoffMs - 1, CutoffMs);
      && s.lastVisit == GetLogicalDate(CutoffMs)
      && IsStale(Some(yesterday), s.lastVisit)
      && s.quests == [done]
      && CheckDay(s, GetLogicalDate(CutoffMs)) == s
  {
    assert (CutoffMs - 1 - CutoffMs) / MsPerDay == -1;
    assert DateOfDay(-1) == Prev(DateOfDay(0)) == Date(1969, 12, 31);
    assert GetLogicalDate(CutoffMs - 1) == Date(1969, 12, 31);
    assert GetLogicalDate(CutoffMs) == Epoch;
  }

  /** The rollover check: on a new logical day the quests are reset and the
      marker moves to today; on the same day nothing changes. */
  function CheckDay(s: Session, today: Date): (r: Session)
    ensures r.lastVisit == today
    ensures s.lastVisit == today ==> r == s
    ensures s.lastVisit != today ==> r.quests == ResetDaily(s.quests)
  {
    if s.lastVisit != today then Session(ResetDaily(s.quests), today) else s
  }

  /** A second check on the same logical day is a no-op. */
  lemma CheckDayIdempotent(s: Session, today: Date)
    ensures CheckDay(CheckDay(s, today), today) == CheckDay(s, today)
  {
  }

  /** However many days pass between two checks, the quests end up reset
      once: the reset of a reset list is the same list. */
  lemma CheckDayTwiceAcrossDays(s: Session, d1: Date, d2: Date)
    requires s.lastVisit != d1
    ensures CheckDay(CheckDay(s, d1), d2) == Session(ResetDaily(s.quests), d2)
  {
    ResetIdempotent(s.quests);
  }

  lemma CheckDayPreservesConsistent(s: Session, today: Date)
    requires Consistent(s.quests)
    ensures Consistent(CheckDay(s, today).quests)
  {
    ResetPreservesConsistent(s.quests);
  }

  /** The check that runs right after start-up finds nothing to do. */
  lemma CheckAfterStartIsNoop(saved: Option<seq<Quest>>, stored: Option<Date>, now: int)
    ensures CheckDay(InitialSession(saved, stored, now), GetLogicalDate(now)) == InitialSession(saved, stored, now)
  {
  }

  /** Restarting on the same logical day after the state was stored brings
      back the same session; restarting on a later day brings it back reset. */
  lemma RestartRestoresSession(s: Session, now: int)
    ensures var r := InitialSession(Some(s.quests), Some(s.lastVisit), now);
      r == CheckDay(s, GetLogicalDate(now))
  {
  }

  /** A counter completed at 5 of 5, last seen on 2024-01-05 and checked on
      2024-01-06, goes back to 0 and not completed, and the marker becomes
      2024-01-06. */
  lemma CheckDayScenario()
    ensures var q := Quest("1", "walk", Counter, true, Some(5), Some(5), Some("km"));
      var r := CheckDay(Session([q], Date(2024, 1, 5)), Date(2024, 1, 6));
      r.quests == [q.(current := Some(0), completed := false)] && r.lastVisit == Date(2024, 1, 6)
  {
  }

  // ---------------------------------------------------------------------
  // The app object

  class QuestApp {
    var quests: seq<Quest>
    var lastVisit: Date
    const store: Store

    function State(): Session
      reads this
    {
      Session(quests, lastVisit)
    }

    /** The percentage shown in the progress bar and saved in the ledger. */
    function CurrentProgress(): (p: real)
      reads this
      ensures 0.0 <= p <= 100.0
      ensures p == 100.0 <==> quests != [] && forall i :: 0 <= i < |quests| ==> quests[i].completed
    {
      ProgressFullIffAllCompleted(quests);
      Progress(quests)
    }

    /** Start-up: reads the stored list and marker and takes one clock
      reading for both. */
    constructor (store: Store, now: int)
      ensures this.store == store
      ensures State() == InitialSession(store.quests, store.lastVisit, now)
    {
      var today := GetLogicalDate(now);
      var stored := store.lastVisit;
      var parsed := LoadedQuests(store.quests);
      if IsStale(stored, today) {
        parsed := ResetDaily(parsed);
      }
      this.store := store;
      quests := parsed;
      lastVisit := InitialLastVisit(store.lastVisit, today);
    }

    /** checkAndResetDaily: on a new logical day, resets the quests and
      records today as the marker, in memory and in the store. */
    method CheckAndResetDaily(now: int)
      modifies this, store
      ensures State() == CheckDay(old(State()), GetLogicalDate(now))
      ensures store.lastVisit ==
        if old(lastVisit) != GetLogicalDate(now) then Some(GetLogicalDate(now)) else old(store.lastVisit)
      ensures store.quests == old(store.quests) && store.history == old(store.history)
    {
      var today := GetLogicalDate(now);
      if lastVisit != today {
        quests := ResetDaily(quests);
        lastVisit := today;
        store.lastVisit := Some(today);
      }
    }

    /** addQuest, with the fresh id supplied by the caller. */
    method AddQuest(id: string, text: string)
      requires !HasId(quests, id)
      modifies this
      ensures quests == Add(old(quests), id, text) && lastVisit == old(lastVisit)
    {
      quests := Add(quests, id, text);
    }

    method ToggleQuest(id: string)
      modifies this
      ensures quests == Toggle(old(quests), id) && lastVisit == old(lastVisit)
    {
      quests := Toggle(quests, id);
    }

    method UpdateProgress(id: string, newCurrent: int)
      modifies this
      ensures quests == SetProgress(old(quests), id, newCurrent) && lastVisit == old(lastVisit)
    {
      quests := SetProgress(quests, id, newCurrent);
    }

    method DeleteQuest(id: string)
      modifies this
      ensures quests == Delete(old(quests), id) && lastVisit == old(lastVisit)
    {
      quests := Delete(quests, id);
    }

    /** Writes the quest list and the marker to the store. */
    method SyncToStore()
      modifies store
      ensures store.quests == Some(quests) && store.lastVisit == Some(lastVisit)
      ensures store.history == old(store.history)
    {
      store.quests := Some(quests);
      store.lastVisit := Some(lastVisit);
    }

    /** Saves the current percentage in the ledger for the logical day of now. */
    method SaveProgress(now: int)
      modifies store
      ensures GetHistory(store) == Record(old(GetHistory(store)), GetLogicalDate(now), CurrentProgress())
      ensures store.quests == old(store.quests) && store.lastVisit == old(store.lastVisit)
    {
      SaveDailyProgress(store, now, CurrentProgress());
    }
  }
}
