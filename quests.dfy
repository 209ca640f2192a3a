/** The quest record and the operations that the app applies to its list of
    quests. Every operation builds a new list from the old one, as the app's
    `map` and `filter` calls do; none changes a list in place. */
module Quests {
  import opened Wrappers

  datatype QuestType = Boolean | Counter

  /** One trackable task. A counter quest carries its progress in `current`
      and its goal in `target`; a boolean quest leaves both undefined. */
  datatype Quest = Quest(
    id: string,
    text: string,
    kind: QuestType,
    completed: bool,
    current: Option<int>,
    target: Option<int>,
    unit: Option<string>)

  /** The record invariant: a counter quest has a count of at least zero, a
      positive target, and is completed exactly when the count has reached the
      target; a boolean quest has neither a count nor a target. */
  predicate WellFormed(q: Quest)
  {
    match q.kind
    case Boolean => q.current.None? && q.target.None?
    case Counter =>
      && q.current.Some? && q.target.Some?
      && q.current.value >= 0 && q.target.value > 0
      && q.completed == (q.current.value >= q.target.value)
  }

  predicate HasId(qs: seq<Quest>, id: string)
  {
    exists i :: 0 <= i < |qs| && qs[i].id == id
  }

  predicate UniqueIds(qs: seq<Quest>)
  {
    forall i, j :: 0 <= i < j < |qs| ==> qs[i].id != qs[j].id
  }

  /** What every list shown by the app satisfies: well-formed records whose
      ids do not repeat. */
  predicate Consistent(qs: seq<Quest>)
  {
    (forall i :: 0 <= i < |qs| ==> WellFormed(qs[i])) && UniqueIds(qs)
  }

  /** Two quests that agree on everything except their progress. */
  predicate SameDefinition(a: Quest, b: Quest)
  {
    a.id == b.id && a.text == b.text && a.kind == b.kind && a.target == b.target && a.unit == b.unit
  }

  function Max(a: int, b: int): int
  {
    if a >= b then a else b
  }

  // ---------------------------------------------------------------------
  // The list the app starts with when nothing is stored.

  function CounterSeed(id: string, text: string, target: int, unit: string): Quest
  {
    Quest(id, text, Counter, false, Some(0), Some(target), Some(unit))
  }

  /** A boolean quest that is not completed: the shape of the boolean seed
      entries and of every quest the user adds. */
  function NewBooleanQuest(id: string, text: string): Quest
  {
    Quest(id, text, Boolean, false, None, None, None)
  }

  const SeedQuests: seq<Quest> := [
    CounterSeed("1", "臉部保養與運動", 2, "times"),
    CounterSeed("2", "走路 8000 步", 8000, "steps"),
    NewBooleanQuest("3", "晚上專注一小時"),
    NewBooleanQuest("4", "每天運動半小時"),
    NewBooleanQuest("5", "每天 10 分鐘 Reset"),
    NewBooleanQuest("6", "每天寫日記轉成數位版"),
    NewBooleanQuest("7", "每天閱讀"),
    NewBooleanQuest("8", "每天十二點前上床")
  ]

  // ---------------------------------------------------------------------
  // addQuest

  /** Appends a new, not yet completed boolean quest with the given id. */
  function Add(qs: seq<Quest>, id: string, text: string): (r: seq<Quest>)
    ensures |r| == |qs| + 1 && r[..|qs|] == qs
    ensures r[|qs|] == NewBooleanQuest(id, text)
  {
    qs + [NewBooleanQuest(id, text)]
  }

  // ---------------------------------------------------------------------
  // toggleQuest

  /** Flips `completed` on every boolean quest with the given id; all other
      quests, and every other field, stay as they were. */
  function Toggle(qs: seq<Quest>, id: string): (r: seq<Quest>)
    ensures |r| == |qs|
    ensures forall i :: 0 <= i < |qs| ==>
      r[i].completed == (qs[i].completed != (qs[i].id == id && qs[i].kind == Boolean))
    ensures forall i :: 0 <= i < |qs| ==> r[i] == qs[i].(completed := r[i].completed)
  {
    seq(|qs|, i requires 0 <= i < |qs| =>
      if qs[i].id == id && qs[i].kind == Boolean then qs[i].(completed := !qs[i].completed) else qs[i])
  }

  // ---------------------------------------------------------------------
  // updateProgress

  /** Whether updateProgress acts on this quest: the id matches and it is a
      counter with a defined target. */
  predicate CountsToward(q: Quest, id: string)
  {
    q.id == id && q.kind == Counter && q.target.Some?
  }

  /** Sets the count of the matching counter quest to the requested value,
      raised to zero if negative, and derives `completed` from it. */
  function SetProgress(qs: seq<Quest>, id: string, n: int): (r: seq<Quest>)
    ensures |r| == |qs|
    ensures forall i :: 0 <= i < |qs| && !CountsToward(qs[i], id) ==> r[i] == qs[i]
    ensures forall i :: 0 <= i < |qs| && CountsToward(qs[i], id) ==>
      && SameDefinition(r[i], qs[i])
      && r[i].current.Some? && r[i].current.value >= 0
      && (n >= 0 ==> r[i].current.value == n)
      && (n < 0 ==> r[i].current.value == 0)
      && r[i].completed == (r[i].current.value >= qs[i].target.value)
  {
    seq(|qs|, i requires 0 <= i < |qs| =>
      if CountsToward(qs[i], id)
      then qs[i].(current := Some(Max(0, n)), completed := Max(0, n) >= qs[i].target.value)
      else qs[i])
  }

  // ---------------------------------------------------------------------
  // deleteQuest

  /** Keeps the quests whose id differs from the given one, in their order. */
  function Delete(qs: seq<Quest>, id: string): (r: seq<Quest>)
    ensures |r| <= |qs|
  {
    if qs == [] then []
    else (if qs[0].id == id then [] else [qs[0]]) + Delete(qs[1..], id)
  }

  // ---------------------------------------------------------------------
  // The daily reset

  /** Clears every quest's progress and keeps its definition. */
  function ResetDaily(qs: seq<Quest>): (r: seq<Quest>)
    ensures |r| == |qs|
    ensures forall i :: 0 <= i < |qs| ==>
      && SameDefinition(r[i], qs[i])
      && !r[i].completed
      && r[i].current == (if qs[i].kind == Counter then Some(0) else None)
  {
    seq(|qs|, i requires 0 <= i < |qs| =>
      qs[i].(completed := false, current := if qs[i].kind == Counter then Some(0) else None))
  }

  // ---------------------------------------------------------------------
  // The completion percentage

  function CompletedCount(qs: seq<Quest>): (c: nat)
    ensures c <= |qs|
  {
    if qs == [] then 0
    else (if qs[0].completed then 1 else 0) + CompletedCount(qs[1..])
  }

  /** The share of completed quests in percent; 0 for an empty list. */
  function Progress(qs: seq<Quest>): (p: real)
    ensures 0.0 <= p <= 100.0
    ensures qs == [] ==> p == 0.0
  {
    if |qs| > 0 then (CompletedCount(qs) as real / |qs| as real) * 100.0 else 0.0
  }

  // =====================================================================
  // Lemmas about the seed list

  lemma SeedIsConsistent()
    ensures |SeedQuests| == 8
    ensures Consistent(SeedQuests)
  {
  }

  lemma SeedHasTwoCounters()
    ensures forall i :: 0 <= i < |SeedQuests| ==> (SeedQuests[i].kind == Counter <==> i < 2)
  {
  }

  lemma {:induction false} SeedProgressIsZero()
    ensures Progress(SeedQuests) == 0.0
  {
    NoneCompletedCountsZero(SeedQuests);
  }

  // =====================================================================
  // Lemmas about the operations

  lemma AddPreservesConsistent(qs: seq<Quest>, id: string, text: string)
    requires Consistent(qs) && !HasId(qs, id)
    ensures Consistent(Add(qs, id, text))
    ensures HasId(Add(qs, id, text), id)
  {
    var r := Add(qs, id, text);
    assert r[|qs|].id == id;
  }

  lemma {:induction false} CountAppend(a: seq<Quest>, b: seq<Quest>)
    ensures CompletedCount(a + b) == CompletedCount(a) + CompletedCount(b)
  {
    if a == [] {
      assert a + b == b;
    } else {
      assert (a + b)[1..] == a[1..] + b;
      CountAppend(a[1..], b);
    }
  }

  /** A new quest starts out open, so adding one leaves the number of
      completed quests as it was. */
  lemma AddKeepsCompletedCount(qs: seq<Quest>, id: string, text: string)
    ensures CompletedCount(Add(qs, id, text)) == CompletedCount(qs)
  {
    CountAppend(qs, [NewBooleanQuest(id, text)]);
  }

  /** Toggling an id that is not in the list changes nothing. */
  lemma ToggleUnknownIsNoop(qs: seq<Quest>, id: string)
    requires !HasId(qs, id)
    ensures Toggle(qs, id) == qs
  {
  }

  /** Toggling a counter quest changes nothing: its completion is derived. */
  lemma ToggleCounterIsNoop(qs: seq<Quest>, id: string)
    requires forall i :: 0 <= i < |qs| && qs[i].id == id ==> qs[i].kind == Counter
    ensures Toggle(qs, id) == qs
  {
  }

  /** Toggling twice restores the list. */
  lemma ToggleTwiceIsIdentity(qs: seq<Quest>, id: string)
    ensures Toggle(Toggle(qs, id), id) == qs
  {
  }

  lemma TogglePreservesConsistent(qs: seq<Quest>, id: string)
    requires Consistent(qs)
    ensures Consistent(Toggle(qs, id))
  {
  }

  /** A negative request stores a count of zero; with a positive target the
      quest is then not completed. */
  lemma SetProgressClampsNegative(qs: seq<Quest>, id: string, n: int, i: int)
    requires n < 0 && 0 <= i < |qs| && CountsToward(qs[i], id) && qs[i].target.value > 0
    ensures SetProgress(qs, id, n)[i].current == Some(0)
    ensures !SetProgress(qs, id, n)[i].completed
  {
  }

  /** For a positive target, the quest is completed exactly when the request
      reaches the target. */
  lemma SetProgressCompletesAtTarget(qs: seq<Quest>, id: string, n: int, i: int)
    requires 0 <= i < |qs| && CountsToward(qs[i], id) && qs[i].target.value > 0
    ensures SetProgress(qs, id, n)[i].completed <==> n >= qs[i].target.value
  {
  }

  /** updateProgress does nothing when no counter with a target has the id:
      unknown ids, boolean quests and counters without a target. */
  lemma SetProgressNoop(qs: seq<Quest>, id: string, n: int)
    requires forall i :: 0 <= i < |qs| ==> !CountsToward(qs[i], id)
    ensures SetProgress(qs, id, n) == qs
  {
  }

  lemma SetProgressIdempotent(qs: seq<Quest>, id: string, n: int)
    ensures SetProgress(SetProgress(qs, id, n), id, n) == SetProgress(qs, id, n)
  {
  }

  lemma SetProgressPreservesConsistent(qs: seq<Quest>, id: string, n: int)
    requires Consistent(qs)
    ensures Consistent(SetProgress(qs, id, n))
  {
  }

  /** Deletion commutes with concatenation, so the kept quests keep their
      relative order. */
  lemma {:induction false} DeleteAppend(a: seq<Quest>, b: seq<Quest>, id: string)
    ensures Delete(a + b, id) == Delete(a, id) + Delete(b, id)
  {
    if a == [] {
      assert a + b == b;
    } else {
      assert (a + b)[1..] == a[1..] + b;
      DeleteAppend(a[1..], b, id);
    }
  }

  lemma {:induction false} DeleteUnknownIsNoop(qs: seq<Quest>, id: string)
    requires !HasId(qs, id)
    ensures Delete(qs, id) == qs
  {
    if qs != [] {
      assert qs[0].id != id;
      assert !HasId(qs[1..], id) by {
        forall i | 0 <= i < |qs[1..]| ensures qs[1..][i].id != id {
          assert qs[1..][i] == qs[i + 1];
        }
      }
      DeleteUnknownIsNoop(qs[1..], id);
      assert qs == [qs[0]] + qs[1..];
    }
  }

  /** In a list without repeated ids, deleting the id found at index k
      removes exactly that quest and keeps the rest in order. */
  lemma DeleteAtIndex(qs: seq<Quest>, k: int)
    requires UniqueIds(qs) && 0 <= k < |qs|
    ensures Delete(qs, qs[k].id) == qs[..k] + qs[k + 1..]
  {
    NoIdOutsideIndex(qs, k);
    SplitAt(qs, k);
    DeleteBetween(qs[..k], qs[k], qs[k + 1..]);
  }

  lemma SplitAt(qs: seq<Quest>, k: int)
    requires 0 <= k < |qs|
    ensures qs == qs[..k] + ([qs[k]] + qs[k + 1..])
  {
  }

  lemma DeleteBetween(before: seq<Quest>, q: Quest, after: seq<Quest>)
    requires !HasId(before, q.id) && !HasId(after, q.id)
    ensures Delete(before + ([q] + after), q.id) == before + after
  {
    DeleteUnknownIsNoop(before, q.id);
    DeleteUnknownIsNoop(after, q.id);
    assert [q][1..] == [];
    assert Delete([q], q.id) == [];
    DeleteAppend([q], after, q.id);
    DeleteAppend(before, [q] + after, q.id);
  }

  lemma NoIdOutsideIndex(qs: seq<Quest>, k: int)
    requires UniqueIds(qs) && 0 <= k < |qs|
    ensures !HasId(qs[..k], qs[k].id) && !HasId(qs[k + 1..], qs[k].id)
  {
    var before, after := qs[..k], qs[k + 1..];
    forall i | 0 <= i < |before| ensures before[i].id != qs[k].id {
      assert before[i] == qs[i];
    }
    forall i | 0 <= i < |after| ensures after[i].id != qs[k].id {
      assert after[i] == qs[k + 1 + i];
    }
  }

  /** A quest is kept exactly when it was in the list under another id. */
  lemma {:induction false} DeleteKeepsExactlyOthers(qs: seq<Quest>, id: string)
    ensures forall q :: q in Delete(qs, id) <==> q in qs && q.id != id
  {
    if qs != [] {
      DeleteKeepsExactlyOthers(qs[1..], id);
      assert qs == [qs[0]] + qs[1..];
    }
  }

  lemma DeleteIdempotent(qs: seq<Quest>, id: string)
    ensures Delete(Delete(qs, id), id) == Delete(qs, id)
  {
    var r := Delete(qs, id);
    DeleteKeepsExactlyOthers(qs, id);
    assert !HasId(r, id) by {
      forall i | 0 <= i < |r| ensures r[i].id != id {
        assert r[i] in r;
      }
    }
    DeleteUnknownIsNoop(r, id);
  }

  lemma {:induction false} DeletePreservesUniqueIds(qs: seq<Quest>, id: string)
    requires UniqueIds(qs)
    ensures UniqueIds(Delete(qs, id))
  {
    if qs != [] {
      var rest := Delete(qs[1..], id);
      DeletePreservesUniqueIds(qs[1..], id);
      DeleteKeepsExactlyOthers(qs[1..], id);
      if qs[0].id != id {
        forall j | 0 <= j < |rest| ensures rest[j].id != qs[0].id {
          assert rest[j] in qs[1..];
          var k :| 0 <= k < |qs[1..]| && qs[1..][k] == rest[j];
          assert qs[1..][k] == qs[k + 1];
        }
        var r := [qs[0]] + rest;
        forall i, j | 0 <= i < j < |r| ensures r[i].id != r[j].id {
          if i > 0 {
            assert r[i] == rest[i - 1] && r[j] == rest[j - 1];
          } else {
            assert r[j] == rest[j - 1];
          }
        }
      } else {
        assert Delete(qs, id) == rest;
      }
    }
  }

  lemma DeletePreservesConsistent(qs: seq<Quest>, id: string)
    requires Consistent(qs)
    ensures Consistent(Delete(qs, id))
    ensures !HasId(Delete(qs, id), id)
  {
    DeletePreservesUniqueIds(qs, id);
    DeleteKeepsExactlyOthers(qs, id);
    var r := Delete(qs, id);
    forall i | 0 <= i < |r| ensures WellFormed(r[i]) && r[i].id != id {
      assert r[i] in qs;
    }
  }

  lemma ResetIdempotent(qs: seq<Quest>)
    ensures ResetDaily(ResetDaily(qs)) == ResetDaily(qs)
  {
  }

  /** The reset yields well-formed quests whenever each counter has a
      positive target and each boolean quest has none; in particular it
      preserves consistency. */
  lemma ResetEstablishesWellFormed(qs: seq<Quest>)
    requires forall i :: 0 <= i < |qs| ==>
      if qs[i].kind == Counter then qs[i].target.Some? && qs[i].target.value > 0 else qs[i].target.None?
    ensures forall i :: 0 <= i < |qs| ==> WellFormed(ResetDaily(qs)[i])
  {
  }

  lemma ResetPreservesConsistent(qs: seq<Quest>)
    requires Consistent(qs)
    ensures Consistent(ResetDaily(qs))
  {
  }

  lemma {:induction false} NoneCompletedCountsZero(qs: seq<Quest>)
    requires forall i :: 0 <= i < |qs| ==> !qs[i].completed
    ensures CompletedCount(qs) == 0
  {
    if qs != [] {
      NoneCompletedCountsZero(qs[1..]);
    }
  }

  lemma ResetProgressIsZero(qs: seq<Quest>)
    ensures Progress(ResetDaily(qs)) == 0.0
  {
    NoneCompletedCountsZero(ResetDaily(qs));
  }

  lemma {:induction false} CountIsLengthIffAllCompleted(qs: seq<Quest>)
    ensures CompletedCount(qs) == |qs| <==> forall i :: 0 <= i < |qs| ==> qs[i].completed
  {
    if qs != [] {
      CountIsLengthIffAllCompleted(qs[1..]);
      if forall i :: 0 <= i < |qs| ==> qs[i].completed {
        assert forall i :: 0 <= i < |qs[1..]| ==> qs[1..][i].completed by {
          forall i | 0 <= i < |qs[1..]| ensures qs[1..][i].completed {
            assert qs[1..][i] == qs[i + 1];
          }
        }
      } else if qs[0].completed {
        var i :| 0 <= i < |qs| && !qs[i].completed;
        assert qs[1..][i - 1] == qs[i];
      }
    }
  }

  /** The percentage is exactly 100 when the list is non-empty and every
      quest in it is completed. */
  lemma ProgressFullIffAllCompleted(qs: seq<Quest>)
    ensures Progress(qs) == 100.0 <==> qs != [] && forall i :: 0 <= i < |qs| ==> qs[i].completed
  {
    CountIsLengthIffAllCompleted(qs);
    if |qs| > 0 {
      var c := CompletedCount(qs) as real;
      var n := |qs| as real;
      if c == n {
        assert c / n == 1.0;
      } else {
        assert c < n;
        assert c / n < 1.0;
      }
    }
  }

  /** Two quests of which one is completed give 50 percent. */
  lemma ProgressOfHalf(a: Quest, b: Quest)
    requires a.completed && !b.completed
    ensures Progress([a, b]) == 50.0
  {
    assert [a, b][1..] == [b];
    assert [b][1..] == [];
    assert CompletedCount([a, b]) == 1;
  }

  /** Completing the six boolean seed quests and both counters gives 100
      percent. */
  lemma SeedAllDoneIsFull()
    ensures Progress(SetProgress(SetProgress(
      Toggle(Toggle(Toggle(Toggle(Toggle(Toggle(SeedQuests, "3"), "4"), "5"), "6"), "7"), "8"),
      "1", 2), "2", 8000)) == 100.0
  {
    var booleansDone := Toggle(Toggle(Toggle(Toggle(Toggle(Toggle(SeedQuests, "3"), "4"), "5"), "6"), "7"), "8");
    assert forall i :: 2 <= i < 8 ==> booleansDone[i].completed;
    assert booleansDone[..2] == SeedQuests[..2];
    var qs := SetProgress(SetProgress(booleansDone, "1", 2), "2", 8000);
    assert forall i :: 0 <= i < |qs| ==> qs[i].completed;
    ProgressFullIffAllCompleted(qs);
  }
}
