/** The dashboard's entry store from `App.tsx`: an ordered sequence of food
    entries (most recent first) and a daily calorie goal, with the operations
    that change them and the daily total derived from them. */
module EntryStore {
  import opened Types
  import opened Js

  /** `DEFAULT_GOAL`. */
  const DefaultGoal: real := 2000.0

  datatype State = State(entries: seq<FoodEntry>, goal: real)

  /** The state before anything is loaded: no entries, the default goal. */
  const Initial: State := State([], DefaultGoal)

  /** The calories an entry built from `d` records. */
  function DraftCalories(d: Draft): int {
    Round(d.servingSize * d.caloriesPerUnit)
  }

  /** The entry `addEntry` builds: the draft's fields unchanged, the given id
      and timestamp, and the rounded product of serving size and rate. */
  function NewEntry(d: Draft, id: string, timestamp: int): (e: FoodEntry)
    ensures DraftOf(e) == d
    ensures e.id == id && e.timestamp == timestamp
    ensures e.totalCalories as real - 0.5 <= d.servingSize * d.caloriesPerUnit < e.totalCalories as real + 0.5
  {
    Complete(d, id, timestamp, DraftCalories(d))
  }

  /** `addEntry`: prepends the new entry; the goal is untouched. */
  function AddEntry(s: State, d: Draft, id: string, timestamp: int): (r: State)
    ensures |r.entries| == |s.entries| + 1
    ensures r.entries[0] == NewEntry(d, id, timestamp)
    ensures r.entries[1..] == s.entries
    ensures r.goal == s.goal
  {
    State([NewEntry(d, id, timestamp)] + s.entries, s.goal)
  }

  /** The filter of `removeEntry`: keeps the entries whose id differs from
      `id`, in their original order. */
  function Without(entries: seq<FoodEntry>, id: string): (r: seq<FoodEntry>)
    ensures |r| <= |entries|
    ensures forall e :: e in r ==> e in entries && e.id != id
    ensures forall e :: e in entries && e.id != id ==> e in r
  {
    if |entries| == 0 then []
    else if entries[0].id != id then [entries[0]] + Without(entries[1..], id)
    else Without(entries[1..], id)
  }

  /** `removeEntry`: drops every entry carrying `id`; the goal is untouched. */
  function RemoveEntry(s: State, id: string): (r: State)
    ensures r.goal == s.goal
    ensures forall e :: e in r.entries <==> e in s.entries && e.id != id
  {
    State(Without(s.entries, id), s.goal)
  }

  /** The goal input's `setGoal`: replaces the goal, entries untouched. */
  function SetGoal(s: State, goal: real): (r: State)
    ensures r.entries == s.entries && r.goal == goal
  {
    State(s.entries, goal)
  }

  /** Changing the goal touches no entry: the id and total invariants and
      the daily total are what they were, and it commutes with adding and
      removing entries. */
  lemma SetGoalKeepsInvariants(s: State, goal: real, d: Draft, id: string, timestamp: int)
    ensures UniqueIds(SetGoal(s, goal).entries) <==> UniqueIds(s.entries)
    ensures TotalsConsistent(SetGoal(s, goal).entries) <==> TotalsConsistent(s.entries)
    ensures DailyTotal(SetGoal(s, goal).entries) == DailyTotal(s.entries)
    ensures SetGoal(AddEntry(s, d, id, timestamp), goal) == AddEntry(SetGoal(s, goal), d, id, timestamp)
    ensures SetGoal(RemoveEntry(s, id), goal) == RemoveEntry(SetGoal(s, goal), id)
  {
  }

  /** `dailyTotal`: the sum of the entries' `totalCalories`. */
  function DailyTotal(entries: seq<FoodEntry>): (r: int)
    ensures (forall e :: e in entries ==> e.totalCalories >= 0) ==> r >= 0
  {
    if |entries| == 0 then 0
    else entries[0].totalCalories + DailyTotal(entries[1..])
  }

  /** No two entries share an id. The store promises this but the source
      never checks it; ids are random. */
  predicate UniqueIds(entries: seq<FoodEntry>) {
    forall i, j :: 0 <= i < j < |entries| ==> entries[i].id != entries[j].id
  }

  /** `id` is carried by no entry. */
  predicate Fresh(id: string, entries: seq<FoodEntry>) {
    forall e :: e in entries ==> e.id != id
  }

  /** Every entry's total is the rounded product of its two factors. */
  predicate TotalsConsistent(entries: seq<FoodEntry>) {
    forall e :: e in entries ==> e.totalCalories == Round(e.servingSize * e.caloriesPerUnit)
  }

  /** Filtering distributes over concatenation, so it keeps relative order. */
  lemma {:induction false} WithoutConcat(a: seq<FoodEntry>, b: seq<FoodEntry>, id: string)
    ensures Without(a + b, id) == Without(a, id) + Without(b, id)
  {
    if |a| == 0 {
      assert a + b == b;
    } else {
      assert (a + b)[0] == a[0];
      assert (a + b)[1..] == a[1..] + b;
      WithoutConcat(a[1..], b, id);
    }
  }

  /** Filtering a single entry keeps it exactly when its id differs. */
  lemma WithoutSingleton(e: FoodEntry, id: string)
    ensures Without([e], id) == if e.id != id then [e] else []
  {
    assert [e][1..] == [];
  }

  /** Removing an id no entry carries changes nothing, and removing one some
      entry carries does change the sequence. */
  lemma {:induction false} WithoutUnchangedIff(entries: seq<FoodEntry>, id: string)
    ensures Without(entries, id) == entries <==> Fresh(id, entries)
  {
    if |entries| == 0 {
    } else {
      WithoutUnchangedIff(entries[1..], id);
      if entries[0].id == id {
        assert |Without(entries, id)| < |entries|;
      } else {
        assert entries == [entries[0]] + entries[1..];
        if Without(entries, id) == entries {
          assert Without(entries[1..], id) == entries[1..];
        }
        forall e | e in entries[1..]
          ensures e in entries
        {
        }
      }
    }
  }

  /** Removing the same id twice is the same as removing it once. */
  lemma RemoveIdempotent(s: State, id: string)
    ensures RemoveEntry(RemoveEntry(s, id), id) == RemoveEntry(s, id)
  {
    WithoutUnchangedIff(Without(s.entries, id), id);
  }

  /** Removing an absent id leaves the state unchanged. */
  lemma RemoveAbsent(s: State, id: string)
    requires Fresh(id, s.entries)
    ensures RemoveEntry(s, id) == s
  {
    WithoutUnchangedIff(s.entries, id);
  }

  /** The sum over a concatenation is the sum of the sums. */
  lemma {:induction false} DailyTotalConcat(a: seq<FoodEntry>, b: seq<FoodEntry>)
    ensures DailyTotal(a + b) == DailyTotal(a) + DailyTotal(b)
  {
    if |a| == 0 {
      assert a + b == b;
    } else {
      assert (a + b)[1..] == a[1..] + b;
      DailyTotalConcat(a[1..], b);
    }
  }

  /** Adding an entry raises the daily total by exactly that entry's
      rounded calories. */
  lemma DailyTotalAfterAdd(s: State, d: Draft, id: string, timestamp: int)
    ensures DailyTotal(AddEntry(s, d, id, timestamp).entries)
         == DailyTotal(s.entries) + Round(d.servingSize * d.caloriesPerUnit)
  {
    var r := AddEntry(s, d, id, timestamp).entries;
    assert r[1..] == s.entries;
  }

  /** With unique ids, removing an entry's id lowers the daily total by
      exactly that entry's calories. */
  lemma {:induction false} DailyTotalAfterRemove(entries: seq<FoodEntry>, e: FoodEntry)
    requires UniqueIds(entries)
    requires e in entries
    ensures DailyTotal(Without(entries, e.id)) == DailyTotal(entries) - e.totalCalories
  {
    if entries[0] == e {
      assert Fresh(e.id, entries[1..]) by {
        forall x | x in entries[1..]
          ensures x.id != e.id
        {
          var k :| 0 <= k < |entries[1..]| && entries[1..][k] == x;
          assert entries[k + 1] == x;
        }
      }
      WithoutUnchangedIff(entries[1..], e.id);
    } else {
      assert e in entries[1..];
      DailyTotalAfterRemove(entries[1..], e);
    }
  }

  /** Prepending an entry whose id is fresh keeps ids unique. */
  lemma UniqueCons(e: FoodEntry, rest: seq<FoodEntry>)
    requires UniqueIds(rest) && Fresh(e.id, rest)
    ensures UniqueIds([e] + rest)
  {
    var r := [e] + rest;
    forall i, j | 0 <= i < j < |r|
      ensures r[i].id != r[j].id
    {
      assert r[j] == rest[j - 1];
      if i > 0 {
        assert r[i] == rest[i - 1];
      } else {
        assert r[j] in rest;
      }
    }
  }

  /** The tail of a list with unique ids has unique ids and lacks the
      head's id. */
  lemma UniqueTail(entries: seq<FoodEntry>)
    requires |entries| > 0 && UniqueIds(entries)
    ensures UniqueIds(entries[1..]) && Fresh(entries[0].id, entries[1..])
  {
    var rest := entries[1..];
    forall i, j | 0 <= i < j < |rest|
      ensures rest[i].id != rest[j].id
    {
      assert rest[i] == entries[i + 1] && rest[j] == entries[j + 1];
    }
    forall e | e in rest
      ensures e.id != entries[0].id
    {
      var k :| 0 <= k < |rest| && rest[k] == e;
      assert entries[k + 1] == e;
    }
  }

  /** A fresh id keeps ids unique after an add. */
  lemma AddPreservesUniqueIds(s: State, d: Draft, id: string, timestamp: int)
    requires UniqueIds(s.entries)
    requires Fresh(id, s.entries)
    ensures UniqueIds(AddEntry(s, d, id, timestamp).entries)
  {
    UniqueCons(NewEntry(d, id, timestamp), s.entries);
  }

  /** Removal keeps ids unique. */
  lemma {:induction false} WithoutPreservesUniqueIds(entries: seq<FoodEntry>, id: string)
    requires UniqueIds(entries)
    ensures UniqueIds(Without(entries, id))
  {
    if |entries| > 0 {
      var rest := entries[1..];
      UniqueTail(entries);
      WithoutPreservesUniqueIds(rest, id);
      if entries[0].id != id {
        UniqueCons(entries[0], Without(rest, id));
      }
    }
  }

  /** Entries built by `addEntry` keep every stored total consistent with
      its factors, and removal cannot break that. */
  lemma StoreOperationsPreserveTotals(s: State, d: Draft, id: string, timestamp: int, gone: string)
    requires TotalsConsistent(s.entries)
    ensures TotalsConsistent(AddEntry(s, d, id, timestamp).entries)
    ensures TotalsConsistent(RemoveEntry(s, gone).entries)
  {
    var r := AddEntry(s, d, id, timestamp).entries;
    forall e | e in r
      ensures e.totalCalories == Round(e.servingSize * e.caloriesPerUnit)
    {
      if e != r[0] {
        assert e in r[1..];
      }
    }
  }

  /** The fold of `dailyTotal` as the source writes it: `reduce` adds the
      entries from first to last onto an accumulator starting at 0. */
  method ReduceTotal(entries: seq<FoodEntry>) returns (sum: int)
    ensures sum == DailyTotal(entries)
  {
    sum := 0;
    var i := 0;
    while i < |entries|
      invariant 0 <= i <= |entries|
      invariant sum == DailyTotal(entries[..i])
    {
      assert entries[..i + 1] == entries[..i] + [entries[i]];
      DailyTotalConcat(entries[..i], [entries[i]]);
      sum := sum + entries[i].totalCalories;
      i := i + 1;
    }
    assert entries[..i] == entries;
  }
}
