/**
 * The calorie service: today's entries, sums, progress against the daily
 * goal, parsing of a free-text line and same-title detection. Every member is
 * a function of its inputs; the clock and the UUID generator are parameters.
 */
module CalorieService {
  import opened Wrappers
  import opened Models
  import opened Calendar
  import opened Text

  /** The fixed daily goal in kcal. */
  const DailyGoal: int := 2000

  // ------------------------------------------------------------ todayEntries

  /** The entries dated today, in their original order. */
  function TodayEntries(all: seq<FoodModel>, now: int): (r: seq<FoodModel>)
    ensures forall e :: e in r <==> e in all && IsDateInToday(e.date, now)
    ensures forall e :: multiset(r)[e] == if IsDateInToday(e.date, now) then multiset(all)[e] else 0
  {
    if all == [] then []
    else
      assert all == [all[0]] + all[1..];
      (if IsDateInToday(all[0].date, now) then [all[0]] else []) + TodayEntries(all[1..], now)
  }

  /** Filtering distributes over concatenation: the relative order of what is kept is the input's. */
  lemma {:induction false} TodayEntriesAppend(a: seq<FoodModel>, b: seq<FoodModel>, now: int)
    ensures TodayEntries(a + b, now) == TodayEntries(a, now) + TodayEntries(b, now)
  {
    if a == [] {
      assert a + b == b;
    } else {
      var head := if IsDateInToday(a[0].date, now) then [a[0]] else [];
      assert (a + b)[0] == a[0] && (a + b)[1..] == a[1..] + b;
      calc {
        TodayEntries(a + b, now);
        head + TodayEntries(a[1..] + b, now);
        { TodayEntriesAppend(a[1..], b, now); }
        head + (TodayEntries(a[1..], now) + TodayEntries(b, now));
        (head + TodayEntries(a[1..], now)) + TodayEntries(b, now);
        TodayEntries(a, now) + TodayEntries(b, now);
      }
    }
  }

  // ----------------------------------------------------------- totalCalories

  /** The sum of the entries' calories, accumulated left to right from 0. */
  function TotalCalories(entries: seq<FoodModel>): int
  {
    if entries == [] then 0
    else TotalCalories(entries[..|entries| - 1]) + entries[|entries| - 1].calories
  }

  /** The total of a concatenation is the sum of the totals. */
  lemma {:induction false} TotalCaloriesAppend(a: seq<FoodModel>, b: seq<FoodModel>)
    ensures TotalCalories(a + b) == TotalCalories(a) + TotalCalories(b)
    decreases |b|
  {
    if b == [] {
      assert a + b == a;
    } else {
      var ab := a + b;
      assert ab[..|ab| - 1] == a + b[..|b| - 1];
      assert ab[|ab| - 1] == b[|b| - 1];
      TotalCaloriesAppend(a, b[..|b| - 1]);
    }
  }

  /** Taking out the entry at `i` takes its calories out of the total. */
  lemma TotalCaloriesRemove(b: seq<FoodModel>, i: nat)
    requires i < |b|
    ensures TotalCalories(b) == TotalCalories(b[..i] + b[i + 1..]) + b[i].calories
  {
    var front, back := b[..i], b[i + 1..];
    assert front + [b[i]] == b[..i + 1];
    assert b[..i + 1] + back == b;
    calc {
      TotalCalories(b);
      TotalCalories(b[..i + 1] + back);
      { TotalCaloriesAppend(b[..i + 1], back); }
      TotalCalories(front + [b[i]]) + TotalCalories(back);
      { TotalCaloriesAppend(front, [b[i]]); assert [b[i]][..0] == []; }
      TotalCalories(front) + b[i].calories + TotalCalories(back);
      { TotalCaloriesAppend(front, back); }
      TotalCalories(front + back) + b[i].calories;
    }
  }

  /** Taking out the entry at `i` takes one copy of it out of the multiset. */
  lemma MultisetRemove(b: seq<FoodModel>, i: nat)
    requires i < |b|
    ensures multiset(b[..i] + b[i + 1..]) == multiset(b) - multiset{b[i]}
  {
    assert b == b[..i] + [b[i]] + b[i + 1..];
    assert multiset(b) == multiset(b[..i]) + multiset{b[i]} + multiset(b[i + 1..]);
  }

  /** The total does not depend on the order of the entries. */
  lemma {:induction false} TotalCaloriesPermutation(a: seq<FoodModel>, b: seq<FoodModel>)
    requires multiset(a) == multiset(b)
    ensures TotalCalories(a) == TotalCalories(b)
    decreases |a|
  {
    if a == [] {
      assert |b| == |multiset(b)| == 0;
    } else {
      var x := a[|a| - 1];
      var a' := a[..|a| - 1];
      assert a == a' + [x];
      assert multiset(a') == multiset(a) - multiset{x};
      assert x in multiset(b);
      var i :| 0 <= i < |b| && b[i] == x;
      MultisetRemove(b, i);
      TotalCaloriesPermutation(a', b[..i] + b[i + 1..]);
      TotalCaloriesRemove(b, i);
    }
  }

  // ---------------------------------------------------------------- progress

  /**
   * The fraction of `goal` reached, capped at 1 and not bounded below; 0 when
   * the goal is not positive. `goal` is the service's `dailyGoal`.
   */
  function Progress(totalCalories: int, goal: int): (r: real)
    ensures goal <= 0 ==> r == 0.0
    ensures goal > 0 ==> r <= 1.0
    ensures goal > 0 && totalCalories <= goal ==> r == totalCalories as real / goal as real
    ensures goal > 0 && totalCalories >= goal ==> r == 1.0
    ensures goal > 0 ==> (r < 0.0 <==> totalCalories < 0)
  {
    if goal <= 0 then 0.0
    else
      var ratio := totalCalories as real / goal as real;
      assert ratio * goal as real == totalCalories as real;
      if 1.0 < ratio then 1.0 else ratio
  }

  /** More calories never mean less progress. */
  lemma ProgressMonotone(a: int, b: int, goal: int)
    requires a <= b
    ensures Progress(a, goal) <= Progress(b, goal)
  {
    if goal > 0 {
      var g := goal as real;
      assert a as real / g <= b as real / g by {
        assert (b as real - a as real) / g >= 0.0;
      }
    }
  }

  // -------------------------------------------------------------- parseInput

  /**
   * A line "name words calories": the last space-separated token is the
   * calorie count, the earlier tokens joined by single spaces are the name.
   */
  function ParseInput(text: string): (r: Option<(string, int)>)
    ensures |Split(text)| < 2 ==> r == None
    ensures r.Some? ==>
      var parts := Split(text);
      && |parts| >= 2
      && ParseInt(parts[|parts| - 1]) == Some(r.value.1)
      && r.value.0 == Join(parts[..|parts| - 1])
      && !IsBlank(r.value.0)
    ensures var parts := Split(text);
      && |parts| >= 2
      && ParseInt(parts[|parts| - 1]).Some?
      && !IsBlank(Join(parts[..|parts| - 1]))
      ==> r == Some((Join(parts[..|parts| - 1]), ParseInt(parts[|parts| - 1]).value))
  {
    var parts := Split(text);
    if |parts| < 2 then None
    else
      var last := ParseInt(parts[|parts| - 1]);
      if last.None? then None
      else
        var nameParts := parts[..|parts| - 1];
        var name := Join(nameParts);
        if Trim(name) == [] then None else Some((name, last.value))
  }

  /**
   * On success the name is made of exactly the tokens before the last one,
   * separated by single spaces, and the calories fit in a 64-bit `Int`.
   */
  lemma ParseInputAccepted(text: string)
    requires ParseInput(text).Some?
    ensures var (name, calories) := ParseInput(text).value;
      var parts := Split(text);
      && Split(name) == parts[..|parts| - 1]
      && WellSpaced(name)
      && name != []
      && InIntRange(calories)
  {
    var parts := Split(text);
    var nameParts := parts[..|parts| - 1];
    assert AllTokens(nameParts);
    JoinWellSpaced(nameParts);
    SplitJoin(nameParts);
  }

  /** Printing a parsed line back as "name calories" parses to the same pair. */
  lemma ParseInputRoundTrip(text: string, name: string, calories: int)
    requires ParseInput(text) == Some((name, calories))
    ensures ParseInput(name + " " + Decimal(calories)) == Some((name, calories))
  {
    var parts := Split(text);
    var ts := parts[..|parts| - 1];
    assert name == Join(ts);
    DecimalRoundTrip(calories);
    var d := Decimal(calories);
    JoinSnoc(ts, d);
    assert AllTokens(ts + [d]);
    SplitJoin(ts + [d]);
    var parts' := Split(name + " " + d);
    assert parts' == ts + [d];
    assert parts'[..|parts'| - 1] == ts;
  }

  /** A last token that is not a 64-bit integer rejects the line. */
  lemma ParseInputRejectsBadNumber(text: string)
    requires |Split(text)| >= 2 && ParseInt(Split(text)[|Split(text)| - 1]) == None
    ensures ParseInput(text) == None
  {
  }

  // ------------------------------------------------------------ hasDuplicate

  /** Some entry's title equals `title` ignoring case. */
  function HasDuplicate(title: string, entries: seq<FoodModel>): (r: bool)
    ensures r <==> exists i :: 0 <= i < |entries| && SameIgnoringCase(entries[i].title, title)
  {
    if entries == [] then false
    else if SameIgnoringCase(entries[0].title, title) then true
    else
      assert forall i :: 1 <= i < |entries| ==> entries[i] == entries[1..][i - 1];
      HasDuplicate(title, entries[1..])
  }

  /** The answer does not depend on the order of the entries. */
  lemma HasDuplicateOrderFree(title: string, a: seq<FoodModel>, b: seq<FoodModel>)
    requires multiset(a) == multiset(b)
    ensures HasDuplicate(title, a) == HasDuplicate(title, b)
  {
    if HasDuplicate(title, a) {
      var i :| 0 <= i < |a| && SameIgnoringCase(a[i].title, title);
      assert a[i] in multiset(b);
      var j :| 0 <= j < |b| && b[j] == a[i];
    }
    if HasDuplicate(title, b) {
      var j :| 0 <= j < |b| && SameIgnoringCase(b[j].title, title);
      assert b[j] in multiset(a);
      var i :| 0 <= i < |a| && a[i] == b[j];
    }
  }

  // --------------------------------------------------------------- makeEntry

  /**
   * `makeEntry`: a new entry with the given title, calories and photo, dated
   * `now`. Its id argument, `ignoredId`, is not used: the entry gets a newly
   * generated UUID, `freshId`.
   */
  function MakeEntry(ignoredId: Uuid, title: string, calories: int, imageData: Option<Bytes>,
                     freshId: Uuid, now: int): FoodModel
  {
    FoodModel(freshId, title, calories, now, imageData)
  }

  /** The `id` argument has no effect on the entry made. */
  lemma MakeEntryIgnoresId(a: Uuid, b: Uuid, title: string, calories: int,
                           imageData: Option<Bytes>, freshId: Uuid, now: int)
    ensures MakeEntry(a, title, calories, imageData, freshId, now)
         == MakeEntry(b, title, calories, imageData, freshId, now)
    ensures MakeEntry(a, title, calories, imageData, freshId, now).id == freshId
    ensures IsDateInToday(MakeEntry(a, title, calories, imageData, freshId, now).date, now)
  {
  }
}
