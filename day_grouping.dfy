/**
 * The pipeline inside the main view model's `updateEntries`: group the
 * entries by the start of their day, sort each group by date, total each
 * group, order the groups most recent first and pick today's group.
 */
module DayGrouping {
  import opened Wrappers
  import opened Models
  import opened Calendar
  import opened CalorieService

  // ------------------------------------------------------------- day keys

  predicate StrictlyDescending(ks: seq<int>)
  {
    forall i, j :: 0 <= i < j < |ks| ==> ks[i] > ks[j]
  }

  /** Some entry of `es` falls on the day that starts at `day`. */
  predicate HasEntryOn(es: seq<FoodModel>, day: int)
  {
    exists i :: 0 <= i < |es| && StartOfDay(es[i].date) == day
  }

  lemma HasEntryOnCons(es: seq<FoodModel>, day: int)
    requires es != []
    ensures HasEntryOn(es, day) <==> StartOfDay(es[0].date) == day || HasEntryOn(es[1..], day)
  {
    if HasEntryOn(es[1..], day) {
      var i :| 0 <= i < |es[1..]| && StartOfDay(es[1..][i].date) == day;
      assert es[i + 1] == es[1..][i];
    }
    if HasEntryOn(es, day) && StartOfDay(es[0].date) != day {
      var i :| 0 <= i < |es| && StartOfDay(es[i].date) == day;
      assert es[1..][i - 1] == es[i];
    }
  }

  /** Adds `day` to a list of days kept most recent first and without repeats. */
  function InsertDay(day: int, ks: seq<int>): (r: seq<int>)
    requires StrictlyDescending(ks)
    ensures StrictlyDescending(r)
    ensures forall k :: k in r <==> k == day || k in ks
  {
    if ks == [] then [day]
    else if day > ks[0] then
      ConsDescending(day, ks);
      [day] + ks
    else if day == ks[0] then ks
    else
      assert StrictlyDescending(ks[1..]) by {
        assert forall i :: 0 <= i < |ks| - 1 ==> ks[1..][i] == ks[i + 1];
      }
      var rest := InsertDay(day, ks[1..]);
      assert forall k :: k in ks[1..] ==> k < ks[0];
      ConsDescending(ks[0], rest);
      [ks[0]] + rest
  }

  /** A day later than every day of a descending list can go in front of it. */
  lemma ConsDescending(day: int, ks: seq<int>)
    requires StrictlyDescending(ks)
    requires forall k :: k in ks ==> k < day
    ensures StrictlyDescending([day] + ks)
  {
    forall i, j | 0 <= i < j < |ks| + 1
      ensures ([day] + ks)[i] > ([day] + ks)[j]
    {
      assert ([day] + ks)[j] == ks[j - 1] && ks[j - 1] in ks;
      if i > 0 {
        assert ([day] + ks)[i] == ks[i - 1];
      }
    }
  }

  /**
   * The days of the grouping by start of day, most recent first: each day
   * that has an entry, once.
   */
  function DayKeys(es: seq<FoodModel>): (r: seq<int>)
    ensures StrictlyDescending(r)
    ensures forall k :: k in r <==> HasEntryOn(es, k)
  {
    if es == [] then []
    else
      var r := InsertDay(StartOfDay(es[0].date), DayKeys(es[1..]));
      assert forall k :: HasEntryOn(es, k) <==> StartOfDay(es[0].date) == k || HasEntryOn(es[1..], k) by {
        forall k { HasEntryOnCons(es, k); }
      }
      r
  }

  // ------------------------------------------------------------ one bucket

  /** The entries of `es` on the day that starts at `day`, in their original order. */
  function EntriesOn(es: seq<FoodModel>, day: int): (r: seq<FoodModel>)
    ensures forall e :: e in r <==> e in es && StartOfDay(e.date) == day
    ensures forall e :: multiset(r)[e] == if StartOfDay(e.date) == day then multiset(es)[e] else 0
  {
    if es == [] then []
    else
      assert es == [es[0]] + es[1..];
      (if StartOfDay(es[0].date) == day then [es[0]] else []) + EntriesOn(es[1..], day)
  }

  lemma {:induction false} EntriesOnAppend(a: seq<FoodModel>, b: seq<FoodModel>, day: int)
    ensures EntriesOn(a + b, day) == EntriesOn(a, day) + EntriesOn(b, day)
  {
    if a == [] {
      assert a + b == b;
    } else {
      var head := if StartOfDay(a[0].date) == day then [a[0]] else [];
      assert (a + b)[0] == a[0] && (a + b)[1..] == a[1..] + b;
      calc {
        EntriesOn(a + b, day);
        head + EntriesOn(a[1..] + b, day);
        { EntriesOnAppend(a[1..], b, day); }
        head + (EntriesOn(a[1..], day) + EntriesOn(b, day));
        (head + EntriesOn(a[1..], day)) + EntriesOn(b, day);
        EntriesOn(a, day) + EntriesOn(b, day);
      }
    }
  }

  /** A list all on one day is its own bucket for that day and has no entry on any other. */
  lemma {:induction false} EntriesOnOneDay(s: seq<FoodModel>, d: int, day: int)
    requires forall e :: e in s ==> StartOfDay(e.date) == d
    ensures EntriesOn(s, day) == if d == day then s else []
  {
    if s != [] {
      assert s[0] in s;
      assert forall e :: e in s[1..] ==> e in s;
      EntriesOnOneDay(s[1..], d, day);
      assert s == [s[0]] + s[1..];
    }
  }

  /** `todayEntries` of the calorie service is the bucket of today's start of day. */
  lemma {:induction false} TodayEntriesIsBucket(es: seq<FoodModel>, now: int)
    ensures TodayEntries(es, now) == EntriesOn(es, StartOfDay(now))
  {
    if es != [] {
      TodayEntriesIsBucket(es[1..], now);
    }
  }

  // -------------------------------------------------------- sorting by date

  predicate SortedByDate(s: seq<FoodModel>)
  {
    forall i, j :: 0 <= i < j < |s| ==> s[i].date <= s[j].date
  }

  /** Inserts `x` before the first element that is not earlier than it. */
  function InsertByDate(x: FoodModel, s: seq<FoodModel>): (r: seq<FoodModel>)
    requires SortedByDate(s)
    ensures SortedByDate(r)
    ensures multiset(r) == multiset(s) + multiset{x}
    ensures r[0] == x || (s != [] && r[0] == s[0])
  {
    if s == [] || x.date <= s[0].date then
      ConsSorted(x, s);
      [x] + s
    else
      SortedTail(s);
      var rest := InsertByDate(x, s[1..]);
      ConsSorted(s[0], rest);
      assert s == [s[0]] + s[1..];
      [s[0]] + rest
  }

  /** The tail of a sorted list is sorted and starts no earlier than its head. */
  lemma SortedTail(s: seq<FoodModel>)
    requires SortedByDate(s) && s != []
    ensures SortedByDate(s[1..])
    ensures |s| > 1 ==> s[0].date <= s[1].date
  {
    assert forall i :: 0 <= i < |s| - 1 ==> s[1..][i] == s[i + 1];
  }

  /** An entry no later than the first of a sorted list can go in front of it. */
  lemma ConsSorted(x: FoodModel, s: seq<FoodModel>)
    requires SortedByDate(s)
    requires s == [] || x.date <= s[0].date
    ensures SortedByDate([x] + s)
  {
    forall i, j | 0 <= i < j < |s| + 1
      ensures ([x] + s)[i].date <= ([x] + s)[j].date
    {
      assert ([x] + s)[j] == s[j - 1];
      if i > 0 {
        assert ([x] + s)[i] == s[i - 1];
      }
    }
  }

  /** A stable sort by ascending date, written as an insertion sort. */
  function SortByDate(s: seq<FoodModel>): (r: seq<FoodModel>)
    ensures SortedByDate(r)
    ensures multiset(r) == multiset(s)
  {
    if s == [] then []
    else
      assert s == [s[0]] + s[1..];
      InsertByDate(s[0], SortByDate(s[1..]))
  }

  /** Sorting a sorted list leaves it as it is. */
  lemma {:induction false} SortByDateOfSorted(s: seq<FoodModel>)
    requires SortedByDate(s)
    ensures SortByDate(s) == s
  {
    if s != [] {
      SortByDateOfSorted(s[1..]);
      assert s == [s[0]] + s[1..];
    }
  }

  // --------------------------------------------------------------- sections

  /** The `DayModel` of one day: its entries sorted by date, and their total. */
  function Section(es: seq<FoodModel>, day: int): DayModel
  {
    var entries := SortByDate(EntriesOn(es, day));
    DayModel(day, entries, TotalCalories(entries))
  }

  function SectionsFor(es: seq<FoodModel>, days: seq<int>): seq<DayModel>
  {
    seq(|days|, i requires 0 <= i < |days| => Section(es, days[i]))
  }

  /** The `sections` that `updateEntries` publishes. */
  function GroupByDay(es: seq<FoodModel>): seq<DayModel>
  {
    SectionsFor(es, DayKeys(es))
  }

  /** The entries of all sections, section after section. */
  function Flatten(ss: seq<DayModel>): seq<FoodModel>
  {
    if ss == [] then [] else ss[0].entries + Flatten(ss[1..])
  }

  /** The sum of the sections' totals. */
  function SectionsTotal(ss: seq<DayModel>): int
  {
    if ss == [] then 0 else ss[0].totalCalories + SectionsTotal(ss[1..])
  }

  /** The first section dated today, if there is one. */
  function TodaySection(ss: seq<DayModel>, now: int): Option<DayModel>
  {
    if ss == [] then None
    else if IsDateInToday(ss[0].date, now) then Some(ss[0])
    else TodaySection(ss[1..], now)
  }

  lemma SectionsForCons(es: seq<FoodModel>, days: seq<int>)
    requires days != []
    ensures SectionsFor(es, days) == [Section(es, days[0])] + SectionsFor(es, days[1..])
  {
  }

  // ------------------------------------------------- properties of sections

  /** Sections come most recent first, so no two share a day. */
  lemma GroupByDayDescending(es: seq<FoodModel>)
    ensures var ss := GroupByDay(es);
      forall i, j :: 0 <= i < j < |ss| ==> ss[i].date > ss[j].date
  {
  }

  /**
   * Each section starts a day, is non-empty, holds only entries of its day,
   * sorted by date, and carries their total.
   */
  lemma GroupByDaySections(es: seq<FoodModel>)
    ensures var ss := GroupByDay(es);
      forall i :: 0 <= i < |ss| ==>
        && StartOfDay(ss[i].date) == ss[i].date
        && ss[i].entries != []
        && SortedByDate(ss[i].entries)
        && (forall e :: e in ss[i].entries ==> StartOfDay(e.date) == ss[i].date)
        && ss[i].totalCalories == TotalCalories(ss[i].entries)
  {
    var ks := DayKeys(es);
    var ss := GroupByDay(es);
    forall i | 0 <= i < |ss|
      ensures StartOfDay(ss[i].date) == ss[i].date && ss[i].entries != []
    {
      assert ks[i] in ks;
      var j :| 0 <= j < |es| && StartOfDay(es[j].date) == ks[i];
      StartOfDayIdempotent(es[j].date);
      assert multiset(ss[i].entries)[es[j]] == multiset(es)[es[j]] > 0;
    }
  }

  lemma {:induction false} FlattenCons(s: DayModel, ss: seq<DayModel>)
    ensures Flatten([s] + ss) == s.entries + Flatten(ss)
  {
    assert ([s] + ss)[1..] == ss;
  }

  /** How often an entry occurs in the sections of `days`: as in `es` if its day is one of them. */
  lemma {:induction false} FlattenCount(es: seq<FoodModel>, days: seq<int>, x: FoodModel)
    requires StrictlyDescending(days)
    ensures multiset(Flatten(SectionsFor(es, days)))[x]
         == if StartOfDay(x.date) in days then multiset(es)[x] else 0
  {
    if days != [] {
      SectionsForCons(es, days);
      FlattenCons(Section(es, days[0]), SectionsFor(es, days[1..]));
      FlattenCount(es, days[1..], x);
      assert days[0] !in days[1..];
      assert forall k :: k in days <==> k == days[0] || k in days[1..];
    }
  }

  /** The sections hold exactly the input entries, each as often as in the input. */
  lemma GroupByDayPermutation(es: seq<FoodModel>)
    ensures multiset(Flatten(GroupByDay(es))) == multiset(es)
  {
    var ks := DayKeys(es);
    forall x
      ensures multiset(Flatten(GroupByDay(es)))[x] == multiset(es)[x]
    {
      FlattenCount(es, ks, x);
      if x in es {
        var i :| 0 <= i < |es| && es[i] == x;
        assert HasEntryOn(es, StartOfDay(x.date));
      }
    }
  }

  /** Every input entry lies in exactly one section, the one of its day. */
  lemma GroupByDayPlacement(es: seq<FoodModel>)
    ensures var ss := GroupByDay(es);
      && (forall e :: e in es ==>
            exists i :: 0 <= i < |ss| && e in ss[i].entries && ss[i].date == StartOfDay(e.date))
      && (forall e, i, j :: 0 <= i < |ss| && 0 <= j < |ss| && e in ss[i].entries && e in ss[j].entries
            ==> i == j)
  {
    var ks := DayKeys(es);
    var ss := GroupByDay(es);
    GroupByDaySections(es);
    forall e | e in es
      ensures exists i :: 0 <= i < |ss| && e in ss[i].entries && ss[i].date == StartOfDay(e.date)
    {
      var j :| 0 <= j < |es| && es[j] == e;
      assert HasEntryOn(es, StartOfDay(e.date));
      var i :| 0 <= i < |ks| && ks[i] == StartOfDay(e.date);
      assert multiset(ss[i].entries)[e] == multiset(es)[e] > 0;
    }
  }

  /** The section totals of sections that carry their own totals add up to the total of their entries. */
  lemma {:induction false} SectionsTotalFlatten(ss: seq<DayModel>)
    requires forall i :: 0 <= i < |ss| ==> ss[i].totalCalories == TotalCalories(ss[i].entries)
    ensures SectionsTotal(ss) == TotalCalories(Flatten(ss))
  {
    if ss != [] {
      SectionsTotalFlatten(ss[1..]);
      TotalCaloriesAppend(ss[0].entries, Flatten(ss[1..]));
    }
  }

  /** No calorie is lost or counted twice by grouping. */
  lemma GroupByDayConservation(es: seq<FoodModel>)
    ensures SectionsTotal(GroupByDay(es)) == TotalCalories(es)
  {
    GroupByDaySections(es);
    SectionsTotalFlatten(GroupByDay(es));
    GroupByDayPermutation(es);
    TotalCaloriesPermutation(Flatten(GroupByDay(es)), es);
  }

  // ---------------------------------------------------------------- regroup

  /** Two lists of days kept most recent first without repeats are equal when they hold the same days. */
  lemma {:induction false} DescendingUnique(a: seq<int>, b: seq<int>)
    requires StrictlyDescending(a) && StrictlyDescending(b)
    requires forall k :: k in a <==> k in b
    ensures a == b
  {
    if a != [] && b != [] {
      assert a[0] in b && b[0] in a;
      assert a[0] == b[0];
      forall k
        ensures k in a[1..] <==> k in b[1..]
      {
        assert k in a[1..] <==> k in a && k != a[0];
        assert k in b[1..] <==> k in b && k != b[0];
      }
      DescendingUnique(a[1..], b[1..]);
      assert a == [a[0]] + a[1..] && b == [b[0]] + b[1..];
    }
    if a != [] {
      assert a[0] in a;
    }
    if b != [] {
      assert b[0] in b;
    }
  }

  /** A section holds entries of `es` on its own day only. */
  lemma SectionEntries(es: seq<FoodModel>, day: int)
    ensures forall e :: e in Section(es, day).entries ==> e in es && StartOfDay(e.date) == day
  {
    var b := EntriesOn(es, day);
    forall e | e in Section(es, day).entries
      ensures e in b
    {
      assert multiset(Section(es, day).entries)[e] > 0;
    }
  }

  /** The bucket of `day` in one section is the whole section or nothing. */
  lemma EntriesOnSection(es: seq<FoodModel>, k: int, day: int)
    ensures EntriesOn(Section(es, k).entries, day) == if day == k then Section(es, k).entries else []
  {
    SectionEntries(es, k);
    EntriesOnOneDay(Section(es, k).entries, k, day);
  }

  /** The tail of a descending list is descending and does not hold its head. */
  lemma DescendingTail(days: seq<int>)
    requires StrictlyDescending(days) && days != []
    ensures StrictlyDescending(days[1..]) && days[0] !in days[1..]
  {
    assert forall i :: 0 <= i < |days| - 1 ==> days[1..][i] == days[i + 1];
  }

  /** The bucket of `day` in the flattened sections of `days`. */
  lemma {:induction false} EntriesOnFlatten(es: seq<FoodModel>, days: seq<int>, day: int)
    requires StrictlyDescending(days)
    ensures EntriesOn(Flatten(SectionsFor(es, days)), day)
         == if day in days then SortByDate(EntriesOn(es, day)) else []
  {
    if days != [] {
      var k := days[0];
      var s := Section(es, k);
      var rest := Flatten(SectionsFor(es, days[1..]));
      DescendingTail(days);
      SectionsForCons(es, days);
      FlattenCons(s, SectionsFor(es, days[1..]));
      EntriesOnAppend(s.entries, rest, day);
      EntriesOnSection(es, k, day);
      EntriesOnFlatten(es, days[1..], day);
      assert EntriesOn(Flatten(SectionsFor(es, days)), day)
          == EntriesOn(s.entries, day) + EntriesOn(rest, day);
      assert day in days <==> day == k || day in days[1..];
      if day == k {
        assert EntriesOn(rest, day) == [];
      } else {
        assert EntriesOn(s.entries, day) == [];
      }
    }
  }

  /** Lists with the same entries have the same day keys. */
  lemma DayKeysOfPermutation(a: seq<FoodModel>, b: seq<FoodModel>)
    requires multiset(a) == multiset(b)
    ensures DayKeys(a) == DayKeys(b)
  {
    forall k
      ensures HasEntryOn(a, k) ==> HasEntryOn(b, k)
      ensures HasEntryOn(b, k) ==> HasEntryOn(a, k)
    {
      if HasEntryOn(a, k) {
        var i :| 0 <= i < |a| && StartOfDay(a[i].date) == k;
        assert a[i] in multiset(b);
        var j :| 0 <= j < |b| && b[j] == a[i];
      }
      if HasEntryOn(b, k) {
        var j :| 0 <= j < |b| && StartOfDay(b[j].date) == k;
        assert b[j] in multiset(a);
        var i :| 0 <= i < |a| && a[i] == b[j];
      }
    }
    DescendingUnique(DayKeys(a), DayKeys(b));
  }

  /** Regrouping leaves the section of each day as it was. */
  lemma SectionRegroup(es: seq<FoodModel>, day: int)
    requires day in DayKeys(es)
    ensures Section(Flatten(GroupByDay(es)), day) == Section(es, day)
  {
    EntriesOnFlatten(es, DayKeys(es), day);
    SortByDateOfSorted(SortByDate(EntriesOn(es, day)));
  }

  /** Grouping the flattened sections again gives the same sections. */
  lemma GroupByDayRegroup(es: seq<FoodModel>)
    ensures GroupByDay(Flatten(GroupByDay(es))) == GroupByDay(es)
  {
    var ks := DayKeys(es);
    var flat := Flatten(GroupByDay(es));
    GroupByDayPermutation(es);
    DayKeysOfPermutation(flat, es);
    forall i | 0 <= i < |ks|
      ensures SectionsFor(flat, ks)[i] == SectionsFor(es, ks)[i]
    {
      SectionRegroup(es, ks[i]);
    }
  }

  // ------------------------------------------------------------------ today

  lemma {:induction false} TodaySectionFor(es: seq<FoodModel>, days: seq<int>, now: int)
    requires forall k :: k in days ==> StartOfDay(k) == k
    ensures TodaySection(SectionsFor(es, days), now)
         == if StartOfDay(now) in days then Some(Section(es, StartOfDay(now))) else None
  {
    if days != [] {
      SectionsForCons(es, days);
      assert ([Section(es, days[0])] + SectionsFor(es, days[1..]))[1..] == SectionsFor(es, days[1..]);
      assert days[0] in days;
      TodaySectionFor(es, days[1..], now);
    }
  }

  /** Every day key is the start of a day. */
  lemma DayKeysAreStarts(es: seq<FoodModel>)
    ensures forall k :: k in DayKeys(es) ==> StartOfDay(k) == k
  {
    forall k | k in DayKeys(es)
      ensures StartOfDay(k) == k
    {
      var j :| 0 <= j < |es| && StartOfDay(es[j].date) == k;
      StartOfDayIdempotent(es[j].date);
    }
  }

  /** A day has a non-empty bucket exactly when it is one of the day keys. */
  lemma BucketIffKey(es: seq<FoodModel>, day: int)
    ensures EntriesOn(es, day) != [] <==> day in DayKeys(es)
  {
    var bucket := EntriesOn(es, day);
    if bucket != [] {
      assert bucket[0] in bucket;
      var j :| 0 <= j < |es| && es[j] == bucket[0];
      assert HasEntryOn(es, day);
    }
    if day in DayKeys(es) {
      var j :| 0 <= j < |es| && StartOfDay(es[j].date) == day;
      assert es[j] in bucket;
    }
  }

  /**
   * Today's section, found among the sections, holds the calorie service's
   * today entries sorted by date and their total; there is none exactly when
   * no entry is dated today.
   */
  lemma TodaySectionMatchesService(es: seq<FoodModel>, now: int)
    ensures var t := TodaySection(GroupByDay(es), now);
      && (t == None <==> TodayEntries(es, now) == [])
      && (t != None ==>
            && t.value.entries == SortByDate(TodayEntries(es, now))
            && t.value.totalCalories == TotalCalories(TodayEntries(es, now)))
  {
    var today := StartOfDay(now);
    DayKeysAreStarts(es);
    TodaySectionFor(es, DayKeys(es), now);
    TodayEntriesIsBucket(es, now);
    BucketIffKey(es, today);
    var bucket := EntriesOn(es, today);
    TotalCaloriesPermutation(SortByDate(bucket), bucket);
  }
}
