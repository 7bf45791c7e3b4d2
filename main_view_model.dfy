/**
 * The main screen's view model: published UI state plus the entry store.
 *
 * The persistent `ModelContext` is the `store` field, a sequence of entries
 * with unique ids; saving always succeeds. The clock and the UUID generator
 * are the `now` and `freshId` parameters of the operations that need them.
 *
 * Entries are objects in the app, so an edit made through `editingEntry` is
 * seen by every holder of that entry: the store, the cached `todayEntries`
 * and `sections`, and `entryToDelete`. The edit functions below apply it by id
 * to each holder.
 */
module MainScreen {
  import opened Wrappers
  import opened Models
  import opened Calendar
  import opened Text
  import opened CalorieService
  import opened DayGrouping

  // ------------------------------------------------- editing an entry in place

  /** `e` after the entry with identifier `id` got a new title and calorie count. */
  function Edited(e: FoodModel, id: Uuid, title: string, calories: int): FoodModel
  {
    if e.id == id then e.(title := title, calories := calories) else e
  }

  function EditedAll(s: seq<FoodModel>, id: Uuid, title: string, calories: int): seq<FoodModel>
  {
    seq(|s|, i requires 0 <= i < |s| => Edited(s[i], id, title, calories))
  }

  function EditedOption(o: Option<FoodModel>, id: Uuid, title: string, calories: int): Option<FoodModel>
  {
    if o.Some? then Some(Edited(o.value, id, title, calories)) else None
  }

  function EditedSections(ss: seq<DayModel>, id: Uuid, title: string, calories: int): seq<DayModel>
  {
    seq(|ss|, i requires 0 <= i < |ss| =>
      ss[i].(entries := EditedAll(ss[i].entries, id, title, calories)))
  }

  /**
   * In a store with unique ids, editing the entry at `i` changes that entry's
   * title and calories and nothing else; editing an absent id changes nothing.
   */
  lemma EditedAllExact(s: seq<FoodModel>, id: Uuid, title: string, calories: int)
    requires UniqueIds(s)
    ensures UniqueIds(EditedAll(s, id, title, calories))
    ensures FreshId(s, id) ==> EditedAll(s, id, title, calories) == s
    ensures forall i :: 0 <= i < |s| && s[i].id == id ==>
      EditedAll(s, id, title, calories) == s[i := s[i].(title := title, calories := calories)]
  {
  }

  /** The store after `context.delete` of the entry with identifier `id`. */
  function RemoveId(s: seq<FoodModel>, id: Uuid): seq<FoodModel>
  {
    if s == [] then []
    else if s[0].id == id then RemoveId(s[1..], id)
    else [s[0]] + RemoveId(s[1..], id)
  }

  /** Deleting keeps exactly the entries with another id. */
  lemma {:induction false} RemoveIdMembers(s: seq<FoodModel>, id: Uuid)
    ensures forall e :: e in RemoveId(s, id) <==> e in s && e.id != id
  {
    if s != [] {
      RemoveIdMembers(s[1..], id);
      assert s == [s[0]] + s[1..];
    }
  }

  /** Deleting keeps the ids of the store unique. */
  lemma {:induction false} RemoveIdUnique(s: seq<FoodModel>, id: Uuid)
    requires UniqueIds(s)
    ensures UniqueIds(RemoveId(s, id))
  {
    if s != [] {
      var t := s[1..];
      assert UniqueIds(t) by {
        assert forall j :: 0 <= j < |t| ==> t[j] == s[j + 1];
      }
      RemoveIdUnique(t, id);
      RemoveIdMembers(t, id);
      var rest := RemoveId(t, id);
      if s[0].id != id {
        forall j | 0 <= j < |rest|
          ensures rest[j].id != s[0].id
        {
          assert rest[j] in t;
        }
      }
    }
  }

  /** Deleting an id that no entry has changes nothing. */
  lemma {:induction false} RemoveAbsentId(s: seq<FoodModel>, id: Uuid)
    requires FreshId(s, id)
    ensures RemoveId(s, id) == s
  {
    if s != [] {
      assert FreshId(s[1..], id) by {
        assert forall j :: 0 <= j < |s[1..]| ==> s[1..][j] == s[j + 1];
      }
      RemoveAbsentId(s[1..], id);
      assert s == [s[0]] + s[1..];
    }
  }

  /** Deleting distributes over concatenation. */
  lemma {:induction false} RemoveIdAppend(a: seq<FoodModel>, b: seq<FoodModel>, id: Uuid)
    ensures RemoveId(a + b, id) == RemoveId(a, id) + RemoveId(b, id)
  {
    if a == [] {
      assert a + b == b;
    } else {
      assert (a + b)[0] == a[0];
      assert (a + b)[1..] == a[1..] + b;
      RemoveIdAppend(a[1..], b, id);
    }
  }

  /** With unique ids, no other entry shares the id of the entry at `i`. */
  lemma UniqueAround(s: seq<FoodModel>, i: nat)
    requires UniqueIds(s) && i < |s|
    ensures FreshId(s[..i], s[i].id) && FreshId(s[i + 1..], s[i].id)
  {
    assert forall j :: 0 <= j < i ==> s[j].id != s[i].id;
    assert forall j :: i < j < |s| ==> s[j].id != s[i].id;
  }

  /** Deleting the only entry with identifier `id` leaves the entries around it. */
  lemma RemoveIdAt(s: seq<FoodModel>, id: Uuid, i: nat)
    requires i < |s| && s[i].id == id && FreshId(s[..i], id) && FreshId(s[i + 1..], id)
    ensures RemoveId(s, id) == s[..i] + s[i + 1..]
  {
    var a, b := s[..i], s[i + 1..];
    assert a + [s[i]] == s[..i + 1];
    assert s[..i + 1] + b == s;
    calc {
      RemoveId(s, id);
      RemoveId(s[..i + 1] + b, id);
      { RemoveIdAppend(s[..i + 1], b, id); }
      RemoveId(a + [s[i]], id) + RemoveId(b, id);
      { RemoveIdAppend(a, [s[i]], id); }
      RemoveId(a, id) + RemoveId([s[i]], id) + RemoveId(b, id);
      { assert [s[i]][1..] == []; RemoveAbsentId(a, id); RemoveAbsentId(b, id); }
      a + b;
    }
  }

  /**
   * In a store with unique ids, deleting the id of the entry at `i` removes
   * exactly that entry and keeps the others in order.
   */
  lemma RemoveIdExact(s: seq<FoodModel>, id: Uuid, i: nat)
    requires UniqueIds(s) && i < |s| && s[i].id == id
    ensures RemoveId(s, id) == s[..i] + s[i + 1..]
  {
    UniqueAround(s, i);
    RemoveIdAt(s, id, i);
  }

  /**
   * What submitting the text field yields: nothing for a blank line,
   * otherwise the parse of the trimmed line. The blank check never changes
   * the outcome, since an empty line has no token and never parses.
   */
  function Submitted(inputText: string): (r: Option<(string, int)>)
    ensures r == ParseInput(Trim(inputText))
    ensures IsBlank(inputText) ==> r == None
  {
    var trimmed := Trim(inputText);
    if trimmed == [] then None else ParseInput(trimmed)
  }

  // ------------------------------------------------------------ view model

  class MainViewModel {
    var inputText: string
    var showDeleteAlert: bool
    var entryToDelete: Option<FoodModel>
    var showDuplicateAlert: bool
    var pendingTitle: string
    var pendingCalories: int
    var showEditSheet: bool
    var editingEntry: Option<FoodModel>
    var editingTitle: string
    var editingCalories: int
    var isCreatingNew: bool
    var todayEntries: seq<FoodModel>
    var sections: seq<DayModel>
    var totalCalories: int
    var progress: real
    /** The entries of the persistent store. */
    var store: seq<FoodModel>

    /** The store keeps its ids unique. */
    ghost predicate Valid()
      reads this`store
    {
      UniqueIds(store)
    }

    /** A view model over the entries already persisted, with every published field at its initial value. */
    constructor (persisted: seq<FoodModel>)
      requires UniqueIds(persisted)
      ensures Valid() && store == persisted
      ensures inputText == "" && !showDeleteAlert && entryToDelete == None
      ensures !showDuplicateAlert && pendingTitle == "" && pendingCalories == 0
      ensures !showEditSheet && editingEntry == None && editingTitle == "" && editingCalories == 0
      ensures !isCreatingNew && todayEntries == [] && sections == [] && totalCalories == 0 && progress == 0.0
    {
      inputText := "";
      showDeleteAlert := false;
      entryToDelete := None;
      showDuplicateAlert := false;
      pendingTitle := "";
      pendingCalories := 0;
      showEditSheet := false;
      editingEntry := None;
      editingTitle := "";
      editingCalories := 0;
      isCreatingNew := false;
      todayEntries := [];
      sections := [];
      totalCalories := 0;
      progress := 0.0;
      store := persisted;
    }

    /**
     * Publishes the day sections of `allEntries` and today's entries, total
     * and progress. Today's entries are the calorie service's today entries
     * sorted by date, and today's total is theirs.
     */
    method UpdateEntries(allEntries: seq<FoodModel>, now: int)
      modifies this`sections, this`todayEntries, this`totalCalories, this`progress
      ensures sections == GroupByDay(allEntries)
      ensures todayEntries == SortByDate(TodayEntries(allEntries, now))
      ensures totalCalories == TotalCalories(TodayEntries(allEntries, now))
      ensures progress == Progress(totalCalories, DailyGoal)
    {
      var sortedSections := GroupByDay(allEntries);
      sections := sortedSections;
      var todaySection := TodaySection(sortedSections, now);
      TodaySectionMatchesService(allEntries, now);
      if todaySection.Some? {
        todayEntries := todaySection.value.entries;
        totalCalories := todaySection.value.totalCalories;
      } else {
        todayEntries := [];
        totalCalories := 0;
      }
      progress := Progress(totalCalories, DailyGoal);
    }

    /** Opens the sheet on a blank new entry. */
    method StartCreating()
      modifies this`isCreatingNew, this`editingEntry, this`editingTitle, this`editingCalories,
               this`showEditSheet
      ensures isCreatingNew && editingEntry == None && editingTitle == "" && editingCalories == 0
      ensures showEditSheet
    {
      isCreatingNew := true;
      editingEntry := None;
      editingTitle := "";
      editingCalories := 0;
      showEditSheet := true;
    }

    /** Opens the sheet on `entry`, with its title and calories to edit. */
    method StartEditing(entry: FoodModel)
      modifies this`isCreatingNew, this`editingEntry, this`editingTitle, this`editingCalories,
               this`showEditSheet
      ensures !isCreatingNew && editingEntry == Some(entry)
      ensures editingTitle == entry.title && editingCalories == entry.calories
      ensures showEditSheet
    {
      isCreatingNew := false;
      editingEntry := Some(entry);
      editingTitle := entry.title;
      editingCalories := entry.calories;
      showEditSheet := true;
    }

    /**
     * Closes the sheet. When an existing entry is being edited, its title and
     * calories take the sheet's values wherever the entry is held; otherwise
     * one new entry with the sheet's values is inserted.
     */
    method SaveFromSheet(imageData: Option<Bytes>, freshId: Uuid, now: int)
      requires Valid() && FreshId(store, freshId)
      modifies this`store, this`editingEntry, this`entryToDelete, this`todayEntries, this`sections,
               this`showEditSheet, this`isCreatingNew
      ensures Valid()
      ensures !showEditSheet && !isCreatingNew
      ensures old(editingEntry.Some? && !isCreatingNew) ==>
        var id := old(editingEntry.value.id);
        var title := old(editingTitle);
        var calories := old(editingCalories);
        && |store| == |old(store)|
        && store == EditedAll(old(store), id, title, calories)
        && editingEntry == EditedOption(old(editingEntry), id, title, calories)
        && entryToDelete == EditedOption(old(entryToDelete), id, title, calories)
        && todayEntries == EditedAll(old(todayEntries), id, title, calories)
        && sections == EditedSections(old(sections), id, title, calories)
      ensures !old(editingEntry.Some? && !isCreatingNew) ==>
        && store == old(store) + [MakeEntry(freshId, old(editingTitle), old(editingCalories), imageData, freshId, now)]
        && editingEntry == old(editingEntry)
        && entryToDelete == old(entryToDelete)
        && todayEntries == old(todayEntries)
        && sections == old(sections)
    {
      if editingEntry.Some? && !isCreatingNew {
        var id := editingEntry.value.id;
        EditedAllExact(store, id, editingTitle, editingCalories);
        store := EditedAll(store, id, editingTitle, editingCalories);
        editingEntry := EditedOption(editingEntry, id, editingTitle, editingCalories);
        entryToDelete := EditedOption(entryToDelete, id, editingTitle, editingCalories);
        todayEntries := EditedAll(todayEntries, id, editingTitle, editingCalories);
        sections := EditedSections(sections, id, editingTitle, editingCalories);
      } else {
        var entry := MakeEntry(freshId, editingTitle, editingCalories, imageData, freshId, now);
        store := store + [entry];
      }
      showEditSheet := false;
      isCreatingNew := false;
    }

    /**
     * Submits the text field. A blank or unparsable line changes nothing. A
     * parsed line is kept as pending; if today's cached entries already have
     * its title (ignoring case) the duplicate alert is raised, otherwise the
     * entry is added and the text field cleared.
     */
    method HandleAddTapped(imageData: Option<Bytes>, freshId: Uuid, now: int)
      requires Valid() && FreshId(store, freshId)
      modifies this`store, this`inputText, this`pendingTitle, this`pendingCalories,
               this`showDuplicateAlert
      ensures Valid()
      ensures Submitted(old(inputText)).None? ==>
        && store == old(store) && inputText == old(inputText)
        && pendingTitle == old(pendingTitle) && pendingCalories == old(pendingCalories)
        && showDuplicateAlert == old(showDuplicateAlert)
      ensures Submitted(old(inputText)).Some? ==>
        var (title, calories) := Submitted(old(inputText)).value;
        && pendingTitle == title && pendingCalories == calories
        && (HasDuplicate(title, old(todayEntries)) ==>
              && showDuplicateAlert && store == old(store) && inputText == old(inputText))
        && (!HasDuplicate(title, old(todayEntries)) ==>
              && showDuplicateAlert == old(showDuplicateAlert)
              && store == old(store) + [MakeEntry(freshId, title, calories, imageData, freshId, now)]
              && inputText == "")
    {
      var trimmed := Trim(inputText);
      if trimmed == [] {
        assert Submitted(old(inputText)) == None;
        return;
      }
      var parsed := ParseInput(trimmed);
      assert Submitted(old(inputText)) == parsed;
      if parsed.None? {
        return;
      }
      var (title, calories) := parsed.value;
      pendingTitle := title;
      pendingCalories := calories;
      if HasDuplicate(title, todayEntries) {
        showDuplicateAlert := true;
        assert HasDuplicate(title, old(todayEntries));
      } else {
        assert !HasDuplicate(title, old(todayEntries));
        AddEntry(title, calories, imageData, freshId, now);
      }
    }

    /** Adds the pending entry after the user confirmed the duplicate, and closes the alert. */
    method ConfirmAddDuplicate(imageData: Option<Bytes>, freshId: Uuid, now: int)
      requires Valid() && FreshId(store, freshId)
      modifies this`store, this`inputText, this`showDuplicateAlert
      ensures Valid()
      ensures store == old(store) + [MakeEntry(freshId, pendingTitle, pendingCalories, imageData, freshId, now)]
      ensures inputText == "" && !showDuplicateAlert
    {
      AddEntry(pendingTitle, pendingCalories, imageData, freshId, now);
      showDuplicateAlert := false;
    }

    /** Remembers `entry` and raises the delete alert. */
    method RequestDelete(entry: FoodModel)
      modifies this`entryToDelete, this`showDeleteAlert
      ensures entryToDelete == Some(entry) && showDeleteAlert
    {
      entryToDelete := Some(entry);
      showDeleteAlert := true;
    }

    /**
     * Deletes the remembered entry from the store and closes the alert; with
     * no remembered entry nothing happens.
     */
    method ConfirmDelete()
      requires Valid()
      modifies this`store, this`entryToDelete, this`showDeleteAlert
      ensures Valid()
      ensures old(entryToDelete) == None ==>
        store == old(store) && entryToDelete == None && showDeleteAlert == old(showDeleteAlert)
      ensures old(entryToDelete) != None ==>
        && store == RemoveId(old(store), old(entryToDelete).value.id)
        && entryToDelete == None && !showDeleteAlert
    {
      if entryToDelete.None? {
        return;
      }
      RemoveIdUnique(store, entryToDelete.value.id);
      store := RemoveId(store, entryToDelete.value.id);
      entryToDelete := None;
      showDeleteAlert := false;
    }

    /** Inserts a new entry made now with a fresh id, and clears the text field. */
    method AddEntry(title: string, calories: int, imageData: Option<Bytes>, freshId: Uuid, now: int)
      requires Valid() && FreshId(store, freshId)
      modifies this`store, this`inputText
      ensures Valid()
      ensures store == old(store) + [MakeEntry(freshId, title, calories, imageData, freshId, now)]
      ensures inputText == ""
    {
      var entry := MakeEntry(freshId, title, calories, imageData, freshId, now);
      store := store + [entry];
      inputText := "";
    }
  }
}
