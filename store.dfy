/**
 * The TaskBell store: the saved task list together with the view state of the
 * page (selected task, toolbar filters, search text, sort key). Every handler
 * reads the list, changes it and writes it back, so each one is a method that
 * reassigns `tasks` and the view fields it touches.
 */
module Store {
  import opened Wrappers
  import opened Seqs
  import opened Text
  import opened Tasks
  import opened View
  import opened Reminders
  import opened Progress

  /** What storage holds under the task key: nothing, text that does not
      parse, or a parsed list of records. */
  datatype Stored = Absent | Malformed | Parsed(records: seq<Task>)

  /** `loadTasks`: a missing entry reads as an empty list, and so does one
      that fails to parse. */
  function Load(stored: Stored): (s: seq<Task>)
    ensures stored.Parsed? ==> s == stored.records
    ensures !stored.Parsed? ==> s == []
  {
    match stored
    case Parsed(records) => records
    case _ => []
  }

  /** What `addTask` leaves behind: the old tasks, by id, in their places,
      and the new task last, stamped with the scan instant if its reminder is
      already due. */
  lemma AddedLast(s: seq<Task>, form: TaskForm, id: string, now: int, scanAt: int)
    ensures var r := Scan(s + [NewTask(form, id, now)], scanAt);
      && |r| == |s| + 1
      && (forall i :: 0 <= i < |s| ==> r[i].id == s[i].id)
      && (r[|s|] == NewTask(form, id, now) || r[|s|] == NewTask(form, id, now).(remindedAt := Some(scanAt)))
  {
    var t := NewTask(form, id, now);
    var u := s + [t];
    NormalizeConsistent(t);
    ScanEffect(u, scanAt, |s|);
    var r := Scan(u, scanAt);
    assert Normalize(r[|s|]) == t ==> r[|s|] == t by {
      if FiredIds(u, scanAt) != [] {
        assert r[|s|] == Visit(u[|s|], scanAt);
      }
    }
    forall i | 0 <= i < |s| ensures r[i].id == s[i].id {
      assert u[i] == s[i];
    }
  }

  class TaskBell {
    /** The saved list, in insertion order. */
    var tasks: seq<Task>
    var selectedId: Option<string>
    var filters: Filters
    var search: string
    var sort: string

    /** The page starts with the saved list, nothing selected, every filter at
        "all", no search and the newest tasks first. */
    constructor(stored: Stored)
      ensures tasks == Load(stored) && selectedId == None
      ensures filters == Filters(All, All, All) && search == [] && sort == "created_desc"
    {
      tasks := Load(stored);
      selectedId := None;
      filters := Filters(All, All, All);
      search := [];
      sort := "created_desc";
    }

    /** What the list shows. */
    function Shown(lower: string -> string): seq<Task>
      reads this
    {
      ApplyView(tasks, filters, search, sort, lower)
    }

    /** One turn of the scan loop: the record is normalised, then it fires
        if it is not done, has a due value and a lead time, was never
        reminded, has a parseable due date, and `now` lies in its window. */
    static method VisitRecord(record: Task, now: int) returns (t: Task, fires: bool)
      ensures fires == Firing(record, now)
      ensures t == Visit(record, now)
    {
      t := Normalize(record);
      fires := false;
      if && t.status != Some(Done)
         && t.due != Empty && t.reminderMin != 0
         && !(t.remindedAt.Some? && t.remindedAt.value != 0)
         && t.due.At?
      {
        var remindAt := t.due.ms - t.reminderMin * MINUTE;
        if now >= remindAt && now <= remindAt + GRACE {
          t := t.(remindedAt := Some(now));
          fires := true;
        }
      }
    }

    /** `checkReminders` at instant `now`: every task is normalised in a copy
        of the list, those that fire are stamped with `now` and announced, and
        the copy is saved only if something fired. */
    method CheckReminders(now: int) returns (fired: seq<string>)
      modifies this`tasks
      ensures fired == FiredIds(old(tasks), now)
      ensures tasks == Scan(old(tasks), now)
    {
      var loaded := tasks;
      var work := loaded;
      var changed := false;
      fired := [];
      ScannedNone(loaded, now);
      for i := 0 to |loaded|
        invariant tasks == loaded
        invariant work == ScannedUpTo(loaded, i, now)
        invariant fired == FiredIds(loaded[..i], now)
        invariant changed == (fired != [])
      {
        ScannedStep(loaded, i, now);
        FiredIdsStep(loaded, i, now);
        var t, fires := VisitRecord(work[i], now);
        work := work[i := t];
        if fires {
          changed := true;
          fired := fired + [t.id];
        }
      }
      ScannedAll(loaded, now);
      if changed {
        tasks := work;
      }
    }

    /** `addTask`: a title that is blank once trimmed changes nothing;
        otherwise the new task is appended, selected, and a reminder scan runs
        at `scanAt`. */
    method AddTask(form: TaskForm, id: string, now: int, scanAt: int) returns (added: bool)
      modifies this`tasks, this`selectedId
      ensures added == (Trim(form.title) != [])
      ensures !added ==> tasks == old(tasks) && selectedId == old(selectedId)
      ensures added ==> tasks == Scan(old(tasks) + [NewTask(form, id, now)], scanAt)
      ensures added ==> selectedId == Some(id)
      ensures old(UniqueIds(tasks)) && !old(HasId(tasks, id)) ==> UniqueIds(tasks)
    {
      var title := Trim(form.title);
      if title == [] {
        return false;
      }
      AddRecord(NewTask(form, id, now), scanAt);
      added := true;
    }

    /** The second half of `addTask`, once the record is built: it is saved
        at the end of the list and selected, and a reminder scan runs at
        `scanAt`. */
    method AddRecord(t: Task, scanAt: int)
      modifies this`tasks, this`selectedId
      ensures tasks == Scan(old(tasks) + [t], scanAt)
      ensures selectedId == Some(t.id)
      ensures old(UniqueIds(tasks)) && !old(HasId(tasks, t.id)) ==> UniqueIds(tasks)
    {
      if UniqueIds(tasks) && !HasId(tasks, t.id) {
        AppendScanUniqueIds(tasks, t, scanAt);
      }
      tasks := tasks + [t];
      selectedId := Some(t.id);
      var _ := CheckReminders(scanAt);
    }

    /** The demo button: the two example tasks are appended and the first one
        is selected. */
    method AddDemo(id1: string, id2: string, now: int)
      modifies this`tasks, this`selectedId
      ensures tasks == old(tasks) + [DemoRevision(id1, now), DemoFeedback(id2, now)]
      ensures selectedId == Some(id1)
      ensures old(UniqueIds(tasks)) && id1 != id2 && !old(HasId(tasks, id1)) && !old(HasId(tasks, id2))
        ==> UniqueIds(tasks)
    {
      var demo1 := DemoRevision(id1, now);
      var demo2 := DemoFeedback(id2, now);
      ghost var before := tasks;
      tasks := tasks + [demo1, demo2];
      if UniqueIds(before) && id1 != id2 && !HasId(before, id1) && !HasId(before, id2) {
        AppendUniqueIds(before, demo1);
        assert !HasId(before + [demo1], id2) by {
          assert forall j :: 0 <= j < |before| ==> (before + [demo1])[j] == before[j];
        }
        AppendUniqueIds(before + [demo1], demo2);
        assert before + [demo1] + [demo2] == tasks;
      }
      selectedId := Some(demo1.id);
    }

    /** `deleteTask`: every task with that id goes, the others stay in order;
        the selection is cleared only if it was that id. */
    method DeleteTask(id: string)
      modifies this`tasks, this`selectedId
      ensures tasks == Filter(IdIsNot(id), old(tasks))
      ensures !HasId(tasks, id)
      ensures selectedId == if old(selectedId) == Some(id) then None else old(selectedId)
      ensures old(UniqueIds(tasks)) ==> UniqueIds(tasks)
    {
      ghost var before := tasks;
      tasks := Filter(IdIsNot(id), tasks);
      if UniqueIds(before) {
        FilterUniqueIds(IdIsNot(id), before);
      }
      forall j | 0 <= j < |tasks| ensures tasks[j].id != id {
        assert tasks[j] in tasks;
      }
      if selectedId == Some(id) {
        selectedId := None;
      }
    }

    /** `cycleStatus`: the first task with that id moves to the next status;
        an unknown id changes nothing. */
    method CycleStatus(id: string)
      modifies this`tasks
      ensures FindIndex(old(tasks), id).None? ==> tasks == old(tasks)
      ensures FindIndex(old(tasks), id).Some? ==>
        var i := FindIndex(old(tasks), id).value;
        tasks == old(tasks)[i := Cycle(old(tasks)[i])]
      ensures old(UniqueIds(tasks)) ==> UniqueIds(tasks)
    {
      var found := FindIndex(tasks, id);
      if found.None? {
        return;
      }
      var i := found.value;
      tasks := tasks[i := Cycle(tasks[i])];
    }

    /** `toggleDone`: the first task with that id becomes done or todo as the
        checkbox says; an unknown id changes nothing. */
    method ToggleDone(id: string, checked: bool)
      modifies this`tasks
      ensures FindIndex(old(tasks), id).None? ==> tasks == old(tasks)
      ensures FindIndex(old(tasks), id).Some? ==>
        var i := FindIndex(old(tasks), id).value;
        tasks == old(tasks)[i := Toggle(old(tasks)[i], checked)]
      ensures old(UniqueIds(tasks)) ==> UniqueIds(tasks)
    {
      var found := FindIndex(tasks, id);
      if found.None? {
        return;
      }
      var i := found.value;
      tasks := tasks[i := Toggle(tasks[i], checked)];
    }

    /** The clear-all button. */
    method ClearAll()
      modifies this`tasks, this`selectedId
      ensures tasks == [] && selectedId == None
    {
      tasks := [];
      selectedId := None;
    }

    /** The clear-completed button: the normalised tasks that are not done are
        saved; a selection, when set and not empty, is dropped if no kept task
        has its id. */
    method ClearCompleted()
      modifies this`tasks, this`selectedId
      ensures tasks == KeepOpen(old(tasks))
      ensures forall t :: t in tasks ==> t.status != Some(Done)
      ensures old(selectedId).Some? && old(selectedId).value != [] && !HasId(tasks, old(selectedId).value)
        ==> selectedId == None
      ensures !(old(selectedId).Some? && old(selectedId).value != [] && !HasId(tasks, old(selectedId).value))
        ==> selectedId == old(selectedId)
      ensures old(UniqueIds(tasks)) ==> UniqueIds(tasks)
    {
      ghost var before := tasks;
      var keep := KeepOpen(tasks);
      if UniqueIds(before) {
        MapUniqueIds(Normalize, before);
        FilterUniqueIds(IsOpen, Map(Normalize, before));
      }
      tasks := keep;
      if selectedId.Some? && selectedId.value != [] && FindIndex(keep, selectedId.value).None? {
        selectedId := None;
      }
    }

    /** A click on a list item selects its task; an item without an id is
        ignored. */
    method Select(id: string)
      modifies this`selectedId
      ensures selectedId == if id == [] then old(selectedId) else Some(id)
    {
      if id != [] {
        selectedId := Some(id);
      }
    }

    /** The status select changed to `value`. */
    method SetStatusFilter(value: string)
      modifies this`filters
      ensures filters == old(filters).(status := StatusChoiceOf(value))
    {
      filters := filters.(status := StatusChoiceOf(value));
    }

    /** The priority select changed to `value`. */
    method SetPriorityFilter(value: string)
      modifies this`filters
      ensures filters == old(filters).(priority := ChoiceOf(value))
    {
      filters := filters.(priority := ChoiceOf(value));
    }

    /** The category select changed to `value`. */
    method SetCategoryFilter(value: string)
      modifies this`filters
      ensures filters == old(filters).(category := ChoiceOf(value))
    {
      filters := filters.(category := ChoiceOf(value));
    }

    /** The debounced search box settled on `text`. */
    method SetSearch(text: string)
      modifies this`search
      ensures search == text
    {
      search := text;
    }

    /** The sort select changed to `key`. */
    method SetSort(key: string)
      modifies this`sort
      ensures sort == key
    {
      sort := key;
    }
  }
}
