/**
 * The task record, the status normaliser that upgrades legacy records, the two
 * sort keys (`dueMs`, `priorityRank`) and the status state machine.
 */
module Tasks {
  import opened Wrappers
  import opened Seqs
  import opened Text
  import opened Parsers

  datatype Status = Todo | Pending | Done

  /** The `due` field as the engine reads it: empty (no deadline), present but
      not a valid date, or a valid instant in epoch milliseconds. */
  datatype Due = Empty | Invalid | At(ms: int)

  /** A stored task. `status` is `None` on legacy records that only carry
      `done`; `createdAt` and `remindedAt` are `None` when absent or null. */
  datatype Task = Task(
    id: string,
    title: string,
    category: string,
    priority: string,
    due: Due,
    tags: seq<string>,
    reminderMin: int,
    note: string,
    subtasks: seq<string>,
    done: bool,
    status: Option<Status>,
    createdAt: Option<int>,
    remindedAt: Option<int>)

  /** The raw values of the task form, with the date input already parsed. */
  datatype TaskForm = TaskForm(
    title: string,
    category: string,
    priority: string,
    due: Due,
    tags: string,
    reminderMin: int,
    note: string,
    subtasks: string)

  /** A number or plus infinity: the values `dueMs` can return. */
  datatype Key = Finite(n: int) | Infinite

  const DEFAULT_CATEGORY := "Études"
  const DEFAULT_PRIORITY := "Normale"

  /** `status` is set and `done` holds exactly when the status is done. */
  predicate Consistent(t: Task) {
    t.status.Some? && t.done == (t.status == Some(Done))
  }

  /** `normalizeStatus`: a missing status is derived from `done`; a done or todo
      status then forces `done`; a pending status leaves `done` as it was. */
  function Normalize(t: Task): (r: Task)
    ensures r.status.Some?
    ensures t.status.None? ==> r.status == Some(if t.done then Done else Todo)
    ensures t.status.Some? ==> r.status == t.status
    ensures r.status == Some(Done) ==> r.done
    ensures r.status == Some(Todo) ==> !r.done
    ensures r.status == Some(Pending) ==> r.done == t.done
    ensures r == t.(status := r.status, done := r.done)
  {
    var t1 := if t.status.None? then t.(status := Some(if t.done then Done else Todo)) else t;
    if t1.status == Some(Done) then t1.(done := true)
    else if t1.status == Some(Todo) then t1.(done := false)
    else t1
  }

  /** Normalising twice is normalising once. */
  lemma NormalizeIdempotent(t: Task)
    ensures Normalize(Normalize(t)) == Normalize(t)
  {
  }

  /** A consistent record is already normal. */
  lemma NormalizeConsistent(t: Task)
    requires Consistent(t)
    ensures Normalize(t) == t
  {
  }

  /** `dueMs`: the instant of a valid due date; no deadline and an unparseable
      date both count as infinitely far. */
  function DueMs(d: Due): (k: Key)
    ensures k.Finite? <==> d.At?
    ensures k.Finite? ==> k.n == d.ms
  {
    match d
    case At(ms) => Finite(ms)
    case _ => Infinite
  }

  /** `priorityRank`: Urgente 4, Haute 3, Normale 2, Basse 1, anything else 0. */
  function PriorityRank(p: string): (r: int)
    ensures 0 <= r <= 4
    ensures r == 0 <==> p !in {"Urgente", "Haute", "Normale", "Basse"}
    ensures p == "Urgente" ==> r == 4
    ensures p == "Haute" ==> r == 3
    ensures p == "Normale" ==> r == 2
    ensures p == "Basse" ==> r == 1
  {
    if p == "Urgente" then 4
    else if p == "Haute" then 3
    else if p == "Normale" then 2
    else if p == "Basse" then 1
    else 0
  }

  /** The order `priority_desc` sorts by: Urgente, Haute, Normale, Basse, then
      every other value. */
  lemma PriorityOrder(other: string)
    requires other !in {"Urgente", "Haute", "Normale", "Basse"}
    ensures PriorityRank("Urgente") > PriorityRank("Haute") > PriorityRank("Normale")
      > PriorityRank("Basse") > PriorityRank(other)
  {
  }

  /** The status cycle todo -> pending -> done -> todo. */
  function Next(s: Status): Status {
    match s
    case Todo => Pending
    case Pending => Done
    case Done => Todo
  }

  /** The reminder is armed again when the new status is not done and the task
      has both a lead time and a due value. */
  predicate Rearms(t: Task) {
    t.status != Some(Done) && t.reminderMin > 0 && t.due != Empty
  }

  /** The record change made by `cycleStatus` on the task it finds. */
  function Cycle(t: Task): (r: Task)
    ensures r.status == Some(Next(Normalize(t).status.value))
    ensures Consistent(r)
    ensures r.remindedAt == if Rearms(r) then None else t.remindedAt
    ensures r == t.(status := r.status, done := r.done, remindedAt := r.remindedAt)
  {
    var n := Normalize(t);
    var st := if n.status == Some(Todo) then Pending
              else if n.status == Some(Pending) then Done
              else Todo;
    var c := n.(status := Some(st), done := st == Done);
    if c.status != Some(Done) && c.reminderMin > 0 && c.due != Empty then c.(remindedAt := None) else c
  }

  /** Three cycles bring back the status; a consistent record comes back whole
      except, possibly, for its reminder marker. */
  lemma CycleThrice(t: Task)
    ensures Cycle(Cycle(Cycle(t))).status == Normalize(t).status
    ensures Consistent(t) ==> Cycle(Cycle(Cycle(t))).(remindedAt := t.remindedAt) == t
  {
    var c1 := Cycle(t);
    var c2 := Cycle(c1);
    var c3 := Cycle(c2);
    NormalizeConsistent(c1);
    NormalizeConsistent(c2);
  }

  /** The record change made by `toggleDone` with the checkbox state `checked`. */
  function Toggle(t: Task, checked: bool): (r: Task)
    ensures r.done == checked && r.status == Some(if checked then Done else Todo)
    ensures r.status != Some(Pending) && Consistent(r)
    ensures r.remindedAt == if Rearms(r) then None else t.remindedAt
    ensures r == t.(status := r.status, done := r.done, remindedAt := r.remindedAt)
  {
    var u := t.(done := checked);
    var v := u.(status := Some(if u.done then Done else Todo));
    if !v.done && v.reminderMin > 0 && v.due != Empty then v.(remindedAt := None) else v
  }

  /** `tasks.find(x => x.id === id)`, as a position: the first task with that id. */
  function FindIndex(s: seq<Task>, id: string): (r: Option<nat>)
    ensures r.None? <==> forall j :: 0 <= j < |s| ==> s[j].id != id
    ensures r.Some? ==> r.value < |s| && s[r.value].id == id
    ensures r.Some? ==> forall j :: 0 <= j < r.value ==> s[j].id != id
  {
    if s == [] then None
    else if s[0].id == id then Some(0)
    else match FindIndex(s[1..], id)
      case None => None
      case Some(i) => Some(i + 1)
  }

  predicate HasId(s: seq<Task>, id: string) {
    exists i :: 0 <= i < |s| && s[i].id == id
  }

  /** No two stored tasks share an id. */
  predicate UniqueIds(s: seq<Task>) {
    forall i, j :: 0 <= i < j < |s| ==> s[i].id != s[j].id
  }

  /** Removing tasks keeps ids unique. */
  lemma {:induction false} FilterUniqueIds(p: Task -> bool, s: seq<Task>)
    requires UniqueIds(s)
    ensures UniqueIds(Filter(p, s))
  {
    if s != [] {
      UniqueIdsTail(s);
      FilterUniqueIds(p, s[1..]);
      FilterHead(p, s);
      if p(s[0]) {
        FilterHasId(p, s[1..], s[0].id);
        ConsUniqueIds(s[0], Filter(p, s[1..]));
      }
    }
  }

  /** A filtered list has only ids the list had. */
  lemma FilterHasId(p: Task -> bool, s: seq<Task>, id: string)
    ensures HasId(Filter(p, s), id) ==> HasId(s, id)
  {
    var r := Filter(p, s);
    if HasId(r, id) {
      var j :| 0 <= j < |r| && r[j].id == id;
      assert r[j] in s;
      var k :| 0 <= k < |s| && s[k] == r[j];
    }
  }

  /** A task whose id is new can go in front of a list with unique ids. */
  lemma ConsUniqueIds(x: Task, r: seq<Task>)
    requires UniqueIds(r) && !HasId(r, x.id)
    ensures UniqueIds([x] + r)
  {
    var u := [x] + r;
    forall i, j | 0 <= i < j < |u| ensures u[i].id != u[j].id {
      assert u[j] == r[j - 1];
      if i > 0 {
        assert u[i] == r[i - 1];
      }
    }
  }

  /** Rewriting tasks without touching their ids keeps ids unique. */
  lemma MapUniqueIds(f: Task -> Task, s: seq<Task>)
    requires forall t :: f(t).id == t.id
    requires UniqueIds(s)
    ensures UniqueIds(Map(f, s))
  {
  }

  /** Appending a task with a fresh id keeps ids unique. */
  lemma AppendUniqueIds(s: seq<Task>, t: Task)
    requires UniqueIds(s) && !HasId(s, t.id)
    ensures UniqueIds(s + [t])
  {
  }

  /** The record `addTask` builds from the form: trimmed title and note, parsed
      tags and subtasks, the default category and priority for empty choices,
      status todo, not done, created now and never reminded. */
  function NewTask(f: TaskForm, id: string, now: int): (t: Task)
    ensures Consistent(t) && t.status == Some(Todo)
    ensures t.id == id && t.createdAt == Some(now) && t.remindedAt == None
    ensures t.category == if f.category == [] then DEFAULT_CATEGORY else f.category
    ensures t.priority == if f.priority == [] then DEFAULT_PRIORITY else f.priority
    ensures t.category != [] && t.priority != []
    ensures t.title == Trim(f.title) && t.note == Trim(f.note)
    ensures t.tags == ParseTags(f.tags) && t.subtasks == ParseSubtasks(f.subtasks)
    ensures t.due == f.due && t.reminderMin == f.reminderMin
    ensures |t.tags| <= MAX_TAGS && |t.subtasks| <= MAX_SUBTASKS
  {
    Task(
      id := id,
      title := Trim(f.title),
      category := if f.category == [] then DEFAULT_CATEGORY else f.category,
      priority := if f.priority == [] then DEFAULT_PRIORITY else f.priority,
      due := f.due,
      tags := ParseTags(f.tags),
      reminderMin := f.reminderMin,
      note := Trim(f.note),
      subtasks := ParseSubtasks(f.subtasks),
      done := false,
      status := Some(Todo),
      createdAt := Some(now),
      remindedAt := None)
  }

  /** The first example task of the demo button. */
  function DemoRevision(id: string, now: int): Task {
    Task(
      id := id,
      title := "Révision – analyse de projet",
      category := "Études",
      priority := "Haute",
      due := Empty,
      tags := ["révision", "unistra"],
      reminderMin := 0,
      note := "Faire un plan + exemples",
      subtasks := ["analyse de projet", "communication", "wordpress"],
      done := false,
      status := Some(Todo),
      createdAt := Some(now + 1),
      remindedAt := None)
  }

  /** The second example task of the demo button. */
  function DemoFeedback(id: string, now: int): Task {
    Task(
      id := id,
      title := "Préparer feedback (contact)",
      category := "Admin",
      priority := "Normale",
      due := Empty,
      tags := ["feedback", "ui"],
      reminderMin := 0,
      note := "Vérifier texte 24–48h",
      subtasks := ["relire", "tester", "publier"],
      done := false,
      status := Some(Pending),
      createdAt := Some(now + 2),
      remindedAt := None)
  }

  /** A task that is not done: what clear-completed keeps. */
  predicate IsOpen(t: Task) {
    t.status != Some(Done)
  }

  /** The list clear-completed saves: every task normalised, the done ones
      dropped, the rest in order. */
  function KeepOpen(s: seq<Task>): (r: seq<Task>)
    ensures forall t :: t in r <==> t in Map(Normalize, s) && t.status != Some(Done)
  {
    Filter(IsOpen, Map(Normalize, s))
  }

  /** Tasks whose id differs from `id`: what `deleteTask` keeps. */
  function IdIsNot(id: string): Task -> bool {
    (t: Task) => t.id != id
  }

  /** The tail of a list with unique ids has unique ids, none of them the
      head's. */
  lemma UniqueIdsTail(s: seq<Task>)
    requires UniqueIds(s) && s != []
    ensures UniqueIds(s[1..]) && !HasId(s[1..], s[0].id)
  {
    var t := s[1..];
    forall i, j | 0 <= i < j < |t| ensures t[i].id != t[j].id {
      assert t[i] == s[i + 1] && t[j] == s[j + 1];
    }
    forall j | 0 <= j < |t| ensures t[j].id != s[0].id {
      assert t[j] == s[j + 1];
    }
  }

  /** An id other than the head's occurs in the list iff it occurs in the tail. */
  lemma HasIdTail(s: seq<Task>, id: string)
    requires s != [] && s[0].id != id
    ensures HasId(s, id) <==> HasId(s[1..], id)
  {
    if HasId(s, id) {
      var j :| 0 <= j < |s| && s[j].id == id;
      assert s[1..][j - 1].id == id;
    }
    if HasId(s[1..], id) {
      var j :| 0 <= j < |s| - 1 && s[1..][j].id == id;
      assert s[j + 1].id == id;
    }
  }

  /** A list without `id` loses nothing when `id` is deleted. */
  lemma DeleteAbsent(s: seq<Task>, id: string)
    requires !HasId(s, id)
    ensures Filter(IdIsNot(id), s) == s
  {
    forall x | x in s ensures IdIsNot(id)(x) {
      var j :| 0 <= j < |s| && s[j] == x;
    }
    FilterKeepsAll(IdIsNot(id), s);
  }

  /** With unique ids, deleting an id removes exactly one task if it is
      present and none otherwise. */
  lemma {:induction false} DeleteCount(s: seq<Task>, id: string)
    requires UniqueIds(s)
    ensures |Filter(IdIsNot(id), s)| == if HasId(s, id) then |s| - 1 else |s|
  {
    if s != [] {
      var t := s[1..];
      UniqueIdsTail(s);
      assert s == [s[0]] + t;
      FilterCons(IdIsNot(id), s[0], t);
      if s[0].id == id {
        DeleteAbsent(t, id);
        assert HasId(s, id);
      } else {
        DeleteCount(t, id);
        HasIdTail(s, id);
      }
    }
  }
}
