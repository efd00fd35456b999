/**
 * `applyView`: normalise the stored tasks, keep those that pass the status,
 * priority and category filters and the text search, then sort them stably by
 * the chosen key.
 */
module View {
  import opened Seqs
  import opened Text
  import opened Tasks
  import opened Wrappers

  /** A toolbar filter: "all", or one concrete value. */
  datatype Choice<T> = All | Only(value: T)

  /** The three toolbar filters. A status filter whose value names none of
      the three statuses is `Only(None)`: no normalised task has it. */
  datatype Filters = Filters(status: Choice<Option<Status>>, priority: Choice<string>, category: Choice<string>)

  /** A priority or category select value: the value "all" switches the
      filter off, any other value must match exactly. */
  function ChoiceOf(value: string): (c: Choice<string>)
    ensures c.All? <==> value == "all"
    ensures c.Only? ==> c.value == value
  {
    if value == "all" then All else Only(value)
  }

  /** A status select value. */
  function StatusChoiceOf(value: string): (c: Choice<Option<Status>>)
    ensures c.All? <==> value == "all"
    ensures c == Only(Some(Todo)) <==> value == "todo"
    ensures c == Only(Some(Pending)) <==> value == "pending"
    ensures c == Only(Some(Done)) <==> value == "done"
  {
    if value == "all" then All
    else if value == "todo" then Only(Some(Todo))
    else if value == "pending" then Only(Some(Pending))
    else if value == "done" then Only(Some(Done))
    else Only(None)
  }

  datatype SortMode = CreatedAsc | CreatedDesc | DueAsc | DueDesc | PriorityDesc

  /** The sort select's value; anything unrecognised sorts like `created_desc`. */
  function ModeOf(sort: string): SortMode {
    if sort == "created_asc" then CreatedAsc
    else if sort == "created_desc" then CreatedDesc
    else if sort == "due_asc" then DueAsc
    else if sort == "due_desc" then DueDesc
    else if sort == "priority_desc" then PriorityDesc
    else CreatedDesc
  }

  /** `t.createdAt || 0`. */
  function Created(t: Task): int {
    match t.createdAt
    case None => 0
    case Some(c) => c
  }

  /** `x - y` on sort keys, of which `Array.prototype.sort` reads only the sign:
      `Infinity - Infinity` is NaN, which the sort treats as a tie. */
  function Diff(x: Key, y: Key): int {
    match (x, y)
    case (Finite(a), Finite(b)) => a - b
    case (Infinite, Finite(_)) => 1
    case (Finite(_), Infinite) => -1
    case (Infinite, Infinite) => 0
  }

  /** `x < y` on sort keys, with every number below plus infinity. */
  predicate KeyBefore(x: Key, y: Key) {
    match (x, y)
    case (Finite(a), Finite(b)) => a < b
    case (Finite(_), Infinite) => true
    case _ => false
  }

  /** The sort modes that put the larger key first. */
  predicate Descending(m: SortMode) {
    m.CreatedDesc? || m.DueDesc? || m.PriorityDesc?
  }

  /** The comparator passed to `out.sort`: negative puts `a` first, positive `b`.
      Ascending modes put the smaller key first, descending modes the larger,
      and equal keys tie. */
  function Compare(m: SortMode, a: Task, b: Task): (r: int)
    ensures !Descending(m) ==> (r < 0 <==> KeyBefore(KeyOf(m, a), KeyOf(m, b)))
    ensures Descending(m) ==> (r < 0 <==> KeyBefore(KeyOf(m, b), KeyOf(m, a)))
    ensures r == 0 <==> KeyOf(m, a) == KeyOf(m, b)
  {
    match m
    case CreatedAsc => Created(a) - Created(b)
    case CreatedDesc => Created(b) - Created(a)
    case DueAsc => Diff(DueMs(a.due), DueMs(b.due))
    case DueDesc => Diff(DueMs(b.due), DueMs(a.due))
    case PriorityDesc => PriorityRank(b.priority) - PriorityRank(a.priority)
  }

  /** The value a sort mode compares. */
  function KeyOf(m: SortMode, t: Task): Key {
    match m
    case CreatedAsc => Finite(Created(t))
    case CreatedDesc => Finite(Created(t))
    case DueAsc => DueMs(t.due)
    case DueDesc => DueMs(t.due)
    case PriorityDesc => Finite(PriorityRank(t.priority))
  }

  /** The comparator is antisymmetric in sign and ties exactly on equal keys. */
  lemma CompareSigns(m: SortMode, a: Task, b: Task)
    ensures (Compare(m, a, b) < 0) == (Compare(m, b, a) > 0)
    ensures Compare(m, a, b) == 0 <==> KeyOf(m, a) == KeyOf(m, b)
  {
  }

  /** The comparator is transitive: together with `CompareSigns`, a total preorder,
      which is what a sort needs for its result to be well defined. */
  lemma CompareTransitive(m: SortMode, a: Task, b: Task, c: Task)
    requires Compare(m, a, b) <= 0 && Compare(m, b, c) <= 0
    ensures Compare(m, a, c) <= 0
  {
  }

  /** Neighbours are in comparator order. */
  predicate Sorted(m: SortMode, s: seq<Task>) {
    forall i :: 0 <= i < |s| - 1 ==> Compare(m, s[i], s[i + 1]) <= 0
  }

  /** Adjacent order gives order between any two positions. */
  lemma {:induction false} SortedAll(m: SortMode, s: seq<Task>, i: int, j: int)
    requires Sorted(m, s) && 0 <= i < j < |s|
    ensures Compare(m, s[i], s[j]) <= 0
    decreases j - i
  {
    if i + 1 < j {
      SortedAll(m, s, i + 1, j);
      CompareTransitive(m, s[i], s[i + 1], s[j]);
    }
  }

  /** Inserts `x` before the first element it does not sort after. */
  function Insert(m: SortMode, x: Task, s: seq<Task>): (r: seq<Task>)
    requires Sorted(m, s)
    ensures Sorted(m, r)
    ensures multiset(r) == multiset(s) + multiset{x}
    ensures r != [] && (r[0] == x || (s != [] && r[0] == s[0]))
  {
    if s == [] || Compare(m, x, s[0]) <= 0 then [x] + s
    else
      CompareSigns(m, x, s[0]);
      var rest := Insert(m, x, s[1..]);
      assert s == [s[0]] + s[1..];
      [s[0]] + rest
  }

  /** A stable insertion sort: what `Array.prototype.sort` computes for a
      consistent comparator. */
  function SortBy(m: SortMode, s: seq<Task>): (r: seq<Task>)
    ensures Sorted(m, r)
    ensures multiset(r) == multiset(s)
  {
    if s == [] then []
    else
      assert s == [s[0]] + s[1..];
      Insert(m, s[0], SortBy(m, s[1..]))
  }

  /** Tasks whose sort key is `k`. */
  function KeyIs(m: SortMode, k: Key): Task -> bool {
    (t: Task) => KeyOf(m, t) == k
  }

  /** The tail of a sorted list is sorted. */
  lemma SortedTail(m: SortMode, s: seq<Task>)
    requires Sorted(m, s) && s != []
    ensures Sorted(m, s[1..])
  {
    forall i | 0 <= i < |s| - 2 ensures Compare(m, s[1..][i], s[1..][i + 1]) <= 0 {
      assert s[1..][i] == s[i + 1] && s[1..][i + 1] == s[i + 2];
    }
  }

  /** Where `x` goes in front, it goes in front of its key's tasks too. */
  lemma InsertStableFront(m: SortMode, x: Task, s: seq<Task>, k: Key)
    requires Sorted(m, s) && (s == [] || Compare(m, x, s[0]) <= 0)
    ensures Filter(KeyIs(m, k), Insert(m, x, s))
         == (if KeyOf(m, x) == k then [x] else []) + Filter(KeyIs(m, k), s)
  {
    assert Insert(m, x, s) == [x] + s;
    FilterCons(KeyIs(m, k), x, s);
  }

  /** Tasks the comparator strictly orders do not share a key. */
  lemma KeysDiffer(m: SortMode, x: Task, y: Task, k: Key)
    requires Compare(m, x, y) > 0
    ensures !(KeyIs(m, k)(x) && KeyIs(m, k)(y))
  {
    CompareSigns(m, x, y);
  }

  /** Where `x` passes the head of `s`, the head stays in front. */
  lemma InsertPast(m: SortMode, x: Task, s: seq<Task>)
    requires Sorted(m, s) && s != [] && Compare(m, x, s[0]) > 0
    requires Sorted(m, s[1..])
    ensures Insert(m, x, s) == [s[0]] + Insert(m, x, s[1..])
  {
  }

  /** Where `x` passes the head of `s`, the two have different keys, so the
      head's key's tasks keep their order: `ins` is the insertion into `s` and
      `rest` the one into its tail. */
  lemma InsertStablePast(m: SortMode, x: Task, s: seq<Task>, k: Key, ins: seq<Task>, rest: seq<Task>)
    requires s != [] && Compare(m, x, s[0]) > 0
    requires ins == [s[0]] + rest
    requires Filter(KeyIs(m, k), rest) == (if KeyOf(m, x) == k then [x] else []) + Filter(KeyIs(m, k), s[1..])
    ensures Filter(KeyIs(m, k), ins) == (if KeyOf(m, x) == k then [x] else []) + Filter(KeyIs(m, k), s)
  {
    KeysDiffer(m, x, s[0], k);
    assert KeyIs(m, k)(x) == (KeyOf(m, x) == k);
    FilterPast(KeyIs(m, k), x, s[0], rest, s[1..]);
  }

  /** Inserting adds `x` in front of the tasks sharing its key and leaves the
      order among every key's tasks alone. */
  lemma {:induction false} InsertStable(m: SortMode, x: Task, s: seq<Task>, k: Key)
    requires Sorted(m, s)
    ensures Filter(KeyIs(m, k), Insert(m, x, s))
         == (if KeyOf(m, x) == k then [x] else []) + Filter(KeyIs(m, k), s)
  {
    if s == [] || Compare(m, x, s[0]) <= 0 {
      InsertStableFront(m, x, s, k);
    } else {
      SortedTail(m, s);
      InsertStable(m, x, s[1..], k);
      InsertPast(m, x, s);
      InsertStablePast(m, x, s, k, Insert(m, x, s), Insert(m, x, s[1..]));
    }
  }

  /** The sort is stable: tasks with equal keys keep their input order. */
  lemma {:induction false} SortStable(m: SortMode, s: seq<Task>, k: Key)
    ensures Filter(KeyIs(m, k), SortBy(m, s)) == Filter(KeyIs(m, k), s)
  {
    if s != [] {
      var rest := SortBy(m, s[1..]);
      SortStable(m, s[1..], k);
      InsertStable(m, s[0], rest, k);
      assert SortBy(m, s) == Insert(m, s[0], rest);
      assert KeyIs(m, k)(s[0]) == (KeyOf(m, s[0]) == k);
      FilterHead(KeyIs(m, k), s);
    }
  }

  /** What the text search looks in: title, note and tags joined by spaces. */
  function Haystack(t: Task): string {
    Join([t.title, t.note] + t.tags, ' ')
  }

  /** The title, the note and every tag can be found in the haystack. */
  lemma HaystackFields(t: Task)
    ensures Contains(Haystack(t), t.title) && Contains(Haystack(t), t.note)
    ensures forall k :: 0 <= k < |t.tags| ==> Contains(Haystack(t), t.tags[k])
  {
    var parts := [t.title, t.note] + t.tags;
    JoinHasParts(parts, ' ', 0);
    JoinHasParts(parts, ' ', 1);
    forall k | 0 <= k < |t.tags| ensures Contains(Haystack(t), t.tags[k]) {
      assert parts[k + 2] == t.tags[k];
      JoinHasParts(parts, ' ', k + 2);
    }
  }

  /** The search text as compared: trimmed, then lower-cased by `lower`. */
  function Query(search: string, lower: string -> string): string {
    lower(Trim(search))
  }

  /** White space around the search text does not change the query: a box
      already trimmed gives the same query. */
  lemma QueryTrimmed(search: string, lower: string -> string)
    ensures Query(Trim(search), lower) == Query(search, lower)
  {
    TrimTrimmed(Trim(search));
  }

  /** A normalised task is shown when it passes every filter that is not "all"
      and, for a non-empty query, its lower-cased haystack contains the query. */
  predicate Matches(f: Filters, q: string, lower: string -> string, t: Task) {
    && (f.status.All? || t.status == f.status.value)
    && (f.priority.All? || t.priority == f.priority.value)
    && (f.category.All? || t.category == f.category.value)
    && (q == [] || Contains(lower(Haystack(t)), q))
  }

  function Visible(f: Filters, q: string, lower: string -> string): Task -> bool {
    (t: Task) => Matches(f, q, lower, t)
  }

  function StatusIs(st: Status): Task -> bool {
    (t: Task) => t.status == Some(st)
  }

  function StatusEquals(v: Option<Status>): Task -> bool {
    (t: Task) => t.status == v
  }

  function PriorityIs(p: string): Task -> bool {
    (t: Task) => t.priority == p
  }

  function CategoryIs(c: string): Task -> bool {
    (t: Task) => t.category == c
  }

  function Mentions(q: string, lower: string -> string): Task -> bool {
    (t: Task) => Contains(lower(Haystack(t)), q)
  }

  /** The filter chain of `applyView`, step by step as written. */
  function Narrow(f: Filters, q: string, lower: string -> string, s: seq<Task>): (r: seq<Task>)
    ensures |r| <= |s|
    ensures forall t :: t in r <==> t in s && Matches(f, q, lower, t)
  {
    var s1 := if f.status.Only? then Filter(StatusEquals(f.status.value), s) else s;
    var s2 := if f.priority.Only? then Filter(PriorityIs(f.priority.value), s1) else s1;
    var s3 := if f.category.Only? then Filter(CategoryIs(f.category.value), s2) else s2;
    if q != [] then Filter(Mentions(q, lower), s3) else s3
  }

  /** The chain of filters is one filter by `Matches`: nothing is dropped that
      passes every test, and nothing is reordered. */
  lemma NarrowSelects(f: Filters, q: string, lower: string -> string, s: seq<Task>)
    ensures Narrow(f, q, lower, s) == Filter(Visible(f, q, lower), s)
  {
    var v1 := (t: Task) => f.status.All? || t.status == f.status.value;
    var v2 := (t: Task) => v1(t) && (f.priority.All? || t.priority == f.priority.value);
    var v3 := (t: Task) => v2(t) && (f.category.All? || t.category == f.category.value);
    var v := Visible(f, q, lower);
    var s1 := if f.status.Only? then Filter(StatusEquals(f.status.value), s) else s;
    var s2 := if f.priority.Only? then Filter(PriorityIs(f.priority.value), s1) else s1;
    var s3 := if f.category.Only? then Filter(CategoryIs(f.category.value), s2) else s2;
    if f.status.Only? {
      FilterAgree(StatusEquals(f.status.value), v1, s);
    } else {
      FilterKeepsAll(v1, s);
    }
    assert s1 == Filter(v1, s);
    if f.priority.Only? {
      FilterTwice(v1, PriorityIs(f.priority.value), v2, s);
    } else {
      FilterAgree(v1, v2, s);
    }
    assert s2 == Filter(v2, s);
    if f.category.Only? {
      FilterTwice(v2, CategoryIs(f.category.value), v3, s);
    } else {
      FilterAgree(v2, v3, s);
    }
    assert s3 == Filter(v3, s);
    if q != [] {
      FilterTwice(v3, Mentions(q, lower), v, s);
    } else {
      FilterAgree(v3, v, s);
    }
  }

  /** The tasks `applyView` shows, in stored order: the normalised tasks that match. */
  function Selection(tasks: seq<Task>, f: Filters, search: string, lower: string -> string): seq<Task> {
    Filter(Visible(f, Query(search, lower), lower), Map(Normalize, tasks))
  }

  /** Stability of the sort for every key at once. */
  lemma SortStableAll(m: SortMode, s: seq<Task>)
    ensures forall k :: Filter(KeyIs(m, k), SortBy(m, s)) == Filter(KeyIs(m, k), s)
  {
    forall k {
      SortStable(m, s, k);
    }
  }

  /** `applyView`: a permutation of exactly the matching normalised tasks, in
      comparator order, with equal keys in stored order. */
  function ApplyView(tasks: seq<Task>, f: Filters, search: string, sort: string, lower: string -> string): (r: seq<Task>)
    ensures multiset(r) == multiset(Selection(tasks, f, search, lower))
    ensures forall t :: t in r <==> t in Map(Normalize, tasks) && Matches(f, Query(search, lower), lower, t)
    ensures Sorted(ModeOf(sort), r)
    ensures forall k :: Filter(KeyIs(ModeOf(sort), k), r) == Filter(KeyIs(ModeOf(sort), k), Selection(tasks, f, search, lower))
  {
    var out := Map(Normalize, tasks);
    var q := Query(search, lower);
    var out := Narrow(f, q, lower, out);
    NarrowSelects(f, q, lower, Map(Normalize, tasks));
    SortStableAll(ModeOf(sort), out);
    var r := SortBy(ModeOf(sort), out);
    SameMembers(r, out);
    r
  }

  /** What each sort key means for two tasks of a sorted list, the earlier at
      `i`: in particular every dated task precedes every undated one under
      `due_asc`. */
  lemma ViewOrder(m: SortMode, r: seq<Task>, i: int, j: int)
    requires Sorted(m, r) && 0 <= i < j < |r|
    ensures m == CreatedAsc ==> Created(r[i]) <= Created(r[j])
    ensures m == CreatedDesc ==> Created(r[i]) >= Created(r[j])
    ensures m == DueAsc ==> (!r[i].due.At? ==> !r[j].due.At?)
    ensures m == DueAsc && r[i].due.At? && r[j].due.At? ==> r[i].due.ms <= r[j].due.ms
    ensures m == DueDesc ==> (r[i].due.At? ==> r[j].due.At? && r[i].due.ms >= r[j].due.ms)
    ensures m == PriorityDesc ==> PriorityRank(r[i].priority) >= PriorityRank(r[j].priority)
  {
    SortedAll(m, r, i, j);
  }

  /** An unrecognised sort key sorts exactly like `created_desc`. */
  lemma UnknownSortIsCreatedDesc(tasks: seq<Task>, f: Filters, search: string, sort: string, lower: string -> string)
    requires sort !in {"created_asc", "created_desc", "due_asc", "due_desc", "priority_desc"}
    ensures ApplyView(tasks, f, search, sort, lower) == ApplyView(tasks, f, search, "created_desc", lower)
  {
  }

  /** A status filter naming no status selects no task: every normalised
      task has a status. */
  lemma UnknownStatusSelectsNothing(tasks: seq<Task>, f: Filters, search: string, lower: string -> string)
    requires f.status == Only(None)
    ensures Selection(tasks, f, search, lower) == []
  {
    var u := Map(Normalize, tasks);
    var v := Visible(f, Query(search, lower), lower);
    forall x | x in u ensures !v(x) {
      var i :| 0 <= i < |u| && u[i] == x;
    }
    FilterNone(v, u);
  }

  /** A status filter naming no status shows an empty list. */
  lemma UnknownStatusShowsNothing(tasks: seq<Task>, f: Filters, search: string, sort: string, lower: string -> string)
    requires f.status == Only(None)
    ensures ApplyView(tasks, f, search, sort, lower) == []
  {
    UnknownStatusSelectsNothing(tasks, f, search, lower);
    var r := ApplyView(tasks, f, search, sort, lower);
    assert |r| == |multiset(r)|;
  }
}
