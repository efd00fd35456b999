/**
 * `updateProgress`: the counters and the completion percentage shown above
 * the list, all computed on normalised statuses.
 */
module Progress {
  import opened Wrappers
  import opened Seqs
  import opened Tasks
  import opened View
  import opened Reminders

  datatype Stats = Stats(total: nat, todo: int, done: nat, pending: nat, percent: int)

  /** Number of tasks whose normalised status is `st`. */
  function CountStatus(s: seq<Task>, st: Status): nat {
    |Filter(StatusIs(st), Map(Normalize, s))|
  }

  /** The three counts split the list. */
  lemma {:induction false} CountsPartition(s: seq<Task>)
    ensures CountStatus(s, Todo) + CountStatus(s, Done) + CountStatus(s, Pending) == |s|
  {
    if s != [] {
      var x, t := Normalize(s[0]), Map(Normalize, s[1..]);
      CountsPartition(s[1..]);
      assert Map(Normalize, s) == [x] + t;
      FilterCons(StatusIs(Todo), x, t);
      FilterCons(StatusIs(Done), x, t);
      FilterCons(StatusIs(Pending), x, t);
      assert x.status.Some?;
      assert x.status.value.Todo? || x.status.value.Done? || x.status.value.Pending?;
      assert StatusIs(Todo)(x) == (x.status == Some(Todo));
      assert StatusIs(Done)(x) == (x.status == Some(Done));
      assert StatusIs(Pending)(x) == (x.status == Some(Pending));
    }
  }

  /** Two lists whose statuses agree position by position count alike. */
  lemma {:induction false} CountSameStatus(u: seq<Task>, v: seq<Task>, st: Status)
    requires |u| == |v| && forall i :: 0 <= i < |u| ==> u[i].status == v[i].status
    ensures |Filter(StatusIs(st), u)| == |Filter(StatusIs(st), v)|
  {
    if u != [] {
      CountSameStatus(u[1..], v[1..], st);
    }
  }

  lemma MulLe(x: int, y: int, b: int)
    requires x <= y && b >= 0
    ensures x * b <= y * b
  {
    assert y * b - x * b == (y - x) * b;
  }

  lemma MulCancel(x: int, y: int, b: int)
    requires b > 0 && x * b < y * b
    ensures x < y
  {
    if x >= y {
      MulLe(y, x, b);
    }
  }

  /** `Math.round(done / total * 100)` in integers, 0 for an empty list: the
      nearest integer to the ratio, halves rounded up. */
  function Percent(done: nat, total: nat): (p: int)
    requires done <= total
    ensures 0 <= p <= 100
    ensures done == 0 ==> p == 0
    ensures total > 0 ==> -(total as int) <= 2 * (100 * done - p * total) < total
  {
    if total == 0 then 0
    else
      var a, b := 200 * done + total, 2 * total;
      var q, m := a / b, a % b;
      assert a == q * b + m && 0 <= m < b;
      assert q * b < 101 * b;
      MulCancel(q, 101, b);
      assert -1 * b < q * b;
      MulCancel(-1, q, b);
      assert q * b == 2 * (q * total);
      assert 2 * (100 * done - q * total) == m - total;
      q
  }

  /** `updateProgress`: `todo` is what remains of `total` after `done` and
      `pending`; the percentage is `done / total` rounded to the nearest
      integer, halves up, and 0 for an empty list. */
  function ComputeStats(s: seq<Task>): (r: Stats)
    ensures r.total == |s|
    ensures r.done == CountStatus(s, Done) && r.pending == CountStatus(s, Pending)
    ensures r.todo == CountStatus(s, Todo) >= 0
    ensures r.todo + r.done + r.pending == r.total
    ensures 0 <= r.percent <= 100
    ensures r.total == 0 ==> r.percent == 0
    ensures r.total > 0 ==> -(r.total as int) <= 2 * (100 * r.done - r.percent * r.total) < r.total
  {
    var total := |s|;
    var done := CountStatus(s, Done);
    var pending := CountStatus(s, Pending);
    CountsPartition(s);
    Stats(total, total - done - pending, done, pending, Percent(done, total))
  }

  /** A reminder scan leaves every counter alone. */
  lemma ScanKeepsStats(s: seq<Task>, now: int)
    ensures ComputeStats(Scan(s, now)) == ComputeStats(s)
  {
    var r := Scan(s, now);
    var u, v := Map(Normalize, r), Map(Normalize, s);
    forall i | 0 <= i < |s| ensures u[i].status == v[i].status {
      ScanEffect(s, now, i);
    }
    CountSameStatus(u, v, Todo);
    CountSameStatus(u, v, Done);
    CountSameStatus(u, v, Pending);
  }

  /** The tasks clear-completed keeps are already normal. */
  lemma KeepOpenNormal(s: seq<Task>)
    ensures Map(Normalize, KeepOpen(s)) == KeepOpen(s)
  {
    var u := Map(Normalize, s);
    var k := KeepOpen(s);
    forall i | 0 <= i < |k| ensures Normalize(k[i]) == k[i] {
      assert k[i] in u;
      var j :| 0 <= j < |s| && u[j] == k[i];
      NormalizeIdempotent(s[j]);
    }
  }

  /** Clear-completed leaves no task done and the open counts as they were,
      so the percentage drops to 0. */
  lemma ClearCompletedStats(s: seq<Task>)
    ensures var before, after := ComputeStats(s), ComputeStats(KeepOpen(s));
      && after.done == 0 && after.percent == 0
      && after.todo == before.todo && after.pending == before.pending
      && after.total == before.total - before.done
  {
    var u := Map(Normalize, s);
    var k := KeepOpen(s);
    KeepOpenNormal(s);
    FilterTwice(IsOpen, StatusIs(Todo), StatusIs(Todo), u);
    FilterTwice(IsOpen, StatusIs(Pending), StatusIs(Pending), u);
    FilterNone(StatusIs(Done), k);
    CountsPartition(s);
  }

  /** Appending a task adds one to the total and one to the count of its
      status, and leaves the other counts alone. */
  lemma AppendStats(s: seq<Task>, t: Task)
    requires Consistent(t)
    ensures var before, after := ComputeStats(s), ComputeStats(s + [t]);
      && after.total == before.total + 1
      && after.todo == before.todo + (if t.status == Some(Todo) then 1 else 0)
      && after.done == before.done + (if t.status == Some(Done) then 1 else 0)
      && after.pending == before.pending + (if t.status == Some(Pending) then 1 else 0)
  {
    MapAppend(Normalize, s, [t]);
    NormalizeConsistent(t);
    assert Map(Normalize, [t]) == [t];
    FilterSnoc(StatusIs(Done), Map(Normalize, s), t);
    FilterSnoc(StatusIs(Pending), Map(Normalize, s), t);
    FilterSnoc(StatusIs(Todo), Map(Normalize, s), t);
  }

  /** The demo button adds one todo task and one pending task. */
  lemma DemoStats(s: seq<Task>, id1: string, id2: string, now: int)
    ensures var before, after := ComputeStats(s), ComputeStats(s + [DemoRevision(id1, now), DemoFeedback(id2, now)]);
      && after.total == before.total + 2 && after.todo == before.todo + 1
      && after.pending == before.pending + 1 && after.done == before.done
  {
    var d1, d2 := DemoRevision(id1, now), DemoFeedback(id2, now);
    AppendStats(s, d1);
    AppendStats(s + [d1], d2);
    assert s + [d1, d2] == s + [d1] + [d2];
  }
}
