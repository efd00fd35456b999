/**
 * The reminder rule of `checkReminders`: a task not done, with a parseable due
 * date and a lead time, that was never reminded, fires once when the clock is
 * inside the two-minute window that opens `reminderMin` minutes before the
 * deadline. A scan normalises every task it visits and stamps the ones that
 * fire; the list is written back only if something fired.
 */
module Reminders {
  import opened Wrappers
  import opened Seqs
  import opened Tasks

  /** Milliseconds a reminder may be late and still fire. */
  const GRACE := 2 * 60 * 1000
  const MINUTE := 60_000

  /** `t.remindedAt` is truthy: present and not the number 0. */
  predicate Reminded(t: Task) {
    t.remindedAt.Some? && t.remindedAt.value != 0
  }

  /** The instant the reminder of a dated task is due. */
  function RemindAt(t: Task): int
    requires t.due.At?
  {
    t.due.ms - t.reminderMin * MINUTE
  }

  /** The firing rule, on a task already normalised. An empty due and a due
      that does not parse both fail `due.At?`; a lead time counts as set when
      it is not zero. */
  predicate Fires(t: Task, now: int) {
    && t.status != Some(Done)
    && t.due != Empty && t.reminderMin != 0
    && !Reminded(t)
    && t.due.At?
    && RemindAt(t) <= now <= RemindAt(t) + GRACE
  }

  /** A stored task whose normalised form fires at `now`. */
  predicate Firing(t: Task, now: int) {
    Fires(Normalize(t), now)
  }

  /** What the scan leaves in place of one task: the task normalised, and
      stamped with `now` if it fires. */
  function Visit(t: Task, now: int): (r: Task)
    ensures Normalize(r) == r
    ensures r == Normalize(t).(remindedAt := r.remindedAt)
    ensures r.remindedAt == if Firing(t, now) then Some(now) else t.remindedAt
    ensures now != 0 ==> !Firing(r, now)
  {
    var n := Normalize(t);
    if Fires(n, now) then n.(remindedAt := Some(now)) else n
  }

  /** Every task of `s` visited, in order. */
  function Visits(s: seq<Task>, now: int): (r: seq<Task>)
    ensures |r| == |s|
    ensures forall i :: 0 <= i < |s| ==> r[i] == Visit(s[i], now)
  {
    if s == [] then [] else [Visit(s[0], now)] + Visits(s[1..], now)
  }

  /** The ids announced by a scan, in list order. */
  function FiredIds(s: seq<Task>, now: int): (r: seq<string>)
    ensures |r| <= |s|
  {
    if s == [] then []
    else (if Firing(s[0], now) then [s[0].id] else []) + FiredIds(s[1..], now)
  }

  /** Nothing is announced exactly when no task fires. */
  lemma {:induction false} FiredIdsNone(s: seq<Task>, now: int)
    ensures FiredIds(s, now) == [] <==> forall i :: 0 <= i < |s| ==> !Firing(s[i], now)
  {
    if s != [] {
      FiredIdsNone(s[1..], now);
      assert forall i :: 1 <= i < |s| ==> s[i] == s[1..][i - 1];
    }
  }

  /** The stored list after a scan at `now`. */
  function Scan(s: seq<Task>, now: int): (r: seq<Task>)
    ensures |r| == |s|
    ensures forall i :: 0 <= i < |s| ==> r[i].id == s[i].id
    ensures FiredIds(s, now) == [] ==> r == s
  {
    if FiredIds(s, now) == [] then s else Visits(s, now)
  }

  /** Exactly the firing tasks are stamped with `now`; apart from that a scan
      only normalises, so every task reads the same as before. */
  lemma ScanEffect(s: seq<Task>, now: int, i: int)
    requires 0 <= i < |s|
    ensures Firing(s[i], now) ==> Scan(s, now)[i] == Normalize(s[i]).(remindedAt := Some(now))
    ensures !Firing(s[i], now) ==> Normalize(Scan(s, now)[i]) == Normalize(s[i])
  {
    if FiredIds(s, now) == [] {
      FiredIdsNone(s, now);
    } else {
      NormalizeIdempotent(s[i]);
    }
  }

  /** A scan writes to the store exactly when something fires. */
  lemma ScanWritesIffFired(s: seq<Task>, now: int)
    requires now != 0
    ensures Scan(s, now) == s <==> FiredIds(s, now) == []
  {
    if FiredIds(s, now) != [] {
      FiredIdsNone(s, now);
      var i :| 0 <= i < |s| && Firing(s[i], now);
      ScanEffect(s, now, i);
      assert Scan(s, now)[i].remindedAt != s[i].remindedAt;
    }
  }

  /** A task that is done, has no parseable due date, has no lead time or was
      already reminded never fires. */
  lemma FiresOnlyWhenArmed(t: Task, now: int)
    requires t.status == Some(Done) || !t.due.At? || t.reminderMin == 0 || Reminded(t)
    ensures !Fires(t, now)
  {
  }

  /** For any other task the window is closed at both ends: it fires exactly
      from `reminderMin` minutes before the deadline up to two minutes after
      that instant. */
  lemma FiringWindow(t: Task, now: int)
    requires t.status != Some(Done) && t.due.At? && t.reminderMin != 0 && !Reminded(t)
    ensures Fires(t, now) <==>
      t.due.ms - t.reminderMin * 60_000 <= now <= t.due.ms - t.reminderMin * 60_000 + 120_000
  {
  }

  /** The window of a ten-minute reminder, and the first instants outside it. */
  lemma FiringTenMinutes(t: Task, due: int)
    requires t.status == Some(Todo) && t.due == At(due) && t.reminderMin == 10 && t.remindedAt.None?
    ensures Fires(t, due - 600_000) && Fires(t, due - 600_000 + 120_000)
    ensures !Fires(t, due - 600_001) && !Fires(t, due - 600_000 + 120_001)
  {
    FiringWindow(t, due - 600_000);
    FiringWindow(t, due - 600_000 + 120_000);
    FiringWindow(t, due - 600_001);
    FiringWindow(t, due - 600_000 + 120_001);
  }

  /** A legacy record that only says `done: true` is normalised to done and
      never fires. */
  lemma LegacyDoneNeverFires(t: Task, now: int)
    requires t.status.None? && t.done
    ensures !Firing(t, now)
  {
  }

  /** A task a scan stamped does not fire again at any later scan, until
      something clears its stamp. */
  lemma FiresOnce(s: seq<Task>, now: int, later: int, i: int)
    requires now != 0 && 0 <= i < |s| && Firing(s[i], now)
    ensures !Firing(Scan(s, now)[i], later)
  {
    ScanEffect(s, now, i);
  }

  /** A second scan at the same instant fires nothing and changes nothing. */
  lemma ScanIdempotent(s: seq<Task>, now: int)
    requires now != 0
    ensures FiredIds(Scan(s, now), now) == []
    ensures Scan(Scan(s, now), now) == Scan(s, now)
  {
    var r := Scan(s, now);
    forall i | 0 <= i < |r| ensures !Firing(r[i], now) {
      ScanEffect(s, now, i);
      NormalizeIdempotent(s[i]);
    }
    FiredIdsNone(r, now);
  }

  /** The ids announced for a list with one more task in front. */
  lemma FiredIdsCons(x: Task, s: seq<Task>, now: int)
    ensures FiredIds([x] + s, now) == (if Firing(x, now) then [x.id] else []) + FiredIds(s, now)
  {
    assert ([x] + s)[1..] == s;
  }

  /** The ids announced for a list grown by one task. */
  lemma {:induction false} FiredIdsSnoc(s: seq<Task>, x: Task, now: int)
    ensures FiredIds(s + [x], now) == FiredIds(s, now) + (if Firing(x, now) then [x.id] else [])
  {
    if s == [] {
      assert [] + [x] == [x] + [];
      FiredIdsCons(x, [], now);
    } else {
      var t := s[1..];
      FiredIdsSnoc(t, x, now);
      assert s + [x] == [s[0]] + (t + [x]);
      assert s == [s[0]] + t;
      FiredIdsCons(s[0], t + [x], now);
      FiredIdsCons(s[0], t, now);
      var h := if Firing(s[0], now) then [s[0].id] else [];
      AppendAssoc(h, FiredIds(t, now), if Firing(x, now) then [x.id] else []);
    }
  }

  /** A scan keeps every id where it was, so unique ids stay unique. */
  lemma ScanUniqueIds(s: seq<Task>, now: int)
    requires UniqueIds(s)
    ensures UniqueIds(Scan(s, now))
  {
  }

  /** Appending a task with a fresh id and scanning keeps ids unique. */
  lemma AppendScanUniqueIds(s: seq<Task>, t: Task, now: int)
    requires UniqueIds(s) && !HasId(s, t.id)
    ensures UniqueIds(Scan(s + [t], now))
  {
    AppendUniqueIds(s, t);
    ScanUniqueIds(s + [t], now);
  }

  /** The ids announced for one more task of the loaded list. */
  lemma FiredIdsStep(s: seq<Task>, i: nat, now: int)
    requires i < |s|
    ensures FiredIds(s[..i + 1], now) == FiredIds(s[..i], now) + (if Firing(s[i], now) then [s[i].id] else [])
  {
    assert s[..i + 1] == s[..i] + [s[i]];
    FiredIdsSnoc(s[..i], s[i], now);
  }

  /** The list part-way through a scan: the first `i` tasks visited, the
      rest as loaded. */
  function ScannedUpTo(s: seq<Task>, i: nat, now: int): seq<Task>
    requires i <= |s|
  {
    Visits(s[..i], now) + s[i..]
  }

  /** A scan starts from the loaded list. */
  lemma ScannedNone(s: seq<Task>, now: int)
    ensures ScannedUpTo(s, 0, now) == s
  {
    assert s[0..] == s;
  }

  /** Visiting the next task advances the scan by one. */
  lemma ScannedStep(s: seq<Task>, i: nat, now: int)
    requires i < |s|
    ensures ScannedUpTo(s, i, now)[i] == s[i]
    ensures ScannedUpTo(s, i, now)[i := Visit(s[i], now)] == ScannedUpTo(s, i + 1, now)
  {
    var a := ScannedUpTo(s, i, now);
    var b := ScannedUpTo(s, i + 1, now);
    var c := a[i := Visit(s[i], now)];
    assert a[i] == s[i];
    forall j | 0 <= j < i ensures c[j] == b[j] {
      assert b[j] == Visits(s[..i + 1], now)[j];
    }
    forall j | i < j < |s| ensures c[j] == b[j] {
      assert b[j] == s[i + 1..][j - i - 1];
    }
    assert c[i] == b[i];
  }

  /** At the end of the loop every task has been visited. */
  lemma ScannedAll(s: seq<Task>, now: int)
    ensures ScannedUpTo(s, |s|, now) == Visits(s, now)
    ensures FiredIds(s[..|s|], now) == FiredIds(s, now)
  {
    assert s[..|s|] == s;
    assert s[|s|..] == [];
  }
}
