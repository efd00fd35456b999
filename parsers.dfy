/**
 * The two form-field parsers of the task form: the comma-separated tag list
 * and the one-per-line subtask list. Both split, trim, drop empty pieces and
 * truncate; neither ever rejects its input.
 */
module Parsers {
  import opened Seqs
  import opened Text

  const MAX_TAGS := 10
  const MAX_SUBTASKS := 15

  predicate NonEmpty(s: string) {
    s != []
  }

  /** `xs.slice(0, n)`. */
  function Take<T>(xs: seq<T>, n: nat): (r: seq<T>)
    ensures r <= xs && |r| <= n
    ensures |r| == n || r == xs
  {
    if |xs| <= n then xs else xs[..n]
  }

  /** Dropping the empty strings from trimmed strings keeps exactly the
      non-empty ones, and leaves only non-empty trimmed strings. */
  lemma KeepNonBlank(m: seq<string>)
    requires forall k :: 0 <= k < |m| ==> Trimmed(m[k])
    ensures forall x :: x in Filter(NonEmpty, m) <==> x != [] && x in m
    ensures forall k :: 0 <= k < |Filter(NonEmpty, m)| ==>
      Filter(NonEmpty, m)[k] != [] && Trimmed(Filter(NonEmpty, m)[k])
  {
    var r := Filter(NonEmpty, m);
    forall k | 0 <= k < |r| ensures r[k] != [] && Trimmed(r[k]) {
      assert r[k] in m;
    }
  }

  /** The non-blank pieces of `txt` cut at `sep`, each trimmed, in input order:
      `txt.split(sep).map(s => s.trim()).filter(Boolean)`. */
  function Words(txt: string, sep: char): (r: seq<string>)
    ensures forall k :: 0 <= k < |r| ==> r[k] != [] && Trimmed(r[k])
    ensures forall x :: x in r <==> x != [] && x in Map(Trim, Split(txt, sep))
  {
    var trimmed := Map(Trim, Split(txt, sep));
    KeepNonBlank(trimmed);
    Filter(NonEmpty, trimmed)
  }

  /** `parseTags`: at most ten tags, each trimmed and non-empty, in the order
      they were typed; surplus tags are dropped, never rejected. */
  function ParseTags(txt: string): (r: seq<string>)
    ensures |r| <= MAX_TAGS
    ensures forall k :: 0 <= k < |r| ==> r[k] != [] && Trimmed(r[k])
    ensures r <= Words(txt, ',')
    ensures |r| == MAX_TAGS || r == Words(txt, ',')
  {
    Take(Words(txt, ','), MAX_TAGS)
  }

  /** Length of the run of `-` characters at the start of `s`. */
  function DashRun(s: string): (n: nat)
    ensures n <= |s|
    ensures forall i :: 0 <= i < n ==> s[i] == '-'
    ensures n < |s| ==> s[n] != '-'
  {
    if s != [] && s[0] == '-' then 1 + DashRun(s[1..]) else 0
  }

  /** `line` starts with a run of exactly `n` dashes, the whole run. */
  predicate DashPrefix(line: string, n: int) {
    1 <= n <= |line| && line[..n] == seq(n, _ => '-') && (n == |line| || line[n] != '-')
  }

  /** `s` without its first character if that is white space (`\s?`). */
  function DropOneSpace(s: string): string {
    if s != [] && IsSpace(s[0]) then s[1..] else s
  }

  /** `line.replace(/^-+\s?/, "")`: the whole leading run of dashes is removed
      together with one white-space character after it, if there is one; any
      other line is kept. */
  function StripBullet(line: string): (r: string)
    ensures line == [] || line[0] != '-' ==> r == line
    ensures line != [] && line[0] == '-' ==>
      exists n :: DashPrefix(line, n) && r == DropOneSpace(line[n..])
  {
    var n := DashRun(line);
    assert n > 0 ==> DashPrefix(line, n);
    if n == 0 then line else DropOneSpace(line[n..])
  }

  /** One subtask line, unbulleted and trimmed. */
  function CleanLine(line: string): string {
    Trim(StripBullet(line))
  }

  /** The non-blank lines of `txt`, each unbulleted and trimmed, in input order:
      `txt.split("\n").map(s => s.replace(/^-+\s?/, "").trim()).filter(Boolean)`. */
  function Lines(txt: string): (r: seq<string>)
    ensures forall k :: 0 <= k < |r| ==> r[k] != [] && Trimmed(r[k])
    ensures forall x :: x in r <==> x != [] && x in Map(CleanLine, Split(txt, '\n'))
  {
    var cleaned := Map(CleanLine, Split(txt, '\n'));
    KeepNonBlank(cleaned);
    Filter(NonEmpty, cleaned)
  }

  /** `parseSubtasks`: at most fifteen subtasks, one per input line, each with
      its bullet removed, trimmed and non-empty, in input order; surplus lines
      are dropped, never rejected. */
  function ParseSubtasks(txt: string): (r: seq<string>)
    ensures |r| <= MAX_SUBTASKS
    ensures forall k :: 0 <= k < |r| ==> r[k] != [] && Trimmed(r[k])
    ensures r <= Lines(txt)
    ensures |r| == MAX_SUBTASKS || r == Lines(txt)
  {
    Take(Lines(txt), MAX_SUBTASKS)
  }

  /** A list entry as a user would type it in the subtask box. */
  function Bulleted(item: string): string {
    "- " + item
  }

  /** Well-formed entries: non-empty, trimmed, free of the separator. */
  predicate Entries(items: seq<string>, sep: char) {
    forall k :: 0 <= k < |items| ==> items[k] != [] && Trimmed(items[k]) && sep !in items[k]
  }

  /** Trimming and dropping blanks leaves well-formed entries alone. */
  lemma WordsOfEntries(items: seq<string>, sep: char)
    requires Entries(items, sep)
    ensures Filter(NonEmpty, Map(Trim, items)) == items
  {
    forall k | 0 <= k < |items| ensures Trim(items[k]) == items[k] {
      TrimTrimmed(items[k]);
    }
    assert Map(Trim, items) == items;
    FilterKeepsAll(NonEmpty, items);
  }

  /** Tags joined with commas parse back to themselves, cut to the first ten. */
  lemma TagsRoundTrip(tags: seq<string>)
    requires Entries(tags, ',')
    ensures ParseTags(Join(tags, ',')) == Take(tags, MAX_TAGS)
  {
    if tags == [] {
      TrimTrimmed([]);
      assert Map(Trim, Split([], ',')) == [[]];
    } else {
      SplitJoin(tags, ',');
      WordsOfEntries(tags, ',');
    }
  }

  /** A bulleted line `- x` is cleaned back to `x`, whatever `x` starts with. */
  lemma CleanBulleted(item: string)
    requires item != [] && Trimmed(item)
    ensures CleanLine(Bulleted(item)) == item
  {
    var line := Bulleted(item);
    assert line[0] == '-' && line[1] == ' ';
    assert DashRun(line) == 1;
    assert line[2..] == item;
    TrimTrimmed(item);
  }

  /** Subtasks written one per line as `- x` parse back to themselves, cut to
      the first fifteen. */
  lemma SubtasksRoundTrip(items: seq<string>)
    requires Entries(items, '\n')
    ensures ParseSubtasks(Join(Map(Bulleted, items), '\n')) == Take(items, MAX_SUBTASKS)
  {
    var lines := Map(Bulleted, items);
    if items == [] {
      TrimTrimmed([]);
      assert Map(CleanLine, Split([], '\n')) == [[]];
    } else {
      forall k | 0 <= k < |lines| ensures '\n' !in lines[k] {
        assert lines[k] == "- " + items[k];
      }
      SplitJoin(lines, '\n');
      forall k | 0 <= k < |lines| ensures CleanLine(lines[k]) == items[k] {
        CleanBulleted(items[k]);
      }
      assert Map(CleanLine, lines) == items;
      FilterKeepsAll(NonEmpty, items);
    }
  }
}
