/** The client view-model's log list (BasicMvvmSample/ViewModels/DumpViewModel.cs,
    `Log`): each line is stamped and appended, and the list is kept to at
    most 2000 entries by dropping the oldest. The clock is an input: `ts` is
    the already formatted "HH:mm:ss" text of the local time. */
module ViewLog {

  const MaxLogEntries: nat := 2000

  /** The entry `Log` appends: the stamp, a space, the line. */
  function Stamped(ts: string, line: string): string {
    ts + " " + line
  }

  /** `Log`: append the stamped line; if the list has grown past the bound,
      remove the entry at index 0, once. */
  function Log(logs: seq<string>, ts: string, line: string): (r: seq<string>)
    ensures |r| > 0 && r[|r| - 1] == Stamped(ts, line)
    ensures |logs| < MaxLogEntries ==> r == logs + [Stamped(ts, line)]
    ensures |logs| >= MaxLogEntries ==> r == logs[1..] + [Stamped(ts, line)]
    ensures |logs| <= MaxLogEntries ==> |r| <= MaxLogEntries
    ensures |r| == if |logs| < MaxLogEntries then |logs| + 1 else |logs|
  {
    var added := logs + [Stamped(ts, line)];
    if |added| > MaxLogEntries then added[1..] else added
  }

  /** The last `n` entries of `xs` (all of them when there are fewer). */
  function LastN(xs: seq<string>, n: nat): (r: seq<string>)
    ensures |r| == if |xs| <= n then |xs| else n
    ensures r == xs[|xs| - |r|..]
  {
    if |xs| <= n then xs else xs[|xs| - n..]
  }

  /** One stamped line to log. */
  datatype Entry = Entry(ts: string, line: string)

  /** Logging a sequence of lines in order. */
  function LogAll(logs: seq<string>, entries: seq<Entry>): seq<string>
    decreases |entries|
  {
    if |entries| == 0 then logs
    else LogAll(Log(logs, entries[0].ts, entries[0].line), entries[1..])
  }

  /** The stamped texts of a sequence of entries. */
  function Texts(entries: seq<Entry>): (r: seq<string>)
    ensures |r| == |entries|
    ensures forall i :: 0 <= i < |entries| ==> r[i] == Stamped(entries[i].ts, entries[i].line)
  {
    seq(|entries|, i requires 0 <= i < |entries| => Stamped(entries[i].ts, entries[i].line))
  }

  /** Logging one more line onto a list that holds the last entries of
      `xs` gives the last entries of `xs` with that line. */
  lemma LogOntoLast(xs: seq<string>, ts: string, line: string)
    ensures Log(LastN(xs, MaxLogEntries), ts, line) == LastN(xs + [Stamped(ts, line)], MaxLogEntries)
  {
    var e := Stamped(ts, line);
    var l := LastN(xs, MaxLogEntries);
    if |xs| >= MaxLogEntries {
      assert l[1..] + [e] == (xs + [e])[|xs| + 1 - MaxLogEntries..];
    }
  }

  /** Starting from a list within the bound, logging any number of lines
      leaves exactly the newest 2000 of all entries, oldest first: nothing
      is lost below the bound and only the oldest entries are dropped. */
  lemma {:induction false} LogAllKeepsNewest(logs: seq<string>, entries: seq<Entry>)
    requires |logs| <= MaxLogEntries
    ensures LogAll(logs, entries) == LastN(logs + Texts(entries), MaxLogEntries)
  {
    KeepsNewestFrom(logs, entries);
  }

  lemma {:induction false} KeepsNewestFrom(xs: seq<string>, entries: seq<Entry>)
    ensures LogAll(LastN(xs, MaxLogEntries), entries) == LastN(xs + Texts(entries), MaxLogEntries)
    decreases |entries|
  {
    if |entries| == 0 {
      assert xs + Texts(entries) == xs;
    } else {
      var e := entries[0];
      LogOntoLast(xs, e.ts, e.line);
      KeepsNewestFrom(xs + [Stamped(e.ts, e.line)], entries[1..]);
      assert (xs + [Stamped(e.ts, e.line)]) + Texts(entries[1..]) == xs + Texts(entries);
    }
  }
}
