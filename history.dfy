/**
 * frame_states: the history delta engine.  Two buffers of (pid, ticks)
 * pairs hold the previous and the current generation; each frame swaps them,
 * grows both when the task count reaches the capacity, records every task's
 * cumulative ticks, and stores in the task the ticks elapsed since the same
 * pid was last seen.  It also counts tasks by state code.
 */
module History {
  import opened Tasks

  datatype HistEntry = HistEntry(pid: int, tics: nat)

  /** Growth step for the buffer capacity: at least 25% more, plus 100. */
  function Grow(siz: nat): (r: nat)
    ensures r >= siz + siz / 4 + 100
  {
    siz * 5 / 4 + 100
  }

  /** Capacity after n tasks have been recorded starting from capacity siz:
      before task number t (counting from 0) is written the buffers grow
      once if t + 1 >= capacity. */
  function CapacityAfter(siz: nat, n: nat): nat {
    if n == 0 then siz
    else
      var c := CapacityAfter(siz, n - 1);
      if n >= c then Grow(c) else c
  }

  /** Capacity always exceeds every index written, never shrinks, and is
      left alone when it was already large enough. */
  lemma {:induction false} CapacityAfterBounds(siz: nat, n: nat)
    ensures CapacityAfter(siz, n) >= siz
    ensures n > 0 ==> CapacityAfter(siz, n) > n
    ensures n < siz ==> CapacityAfter(siz, n) == siz
  {
    if n > 0 {
      CapacityAfterBounds(siz, n - 1);
    }
  }

  /** The previous generation's first entry for pid, if any. */
  function FindPid(prev: seq<HistEntry>, pid: int): (r: Option<nat>)
    ensures r.Some? ==> r.value < |prev| && prev[r.value].pid == pid
                        && forall j :: 0 <= j < r.value ==> prev[j].pid != pid
    ensures r.None? ==> forall j :: 0 <= j < |prev| ==> prev[j].pid != pid
  {
    if prev == [] then None
    else if prev[0].pid == pid then Some(0)
    else match FindPid(prev[1..], pid)
      case None => None
      case Some(k) => Some(k + 1)
  }

  /** Elapsed ticks of a task: current ticks minus the ticks recorded for the
      first matching pid of the previous generation, or the full current ticks
      when the pid was not seen.  No clamping: a counter that went backwards
      yields a negative difference. */
  function Elapsed(prev: seq<HistEntry>, pid: int, tics: nat): int {
    match FindPid(prev, pid)
    case Some(j) => tics - prev[j].tics
    case None => tics
  }

  /** The first previous entry with the task's pid supplies the baseline;
      with no such entry the baseline is zero. */
  lemma ElapsedAgainstFirstMatch(prev: seq<HistEntry>, pid: int, tics: nat)
    ensures forall j :: 0 <= j < |prev| && prev[j].pid == pid
              && (forall k :: 0 <= k < j ==> prev[k].pid != pid)
              ==> Elapsed(prev, pid, tics) + prev[j].tics == tics
    ensures (forall j :: 0 <= j < |prev| ==> prev[j].pid != pid) ==> Elapsed(prev, pid, tics) == tics
  {
  }

  /** A task as the history engine leaves it: its pcpu replaced by its
      elapsed ticks against the previous generation, all else unchanged. */
  predicate Charged(prev: seq<HistEntry>, before: Task, after: Task) {
    after == before.(pcpu := Elapsed(prev, before.pid, Tics(before)))
  }

  /** A pid seen last frame with 500 ticks and now with 530 ran 30 ticks; a
      pid never seen before is charged all its ticks. */
  lemma ElapsedExamples()
    ensures Elapsed([HistEntry(42, 500)], 42, 530) == 30
    ensures Elapsed([HistEntry(42, 530)], 42, 500) == -30
    ensures Elapsed([HistEntry(7, 500)], 42, 530) == 530
  {
  }

  /** The generation recorded for a table: (pid, utime + stime) per task. */
  function Record(tasks: seq<Task>): (r: seq<HistEntry>)
    ensures |r| == |tasks|
    ensures forall j :: 0 <= j < |tasks| ==> r[j] == HistEntry(tasks[j].pid, Tics(tasks[j]))
  {
    seq(|tasks|, j requires 0 <= j < |tasks| => HistEntry(tasks[j].pid, Tics(tasks[j])))
  }

  /** A task that was seen last frame and whose ticks did not move shows no
      elapsed time: recording a generation and looking the same table up in it
      gives zero for every task whose pid is unique. */
  lemma {:induction false} UnchangedTaskElapsesNothing(tasks: seq<Task>, j: nat)
    requires j < |tasks|
    requires forall k :: 0 <= k < |tasks| && k != j ==> tasks[k].pid != tasks[j].pid
    ensures Elapsed(Record(tasks), tasks[j].pid, Tics(tasks[j])) == 0
  {
    var prev := Record(tasks);
    ElapsedAgainstFirstMatch(prev, tasks[j].pid, Tics(tasks[j]));
    assert prev[j].pid == tasks[j].pid;
    assert forall k :: 0 <= k < j ==> prev[k].pid != tasks[j].pid;
  }

  lemma RecordSnoc(tasks: seq<Task>, n: nat)
    requires n < |tasks|
    ensures Record(tasks[..n + 1]) == Record(tasks[..n]) + [HistEntry(tasks[n].pid, Tics(tasks[n]))]
  {
    assert forall j :: 0 <= j < n ==> tasks[..n + 1][j] == tasks[..n][j];
  }

  // ---------------------------------------------------------------- states

  datatype StateCounts = StateCounts(running: nat, sleeping: nat, stopped: nat, zombie: nat)

  function TaskCount(c: StateCounts): nat {
    c.running + c.sleeping + c.stopped + c.zombie
  }

  /** One task's contribution: 'S' and 'D' sleep, 'T' is stopped, 'Z' a
      zombie, 'R' running; any other code is not counted. */
  function Tally(c: StateCounts, state: char): StateCounts {
    match state
    case 'S' => c.(sleeping := c.sleeping + 1)
    case 'D' => c.(sleeping := c.sleeping + 1)
    case 'T' => c.(stopped := c.stopped + 1)
    case 'Z' => c.(zombie := c.zombie + 1)
    case 'R' => c.(running := c.running + 1)
    case _ => c
  }

  predicate KnownState(state: char) {
    state == 'S' || state == 'D' || state == 'T' || state == 'Z' || state == 'R'
  }

  /** Every task carries one of the counted state codes. */
  predicate AllKnown(tasks: seq<Task>) {
    forall j :: 0 <= j < |tasks| ==> KnownState(tasks[j].state)
  }

  /** The state counts of a table prefix, tallied in table order. */
  function CountStates(tasks: seq<Task>): StateCounts
  {
    if tasks == [] then StateCounts(0, 0, 0, 0)
    else Tally(CountStates(tasks[..|tasks| - 1]), tasks[|tasks| - 1].state)
  }

  lemma CountStatesSnoc(tasks: seq<Task>, n: nat)
    requires n < |tasks|
    ensures CountStates(tasks[..n + 1]) == Tally(CountStates(tasks[..n]), tasks[n].state)
  {
    assert tasks[..n + 1][..n] == tasks[..n];
  }

  /** running + sleeping + stopped + zombie never exceeds the task total,
      and equals it exactly when every task carries one of the five counted
      state codes. */
  lemma {:induction false} CountsCoverTotal(tasks: seq<Task>)
    ensures TaskCount(CountStates(tasks)) <= |tasks|
    ensures TaskCount(CountStates(tasks)) == |tasks| <==> AllKnown(tasks)
  {
    if tasks != [] {
      var init, last := tasks[..|tasks| - 1], tasks[|tasks| - 1];
      CountsCoverTotal(init);
      assert CountStates(tasks) == Tally(CountStates(init), last.state);
      TallyCount(CountStates(init), last.state);
      AllKnownSnoc(tasks);
    }
  }

  /** Every task of a non-empty table has a counted state exactly when every
      task but the last has one and the last has one too. */
  lemma AllKnownSnoc(tasks: seq<Task>)
    requires tasks != []
    ensures AllKnown(tasks) <==> AllKnown(tasks[..|tasks| - 1]) && KnownState(tasks[|tasks| - 1].state)
  {
    var init := tasks[..|tasks| - 1];
    assert forall j :: 0 <= j < |init| ==> init[j] == tasks[j];
  }

  /** A tally adds one to the total exactly for a counted state code. */
  lemma TallyCount(c: StateCounts, state: char)
    ensures TaskCount(Tally(c, state)) == TaskCount(c) + (if KnownState(state) then 1 else 0)
  {
  }

  // ---------------------------------------------------------------- buffers

  /** alloc_r: a larger buffer keeping the old contents at the front. */
  method Realloc(a: array<HistEntry>, n: nat) returns (b: array<HistEntry>)
    requires a.Length <= n
    ensures fresh(b) && b.Length == n && b[..a.Length] == a[..]
  {
    b := new HistEntry[n](_ => HistEntry(0, 0));
    forall k | 0 <= k < a.Length {
      b[k] := a[k];
    }
  }

  /** The scan for the task's pid among the first n previous entries,
      subtracting the ticks found there. */
  method ElapsedTics(hist: array<HistEntry>, n: nat, pid: int, tics: nat) returns (d: int)
    requires n <= hist.Length
    ensures d == Elapsed(hist[..n], pid, tics)
  {
    d := tics;
    var i := 0;
    while i < n
      invariant 0 <= i <= n
      invariant forall k :: 0 <= k < i ==> hist[k].pid != pid
    {
      if pid == hist[i].pid {
        d := tics - hist[i].tics;
        assert hist[..n][i] == hist[i];
        return;
      }
      i := i + 1;
    }
    assert forall k :: 0 <= k < n ==> hist[..n][k].pid != pid;
  }

  class HistoryTracker {
    var histSav: array<HistEntry>
    var histNew: array<HistEntry>
    var histSiz: nat            // capacity of each buffer, in entries
    var frameMaxtask: nat       // live tasks of the last frame

    ghost predicate Valid()
      reads this
    {
      && histSav.Length == histSiz && histNew.Length == histSiz
      && histSav != histNew
      && frameMaxtask <= histSiz
    }

    /** The generation recorded by the last frame. */
    ghost function Current(): seq<HistEntry>
      reads this, histNew
      requires Valid()
    {
      histNew[..frameMaxtask]
    }

    /** Both buffers start out empty, with no previous frame. */
    constructor ()
      ensures Valid() && histSiz == 0 && frameMaxtask == 0
    {
      histSav := new HistEntry[0];
      histNew := new HistEntry[0];
      histSiz := 0;
      frameMaxtask := 0;
    }

    /** Installs the buffers and task count a frame ends with. */
    method Commit(sav: array<HistEntry>, nw: array<HistEntry>, siz: nat, total: nat)
      modifies this
      ensures histSav == sav && histNew == nw && histSiz == siz && frameMaxtask == total
    {
      histSav, histNew, histSiz, frameMaxtask := sav, nw, siz, total;
    }

    /**
     * One frame over the sentinel-terminated table ppt.  Afterwards the live
     * task count is the position of the sentinel, the new generation holds
     * every live task's (pid, ticks), the generation before it is kept in the
     * other buffer, and every live task's pcpu is its elapsed ticks against
     * that previous generation.
     */
    method FrameStates(ppt: array<Task>) returns (counts: StateCounts)
      requires Valid() && Terminated(ppt[..])
      modifies this, histSav, histNew, ppt
      ensures Valid()
      ensures frameMaxtask == Live(old(ppt[..]))
      ensures histSiz == CapacityAfter(old(histSiz), frameMaxtask)
      ensures frameMaxtask == 0 || frameMaxtask < histSiz
      ensures frameMaxtask < old(histSiz) ==> histSav == old(histNew) && histNew == old(histSav)
      ensures Current() == Record(old(ppt[..])[..frameMaxtask])
      ensures histSav[..old(frameMaxtask)] == old(Current())
      ensures forall j :: 0 <= j < frameMaxtask ==> Charged(old(Current()), old(ppt[j]), ppt[j])
      ensures forall j :: frameMaxtask <= j < ppt.Length ==> ppt[j] == old(ppt[j])
      ensures counts == CountStates(old(ppt[..])[..frameMaxtask])
    {
      ghost var prev := Current();
      var siz0, prevN := histSiz, frameMaxtask;
      // the previous generation buffer is swapped in to receive this frame
      var sav0, nw0 := histNew, histSav;
      var sav, nw, siz, total;
      sav, nw, siz, total, counts := RecordFrame(ppt, sav0, nw0, siz0, prevN, prev);
      // publish the new generation and its size for the callers and the next frame
      Commit(sav, nw, siz, total);
    }
  }

  /** The two generation buffers after total tasks of the frame: both of
      the capacity the growth rule gives, distinct, the originals until the
      first growth, the previous generation intact and the new one holding
      the tasks recorded so far. */
  ghost predicate Buffers(sav: array<HistEntry>, nw: array<HistEntry>, siz: nat,
                          sav0: array<HistEntry>, nw0: array<HistEntry>, siz0: nat,
                          total: nat, prevN: nat, prev: seq<HistEntry>, table: seq<Task>)
    reads sav, nw
  {
    && sav.Length == siz && nw.Length == siz && sav != nw
    && siz == CapacityAfter(siz0, total)
    && (total == 0 || total < siz)
    && prevN <= siz0 <= siz
    && (total < siz0 ==> sav == sav0 && nw == nw0)
    && sav[..prevN] == prev
    && total <= |table|
    && nw[..total] == Record(table[..total])
  }

  /**
   * The frame loop of frame_states, run with the buffers already swapped:
   * sav holds the previous generation (its first prevN entries), nw is
   * overwritten with the new one.  Returns the buffers (grown if needed),
   * their capacity, the live task count and the state counts.
   */
  method RecordFrame(ppt: array<Task>, sav0: array<HistEntry>, nw0: array<HistEntry>, siz0: nat,
                     prevN: nat, ghost prev: seq<HistEntry>)
    returns (sav: array<HistEntry>, nw: array<HistEntry>, siz: nat, total: nat, counts: StateCounts)
    requires Terminated(ppt[..])
    requires sav0.Length == siz0 && nw0.Length == siz0 && sav0 != nw0
    requires prevN <= siz0 && sav0[..prevN] == prev
    modifies ppt, nw0
    ensures sav.Length == siz && nw.Length == siz && sav != nw
    ensures total == Live(old(ppt[..]))
    ensures siz == CapacityAfter(siz0, total)
    ensures total == 0 || total < siz
    ensures total < siz0 ==> sav == sav0 && nw == nw0
    ensures sav[..prevN] == prev
    ensures nw[..total] == Record(old(ppt[..])[..total])
    ensures forall j :: 0 <= j < total ==> Charged(prev, old(ppt[j]), ppt[j])
    ensures forall j :: total <= j < ppt.Length ==> ppt[j] == old(ppt[j])
    ensures counts == CountStates(old(ppt[..])[..total])
  {
    ghost var table := ppt[..];
    ghost var live := Live(table);
    sav, nw, siz := sav0, nw0, siz0;
    assert nw[..0] == Record(table[..0]);
    total := 0;
    counts := StateCounts(0, 0, 0, 0);
    while ppt[total].pid != SentinelPid
      invariant 0 <= total <= live
      invariant nw == nw0 || fresh(nw)
      invariant Buffers(sav, nw, siz, sav0, nw0, siz0, total, prevN, prev, table)
      invariant forall j :: 0 <= j < total ==> Charged(prev, table[j], ppt[j])
      invariant forall j :: total <= j < ppt.Length ==> ppt[j] == table[j]
      invariant counts == CountStates(table[..total])
      decreases live - total
    {
      assert ppt[total] == table[total] && total < live;
      CountStatesSnoc(table, total);
      counts := Tally(counts, ppt[total].state);
      sav, nw, siz := TrackTask(ppt, total, sav, nw, siz, sav0, nw0, siz0, prevN, prev, table);
      total := total + 1;
    }
    assert total == live;
    assert Buffers(sav, nw, siz, sav0, nw0, siz0, total, prevN, prev, table);
  }

  /** Grow both buffers when writing slot total would leave no spare
      slot: the previous generation and the new one so far move along. */
  method MakeRoom(total: nat, sav: array<HistEntry>, nw: array<HistEntry>, siz: nat,
                  ghost sav0: array<HistEntry>, ghost nw0: array<HistEntry>, ghost siz0: nat,
                  prevN: nat, ghost prev: seq<HistEntry>, ghost table: seq<Task>)
    returns (sav': array<HistEntry>, nw': array<HistEntry>, siz': nat)
    requires total < |table|
    requires Buffers(sav, nw, siz, sav0, nw0, siz0, total, prevN, prev, table)
    ensures sav'.Length == siz' && nw'.Length == siz' && sav' != nw'
    ensures siz' == (if total + 1 >= siz then Grow(siz) else siz)
    ensures siz' == CapacityAfter(siz0, total + 1) && total + 1 < siz' && prevN <= siz0 <= siz'
    ensures total + 1 < siz0 ==> sav' == sav0 && nw' == nw0
    ensures sav'[..prevN] == prev && nw'[..total] == Record(table[..total])
    ensures sav' == sav || fresh(sav')
    ensures nw' == nw || fresh(nw')
  {
    CapacityAfterBounds(siz0, total);
    CapacityAfterBounds(siz0, total + 1);
    sav', nw', siz' := sav, nw, siz;
    if total + 1 >= siz {
      siz' := Grow(siz);
      sav' := Realloc(sav, siz');
      nw' := Realloc(nw, siz');
    }
    assert sav'[..prevN] == sav[..prevN];
    assert nw'[..total] == nw[..total];
  }

  /**
   * The body of the frame loop for task number total: grow both buffers when
   * no spare slot would remain, record the task's (pid, ticks) in the new
   * generation and charge it its elapsed ticks against the previous one.
   */
  method TrackTask(ppt: array<Task>, total: nat, sav: array<HistEntry>, nw: array<HistEntry>, siz: nat,
                   ghost sav0: array<HistEntry>, ghost nw0: array<HistEntry>, ghost siz0: nat,
                   prevN: nat, ghost prev: seq<HistEntry>, ghost table: seq<Task>)
    returns (sav': array<HistEntry>, nw': array<HistEntry>, siz': nat)
    requires total < ppt.Length == |table|
    requires Buffers(sav, nw, siz, sav0, nw0, siz0, total, prevN, prev, table)
    requires forall j :: 0 <= j < total ==> Charged(prev, table[j], ppt[j])
    requires forall j :: total <= j < ppt.Length ==> ppt[j] == table[j]
    modifies ppt, nw
    ensures Buffers(sav', nw', siz', sav0, nw0, siz0, total + 1, prevN, prev, table)
    ensures siz' == if total + 1 >= siz then Grow(siz) else siz
    ensures sav' == sav || fresh(sav')
    ensures nw' == nw || fresh(nw')
    ensures forall j :: 0 <= j < total + 1 ==> Charged(prev, table[j], ppt[j])
    ensures forall j :: total + 1 <= j < ppt.Length ==> ppt[j] == table[j]
  {
    var task := ppt[total];
    RecordSnoc(table, total);
    sav', nw', siz' := MakeRoom(total, sav, nw, siz, sav0, nw0, siz0, prevN, prev, table);
    var tics := task.utime + task.stime;
    nw'[total] := HistEntry(task.pid, tics);
    assert nw'[..total + 1] == nw'[..total] + [HistEntry(task.pid, tics)];
    var d := ElapsedTics(sav', prevN, task.pid, tics);
    ppt[total] := task.(pcpu := d);
  }
}
