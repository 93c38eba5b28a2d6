/**
 * The process table as the refresh engine sees it: a sequence of task
 * records terminated by a sentinel entry whose pid is -1.
 */
module Tasks {

  datatype Option<+T> = None | Some(value: T)

  /** One process snapshot (a proc_t), reduced to the members the core reads or writes. */
  datatype Task = Task(
    pid: int,
    state: char,
    utime: nat,
    stime: nat,
    cutime: nat,
    cstime: nat,
    pcpu: int,                       // elapsed ticks, written by the history engine
    euser: string,
    cmd: string,                     // bare program name
    cmdline: Option<seq<string>>)    // argument vector, when it was requested and exists

  const SentinelPid: int := -1

  /** Cumulative own ticks of a task, the value the history buffers remember. */
  function Tics(t: Task): nat {
    t.utime + t.stime
  }

  /** The table holds a sentinel somewhere. */
  predicate Terminated(tasks: seq<Task>) {
    exists i :: 0 <= i < |tasks| && tasks[i].pid == SentinelPid
  }

  /** Number of live entries: the position of the first sentinel. */
  function Live(tasks: seq<Task>): (n: nat)
    requires Terminated(tasks)
    ensures n < |tasks| && tasks[n].pid == SentinelPid
    ensures forall j :: 0 <= j < n ==> tasks[j].pid != SentinelPid
    decreases |tasks|
  {
    if tasks[0].pid == SentinelPid then 0
    else
      var i :| 0 <= i < |tasks| && tasks[i].pid == SentinelPid;
      assert tasks[1..][i - 1].pid == SentinelPid;
      1 + Live(tasks[1..])
  }

  /** Updating members other than pid keeps the sentinel where it was. */
  lemma {:induction false} LiveIgnoresPayload(a: seq<Task>, b: seq<Task>)
    requires Terminated(a)
    requires |a| == |b| && forall j :: 0 <= j < |a| ==> a[j].pid == b[j].pid
    ensures Terminated(b) && Live(b) == Live(a)
    decreases |a|
  {
    var n := Live(a);
    assert b[n].pid == SentinelPid;
    if a[0].pid != SentinelPid {
      LiveIgnoresPayload(a[1..], b[1..]);
    }
  }
}
