/**
 * The two hand-written sort callbacks: cumulative CPU time (with or without
 * the children's time) and command name/line.  The frame's sort direction,
 * cumulative-time flag and command-line flag are explicit parameters; the
 * direction is +1 for the normal (largest first) order and -1 for the
 * reversed one.  A negative result sorts the first task before the second.
 */
module Sorting {
  import opened Tasks
  import opened Text

  predicate IsDirection(srtflg: int) {
    srtflg == 1 || srtflg == -1
  }

  /** The result for "first key is smaller": under the normal direction a
      smaller key sorts after the larger one. */
  function SortLt(srtflg: int): int {
    if srtflg > 0 then 1 else -1
  }

  /** The result for "first key is larger". */
  function SortGt(srtflg: int): int {
    if srtflg > 0 then -1 else 1
  }

  /** The time a task is sorted by: its own user and system ticks, plus its
      waited-for children's when cumulative time is shown. */
  function TimeKey(t: Task, ctimes: bool): nat {
    if ctimes then t.cutime + t.cstime + t.utime + t.stime else t.utime + t.stime
  }

  /** sort_P_TME (also used by the TIME+ column). */
  function SortTime(p: Task, q: Task, ctimes: bool, srtflg: int): (r: int)
    ensures -1 <= r <= 1
    ensures r == 0 <==> TimeKey(p, ctimes) == TimeKey(q, ctimes)
    ensures srtflg > 0 ==> (r < 0 <==> TimeKey(p, ctimes) > TimeKey(q, ctimes))
    ensures srtflg <= 0 ==> (r < 0 <==> TimeKey(p, ctimes) < TimeKey(q, ctimes))
  {
    if ctimes then
      if p.cutime + p.cstime + p.utime + p.stime < q.cutime + q.cstime + q.utime + q.stime then SortLt(srtflg)
      else if p.cutime + p.cstime + p.utime + p.stime > q.cutime + q.cstime + q.utime + q.stime then SortGt(srtflg)
      else 0
    else
      if p.utime + p.stime < q.utime + q.stime then SortLt(srtflg)
      else if p.utime + p.stime > q.utime + q.stime then SortGt(srtflg)
      else 0
  }

  /** Swapping the tasks negates the time comparison, and so does flipping
      the direction: the reversed order is the exact mirror of the normal one. */
  lemma SortTimeMirror(p: Task, q: Task, ctimes: bool)
    ensures SortTime(p, q, ctimes, 1) == -SortTime(q, p, ctimes, 1)
    ensures SortTime(p, q, ctimes, -1) == -SortTime(p, q, ctimes, 1)
  {
  }

  /** The time comparison is a total preorder in either direction. */
  lemma SortTimeTransitive(a: Task, b: Task, c: Task, ctimes: bool, srtflg: int)
    requires SortTime(a, b, ctimes, srtflg) <= 0 && SortTime(b, c, ctimes, srtflg) <= 0
    ensures SortTime(a, c, ctimes, srtflg) <= 0
  {
  }

  /** Every argument vector a task carries has a first element. */
  predicate ArgvShaped(t: Task) {
    t.cmdline.Some? ==> |t.cmdline.value| >= 1
  }

  /** sort_P_CMD: with the command-line flag set, a task that has an argument
      vector sorts before (normal direction) one that has none, and two tasks
      that both have one compare on their first argument, at most maxcmdln
      characters of it; otherwise the bare program names are compared. */
  function SortCommand(p: Task, q: Task, cmdlin: bool, srtflg: int, maxcmdln: int): (r: int)
    requires ArgvShaped(p) && ArgvShaped(q)
  {
    if cmdlin && (p.cmdline.Some? || q.cmdline.Some?) then
      if q.cmdline.None? then srtflg * -1
      else if p.cmdline.None? then srtflg
      else srtflg * Strncmp(q.cmdline.value[0], p.cmdline.value[0], maxcmdln)
    else srtflg * Strcmp(q.cmd, p.cmd)
  }

  /**
   * With the flag set, a task with an argument vector sorts before one
   * without in the normal direction.  In either direction two tasks tie
   * exactly when the comparison cannot tell them apart: when an argument
   * vector takes part, both have one and their first arguments agree on the
   * leading maxcmdln characters; otherwise their names are equal.
   */
  lemma SortCommandOrder(p: Task, q: Task, cmdlin: bool, srtflg: int, maxcmdln: int)
    requires ArgvShaped(p) && ArgvShaped(q) && IsDirection(srtflg)
    ensures cmdlin && p.cmdline.Some? && q.cmdline.None? ==> SortCommand(p, q, cmdlin, 1, maxcmdln) < 0
    ensures SortCommand(p, q, cmdlin, srtflg, maxcmdln) == 0 <==>
              if cmdlin && (p.cmdline.Some? || q.cmdline.Some?) then
                p.cmdline.Some? && q.cmdline.Some?
                && Head(p.cmdline.value[0], maxcmdln) == Head(q.cmdline.value[0], maxcmdln)
              else p.cmd == q.cmd
  {
    if cmdlin && p.cmdline.Some? && q.cmdline.Some? {
      StrncmpZeroIffEqual(q.cmdline.value[0], p.cmdline.value[0], maxcmdln);
    } else if !(cmdlin && (p.cmdline.Some? || q.cmdline.Some?)) {
      StrcmpZeroIffEqual(q.cmd, p.cmd);
    }
  }

  /** Swapping the tasks negates the command comparison, and so does
      flipping the direction. */
  lemma SortCommandMirror(p: Task, q: Task, cmdlin: bool, maxcmdln: int)
    requires ArgvShaped(p) && ArgvShaped(q)
    ensures SortCommand(p, q, cmdlin, 1, maxcmdln) == -SortCommand(q, p, cmdlin, 1, maxcmdln)
    ensures SortCommand(p, q, cmdlin, -1, maxcmdln) == -SortCommand(p, q, cmdlin, 1, maxcmdln)
  {
    if cmdlin && p.cmdline.Some? && q.cmdline.Some? {
      StrncmpAntisymmetric(q.cmdline.value[0], p.cmdline.value[0], maxcmdln);
    } else if !(cmdlin && (p.cmdline.Some? || q.cmdline.Some?)) {
      StrcmpAntisymmetric(q.cmd, p.cmd);
    }
  }

  /** The command comparison is transitive in either direction, so a sort
      by it is well defined. */
  lemma SortCommandTransitive(a: Task, b: Task, c: Task, cmdlin: bool, srtflg: int, maxcmdln: int)
    requires ArgvShaped(a) && ArgvShaped(b) && ArgvShaped(c) && IsDirection(srtflg)
    requires SortCommand(a, b, cmdlin, srtflg, maxcmdln) <= 0
    requires SortCommand(b, c, cmdlin, srtflg, maxcmdln) <= 0
    ensures SortCommand(a, c, cmdlin, srtflg, maxcmdln) <= 0
  {
    var has := (t: Task) => cmdlin && t.cmdline.Some?;
    if has(a) && has(b) && has(c) {
      var x, y, z := a.cmdline.value[0], b.cmdline.value[0], c.cmdline.value[0];
      if srtflg == 1 {
        StrncmpTransitive(z, y, x, maxcmdln);
      } else {
        StrncmpAntisymmetric(y, x, maxcmdln);
        StrncmpAntisymmetric(z, y, maxcmdln);
        StrncmpAntisymmetric(z, x, maxcmdln);
        StrncmpTransitive(x, y, z, maxcmdln);
      }
    } else if !has(a) && !has(b) && !has(c) {
      if srtflg == 1 {
        StrcmpTransitive(c.cmd, b.cmd, a.cmd);
      } else {
        StrcmpAntisymmetric(b.cmd, a.cmd);
        StrcmpAntisymmetric(c.cmd, b.cmd);
        StrcmpAntisymmetric(c.cmd, a.cmd);
        StrcmpTransitive(a.cmd, b.cmd, c.cmd);
      }
    }
  }
}
