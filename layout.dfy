/**
 * How the screen rows left after the summary are shared among the visible
 * windows, and which tasks one window shows in its share.
 */
module Layout {
  import opened Tasks
  import opened Text
  import opened Windows

  /** A window that shows tasks in multi-window mode. */
  predicate Shown(w: Win) {
    VisibleTsk in w.winflags
  }

  // ---------------------------------------------------------------- sohelpme

  /** The task caps of the shown windows among ws[lo..hi]. */
  function Reserved(ws: seq<Win>, lo: nat, hi: nat): int
    requires lo <= hi <= |ws|
    decreases hi - lo
  {
    if hi == lo then 0
    else Reserved(ws, lo, hi - 1) + (if Shown(ws[hi - 1]) then ws[hi - 1].maxtasks else 0)
  }

  /** The number of shown windows among ws[lo..hi]. */
  function ShownCount(ws: seq<Win>, lo: nat, hi: nat): (c: nat)
    requires lo <= hi <= |ws|
    ensures c <= hi - lo
    decreases hi - lo
  {
    if hi == lo then 0
    else ShownCount(ws, lo, hi - 1) + (if Shown(ws[hi - 1]) then 1 else 0)
  }

  /** Where the scan that starts at wix stops: just past the first shown
      window (from i on) at which the caps reserved so far reach max, or
      the end of the ring. */
  function ScanEnd(ws: seq<Win>, wix: nat, max: int, i: nat): (e: nat)
    requires wix <= i <= |ws|
    ensures i <= e <= |ws|
    decreases |ws| - i
  {
    if i == |ws| then |ws|
    else if Shown(ws[i]) && max <= Reserved(ws, wix, i + 1) then i + 1
    else ScanEnd(ws, wix, max, i + 1)
  }

  /** The number of windows the rows are shared among: the shown ones the
      scan met, and at least one. */
  function Sharers(ws: seq<Win>, wix: nat, max: int): (n: nat)
    requires wix <= |ws|
    ensures n >= 1
  {
    var c := ShownCount(ws, wix, ScanEnd(ws, wix, max, wix));
    if c == 0 then 1 else c
  }

  /** C's integer division, which truncates toward zero: the remainder
      a - b*q has the sign of a and is smaller than b in magnitude. */
  function CDiv(a: int, b: int): (q: int)
    requires b > 0
    ensures a >= 0 ==> 0 <= a - b * q < b
    ensures a < 0 ==> -b < a - b * q <= 0
  {
    if a >= 0 then a / b else -((-a) / b)
  }

  /** The share of an uncapped window: one row per sharer is set aside for
      its column header, the rest is split evenly. */
  function Share(ws: seq<Win>, wix: nat, max: int): int
    requires wix <= |ws|
  {
    CDiv(max - Sharers(ws, wix, max), Sharers(ws, wix, max))
  }

  /** The rows a window is allotted: its own task cap when it has one,
      the even share otherwise. */
  function Allot(w: Win, share: int): int {
    if w.maxtasks != 0 then w.maxtasks else share
  }

  /** What sohelpme leaves in the ring: every shown window from wix on gets
      its allotment as its row limit, every other window is untouched. */
  function Apportion(ws: seq<Win>, wix: nat, max: int): (r: seq<Win>)
    requires wix <= |ws|
    ensures |r| == |ws|
  {
    var share := Share(ws, wix, max);
    seq(|ws|, i requires 0 <= i < |ws| =>
      if wix <= i && Shown(ws[i]) then ws[i].(winlines := Allot(ws[i], share)) else ws[i])
  }

  /** The rows the shown windows from lo on will use: their row limit plus
      one line for the column header each. */
  function Demand(ws: seq<Win>, lo: nat, hi: nat): int
    requires lo <= hi <= |ws|
    decreases hi - lo
  {
    if hi == lo then 0
    else Demand(ws, lo, hi - 1) + (if Shown(ws[hi - 1]) then ws[hi - 1].winlines + 1 else 0)
  }

  predicate Uncapped(ws: seq<Win>, wix: nat)
    requires wix <= |ws|
  {
    forall i :: wix <= i < |ws| && Shown(ws[i]) ==> ws[i].maxtasks == 0
  }

  lemma {:induction false} NothingReserved(ws: seq<Win>, wix: nat, hi: nat)
    requires wix <= hi <= |ws| && Uncapped(ws, wix)
    ensures Reserved(ws, wix, hi) == 0
    decreases hi - wix
  {
    if hi > wix {
      NothingReserved(ws, wix, hi - 1);
    }
  }

  /** With no caps and a positive budget the scan never stops early. */
  lemma {:induction false} UncappedScansAll(ws: seq<Win>, wix: nat, max: int, i: nat)
    requires wix <= i <= |ws| && Uncapped(ws, wix) && max >= 1
    ensures ScanEnd(ws, wix, max, i) == |ws|
    decreases |ws| - i
  {
    if i < |ws| {
      NothingReserved(ws, wix, i + 1);
      UncappedScansAll(ws, wix, max, i + 1);
    }
  }

  lemma {:induction false} DemandOfShare(ws: seq<Win>, wix: nat, max: int, hi: nat)
    requires wix <= hi <= |ws| && Uncapped(ws, wix)
    ensures Demand(Apportion(ws, wix, max), wix, hi) == ShownCount(ws, wix, hi) * (Share(ws, wix, max) + 1)
    decreases hi - wix
  {
    if hi > wix {
      DemandOfShare(ws, wix, max, hi - 1);
      var r := Apportion(ws, wix, max);
      var s := Share(ws, wix, max) + 1;
      assert Shown(r[hi - 1]) == Shown(ws[hi - 1]);
      assert Shown(ws[hi - 1]) ==> r[hi - 1].winlines + 1 == s;
      MulSucc(ShownCount(ws, wix, hi - 1), s);
    }
  }

  /**
   * With no task caps among the shown windows and at least one row per
   * shown window, every shown window from wix on gets the same share and
   * the rows asked for, headers included, fit the budget; fewer than one
   * row per window is left over.
   */
  lemma UncappedShareFits(ws: seq<Win>, wix: nat, max: int)
    requires wix <= |ws| && Uncapped(ws, wix)
    requires 1 <= ShownCount(ws, wix, |ws|) <= max
    ensures var n := ShownCount(ws, wix, |ws|);
            && Sharers(ws, wix, max) == n
            && Share(ws, wix, max) == (max - n) / n
            && Demand(Apportion(ws, wix, max), wix, |ws|) <= max
            && max - Demand(Apportion(ws, wix, max), wix, |ws|) < n
  {
    var n := ShownCount(ws, wix, |ws|);
    UncappedScansAll(ws, wix, max, wix);
    DemandOfShare(ws, wix, max, |ws|);
    DivBounds(max - n, n);
  }

  /** Euclidean division by a positive divisor leaves a remainder below it. */
  lemma DivBounds(a: nat, n: nat)
    requires n >= 1
    ensures n * (a / n) <= a < n * (a / n) + n
    ensures n * (a / n + 1) == n * (a / n) + n
  {
  }

  /** Two shown windows, the first capped at 5 tasks, the second uncapped,
      and 20 rows: the first gets 5 rows, the second (20 - 2) / 2 = 9, and
      with their headers they use 16 of the 20 rows. */
  lemma CappedAndUncappedExample(a: Win, b: Win, c: Win, d: Win)
    requires Shown(a) && a.maxtasks == 5
    requires Shown(b) && b.maxtasks == 0
    requires !Shown(c) && !Shown(d)
    ensures var r := Apportion([a, b, c, d], 0, 20);
            && r[0].winlines == 5 && r[1].winlines == 9
            && r[2] == c && r[3] == d
            && Demand(r, 0, 4) == 16
  {
    var ws := [a, b, c, d];
    assert Reserved(ws, 0, 1) == 5;
    assert Reserved(ws, 0, 2) == 5;
    assert Reserved(ws, 0, 3) == 5;
    assert Reserved(ws, 0, 4) == 5;
    assert ScanEnd(ws, 0, 20, 3) == 4;
    assert ScanEnd(ws, 0, 20, 2) == 4;
    assert ScanEnd(ws, 0, 20, 1) == 4;
    assert ScanEnd(ws, 0, 20, 0) == 4;
    assert ShownCount(ws, 0, 4) == 2;
    var r := Apportion(ws, 0, 20);
    assert r[0].winlines == 5 && r[1].winlines == 9;
    assert Demand(r, 0, 1) == 6;
    assert Demand(r, 0, 2) == 16;
  }

  // ---------------------------------------------------------------- do_window

  /** A task earns a row in window q: idle tasks only when q shows them
      (sleeping 'S' and zombie 'Z' count as idle), and, when q filters by
      user, only the user's tasks. */
  predicate Qualifies(q: Win, t: Task) {
    && (ShowIDLEPS in q.winflags || (t.state != 'S' && t.state != 'Z'))
    && (q.colusrnam == "" || Strcmp(q.colusrnam, t.euser) == 0)
  }

  /** The positions among table[..n] of the tasks that qualify, in order. */
  function Candidates(table: seq<Task>, q: Win, n: nat): (r: seq<nat>)
    requires n <= |table|
    ensures |r| <= n
    ensures forall k :: 0 <= k < |r| ==> r[k] < n && Qualifies(q, table[r[k]])
    ensures forall j, k :: 0 <= j < k < |r| ==> r[j] < r[k]
  {
    if n == 0 then []
    else Candidates(table, q, n - 1) + (if Qualifies(q, table[n - 1]) then [n - 1] else [])
  }

  function Min(a: int, b: int): int {
    if a <= b then a else b
  }

  /** How many rows window q may show, out of avail candidates, when its
      rows start at screen line start: no more than its row limit when it
      has one, and, on a terminal, no more than the lines left. */
  function RowCap(q: Win, start: int, maxLines: int, batch: bool, avail: nat): (n: nat)
    ensures n <= avail
  {
    var byWin := if q.winlines == 0 then avail else Min(avail, if q.winlines < 0 then 0 else q.winlines);
    var byScreen := if maxLines <= start then 0 else if batch then avail else maxLines - start;
    Min(byWin, byScreen)
  }

  /** The tasks window q shows: the first qualifying live tasks, as many as
      its row cap allows. */
  function Rows(table: seq<Task>, q: Win, start: int, maxLines: int, batch: bool): seq<nat>
    requires Terminated(table)
  {
    var c := Candidates(table, q, Live(table));
    c[..RowCap(q, start, maxLines, batch, |c|)]
  }

  lemma {:induction false} CandidatesPrefix(table: seq<Task>, q: Win, i: nat, j: nat)
    requires i <= j <= |table|
    ensures |Candidates(table, q, i)| <= |Candidates(table, q, j)|
    ensures Candidates(table, q, i) == Candidates(table, q, j)[..|Candidates(table, q, i)|]
    decreases j - i
  {
    if i < j {
      CandidatesPrefix(table, q, i, j - 1);
      var a, b := Candidates(table, q, i), Candidates(table, q, j - 1);
      assert Candidates(table, q, j)[..|b|] == b;
      assert b[..|a|] == a;
    }
  }

  /**
   * The do_window row loop: emit qualifying tasks until the sentinel, the
   * last screen line, or the window's row limit; lscr counts the header and
   * every row on a terminal, nothing in batch mode.  Returns the positions of
   * the tasks shown.
   */
  method WindowRows(table: seq<Task>, q: Win, lscr0: int, maxLines: int, batch: bool)
    returns (shown: seq<nat>, lscr: int)
    requires Terminated(table)
    ensures var start := if batch then lscr0 else lscr0 + 1;
            && shown == Rows(table, q, start, maxLines, batch)
            && lscr == start + (if batch then 0 else |shown|)
  {
    lscr := lscr0;
    // the header line takes one screen line on a terminal
    if !batch {
      lscr := lscr + 1;
    }
    ghost var start := lscr;
    var lwin := 1;
    var i := 0;
    shown := [];
    while table[i].pid != SentinelPid && lscr < maxLines && (q.winlines == 0 || lwin <= q.winlines)
      invariant 0 <= i <= Live(table)
      invariant shown == Candidates(table, q, i)
      invariant lwin == |shown| + 1
      invariant lscr == start + (if batch then 0 else |shown|)
      invariant q.winlines != 0 ==> |shown| <= (if q.winlines < 0 then 0 else q.winlines)
      invariant maxLines <= start ==> shown == []
      invariant !batch && start < maxLines ==> |shown| <= maxLines - start
      decreases Live(table) - i
    {
      if Qualifies(q, table[i]) {
        shown := shown + [i];
        if !batch {
          lscr := lscr + 1;
        }
        lwin := lwin + 1;
      }
      i := i + 1;
    }
    RowLoopExit(table, q, start, maxLines, batch, i);
  }

  /** Whichever of its three conditions ends the row loop, the tasks it
      emitted are the window's rows. */
  lemma RowLoopExit(table: seq<Task>, q: Win, start: int, maxLines: int, batch: bool, i: nat)
    requires Terminated(table) && i <= Live(table)
    requires var shown := Candidates(table, q, i);
             && (q.winlines != 0 ==> |shown| <= (if q.winlines < 0 then 0 else q.winlines))
             && (maxLines <= start ==> shown == [])
             && (!batch && start < maxLines ==> |shown| <= maxLines - start)
             && (table[i].pid == SentinelPid
                 || maxLines <= start + (if batch then 0 else |shown|)
                 || (q.winlines != 0 && |shown| + 1 > q.winlines))
    ensures Candidates(table, q, i) == Rows(table, q, start, maxLines, batch)
  {
    CandidatesPrefix(table, q, i, Live(table));
    if table[i].pid == SentinelPid {
      assert i == Live(table);
    }
  }

  /** The rows a window shows are live tasks that qualify, in table order,
      never more than its row limit, and on a terminal they never run past
      the last line. */
  lemma RowsBounded(table: seq<Task>, q: Win, start: int, maxLines: int, batch: bool)
    requires Terminated(table)
    ensures var r := Rows(table, q, start, maxLines, batch);
            && (forall k :: 0 <= k < |r| ==> r[k] < Live(table) && Qualifies(q, table[r[k]]))
            && (forall j, k :: 0 <= j < k < |r| ==> r[j] < r[k])
            && (q.winlines > 0 ==> |r| <= q.winlines)
            && (!batch && start <= maxLines ==> start + |r| <= maxLines)
            && (maxLines <= start ==> r == [])
  {
  }

  /** A qualifying live task is left out only when the window is full: the
      rows stop short of it only because the row cap was reached. */
  lemma RowsComplete(table: seq<Task>, q: Win, start: int, maxLines: int, batch: bool, i: nat)
    requires Terminated(table) && i < Live(table) && Qualifies(q, table[i])
    ensures var c := Candidates(table, q, Live(table));
            var r := Rows(table, q, start, maxLines, batch);
            i in r || |r| == RowCap(q, start, maxLines, batch, |c|) < |c|
  {
    var c := Candidates(table, q, Live(table));
    CandidateMember(table, q, i, Live(table));
    var r := Rows(table, q, start, maxLines, batch);
    if |r| == |c| {
      assert r == c;
    }
  }

  lemma {:induction false} CandidateMember(table: seq<Task>, q: Win, i: nat, n: nat)
    requires i < n <= |table| && Qualifies(q, table[i])
    ensures i in Candidates(table, q, n)
    decreases n
  {
    if i < n - 1 {
      CandidateMember(table, q, i, n - 1);
    }
  }
}
