/**
 * cpudo, integer part: per-category tick deltas of one CPU since the last
 * frame, clamped at zero, their total floored at one, and the current counters
 * kept as the baseline for the next frame.
 */
module CpuTicks {

  /** The five cumulative counters of one /proc/stat cpu line. */
  datatype Counters = Counters(u: int, n: int, s: int, i: int, w: int)

  /** One slot of the cpu array: current counters and the ones seen last frame. */
  datatype CpuSample = CpuSample(cur: Counters, sav: Counters)

  /** What one frame of one cpu amounts to. */
  datatype FrameTicks = FrameTicks(u: nat, s: nat, n: nat, i: nat, w: nat, tot: nat)

  /** TRIMz: negative tick counts (seen on some SMP kernels) become zero. */
  function TrimZ(x: int): (r: nat)
    ensures x >= 0 ==> r == x
    ensures x < 0 ==> r == 0
  {
    if x < 0 then 0 else x
  }

  function CategorySum(f: FrameTicks): nat {
    f.u + f.s + f.n + f.i + f.w
  }

  /** The deltas cpudo derives from one sample. */
  function Deltas(c: CpuSample): FrameTicks
  {
    var u := TrimZ(c.cur.u - c.sav.u);
    var s := TrimZ(c.cur.s - c.sav.s);
    var n := TrimZ(c.cur.n - c.sav.n);
    var i := TrimZ(c.cur.i - c.sav.i);
    var w := TrimZ(c.cur.w - c.sav.w);
    var tot := u + s + n + i + w;
    FrameTicks(u, s, n, i, w, if 1 > tot then 1 else tot)
  }

  /** The counters read this frame become the baseline of the next one. */
  function Rebase(c: CpuSample): (r: CpuSample)
    ensures r.cur == c.cur && r.sav == c.cur
  {
    CpuSample(c.cur, c.cur)
  }

  /** Each category is a share of the total (so each percentage is at most
      100) and the shares add up to the whole total exactly when some tick
      elapsed; an idle frame has total 1 and every share 0. */
  lemma SharesOfTotal(c: CpuSample)
    ensures var f := Deltas(c);
            && f.u <= f.tot && f.s <= f.tot && f.n <= f.tot && f.i <= f.tot && f.w <= f.tot
            && f.tot >= 1 && CategorySum(f) <= f.tot
            && (CategorySum(f) == f.tot <==> CategorySum(f) >= 1)
            && f.tot == (if CategorySum(f) >= 1 then CategorySum(f) else 1)
  {
  }

  /** With counters that never run backwards the clamp never fires: every
      delta is the plain difference. */
  lemma MonotoneCountersNotClamped(c: CpuSample)
    requires c.sav.u <= c.cur.u && c.sav.s <= c.cur.s && c.sav.n <= c.cur.n
    requires c.sav.i <= c.cur.i && c.sav.w <= c.cur.w
    ensures var f := Deltas(c);
            f.u + c.sav.u == c.cur.u && f.s + c.sav.s == c.cur.s && f.n + c.sav.n == c.cur.n
            && f.i + c.sav.i == c.cur.i && f.w + c.sav.w == c.cur.w
  {
  }

  /** A counter that ran backwards contributes nothing, never a negative share. */
  lemma RegressedCounterClamped(c: CpuSample)
    ensures var f := Deltas(c);
            (c.cur.u < c.sav.u ==> f.u == 0) && (c.cur.s < c.sav.s ==> f.s == 0)
            && (c.cur.n < c.sav.n ==> f.n == 0) && (c.cur.i < c.sav.i ==> f.i == 0)
            && (c.cur.w < c.sav.w ==> f.w == 0)
  {
  }

  /** After a rebase, a frame in which no counter moved shows nothing at all. */
  lemma RebasedFrameIsIdle(c: CpuSample)
    ensures var f := Deltas(Rebase(c));
            f.u == 0 && f.s == 0 && f.n == 0 && f.i == 0 && f.w == 0 && f.tot == 1
  {
  }

  /** cpudo on slot k of the cpu array: returns the frame's deltas and moves
      that slot's baseline to its current counters; every other slot is left
      alone. */
  method Cpudo(cpus: array<CpuSample>, k: nat) returns (f: FrameTicks)
    requires k < cpus.Length
    modifies cpus
    ensures f == Deltas(old(cpus[k]))
    ensures cpus[k] == Rebase(old(cpus[k]))
    ensures forall j :: 0 <= j < cpus.Length && j != k ==> cpus[j] == old(cpus[j])
  {
    f := Deltas(cpus[k]);
    cpus[k] := cpus[k].(sav := cpus[k].cur);
  }

  /**
   * The cpu part of a frame's state display: with the summary toggle on only
   * the aggregate slot (index cpuTot) is processed, otherwise every real cpu
   * 0 .. cpuTot-1 in turn.  The array holds one slot per cpu plus the
   * aggregate line.
   */
  method CpuStates(cpus: array<CpuSample>, cpuTot: nat, viewCpuSum: bool) returns (frames: seq<FrameTicks>)
    requires cpus.Length == cpuTot + 1
    modifies cpus
    ensures viewCpuSum ==> frames == [Deltas(old(cpus[cpuTot]))]
    ensures viewCpuSum ==> cpus[cpuTot] == Rebase(old(cpus[cpuTot]))
    ensures viewCpuSum ==> forall j :: 0 <= j < cpuTot ==> cpus[j] == old(cpus[j])
    ensures !viewCpuSum ==> |frames| == cpuTot
    ensures !viewCpuSum ==> forall j :: 0 <= j < cpuTot ==> frames[j] == Deltas(old(cpus[j]))
    ensures !viewCpuSum ==> forall j :: 0 <= j < cpuTot ==> cpus[j] == Rebase(old(cpus[j]))
    ensures !viewCpuSum ==> cpus[cpuTot] == old(cpus[cpuTot])
  {
    if viewCpuSum {
      var f := Cpudo(cpus, cpuTot);
      frames := [f];
    } else {
      frames := [];
      var i := 0;
      while i < cpuTot
        invariant 0 <= i <= cpuTot
        invariant |frames| == i
        invariant forall j :: 0 <= j < i ==> frames[j] == Deltas(old(cpus[j]))
        invariant forall j :: 0 <= j < i ==> cpus[j] == Rebase(old(cpus[j]))
        invariant forall j :: i <= j < cpus.Length ==> cpus[j] == old(cpus[j])
      {
        var f := Cpudo(cpus, i);
        frames := frames + [f];
        i := i + 1;
      }
    }
  }
}
