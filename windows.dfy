/**
 * A window (field group) record and the derived state computed from its
 * field-group string: the displayed-field list, the column header that
 * fits the screen width, and the room left for the Command column.  Also
 * the read-only visibility test and the sort-field stepping of '<' and '>'.
 */
module Windows {
  import opened Tasks
  import opened Text
  import opened Fields

  /** The window flags the core reads or changes. */
  datatype Flag =
    | ShowCMDLIN     // 'c': command line instead of name
    | ShowCTIMES     // 'S': cumulative time
    | ShowIDLEPS     // 'i': show idle tasks
    | ShowCOLORS     // 'z': colors
    | ShowHIBOLD     // 'b': bold highlighting
    | ShowHIROWS     // 'y': highlight running tasks
    | ShowHICOLS     // 'x': highlight the sort column
    | QsrtNORMAL     // 'R': normal (largest first) sort direction
    | VisibleTsk     // the window shows tasks in multi-window mode
    | EquWinsCwo     // '+': rebalance the windows on the next frame
    | ViewCPUSUM     // '1': one summary line for all cpus
    | ViewLOADAV     // 'l': the load-average summary line
    | ViewMEMORY     // 'm': the memory summary lines
    | ViewSTATES     // 't': the task and cpu state summary lines

  /** One field group.  The four color numbers are kept in the order
      summary, messages, headings, tasks. */
  datatype Win = Win(
    winnum: nat,
    winname: string,
    fieldscur: string,
    sortindx: nat,
    winflags: set<Flag>,
    maxtasks: int,
    winlines: int,
    colusrnam: string,
    summclr: int,
    msgsclr: int,
    headclr: int,
    taskclr: int,
    procflags: seq<nat>,     // displayed fields, as table indices
    maxpflgs: nat,           // how many of them fit the screen
    columnhdr: string,
    maxcmdln: int)

  predicate FieldList(pf: seq<nat>) {
    forall k :: 0 <= k < |pf| ==> pf[k] < FieldCount
  }

  // ---------------------------------------------------------------- headers

  /** The headers of the given fields, back to back. */
  function HeadsOf(pf: seq<nat>): string
    requires FieldList(pf)
  {
    if pf == [] then "" else HeadsOf(pf[..|pf| - 1]) + Heads[pf[|pf| - 1]]
  }

  /** What the preliminary header starts with: one column reserved for the
      window number in multi-window mode. */
  function Lead(altscr: bool): string {
    if altscr then " " else ""
  }

  /** Width of the preliminary header holding the first k displayed fields. */
  function PrelimWidth(altscr: bool, pf: seq<nat>, k: nat): nat
    requires FieldList(pf) && k <= |pf|
  {
    |Lead(altscr)| + |HeadsOf(pf[..k])|
  }

  /** The number of leading fields whose headers all fit in cols columns:
      the largest k for which the first k headers fit. */
  function FitCount(altscr: bool, pf: seq<nat>, cols: nat): (m: nat)
    requires FieldList(pf)
    ensures m <= |pf|
  {
    if pf == [] then 0
    else if PrelimWidth(altscr, pf, |pf|) <= cols then |pf|
    else FitCount(altscr, pf[..|pf| - 1], cols)
  }

  /** The Command column's heading, "%-*.*s " applied to "Command " with
      width and precision w: cut to w characters and padded to w. */
  function CmdHeading(w: int): (h: string)
    ensures w >= 0 ==> |h| == w + 1
  {
    var text := if 0 <= w < |Heads[P_CMD]| then Heads[P_CMD][..w] else Heads[P_CMD];
    var width := if w < 0 then -w else w;
    text + seq(if width > |text| then width - |text| else 0, _ => ' ') + " "
  }

  /** One field's heading in the final header. */
  function ColumnHead(f: nat, w: int): string
    requires f < FieldCount
  {
    if f == P_CMD then CmdHeading(w) else Heads[f]
  }

  /** The final header's field headings, the Command heading grown to w. */
  function Columns(pf: seq<nat>, w: int): string
    requires FieldList(pf)
  {
    if pf == [] then "" else Columns(pf[..|pf| - 1], w) + ColumnHead(pf[|pf| - 1], w)
  }

  /**
   * What win_colsheads leaves in a window: the displayed fields of its
   * field-group string, how many of them fit the screen, the room left for
   * the command line, and the header (prefixed with the window number in
   * multi-window mode).  Nothing else changes.
   */
  function Laid(q: Win, cols: nat, altscr: bool): (r: Win)
    ensures FieldList(r.procflags) && r.maxpflgs <= |r.procflags|
  {
    var pf := Visible(q.fieldscur);
    var m := FitCount(altscr, pf, cols);
    LaidOf(q, pf, m, CmdWidth(altscr, pf, m, cols), Start(q, altscr))
  }

  /** The Command column's width: what the other headers leave of the
      screen, less one for the separating space. */
  function CmdWidth(altscr: bool, pf: seq<nat>, m: nat, cols: nat): int
    requires FieldList(pf) && m <= |pf|
  {
    cols - (PrelimWidth(altscr, pf, m) - |Heads[P_CMD]|) - 1
  }

  /** The start of the final header: the window number on the alternate
      display. */
  function Start(q: Win, altscr: bool): string {
    if altscr then Dec(q.winnum) else ""
  }

  /** The window with its header fields set from their parts. */
  function LaidOf(q: Win, pf: seq<nat>, m: nat, w: int, start: string): Win
    requires FieldList(pf) && m <= |pf|
  {
    q.(procflags := pf, maxpflgs := m, maxcmdln := w, columnhdr := start + Columns(pf[..m], w))
  }

  lemma HeadsOfSnoc(pf: seq<nat>, k: nat)
    requires FieldList(pf) && k < |pf|
    ensures HeadsOf(pf[..k + 1]) == HeadsOf(pf[..k]) + Heads[pf[k]]
  {
    assert pf[..k + 1][..k] == pf[..k];
  }

  lemma ColumnsSnoc(pf: seq<nat>, k: nat, w: int)
    requires FieldList(pf) && k < |pf|
    ensures Columns(pf[..k + 1], w) == Columns(pf[..k], w) + ColumnHead(pf[k], w)
  {
    assert pf[..k + 1][..k] == pf[..k];
  }

  /** Adding a field never makes the preliminary header narrower. */
  lemma {:induction false} PrelimMonotone(altscr: bool, pf: seq<nat>, j: nat, k: nat)
    requires FieldList(pf) && j <= k <= |pf|
    ensures PrelimWidth(altscr, pf, j) <= PrelimWidth(altscr, pf, k)
    decreases k - j
  {
    if j < k {
      HeadsOfSnoc(pf, j);
      PrelimMonotone(altscr, pf, j + 1, k);
    }
  }

  lemma PrelimOfPrefix(altscr: bool, pf: seq<nat>, n: nat, k: nat)
    requires FieldList(pf) && k <= n <= |pf|
    ensures PrelimWidth(altscr, pf[..n], k) == PrelimWidth(altscr, pf, k)
  {
    assert pf[..n][..k] == pf[..k];
  }

  /** FitCount is the longest prefix that fits: its headers fit (unless it
      is empty) and every longer prefix overflows, so a header is never
      partly included. */
  lemma {:induction false} FitCountLongest(altscr: bool, pf: seq<nat>, cols: nat)
    requires FieldList(pf)
    ensures var m := FitCount(altscr, pf, cols);
            && (m >= 1 ==> PrelimWidth(altscr, pf, m) <= cols)
            && forall k :: m < k <= |pf| ==> PrelimWidth(altscr, pf, k) > cols
  {
    if pf != [] && PrelimWidth(altscr, pf, |pf|) > cols {
      var n := |pf| - 1;
      var init := pf[..n];
      FitCountLongest(altscr, init, cols);
      var m := FitCount(altscr, init, cols);
      if m >= 1 {
        PrelimOfPrefix(altscr, pf, n, m);
      }
      forall k | m < k <= |pf| ensures PrelimWidth(altscr, pf, k) > cols {
        if k <= n {
          PrelimOfPrefix(altscr, pf, n, k);
        } else {
          assert pf[..k] == pf;
        }
      }
    }
  }

  /** The first-failure scan the source runs finds FitCount: if the first m
      headers fit and the next one overflows (or there is none), m is the
      longest fitting prefix. */
  lemma FirstOverflowIsFitCount(altscr: bool, pf: seq<nat>, cols: nat, m: nat)
    requires FieldList(pf) && m <= |pf|
    requires m >= 1 ==> PrelimWidth(altscr, pf, m) <= cols
    requires m < |pf| ==> PrelimWidth(altscr, pf, m + 1) > cols
    ensures FitCount(altscr, pf, cols) == m
  {
    var f := FitCount(altscr, pf, cols);
    FitCountLongest(altscr, pf, cols);
    if f > m {
      PrelimMonotone(altscr, pf, m + 1, f);
    }
  }

  /** How often x occurs in pf. */
  function Count(pf: seq<nat>, x: nat): nat {
    if pf == [] then 0 else Count(pf[..|pf| - 1], x) + (if pf[|pf| - 1] == x then 1 else 0)
  }

  lemma {:induction false} CountIsMultiset(pf: seq<nat>, x: nat)
    ensures Count(pf, x) == multiset(pf)[x]
  {
    if pf != [] {
      CountIsMultiset(pf[..|pf| - 1], x);
      MultisetSnoc(pf);
    }
  }

  /** Without a Command heading the final header's headings are as wide
      as the plain ones; with one, it adds its own width over the plain
      heading's eight columns. */
  lemma {:induction false} ColumnsWidth(pf: seq<nat>, w: int)
    requires FieldList(pf) && w >= 0
    ensures Count(pf, P_CMD) == 0 ==> |Columns(pf, w)| == |HeadsOf(pf)|
    ensures Count(pf, P_CMD) == 1 ==> |Columns(pf, w)| == |HeadsOf(pf)| + w + 1 - |Heads[P_CMD]|
  {
    if pf != [] {
      var init: seq<nat> := pf[..|pf| - 1];
      var last: nat := pf[|pf| - 1];
      ColumnsWidth(init, w);
      ColumnHeadWidth(last, w);
      assert Columns(pf, w) == Columns(init, w) + ColumnHead(last, w);
      assert HeadsOf(pf) == HeadsOf(init) + Heads[last];
    }
  }

  /** A heading is its field's own heading, the Command one grown to w. */
  lemma ColumnHeadWidth(f: nat, w: int)
    requires f < FieldCount && w >= 0
    ensures |ColumnHead(f, w)| == |Heads[f]| + (if f == P_CMD then w + 1 - |Heads[P_CMD]| else 0)
  {
  }

  lemma MultisetSnoc(s: seq<nat>)
    requires s != []
    ensures multiset(s) == multiset(s[..|s| - 1]) + multiset{s[|s| - 1]}
  {
    assert s == s[..|s| - 1] + [s[|s| - 1]];
  }

  lemma MulSucc(c: nat, d: int)
    ensures (c + 1) * d == c * d + d
  {
  }

  /**
   * The preliminary header win_colsheads builds: the displayed fields are
   * the upper-case letters of the field-group string; the preliminary header
   * never exceeds the screen width and is the longest one that does not, and
   * the command line gets at least 7 columns.
   */
  lemma LaidFits(q: Win, cols: nat, altscr: bool)
    requires altscr ==> cols >= 1
    ensures var r := Laid(q, cols, altscr);
            && r.procflags == Visible(q.fieldscur)
            && PrelimWidth(altscr, r.procflags, r.maxpflgs) <= cols
            && (forall k :: r.maxpflgs < k <= |r.procflags| ==> PrelimWidth(altscr, r.procflags, k) > cols)
            && r.maxcmdln >= 7
  {
    var pf := Visible(q.fieldscur);
    FitCountLongest(altscr, pf, cols);
  }

  /** The final header's width for fields pf, the Command heading w wide
      and the start standing in for the lead. */
  lemma {:induction false} HeaderWidth(start: string, altscr: bool, pf: seq<nat>, w: nat)
    requires FieldList(pf) && |start| == |Lead(altscr)|
    ensures multiset(pf)[P_CMD] == 1 ==> |start + Columns(pf, w)| == PrelimWidth(altscr, pf, |pf|) - |Heads[P_CMD]| + w + 1
    ensures P_CMD !in pf ==> |start + Columns(pf, w)| == PrelimWidth(altscr, pf, |pf|)
  {
    ColumnsWidth(pf, w);
    CountIsMultiset(pf, P_CMD);
    assert pf[..|pf|] == pf;
  }

  /**
   * The final header win_colsheads builds is exactly as wide as the screen
   * when the Command field is shown (once): the Command column takes up
   * whatever the other headers leave.
   */
  lemma LaidWidthWithCommand(q: Win, cols: nat, altscr: bool)
    requires 1 <= q.winnum < 10
    requires altscr ==> cols >= 1
    ensures var r := Laid(q, cols, altscr);
            multiset(r.procflags[..r.maxpflgs])[P_CMD] == 1 ==> |r.columnhdr| == cols
  {
    var pf := Visible(q.fieldscur);
    var m := FitCount(altscr, pf, cols);
    var w := CmdWidth(altscr, pf, m, cols);
    var start := Start(q, altscr);
    assert |start| == |Lead(altscr)|;
    LaidPieces(altscr, pf, cols, m, w, start);
  }

  /** Without the Command field the final header is as wide as the
      preliminary one. */
  lemma LaidWidthWithoutCommand(q: Win, cols: nat, altscr: bool)
    requires 1 <= q.winnum < 10
    requires altscr ==> cols >= 1
    ensures var r := Laid(q, cols, altscr);
            P_CMD !in r.procflags[..r.maxpflgs] ==> |r.columnhdr| == PrelimWidth(altscr, r.procflags, r.maxpflgs)
  {
    var pf := Visible(q.fieldscur);
    var m := FitCount(altscr, pf, cols);
    var w := CmdWidth(altscr, pf, m, cols);
    var start := Start(q, altscr);
    assert |start| == |Lead(altscr)|;
    LaidPieces(altscr, pf, cols, m, w, start);
  }

  /** The header's width from the fitted prefix, Laid's parts taken apart. */
  lemma LaidPieces(altscr: bool, pf: seq<nat>, cols: nat, m: nat, w: int, start: string)
    requires FieldList(pf) && m == FitCount(altscr, pf, cols)
    requires altscr ==> cols >= 1
    requires w == CmdWidth(altscr, pf, m, cols)
    requires |start| == |Lead(altscr)|
    ensures w >= 7
    ensures multiset(pf[..m])[P_CMD] == 1 ==> |start + Columns(pf[..m], w)| == cols
    ensures P_CMD !in pf[..m] ==> |start + Columns(pf[..m], w)| == PrelimWidth(altscr, pf, m)
  {
    FitCountLongest(altscr, pf, cols);
    HeaderWidth(start, altscr, pf[..m], w);
    PrelimOfPrefix(altscr, pf, m, m);
  }

  /** win_colsheads, first pass: the displayed fields, one per upper-case
      letter of the field-group string, in order. */
  method DisplayedFields(s: string) returns (pf: seq<nat>)
    ensures pf == Visible(s)
  {
    pf := [];
    var i := 0;
    while i < |s|
      invariant 0 <= i <= |s|
      invariant pf == Visible(s[..i])
    {
      VisibleSnoc(s, i);
      if 'A' <= s[i] <= 'Z' {
        pf := pf + [s[i] as int - 'A' as int];
      }
      i := i + 1;
    }
    assert s[..|s|] == s;
  }

  /** win_colsheads, second pass: add headers to a preliminary header while
      they fit the screen; yields how many fit and the header's width. */
  method FitHeaders(pf: seq<nat>, cols: nat, altscr: bool) returns (m: nat, width: nat)
    requires FieldList(pf)
    ensures m == FitCount(altscr, pf, cols)
    ensures width == PrelimWidth(altscr, pf, m)
  {
    var hdr := Lead(altscr);
    m := 0;
    while m < |pf|
      invariant 0 <= m <= |pf|
      invariant |hdr| == PrelimWidth(altscr, pf, m)
      invariant m >= 1 ==> |hdr| <= cols
    {
      var h := Heads[pf[m]];
      HeadsOfSnoc(pf, m);
      if cols < |hdr| + |h| {
        break;
      }
      hdr := hdr + h;
      m := m + 1;
    }
    FirstOverflowIsFitCount(altscr, pf, cols, m);
    width := |hdr|;
  }

  /** win_colsheads, third pass: the run-time header, each fitting field's
      heading after the given start, the Command heading grown to w. */
  method BuildHeader(start: string, pf: seq<nat>, m: nat, w: int) returns (hdr: string)
    requires FieldList(pf) && m <= |pf|
    ensures hdr == start + Columns(pf[..m], w)
  {
    var cols := "";
    var i := 0;
    while i < m
      invariant 0 <= i <= m
      invariant cols == Columns(pf[..i], w)
    {
      ColumnsSnoc(pf, i, w);
      if pf[i] == P_CMD {
        cols := cols + CmdHeading(w);
      } else {
        cols := cols + Heads[pf[i]];
      }
      i := i + 1;
    }
    hdr := start + cols;
  }

  /** win_colsheads: the three passes, and the spare width for the command
      line taken from the preliminary header. */
  method ColsHeads(q: Win, cols: nat, altscr: bool) returns (r: Win)
    ensures r == Laid(q, cols, altscr)
  {
    var pf := DisplayedFields(q.fieldscur);
    var m, width := FitHeaders(pf, cols, altscr);
    var w := cols - (width - |Heads[P_CMD]|) - 1;
    var start := if altscr then Dec(q.winnum) else "";
    var hdr := BuildHeader(start, pf, m, w);
    r := q.(procflags := pf, maxpflgs := m, maxcmdln := w, columnhdr := hdr);
    assert w == CmdWidth(altscr, pf, m, cols) && start == Start(q, altscr);
    assert r == LaidOf(q, pf, m, w, start);
  }

  lemma VisibleSnoc(s: string, i: nat)
    requires i < |s|
    ensures Visible(s[..i + 1]) == Visible(s[..i]) + (if IsUpper(s[i]) then [s[i] as int - 'A' as int] else [])
  {
    VisibleAppend(s[..i], [s[i]]);
    assert s[..i + 1] == s[..i] + [s[i]];
  }

  lemma {:induction false} VisibleAppend(a: string, b: string)
    ensures Visible(a + b) == Visible(a) + Visible(b)
  {
    if a != [] {
      VisibleAppend(a[1..], b);
      assert (a + b)[0] == a[0];
      assert (a + b)[1..] == a[1..] + b;
    } else {
      assert a + b == b;
    }
  }

  /** A well-formed field-group string lists each displayed field once. */
  lemma {:induction false} VisibleDistinct(s: string)
    requires WellFormed(s)
    ensures forall j, k :: 0 <= j < k < |Visible(s)| ==> Visible(s)[j] != Visible(s)[k]
  {
    if s != [] {
      var t := s[1..];
      assert WellFormed(t) by {
        forall k, m | 0 <= k < m < |t| ensures FieldOf(t[k]) != FieldOf(t[m]) {
          assert t[k] == s[k + 1] && t[m] == s[m + 1];
        }
      }
      VisibleDistinct(t);
      if IsUpper(s[0]) {
        var f := s[0] as int - 'A' as int;
        assert f == FieldOf(s[0]);
        VisibleMembers(t, f);
      }
    }
  }

  // ---------------------------------------------------------------- win_fldviz

  /** win_fldviz: scan the fitting fields from the last one back to the
      first for flg.  Reads before the list when no field fits, so the
      caller must have at least one. */
  method FldViz(q: Win, flg: nat) returns (shown: bool)
    requires 1 <= q.maxpflgs <= |q.procflags|
    ensures shown <==> flg in q.procflags[..q.maxpflgs]
  {
    var p := q.maxpflgs - 1;
    while q.procflags[p] != flg && 0 < p
      invariant 0 <= p < q.maxpflgs
      invariant forall k :: p < k < q.maxpflgs ==> q.procflags[k] != flg
      decreases p
    {
      p := p - 1;
    }
    shown := q.procflags[p] == flg;
    assert q.procflags[..q.maxpflgs][p] == q.procflags[p];
  }

  // ---------------------------------------------------------------- '<' and '>'

  /** The last position of x in pf. */
  function LastPos(pf: seq<nat>, x: nat): (k: nat)
    requires x in pf
    ensures k < |pf| && pf[k] == x
    ensures forall j :: k < j < |pf| ==> pf[j] != x
  {
    if pf[|pf| - 1] == x then |pf| - 1
    else
      assert x in pf[..|pf| - 1] by {
        var j :| 0 <= j < |pf| && pf[j] == x;
        assert pf[..|pf| - 1][j] == x;
      }
      LastPos(pf[..|pf| - 1], x)
  }

  /** The first position of x in pf. */
  function FirstPos(pf: seq<nat>, x: nat): (k: nat)
    requires x in pf
    ensures k < |pf| && pf[k] == x
    ensures forall j :: 0 <= j < k ==> pf[j] != x
  {
    if pf[0] == x then 0
    else
      assert x in pf[1..] by {
        var j :| 0 <= j < |pf| && pf[j] == x;
        assert pf[1..][j - 1] == x;
      }
      1 + FirstPos(pf[1..], x)
  }

  /** '<': the sort field becomes the displayed field left of it (its last
      occurrence), unless it is the leftmost. */
  function StepLeft(pf: seq<nat>, x: nat): nat
    requires x in pf
  {
    var k := LastPos(pf, x);
    if k >= 1 then pf[k - 1] else x
  }

  /** '>': the sort field becomes the displayed field right of its first
      occurrence in pf, provided that one is among the first m (the fitting
      fields); otherwise it stays. */
  function StepRight(pf: seq<nat>, m: nat, x: nat): (r: nat)
    requires x in pf && m <= |pf|
    ensures r == x || r in pf[..m]
  {
    var k := FirstPos(pf, x);
    if k + 1 < m then
      assert pf[..m][k + 1] == pf[k + 1];
      pf[k + 1]
    else x
  }

  /** A sort field whose first occurrence lies among the first m fields is
      found there, so '>' over all of pf steps as it would over the fitting
      prefix alone. */
  lemma {:induction false} FirstPosPrefix(pf: seq<nat>, m: nat, x: nat)
    requires m <= |pf| && x in pf[..m]
    ensures x in pf && FirstPos(pf, x) == FirstPos(pf[..m], x)
    ensures StepRight(pf, m, x) == StepRight(pf[..m], m, x)
  {
    var k, f := FirstPos(pf[..m], x), FirstPos(pf, x);
    assert pf[k] == pf[..m][k];
    assert f <= k;
    assert pf[..m][f] == pf[f];
  }

  /** A displayed sort field that does not fit is left where it is by '>':
      the scan finds it at or past the fitting fields. */
  lemma StepRightPastFit(pf: seq<nat>, m: nat, x: nat)
    requires x in pf && m <= |pf| && x !in pf[..m]
    ensures StepRight(pf, m, x) == x
  {
  }

  predicate Distinct(pf: seq<nat>) {
    forall j, k :: 0 <= j < k < |pf| ==> pf[j] != pf[k]
  }

  /** Stepping keeps the sort field among the displayed ones, and with each
      field displayed once '>' undoes a '<' that moved, and '<' undoes a '>'
      that moved. */
  lemma StepsRoundTrip(pf: seq<nat>, x: nat)
    requires x in pf
    ensures StepLeft(pf, x) in pf && StepRight(pf, |pf|, x) in pf
    ensures Distinct(pf) && StepLeft(pf, x) != x ==> StepRight(pf, |pf|, StepLeft(pf, x)) == x
    ensures Distinct(pf) && StepRight(pf, |pf|, x) != x ==> StepLeft(pf, StepRight(pf, |pf|, x)) == x
  {
    var l, f := LastPos(pf, x), FirstPos(pf, x);
    if Distinct(pf) {
      assert l == f;
      if l >= 1 {
        var y := pf[l - 1];
        assert FirstPos(pf, y) == l - 1;
      }
      if f + 1 < |pf| {
        var y := pf[f + 1];
        assert LastPos(pf, y) == f + 1;
      }
    }
  }

  /** The '<' scan: from the last fitting field back to the sort field, then
      one more step left if there is one. */
  method SortLeftOf(q: Win) returns (x: nat)
    requires q.maxpflgs <= |q.procflags| && q.sortindx in q.procflags[..q.maxpflgs]
    ensures x == StepLeft(q.procflags[..q.maxpflgs], q.sortindx)
  {
    ghost var pf := q.procflags[..q.maxpflgs];
    var p := q.maxpflgs - 1;
    while q.procflags[p] != q.sortindx
      invariant 0 <= p < q.maxpflgs
      invariant forall k :: p < k < q.maxpflgs ==> pf[k] != q.sortindx
      invariant exists k :: 0 <= k <= p && pf[k] == q.sortindx
      decreases p
    {
      p := p - 1;
    }
    assert p == LastPos(pf, q.sortindx);
    if p - 1 >= 0 {
      x := q.procflags[p - 1];
    } else {
      x := q.sortindx;
    }
  }

  /** The '>' scan: from the first displayed field forward to the sort
      field, then one more step right if that still fits. */
  method SortRightOf(q: Win) returns (x: nat)
    requires q.maxpflgs <= |q.procflags| && q.sortindx in q.procflags
    ensures x == StepRight(q.procflags, q.maxpflgs, q.sortindx)
  {
    ghost var pf := q.procflags;
    var p := 0;
    while q.procflags[p] != q.sortindx
      invariant 0 <= p < |pf|
      invariant forall k :: 0 <= k < p ==> pf[k] != q.sortindx
      invariant exists k :: p <= k < |pf| && pf[k] == q.sortindx
      decreases |pf| - p
    {
      p := p + 1;
    }
    assert p == FirstPos(pf, q.sortindx);
    if p + 1 < q.maxpflgs {
      x := q.procflags[p + 1];
    } else {
      x := q.sortindx;
    }
  }
}
