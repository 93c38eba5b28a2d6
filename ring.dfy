/**
 * The four windows (field groups), the current one, the display mode, and
 * the keys that reconfigure them.  The source links the four records into
 * a circular list; here they sit in one array and next/previous are index
 * arithmetic modulo four.
 */
module Ring {
  import opened Tasks
  import opened Fields
  import opened Windows
  import opened Layout

  const GroupsMax: nat := 4

  // curses color numbers
  const ColorRed := 1
  const ColorGreen := 2
  const ColorYellow := 3
  const ColorBlue := 4
  const ColorMagenta := 5
  const ColorCyan := 6
  const ColorWhite := 7

  /** The ring's links as the setup makes them: each window's next is the
      one after it, and the last one's next is the first. */
  function Next(i: nat): (j: nat)
    requires i < GroupsMax
    ensures j < GroupsMax
  {
    if i + 1 < GroupsMax then i + 1 else 0
  }

  function Prev(i: nat): (j: nat)
    requires i < GroupsMax
    ensures j < GroupsMax
  {
    if i == 0 then GroupsMax - 1 else i - 1
  }

  /** The ring closes: four steps either way come back to the start, and a
      step back undoes a step forward. */
  lemma RingCloses(i: nat)
    requires i < GroupsMax
    ensures Prev(Next(i)) == i && Next(Prev(i)) == i
    ensures Next(Next(Next(Next(i)))) == i
    ensures Next(i) != i && Next(Next(i)) != i && Next(Next(Next(i))) != i
  {
  }

  /** The window the setup table gives slot i: name, fields, sort field and
      the summary, message, heading and task colors.  Every other member
      starts zeroed. */
  function Stage1(i: nat, flds: string, winflgs: set<Flag>): (w: Win)
    requires i < GroupsMax
    ensures w.winnum == i + 1 && w.sortindx < FieldCount
  {
    var name := ["Def", "Job", "Mem", "Usr"][i];
    var sort := [P_CPU, P_PID, P_MEM, P_USR][i];
    var clrs := [[ColorRed, ColorRed, ColorYellow, ColorRed],
                 [ColorCyan, ColorCyan, ColorWhite, ColorCyan],
                 [ColorMagenta, ColorMagenta, ColorBlue, ColorMagenta],
                 [ColorYellow, ColorYellow, ColorGreen, ColorYellow]][i];
    Win(i + 1, name, flds, sort, winflgs, 0, 0, "",
        clrs[0], clrs[1], clrs[2], clrs[3], [], 0, "", 0)
  }

  /** win_select: 'a' moves to the next window, 'w' to the previous one,
      '1' to '4' pick a window; any other key keeps the current one. */
  function Selected(cur: nat, ch: char): (r: nat)
    requires cur < GroupsMax
    ensures r < GroupsMax
  {
    if ch == 'a' then Next(cur)
    else if ch == 'w' then Prev(cur)
    else if '1' <= ch <= '4' then ch as int - '1' as int
    else cur
  }

  /** The key a prompt reads from the keys typed after a command: the
      first of them, or NUL when none was typed. */
  function Prompted(keys: seq<char>): char {
    if keys == [] then 0 as char else keys[0]
  }

  datatype FlagOp = FlagsTog | FlagsSet | FlagsOff

  /** TOGw, SETw and OFFw on a flag set. */
  function Reflag(f: set<Flag>, what: FlagOp, flg: set<Flag>): (r: set<Flag>)
    ensures what == FlagsTog ==> forall x :: x in r <==> (x in f) != (x in flg)
    ensures what == FlagsSet ==> forall x :: x in r <==> x in f || x in flg
    ensures what == FlagsOff ==> forall x :: x in r <==> x in f && x !in flg
  {
    match what
    case FlagsTog => (f - flg) + (flg - f)
    case FlagsSet => f + flg
    case FlagsOff => f - flg
  }

  /** What wins_reflag does to one window: the flag operation, and when the
      flag is the rebalance request the task cap is cleared and idle tasks
      and the window itself are shown. */
  function ReflagWin(w: Win, what: FlagOp, flg: set<Flag>): (r: Win)
    ensures r.winnum == w.winnum && r.sortindx == w.sortindx
    ensures r.procflags == w.procflags && r.maxpflgs == w.maxpflgs
  {
    var v := w.(winflags := Reflag(w.winflags, what, flg));
    if flg == {EquWinsCwo} then v.(maxtasks := 0, winflags := v.winflags + {ShowIDLEPS, VisibleTsk}) else v
  }

  /** Toggling a flag twice restores the window; switching the rebalance
      request on always leaves the window visible and uncapped. */
  lemma ReflagProperties(w: Win, flg: set<Flag>)
    ensures flg != {EquWinsCwo} ==> ReflagWin(ReflagWin(w, FlagsTog, flg), FlagsTog, flg) == w
    ensures var r := ReflagWin(w, FlagsSet, {EquWinsCwo});
            && r.maxtasks == 0 && VisibleTsk in r.winflags && ShowIDLEPS in r.winflags
            && EquWinsCwo in r.winflags
    ensures var r := ReflagWin(w, FlagsOff, {EquWinsCwo});
            && EquWinsCwo !in r.winflags && VisibleTsk in r.winflags
  {
    var f := ReflagWin(ReflagWin(w, FlagsTog, flg), FlagsTog, flg).winflags;
    if flg != {EquWinsCwo} {
      assert f == w.winflags;
    }
  }

  /** The keys that act on the current window alone. */
  predicate WindowKey(ch: char) {
    FlagKey(ch) || ch in {'f', 'o', 'F', 'O', '<', '>', '=', '-', '+'}
  }

  /** The keys that flip one flag of the current window. */
  predicate FlagKey(ch: char) {
    ch in {'c', 'i', 'R', 'S', 'x', 'y', 'z', 'b', '1', 'l', 'm', 't'}
  }

  /**
   * What a key does to the current window w.  viz is VIZCHKc (single-window
   * mode, or w is visible); keys are the keys an editor that the key opens
   * goes on to read; the new header is laid out for cols screen columns.
   */
  function KeyWin(w: Win, ch: char, keys: seq<char>, viz: bool, altscr: bool, cols: nat): Win
    requires w.maxpflgs <= |w.procflags| && w.sortindx < FieldCount
    requires (ch == '<' || ch == '>') && viz ==> StepReady(w, ch)
  {
    if FlagKey(ch) then FlagKeyWin(w, ch, viz)
    else if ch in {'f', 'o', 'F', 'O'} then (if viz then Edited(w, ch, keys[..SessionKeys(keys)], cols, altscr) else w)
    else if ch in {'<', '>'} then (if viz then Stepped(w, ch) else w)
    else if ch in {'=', '-', '+'} then Showing(w, ch, altscr)
    else w
  }

  /** The flag each flag key toggles. */
  function KeyFlag(ch: char): Flag {
    if ch == 'c' then ShowCMDLIN else if ch == 'i' then ShowIDLEPS
    else if ch == 'R' then QsrtNORMAL else if ch == 'S' then ShowCTIMES
    else if ch == 'x' then ShowHICOLS else if ch == 'y' then ShowHIROWS
    else if ch == 'z' then ShowCOLORS else if ch == 'b' then ShowHIBOLD
    else if ch == '1' then ViewCPUSUM else if ch == 'l' then ViewLOADAV
    else if ch == 'm' then ViewMEMORY else ViewSTATES
  }

  /**
   * A flag key on window w.  The summary keys '1', 'l', 'm' and 't' always
   * flip their flag; the others only under VIZCHKc, and 'b' only when the
   * sort column or the running tasks are highlighted, since there is
   * nothing to make bold otherwise.
   */
  function FlagKeyWin(w: Win, ch: char, viz: bool): Win {
    if ch in {'1', 'l', 'm', 't'} then Flipped(w, KeyFlag(ch))
    else if ch == 'b' then
      (if viz && (ShowHICOLS in w.winflags || ShowHIROWS in w.winflags) then Flipped(w, ShowHIBOLD) else w)
    else if viz then Flipped(w, KeyFlag(ch)) else w
  }

  /** TOGw: one flag of the window flipped. */
  function Flipped(w: Win, f: Flag): Win {
    w.(winflags := Reflag(w.winflags, FlagsTog, {f}))
  }

  /** The window an editor key leaves: the edited field-group string (and
      sort field) with its header laid out again. */
  function Edited(w: Win, ch: char, typed: seq<char>, cols: nat, altscr: bool): Win
    requires w.sortindx < FieldCount
    requires forall k :: 0 <= k < |typed| ==> IsLetter(typed[k])
  {
    if ch == 'f' then Laid(w.(fieldscur := ToggleAll(w.fieldscur, typed)), cols, altscr)
    else if ch == 'o' then Laid(w.(fieldscur := ReorderAll(w.fieldscur, typed)), cols, altscr)
    else SortEdited(w, typed, cols, altscr)
  }

  /**
   * What '<' and '>' need of a window.  '<' scans back from the last
   * fitting field, so the sort field must be among the fitting fields; '>'
   * scans forward from the first displayed field, so the sort field need
   * only be displayed.
   */
  predicate StepReady(w: Win, ch: char) {
    && w.maxpflgs <= |w.procflags|
    && (ch == '<' ==> w.sortindx in w.procflags[..w.maxpflgs])
    && (ch == '>' ==> w.sortindx in w.procflags)
  }

  /** '<' moves the sort field one fitting column left, '>' one right. */
  function Stepped(w: Win, ch: char): Win
    requires (ch == '<' || ch == '>') && StepReady(w, ch)
  {
    if ch == '<' then w.(sortindx := StepLeft(w.procflags[..w.maxpflgs], w.sortindx))
    else w.(sortindx := StepRight(w.procflags, w.maxpflgs, w.sortindx))
  }

  /** '=' shows every task again, '-' hides or shows the window and '+'
      asks for the windows to be rebalanced; the last two only in
      multi-window mode. */
  function Showing(w: Win, ch: char, altscr: bool): Win {
    if ch == '=' then w.(maxtasks := 0, winflags := w.winflags + {ShowIDLEPS, VisibleTsk})
    else if ch == '-' then (if altscr then Flipped(w, VisibleTsk) else w)
    else if altscr then w.(winflags := w.winflags + {EquWinsCwo})
    else w
  }

  /** fields_sort followed by the new header. */
  function SortEdited(w: Win, typed: seq<char>, cols: nat, altscr: bool): Win
    requires w.sortindx < FieldCount
    requires forall k :: 0 <= k < |typed| ==> IsLetter(typed[k])
  {
    var x := SortPick(w.sortindx, typed);
    Laid(w.(fieldscur := Expose(w.fieldscur, x), sortindx := x), cols, altscr)
  }

  /**
   * The sort editor makes the last field typed the sort field, keeps a
   * well-formed field-group string well formed, and shows the sort field
   * whenever the window has it, so it is among the displayed fields.
   */
  lemma SortEditedShowsField(w: Win, typed: seq<char>, cols: nat, altscr: bool)
    requires w.sortindx < FieldCount && WellFormed(w.fieldscur)
    requires forall k :: 0 <= k < |typed| ==> IsLetter(typed[k])
    ensures var r := SortEdited(w, typed, cols, altscr);
            && r.sortindx == (if typed == [] then w.sortindx else FieldOf(typed[|typed| - 1]))
            && WellFormed(r.fieldscur)
            && (HasField(w.fieldscur, r.sortindx) ==> r.sortindx in r.procflags)
  {
    var x := SortPick(w.sortindx, typed);
    var s := w.fieldscur;
    if HasField(s, x) {
      ExposeShowsField(s, x, x);
    } else {
      assert FirstIndex(s, LowerOf(x)).None?;
    }
  }

  /** '<' and '>' keep the sort field among the fitting fields, and when
      every field is displayed once each undoes the other. */
  lemma StepKeysRoundTrip(w: Win, keys: seq<char>, altscr: bool, cols: nat)
    requires w.maxpflgs <= |w.procflags| && w.sortindx < FieldCount
    requires FieldList(w.procflags) && w.sortindx in w.procflags[..w.maxpflgs]
    ensures var l := KeyWin(w, '<', keys, true, altscr, cols);
            var r := KeyWin(w, '>', keys, true, altscr, cols);
            && l == w.(sortindx := l.sortindx) && r == w.(sortindx := r.sortindx)
            && l.sortindx in w.procflags[..w.maxpflgs]
            && r.sortindx in w.procflags[..w.maxpflgs]
            && (Distinct(w.procflags[..w.maxpflgs]) && l.sortindx != w.sortindx ==>
                  KeyWin(l, '>', keys, true, altscr, cols) == w)
            && (Distinct(w.procflags[..w.maxpflgs]) && r.sortindx != w.sortindx ==>
                  KeyWin(r, '<', keys, true, altscr, cols) == w)
  {
    var pf, m, x := w.procflags, w.maxpflgs, w.sortindx;
    StepsRoundTrip(pf[..m], x);
    FirstPosPrefix(pf, m, x);
    var y := StepLeft(pf[..m], x);
    FirstPosPrefix(pf, m, y);
  }

  /** A sort field that is displayed but does not fit is left alone by '>':
      the scan meets it at or past the last fitting field. */
  lemma StepKeyPastFit(w: Win, keys: seq<char>, altscr: bool, cols: nat)
    requires w.maxpflgs <= |w.procflags| && w.sortindx < FieldCount
    requires w.sortindx in w.procflags && w.sortindx !in w.procflags[..w.maxpflgs]
    ensures KeyWin(w, '>', keys, true, altscr, cols) == w
  {
    StepRightPastFit(w.procflags, w.maxpflgs, w.sortindx);
  }

  /** One key of fields_reorder, in place: find the field (upper case
      first), step back one place for an upper-case key, and swap that
      position with the next one when both are in the string. */
  method ReorderKey(s: string, c: char) returns (t: string)
    requires IsLetter(c)
    ensures t == Reorder(s, c)
  {
    t := s;
    var p := Locate(s, FieldOf(c));
    if p.Some? {
      var k: int := p.value;
      if IsUpper(c) {
        k := k - 1;
      }
      if 0 <= k && k + 1 < |t| {
        t := t[k := s[k + 1]][k + 1 := s[k]];
      }
    }
  }

  /** i is one of the first n windows met walking the ring from cur. */
  predicate Walked(cur: nat, n: nat, i: nat) {
    if cur <= i then i - cur < n else i + GroupsMax - cur < n
  }

  /** The window n steps along the ring from cur. */
  function Along(cur: nat, n: nat): nat {
    if cur + n < GroupsMax then cur + n else cur + n - GroupsMax
  }

  /** A window the session keeps consistent: its number, a sort field in
      the table, and a displayed-field list of table indices. */
  predicate WinOk(w: Win, i: nat) {
    && w.winnum == i + 1
    && w.sortindx < FieldCount
    && w.maxpflgs <= |w.procflags|
    && FieldList(w.procflags)
  }

  /** Laying out a window's header keeps it fit for its slot. */
  lemma LaidOk(w: Win, i: nat, cols: nat, altscr: bool)
    requires WinOk(w, i)
    ensures WinOk(Laid(w, cols, altscr), i)
  {
  }

  /** Every window of a ring laid out for the same width; each stays fit
      for its slot. */
  ghost function LaidRing(ws: seq<Win>, cols: nat, altscr: bool): (laid: seq<Win>)
    requires |ws| == GroupsMax && forall i :: 0 <= i < GroupsMax ==> WinOk(ws[i], i)
    ensures |laid| == GroupsMax
    ensures forall i :: 0 <= i < GroupsMax ==> laid[i] == Laid(ws[i], cols, altscr) && WinOk(laid[i], i)
  {
    var laid := seq(GroupsMax, i requires 0 <= i < GroupsMax => Laid(ws[i], cols, altscr));
    assert forall i :: 0 <= i < GroupsMax ==> WinOk(laid[i], i) by {
      forall i | 0 <= i < GroupsMax ensures WinOk(laid[i], i) {
        LaidOk(ws[i], i, cols, altscr);
      }
    }
    laid
  }

  /** win_colsheads for each window in turn, walking the ring from cur. */
  method LayRing(ws: seq<Win>, cur: nat, cols: nat, altscr: bool) returns (laid: seq<Win>)
    requires |ws| == GroupsMax && cur < GroupsMax
    requires forall i :: 0 <= i < GroupsMax ==> WinOk(ws[i], i)
    ensures laid == LaidRing(ws, cols, altscr)
  {
    ghost var goal := LaidRing(ws, cols, altscr);
    laid := ws;
    var w := cur;
    var n := 0;
    while n < GroupsMax
      invariant 0 <= n <= GroupsMax && (n < GroupsMax ==> w == Along(cur, n))
      invariant |laid| == GroupsMax
      invariant forall i :: 0 <= i < GroupsMax ==> laid[i] == if Walked(cur, n, i) then goal[i] else ws[i]
    {
      var r := ColsHeads(laid[w], cols, altscr);
      laid := laid[w := r];
      w := Next(w);
      n := n + 1;
    }
  }

  class Session {
    var winstk: array<Win>
    var curwin: nat
    var modeAltscr: bool
    var screenCols: nat
    var monpidsidx: int

    ghost predicate Valid()
      reads this, winstk
    {
      && winstk.Length == GroupsMax
      && curwin < GroupsMax
      && forall i :: 0 <= i < GroupsMax ==> WinOk(winstk[i], i)
    }

    /** VIZCHKc: a window command applies in single-window mode, or when
        the current window is visible. */
    predicate VizChk()
      reads this, winstk
      requires Valid()
    {
      !modeAltscr || VisibleTsk in winstk[curwin].winflags
    }

    /** windows_stage1: the four windows from the setup table, the first
        one current, single-window mode. */
    constructor (flds: seq<string>, winflgs: set<Flag>)
      requires |flds| == GroupsMax
      ensures Valid() && fresh(winstk)
      ensures forall i :: 0 <= i < GroupsMax ==> winstk[i] == Stage1(i, flds[i], winflgs)
      ensures curwin == 0 && !modeAltscr && screenCols == 0 && monpidsidx == 0
    {
      winstk := new Win[GroupsMax](i requires 0 <= i < GroupsMax => Stage1(i, flds[i], winflgs));
      curwin := 0;
      modeAltscr := false;
      screenCols := 0;
      monpidsidx := 0;
    }

    /** win_select. */
    method WinSelect(ch: char)
      requires Valid()
      modifies this`curwin
      ensures Valid()
      ensures curwin == Selected(old(curwin), ch)
    {
      if ch == 'a' {
        curwin := Next(curwin);
      } else if ch == 'w' {
        curwin := Prev(curwin);
      } else if '1' <= ch <= '4' {
        curwin := ch as int - '1' as int;
      }
    }

    /** wins_reflag: the flag operation on every window, walking the ring
        once from the current window back to it. */
    method WinsReflag(what: FlagOp, flg: set<Flag>)
      requires Valid()
      modifies winstk
      ensures Valid()
      ensures forall i :: 0 <= i < GroupsMax ==> winstk[i] == ReflagWin(old(winstk[i]), what, flg)
    {
      var w := curwin;
      var n := 0;
      while n < GroupsMax
        invariant 0 <= n <= GroupsMax && (n < GroupsMax ==> w == Along(curwin, n))
        invariant forall i :: 0 <= i < GroupsMax ==>
                    winstk[i] == if Walked(curwin, n, i) then ReflagWin(old(winstk[i]), what, flg) else old(winstk[i])
      {
        winstk[w] := ReflagWin(winstk[w], what, flg);
        w := Next(w);
        n := n + 1;
      }
    }

    /** The header of every window laid out again, walking the ring once. */
    method ColsHeadsAll()
      requires Valid()
      modifies winstk
      ensures Valid()
      ensures forall i :: 0 <= i < GroupsMax ==> winstk[i] == Laid(old(winstk[i]), screenCols, modeAltscr)
    {
      var laid := LayRing(winstk[..], curwin, screenCols, modeAltscr);
      forall i | 0 <= i < GroupsMax {
        winstk[i] := laid[i];
      }
    }

    /** wins_resize: the terminal's width, at most screenMax, and every
        header laid out for it. */
    method WinsResize(cols: nat, screenMax: nat)
      requires Valid()
      modifies this, winstk
      ensures Valid() && winstk == old(winstk) && curwin == old(curwin)
      ensures modeAltscr == old(modeAltscr) && monpidsidx == old(monpidsidx)
      ensures screenCols == Min(cols, screenMax)
      ensures forall i :: 0 <= i < GroupsMax ==> winstk[i] == Laid(old(winstk[i]), screenCols, modeAltscr)
    {
      screenCols := cols;
      if screenMax < screenCols {
        screenCols := screenMax;
      }
      ColsHeadsAll();
    }

    /** The current window's header laid out again. */
    method ColsHeadsCur()
      requires Valid()
      modifies winstk
      ensures Valid()
      ensures winstk[..] == old(winstk[..])[curwin := Laid(old(winstk[curwin]), screenCols, modeAltscr)]
    {
      var r := ColsHeads(winstk[curwin], screenCols, modeAltscr);
      winstk[curwin] := r;
    }

    /** The current window's field-group string replaced. */
    method SetFields(s: string)
      requires Valid()
      modifies winstk
      ensures Valid()
      ensures winstk[..] == old(winstk[..])[curwin := old(winstk[curwin]).(fieldscur := s)]
    {
      winstk[curwin] := winstk[curwin].(fieldscur := s);
    }

    /** fields_toggle: each field letter typed flips the case of that
        field's letter in the current window; the first other key ends the
        session. */
    method FieldsToggle(keys: seq<char>)
      requires Valid()
      modifies winstk
      ensures Valid()
      ensures winstk[..] == old(winstk[..])[curwin := old(winstk[curwin]).(fieldscur :=
                ToggleAll(old(winstk[curwin].fieldscur), keys[..SessionKeys(keys)]))]
    {
      ghost var m := SessionKeys(keys);
      ghost var ws, w0 := winstk[..], winstk[curwin];
      ghost var goal := ToggleAll(w0.fieldscur, keys[..m]);
      var n := 0;
      while n < |keys|
        invariant Valid() && n <= m
        invariant winstk[..] == ws[curwin := w0.(fieldscur := winstk[curwin].fieldscur)]
        invariant ToggleAll(winstk[curwin].fieldscur, keys[n..m]) == goal
      {
        var key := FieldKey(keys[n]);
        if key.None? {
          break;
        }
        ghost var rest := keys[n..m];
        assert rest[0] == keys[n] && rest[1..] == keys[n + 1..m];
        SetFields(Toggle(winstk[curwin].fieldscur, key.value));
        n := n + 1;
      }
      assert keys[..m] == keys[0..m];
    }

    /** fields_reorder: an upper-case field letter swaps that field with the
        one on its left, a lower-case one with the one on its right; the
        first other key ends the session. */
    method FieldsReorder(keys: seq<char>)
      requires Valid()
      modifies winstk
      ensures Valid()
      ensures winstk[..] == old(winstk[..])[curwin := old(winstk[curwin]).(fieldscur :=
                ReorderAll(old(winstk[curwin].fieldscur), keys[..SessionKeys(keys)]))]
    {
      ghost var m := SessionKeys(keys);
      ghost var ws, w0 := winstk[..], winstk[curwin];
      ghost var goal := ReorderAll(w0.fieldscur, keys[..m]);
      var n := 0;
      while n < |keys|
        invariant Valid() && n <= m
        invariant winstk[..] == ws[curwin := w0.(fieldscur := winstk[curwin].fieldscur)]
        invariant ReorderAll(winstk[curwin].fieldscur, keys[n..m]) == goal
      {
        var c := keys[n];
        var key := FieldKey(c);
        if key.None? {
          break;
        }
        ghost var rest := keys[n..m];
        assert rest[0] == c && rest[1..] == keys[n + 1..m];
        var s := ReorderKey(winstk[curwin].fieldscur, c);
        SetFields(s);
        n := n + 1;
      }
      assert keys[..m] == keys[0..m];
    }

    /** fields_sort: the last field letter typed becomes the sort field (the
        window's own when none is), and its lower-case letter, if present,
        is made upper case so that it is displayed. */
    method FieldsSort(keys: seq<char>)
      requires Valid()
      modifies winstk
      ensures Valid()
      ensures var x := SortPick(old(winstk[curwin].sortindx), keys[..SessionKeys(keys)]);
              winstk[..] == old(winstk[..])[curwin := old(winstk[curwin]).(fieldscur :=
                Expose(old(winstk[curwin].fieldscur), x), sortindx := x)]
    {
      ghost var m := SessionKeys(keys);
      ghost var goal := SortPick(winstk[curwin].sortindx, keys[..m]);
      var x: nat := winstk[curwin].sortindx;
      var n := 0;
      while n < |keys|
        invariant n <= m && x < FieldCount
        invariant SortPick(x, keys[n..m]) == goal
      {
        var key := FieldKey(keys[n]);
        if key.None? {
          break;
        }
        ghost var rest := keys[n..m];
        assert rest[0] == keys[n] && rest[1..] == keys[n + 1..m];
        x := key.value;
        n := n + 1;
      }
      assert keys[..m] == keys[0..m];
      var s := winstk[curwin].fieldscur;
      var p := FirstIndex(s, LowerOf(x));
      if p.Some? {
        s := s[p.value := UpperOf(x)];
      }
      winstk[curwin] := winstk[curwin].(fieldscur := s, sortindx := x);
    }

    /** sohelpme: share the max rows left among the shown windows from wix
        on; a window with a task cap gets its cap, the others an even share
        after one header line each. */
    method SoHelpMe(wix: nat, max: int)
      requires Valid() && wix <= GroupsMax
      modifies winstk
      ensures Valid()
      ensures winstk[..] == Apportion(old(winstk[..]), wix, max)
    {
      ghost var ws := winstk[..];
      var rsvd, wins := ScanShown(wix, max);
      if wins == 0 {
        wins := 1;
      }
      // the first two values given to size are replaced before they are read
      var size := (max - wins) - rsvd;
      if 0 <= size {
        size := max;
      }
      size := CDiv(max - wins, wins);
      AllotRows(wix, size);
    }

    /** sohelpme's second loop: every shown window from wix on gets its own
        task cap as its row limit, or size when it has none. */
    method AllotRows(wix: nat, size: int)
      requires Valid() && wix <= GroupsMax
      modifies winstk
      ensures Valid()
      ensures forall j :: 0 <= j < GroupsMax ==>
                winstk[j] == if wix <= j && Shown(old(winstk[j])) then old(winstk[j]).(winlines := Allot(old(winstk[j]), size))
                             else old(winstk[j])
    {
      var i := wix;
      while i < GroupsMax
        invariant wix <= i <= GroupsMax
        invariant forall j :: 0 <= j < GroupsMax ==>
                    winstk[j] == if wix <= j < i && Shown(old(winstk[j])) then old(winstk[j]).(winlines := Allot(old(winstk[j]), size))
                                 else old(winstk[j])
      {
        if VisibleTsk in winstk[i].winflags {
          winstk[i] := winstk[i].(winlines := if winstk[i].maxtasks != 0 then winstk[i].maxtasks else size);
        }
        i := i + 1;
      }
    }

    /** sohelpme's first loop: the caps of the shown windows from wix on and
        how many there are, stopping at the window where the caps reach max. */
    method ScanShown(wix: nat, max: int) returns (rsvd: int, wins: nat)
      requires Valid() && wix <= GroupsMax
      ensures rsvd == Reserved(winstk[..], wix, ScanEnd(winstk[..], wix, max, wix))
      ensures wins == ShownCount(winstk[..], wix, ScanEnd(winstk[..], wix, max, wix))
    {
      ghost var ws := winstk[..];
      var i := wix;
      rsvd, wins := 0, 0;
      while i < GroupsMax
        invariant wix <= i <= GroupsMax
        invariant rsvd == Reserved(ws, wix, i) && wins == ShownCount(ws, wix, i)
        invariant ScanEnd(ws, wix, max, i) == ScanEnd(ws, wix, max, wix)
      {
        if VisibleTsk in winstk[i].winflags {
          rsvd := rsvd + winstk[i].maxtasks;
          wins := wins + 1;
          if max <= rsvd {
            i := i + 1;
            break;
          }
        }
        i := i + 1;
      }
    }

    /** do_window for window wix (after its sort): the rows it shows, the
        screen line count advanced past them, and its row limit spent. */
    method DoWindow(table: seq<Task>, wix: nat, lscr0: int, maxLines: int, batch: bool)
      returns (shown: seq<nat>, lscr: int)
      requires Valid() && wix < GroupsMax && Terminated(table)
      modifies winstk
      ensures Valid()
      ensures var start := if batch then lscr0 else lscr0 + 1;
              && shown == Rows(table, old(winstk[wix]), start, maxLines, batch)
              && lscr == start + (if batch then 0 else |shown|)
      ensures winstk[..] == old(winstk[..])[wix := old(winstk[wix]).(winlines := 0)]
    {
      shown, lscr := WindowRows(table, winstk[wix], lscr0, maxLines, batch);
      // the window's row limit is used up for this frame
      winstk[wix] := winstk[wix].(winlines := 0);
    }

    /**
     * do_key for the keys that act on the windows: moving around the ring,
     * the multi-window switch (which reads the terminal width again, given
     * here as termCols), the per-window flag toggles, the three field
     * editors (which read keys), the sort stepping keys, and 'G', whose
     * prompt reads the window to select from the keys.  The remaining keys
     * leave the windows, the selection and the mode as they are.
     */
    method DoKey(ch: char, keys: seq<char>, termCols: nat, screenMax: nat)
      requires Valid()
      requires (ch == '<' || ch == '>') && VizChk() ==> StepReady(winstk[curwin], ch)
      modifies this, winstk
      ensures Valid() && winstk == old(winstk)
      ensures screenCols == (if ch == 'A' then Min(termCols, screenMax) else old(screenCols))
      ensures curwin == if (ch == 'a' || ch == 'w') && old(modeAltscr) then Selected(old(curwin), ch)
                        else if ch == 'G' then Selected(old(curwin), Prompted(keys))
                        else old(curwin)
      ensures modeAltscr == (if ch == 'A' then !old(modeAltscr) else old(modeAltscr))
      ensures monpidsidx == (if ch == '=' then 0 else old(monpidsidx))
      ensures ch == 'A' ==> forall i :: 0 <= i < GroupsMax ==> winstk[i] == Laid(old(winstk[i]), screenCols, modeAltscr)
      ensures ch == '_' ==> forall i :: 0 <= i < GroupsMax ==>
                winstk[i] == if old(modeAltscr) then ReflagWin(old(winstk[i]), FlagsTog, {VisibleTsk}) else old(winstk[i])
      ensures WindowKey(ch) ==> winstk[..] == old(winstk[..])[curwin :=
                KeyWin(old(winstk[curwin]), ch, keys, old(VizChk()), modeAltscr, screenCols)]
      ensures !WindowKey(ch) && ch != 'A' && ch != '_' ==> winstk[..] == old(winstk[..])
    {
      if ch == 'a' || ch == 'w' {
        if modeAltscr {
          WinSelect(ch);
        }
      } else if ch == 'G' {
        WinSelect(Prompted(keys));
      } else if ch == 'A' {
        modeAltscr := !modeAltscr;
        WinsResize(termCols, screenMax);
      } else if ch == '_' {
        if modeAltscr {
          WinsReflag(FlagsTog, {VisibleTsk});
        }
      } else if ch == '=' {
        WindowKeyCmd(ch, keys);
        monpidsidx := 0;
      } else if WindowKey(ch) {
        WindowKeyCmd(ch, keys);
      }
    }

    /** The do_key cases that act on the current window alone. */
    method WindowKeyCmd(ch: char, keys: seq<char>)
      requires Valid() && WindowKey(ch)
      requires (ch == '<' || ch == '>') && VizChk() ==> StepReady(winstk[curwin], ch)
      modifies winstk
      ensures Valid()
      ensures winstk[..] == old(winstk[..])[curwin :=
                KeyWin(old(winstk[curwin]), ch, keys, old(VizChk()), modeAltscr, screenCols)]
    {
      if FlagKey(ch) {
        FlagKeyCmd(ch);
      } else if ch in {'f', 'o', 'F', 'O'} {
        EditorKey(ch, keys);
      } else if ch in {'<', '>'} {
        StepKey(ch);
      } else {
        ShowKey(ch);
      }
    }

    /** The flag keys: VIZTOGc of the command-line, idle-task, sort
        direction, cumulative-time, highlight and color flags, TOGw of the
        summary-line flags, and the bold toggle that needs a highlight. */
    method FlagKeyCmd(ch: char)
      requires Valid() && FlagKey(ch)
      modifies winstk
      ensures Valid()
      ensures winstk[..] == old(winstk[..])[curwin := FlagKeyWin(old(winstk[curwin]), ch, old(VizChk()))]
    {
      if ch in {'1', 'l', 'm', 't'} {
        ToggleCur(true, KeyFlag(ch));
      } else if ch == 'b' {
        var hi := ShowHICOLS in winstk[curwin].winflags || ShowHIROWS in winstk[curwin].winflags;
        ToggleCur(VizChk() && hi, ShowHIBOLD);
      } else {
        ToggleCur(VizChk(), KeyFlag(ch));
      }
    }

    /** 'f', 'o', 'F', 'O': an editor session, then the new header. */
    method EditorKey(ch: char, keys: seq<char>)
      requires Valid() && ch in {'f', 'o', 'F', 'O'}
      modifies winstk
      ensures Valid()
      ensures winstk[..] == old(winstk[..])[curwin :=
                if old(VizChk()) then Edited(old(winstk[curwin]), ch, keys[..SessionKeys(keys)], screenCols, modeAltscr)
                else old(winstk[curwin])]
    {
      if VizChk() {
        if ch == 'f' {
          FieldsToggle(keys);
        } else if ch == 'o' {
          FieldsReorder(keys);
        } else {
          FieldsSort(keys);
        }
        ColsHeadsCur();
      }
    }

    /** '<' and '>': step the sort field. */
    method StepKey(ch: char)
      requires Valid() && ch in {'<', '>'}
      requires VizChk() ==> StepReady(winstk[curwin], ch)
      modifies winstk
      ensures Valid()
      ensures winstk[..] == old(winstk[..])[curwin :=
                if old(VizChk()) then Stepped(old(winstk[curwin]), ch) else old(winstk[curwin])]
    {
      if VizChk() {
        var x;
        if ch == '<' {
          x := SortLeftOf(winstk[curwin]);
          StepsRoundTrip(winstk[curwin].procflags[..winstk[curwin].maxpflgs], winstk[curwin].sortindx);
        } else {
          x := SortRightOf(winstk[curwin]);
        }
        winstk[curwin] := winstk[curwin].(sortindx := x);
      }
    }

    /** '=', '-', '+': show everything, hide or show the window, request a
        rebalance. */
    method ShowKey(ch: char)
      requires Valid() && ch in {'=', '-', '+'}
      modifies winstk
      ensures Valid()
      ensures winstk[..] == old(winstk[..])[curwin := Showing(old(winstk[curwin]), ch, modeAltscr)]
    {
      if ch == '=' {
        winstk[curwin] := winstk[curwin].(maxtasks := 0, winflags := winstk[curwin].winflags + {ShowIDLEPS, VisibleTsk});
      } else if ch == '-' {
        ToggleCur(modeAltscr, VisibleTsk);
      } else if modeAltscr {
        winstk[curwin] := winstk[curwin].(winflags := winstk[curwin].winflags + {EquWinsCwo});
      }
    }

    /** VIZTOGc / TOGw on the current window: flip one flag when on. */
    method ToggleCur(on: bool, f: Flag)
      requires Valid()
      modifies winstk
      ensures Valid()
      ensures winstk[..] == old(winstk[..])[curwin := if on then
                old(winstk[curwin]).(winflags := Reflag(old(winstk[curwin].winflags), FlagsTog, {f}))
                else old(winstk[curwin])]
    {
      if on {
        winstk[curwin] := winstk[curwin].(winflags := Reflag(winstk[curwin].winflags, FlagsTog, {f}));
      }
    }
  }
}
