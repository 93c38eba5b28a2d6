/**
 * The field table and a window's field-group string.  The string holds one
 * letter per field, 'A' + the field's index in the table: upper case when
 * the field is displayed, lower case when it is configured but hidden.  The
 * three interactive editors (toggle, reorder, pick the sort field) act on
 * that string one typed key at a time.
 */
module Fields {
  import opened Tasks

  /** Number of entries of the field table. */
  const FieldCount: nat := 26

  /** Column headers of the field table, in table order (the single-letter
      process status column is the one compiled in). */
  const Heads: seq<string> := [
    "  PID ", " PPID ", " PGID ", " UID ", "USER     ", "GROUP    ",
    "TTY      ", " PR ", " NI ", "#C ", "%CPU ", "  TIME ", "   TIME+  ",
    "%MEM ", " VIRT ", "SWAP ", " RES ", "CODE ", "DATA ", " SHR ",
    "nFLT ", "nDRT ", "S ", "Command ", "WCHAN     ", "Flags    "]

  // indices of the fields the core refers to by name
  const P_PID: nat := 0
  const P_USR: nat := 4
  const P_CPU: nat := 10
  const P_MEM: nat := 13
  const P_CMD: nat := 23
  const P_WCH: nat := 24

  lemma HeadsShape()
    ensures |Heads| == FieldCount
    ensures forall f :: 0 <= f < FieldCount ==> |Heads[f]| >= 2
    ensures Heads[P_CMD] == "Command "
  {
  }

  // ---------------------------------------------------------------- letters

  predicate IsUpper(c: char) { 'A' <= c <= 'Z' }

  predicate IsLower(c: char) { 'a' <= c <= 'z' }

  predicate IsLetter(c: char) { IsUpper(c) || IsLower(c) }

  function ToUpper(c: char): char {
    if IsLower(c) then (c as int - 32) as char else c
  }

  /** The displayed (upper-case) letter of field i. */
  function UpperOf(i: nat): (c: char)
    requires i < FieldCount
    ensures IsUpper(c)
  {
    ('A' as int + i) as char
  }

  /** The hidden (lower-case) letter of field i. */
  function LowerOf(i: nat): (c: char)
    requires i < FieldCount
    ensures IsLower(c)
  {
    ('a' as int + i) as char
  }

  /** The field a letter stands for, whatever its case. */
  function FieldOf(c: char): (i: nat)
    requires IsLetter(c)
    ensures i < FieldCount
    ensures c == UpperOf(i) || c == LowerOf(i)
    ensures IsUpper(c) ==> c == UpperOf(i)
  {
    ToUpper(c) as int - 'A' as int
  }

  /** An editor's reading of a typed key: i = toupper(c) - 'A', kept when it
      indexes the field table; any other key ends the editing session. */
  function FieldKey(c: char): (r: Option<nat>)
    ensures r.Some? <==> IsLetter(c)
    ensures r.Some? ==> r.value < FieldCount && r.value == FieldOf(c)
  {
    var i := ToUpper(c) as int - 'A' as int;
    if 0 <= i < FieldCount then Some(i) else None
  }

  /** strchr: the first position holding c. */
  function FirstIndex(s: string, c: char): (r: Option<nat>)
    ensures r.Some? ==> r.value < |s| && s[r.value] == c
                        && forall k :: 0 <= k < r.value ==> s[k] != c
    ensures r.None? <==> c !in s
  {
    if s == [] then None
    else if s[0] == c then Some(0)
    else match FirstIndex(s[1..], c)
      case None => None
      case Some(k) => Some(k + 1)
  }

  /** A field-group string as the configuration defines it: letters only,
      each field at most once whatever its case. */
  predicate WellFormed(s: string) {
    && (forall k :: 0 <= k < |s| ==> IsLetter(s[k]))
    && (forall k, m :: 0 <= k < m < |s| ==> FieldOf(s[k]) != FieldOf(s[m]))
  }

  /** Field i appears in s, shown or hidden. */
  predicate HasField(s: string, i: nat)
    requires i < FieldCount
  {
    UpperOf(i) in s || LowerOf(i) in s
  }

  // ---------------------------------------------------------------- visible fields

  /** The displayed fields in string order: each upper-case letter minus 'A'. */
  function Visible(s: string): (pf: seq<nat>)
    ensures |pf| <= |s|
    ensures forall k :: 0 <= k < |pf| ==> pf[k] < FieldCount
  {
    if s == [] then []
    else (if IsUpper(s[0]) then [s[0] as int - 'A' as int] else []) + Visible(s[1..])
  }

  /** A field is displayed exactly when its upper-case letter is in the string. */
  lemma {:induction false} VisibleMembers(s: string, i: nat)
    requires i < FieldCount
    ensures i in Visible(s) <==> UpperOf(i) in s
  {
    if s != [] {
      VisibleMembers(s[1..], i);
      assert s == [s[0]] + s[1..];
    }
  }

  // ---------------------------------------------------------------- fields_toggle

  /** One key of the toggle editor for field i: the first upper-case
      occurrence becomes lower case, otherwise the first lower-case one
      becomes upper case. */
  function Toggle(s: string, i: nat): string
    requires i < FieldCount
  {
    match FirstIndex(s, UpperOf(i))
    case Some(k) => s[k := LowerOf(i)]
    case None =>
      match FirstIndex(s, LowerOf(i))
      case Some(k) => s[k := UpperOf(i)]
      case None => s
  }

  /** Toggling changes the case of exactly one occurrence of the field's
      letter, when there is one, and touches nothing else. */
  lemma ToggleFlipsOneLetter(s: string, i: nat)
    requires i < FieldCount
    ensures |Toggle(s, i)| == |s|
    ensures forall k :: 0 <= k < |s| && Toggle(s, i)[k] != s[k] ==>
              ((s[k] == UpperOf(i) && Toggle(s, i)[k] == LowerOf(i))
               || (s[k] == LowerOf(i) && Toggle(s, i)[k] == UpperOf(i)))
    ensures forall k, m ::
              (0 <= k < |s| && 0 <= m < |s| && Toggle(s, i)[k] != s[k] && Toggle(s, i)[m] != s[m]) ==> k == m
    ensures HasField(s, i) <==> Toggle(s, i) != s
  {
    match FirstIndex(s, UpperOf(i))
    case Some(k) =>
      assert Toggle(s, i)[k] != s[k];
    case None =>
      match FirstIndex(s, LowerOf(i))
      case Some(k) =>
        assert Toggle(s, i)[k] != s[k];
      case None =>
  }

  /** On a well-formed string the field's visibility flips and every other
      field keeps its visibility; the string stays well formed. */
  lemma ToggleFlipsVisibility(s: string, i: nat, j: nat)
    requires WellFormed(s) && i < FieldCount && j < FieldCount && HasField(s, i)
    ensures WellFormed(Toggle(s, i))
    ensures i in Visible(Toggle(s, i)) <==> i !in Visible(s)
    ensures j != i ==> (j in Visible(Toggle(s, i)) <==> j in Visible(s))
  {
    var t := Toggle(s, i);
    ToggleKeepsFields(s, i);
    ToggleFlipsUpper(s, i);
    VisibleMembers(s, i);
    VisibleMembers(t, i);
    if j != i {
      ToggleKeepsOthers(s, i, j);
      VisibleMembers(s, j);
      VisibleMembers(t, j);
    }
  }

  /** Toggling changes case only: every position keeps its field, so a
      well-formed string stays well formed. */
  lemma ToggleKeepsFields(s: string, i: nat)
    requires WellFormed(s) && i < FieldCount
    ensures |Toggle(s, i)| == |s|
    ensures forall k :: 0 <= k < |s| ==> IsLetter(Toggle(s, i)[k]) && FieldOf(Toggle(s, i)[k]) == FieldOf(s[k])
    ensures WellFormed(Toggle(s, i))
  {
    var t := Toggle(s, i);
    ToggleFlipsOneLetter(s, i);
    forall k | 0 <= k < |s| && t[k] != s[k]
      ensures IsLetter(t[k]) && FieldOf(t[k]) == FieldOf(s[k])
    {
    }
    assert forall k :: 0 <= k < |s| ==> IsLetter(t[k]) && FieldOf(t[k]) == FieldOf(s[k]);
  }

  /** The field's upper-case letter is in the toggled string exactly when
      it was not in the original. */
  lemma ToggleFlipsUpper(s: string, i: nat)
    requires WellFormed(s) && i < FieldCount && HasField(s, i)
    ensures UpperOf(i) in Toggle(s, i) <==> UpperOf(i) !in s
  {
    var t := Toggle(s, i);
    ToggleFlipsOneLetter(s, i);
    match FirstIndex(s, UpperOf(i)) {
      case Some(k) =>
        assert t[k] == LowerOf(i);
        forall m | 0 <= m < |t| ensures t[m] != UpperOf(i) {
          if m != k { assert FieldOf(s[m]) != FieldOf(s[k]); }
        }
      case None =>
        var k := FirstIndex(s, LowerOf(i)).value;
        assert t[k] == UpperOf(i);
    }
  }

  /** Another field's upper-case letter is untouched by the toggle. */
  lemma ToggleKeepsOthers(s: string, i: nat, j: nat)
    requires WellFormed(s) && i < FieldCount && j < FieldCount && j != i
    ensures UpperOf(j) in Toggle(s, i) <==> UpperOf(j) in s
  {
    var t := Toggle(s, i);
    ToggleFlipsOneLetter(s, i);
    if UpperOf(j) in s {
      var m :| 0 <= m < |s| && s[m] == UpperOf(j);
      assert t[m] == s[m];
    }
    if UpperOf(j) in t {
      var m :| 0 <= m < |t| && t[m] == UpperOf(j);
      assert t[m] == s[m];
    }
  }

  /** Typing a field's letter twice restores a well-formed string. */
  lemma ToggleTwice(s: string, i: nat)
    requires WellFormed(s) && i < FieldCount
    ensures Toggle(Toggle(s, i), i) == s
  {
    var t := Toggle(s, i);
    ToggleFlipsOneLetter(s, i);
    match FirstIndex(s, UpperOf(i))
    case Some(k) =>
      assert t == s[k := LowerOf(i)];
      forall m | 0 <= m < |t| ensures t[m] != UpperOf(i) {
        if m != k { assert FieldOf(s[m]) != FieldOf(s[k]); }
      }
      assert FirstIndex(t, UpperOf(i)).None?;
    case None =>
      match FirstIndex(s, LowerOf(i))
      case Some(k) =>
        assert t == s[k := UpperOf(i)];
      case None =>
  }

  // ---------------------------------------------------------------- fields_reorder

  function Swap(s: string, k: nat): (t: string)
    requires k + 1 < |s|
    ensures |t| == |s| && t[k] == s[k + 1] && t[k + 1] == s[k]
    ensures forall m :: 0 <= m < |s| && m != k && m != k + 1 ==> t[m] == s[m]
  {
    s[k := s[k + 1]][k + 1 := s[k]]
  }

  /** Where the reorder editor finds field i: its upper-case letter first,
      otherwise its lower-case one. */
  function Locate(s: string, i: nat): (r: Option<nat>)
    requires i < FieldCount
    ensures r.Some? ==> r.value < |s| && (s[r.value] == UpperOf(i) || s[r.value] == LowerOf(i))
                        && FieldOf(s[r.value]) == i
    ensures r.None? <==> !HasField(s, i)
  {
    match FirstIndex(s, UpperOf(i))
    case Some(k) => Some(k)
    case None => FirstIndex(s, LowerOf(i))
  }

  /** One key of the reorder editor: an upper-case letter swaps its field
      with the one to its left, a lower-case letter with the one to its
      right; at either end of the string nothing moves. */
  function Reorder(s: string, c: char): string
    requires IsLetter(c)
  {
    match Locate(s, FieldOf(c))
    case None => s
    case Some(k) =>
      if IsUpper(c) then (if k >= 1 then Swap(s, k - 1) else s)
      else (if k + 1 < |s| then Swap(s, k) else s)
  }

  lemma SwapMultiset(s: string, k: nat)
    requires k + 1 < |s|
    ensures multiset(Swap(s, k)) == multiset(s)
  {
    var t := Swap(s, k);
    assert s == s[..k] + [s[k], s[k + 1]] + s[k + 2..];
    assert t == s[..k] + [s[k + 1], s[k]] + s[k + 2..];
  }

  /** Reordering keeps the same letters, each as often as before, and so
      keeps a well-formed string well formed. */
  lemma ReorderPermutes(s: string, c: char)
    requires IsLetter(c)
    ensures |Reorder(s, c)| == |s|
    ensures multiset(Reorder(s, c)) == multiset(s)
    ensures WellFormed(s) ==> WellFormed(Reorder(s, c))
  {
    match Locate(s, FieldOf(c))
    case None =>
    case Some(k) =>
      if IsUpper(c) && k >= 1 {
        assert Reorder(s, c) == Swap(s, k - 1);
        SwapMultiset(s, k - 1);
        SwapPreservesWellFormed(s, k - 1);
      } else if !IsUpper(c) && k + 1 < |s| {
        assert Reorder(s, c) == Swap(s, k);
        SwapMultiset(s, k);
        SwapPreservesWellFormed(s, k);
      } else {
        assert Reorder(s, c) == s;
      }
  }

  lemma SwapPreservesWellFormed(s: string, k: nat)
    requires k + 1 < |s|
    ensures WellFormed(s) ==> WellFormed(Swap(s, k))
  {
    var t := Swap(s, k);
    if WellFormed(s) {
      // every position of t reads some position of s, and distinct positions distinct ones
      var src := (m: nat) => if m == k then k + 1 else if m == k + 1 then k else m;
      forall m | 0 <= m < |t| ensures t[m] == s[src(m)] && src(m) < |s| {}
      forall m, n | 0 <= m < n < |t| ensures FieldOf(t[m]) != FieldOf(t[n]) {
        assert t[m] == s[src(m)] && t[n] == s[src(n)];
        if src(m) < src(n) {
          assert FieldOf(s[src(m)]) != FieldOf(s[src(n)]);
        } else {
          assert FieldOf(s[src(n)]) != FieldOf(s[src(m)]);
        }
      }
    }
  }

  /** The typed field moves one place: left for an upper-case key, right for
      a lower-case one, unless it already sits at that end. */
  lemma ReorderMovesField(s: string, c: char)
    requires IsLetter(c) && WellFormed(s) && HasField(s, FieldOf(c))
    ensures var k := Locate(s, FieldOf(c)).value;
            var t := Reorder(s, c);
            && (IsUpper(c) && k >= 1 ==> t[k - 1] == s[k] && t[k] == s[k - 1])
            && (IsUpper(c) && k == 0 ==> t == s)
            && (!IsUpper(c) && k + 1 < |s| ==> t[k + 1] == s[k] && t[k] == s[k + 1])
            && (!IsUpper(c) && k + 1 == |s| ==> t == s)
  {
  }

  // ---------------------------------------------------------------- fields_sort

  /** The sort editor shows the chosen field: the first lower-case
      occurrence of its letter, if any, becomes upper case. */
  function Expose(s: string, x: nat): string
    requires x < FieldCount
  {
    match FirstIndex(s, LowerOf(x))
    case Some(k) => s[k := UpperOf(x)]
    case None => s
  }

  /** After the sort editor, a field that is in a well-formed string is
      displayed, and every other field keeps its visibility. */
  lemma ExposeShowsField(s: string, x: nat, j: nat)
    requires WellFormed(s) && x < FieldCount && j < FieldCount && HasField(s, x)
    ensures WellFormed(Expose(s, x))
    ensures x in Visible(Expose(s, x))
    ensures j != x ==> (j in Visible(Expose(s, x)) <==> j in Visible(s))
  {
    var t := Expose(s, x);
    ExposeKeepsFields(s, x);
    VisibleMembers(t, x);
    match FirstIndex(s, LowerOf(x)) {
      case Some(k) =>
        assert t[k] == UpperOf(x);
      case None =>
        assert UpperOf(x) in s;
    }
    if j != x {
      ExposeKeepsOthers(s, x, j);
      VisibleMembers(s, j);
      VisibleMembers(t, j);
    }
  }

  /** The sort editor changes case only, so a well-formed string stays
      well formed. */
  lemma ExposeKeepsFields(s: string, x: nat)
    requires WellFormed(s) && x < FieldCount
    ensures |Expose(s, x)| == |s|
    ensures forall m :: 0 <= m < |s| ==> IsLetter(Expose(s, x)[m]) && FieldOf(Expose(s, x)[m]) == FieldOf(s[m])
    ensures WellFormed(Expose(s, x))
  {
    var t := Expose(s, x);
    match FirstIndex(s, LowerOf(x))
    case Some(k) =>
      assert t == s[k := UpperOf(x)];
      assert forall m :: 0 <= m < |s| ==> IsLetter(t[m]) && FieldOf(t[m]) == FieldOf(s[m]);
    case None =>
  }

  /** Another field's upper-case letter is untouched by the sort editor. */
  lemma ExposeKeepsOthers(s: string, x: nat, j: nat)
    requires WellFormed(s) && x < FieldCount && j < FieldCount && j != x
    ensures UpperOf(j) in Expose(s, x) <==> UpperOf(j) in s
  {
    var t := Expose(s, x);
    if UpperOf(j) in s {
      var m :| 0 <= m < |s| && s[m] == UpperOf(j);
      assert t[m] == s[m];
    }
    if UpperOf(j) in t {
      var m :| 0 <= m < |t| && t[m] == UpperOf(j);
      assert t[m] == s[m];
    }
  }

  // ---------------------------------------------------------------- editing sessions

  /** The keys an editing session acts on: those typed before the first key
      that is not a field letter. */
  function SessionKeys(keys: seq<char>): (n: nat)
    ensures n <= |keys|
    ensures forall k :: 0 <= k < n ==> IsLetter(keys[k])
    ensures n < |keys| ==> !IsLetter(keys[n])
  {
    if keys == [] || !IsLetter(keys[0]) then 0 else 1 + SessionKeys(keys[1..])
  }

  /** The toggle editor's effect of a whole session of keys. */
  function ToggleAll(s: string, keys: seq<char>): string
    requires forall k :: 0 <= k < |keys| ==> IsLetter(keys[k])
    decreases |keys|
  {
    if keys == [] then s else ToggleAll(Toggle(s, FieldOf(keys[0])), keys[1..])
  }

  /** The reorder editor's effect of a whole session of keys. */
  function ReorderAll(s: string, keys: seq<char>): string
    requires forall k :: 0 <= k < |keys| ==> IsLetter(keys[k])
    decreases |keys|
  {
    if keys == [] then s else ReorderAll(Reorder(s, keys[0]), keys[1..])
  }

  /** Whatever keys are typed, a toggle or reorder session leaves a
      well-formed field-group string well formed, of the same length. */
  lemma {:induction false} SessionsKeepWellFormed(s: string, keys: seq<char>)
    requires WellFormed(s)
    requires forall k :: 0 <= k < |keys| ==> IsLetter(keys[k])
    ensures WellFormed(ToggleAll(s, keys)) && |ToggleAll(s, keys)| == |s|
    ensures WellFormed(ReorderAll(s, keys)) && multiset(ReorderAll(s, keys)) == multiset(s)
    decreases |keys|
  {
    if keys != [] {
      var i := FieldOf(keys[0]);
      ToggleFlipsOneLetter(s, i);
      if HasField(s, i) {
        ToggleFlipsVisibility(s, i, i);
      }
      ReorderPermutes(s, keys[0]);
      SessionsKeepWellFormed(Toggle(s, i), keys[1..]);
      SessionsKeepWellFormed(Reorder(s, keys[0]), keys[1..]);
    }
  }

  /** The field the sort editor settles on: that of the last key of the
      session, or the window's sort field when the session is empty. */
  function SortPick(x: nat, keys: seq<char>): (r: nat)
    requires forall k :: 0 <= k < |keys| ==> IsLetter(keys[k])
    ensures keys == [] ==> r == x
    ensures keys != [] ==> r == FieldOf(keys[|keys| - 1])
    ensures x < FieldCount ==> r < FieldCount
    decreases |keys|
  {
    if keys == [] then x else SortPick(FieldOf(keys[0]), keys[1..])
  }
}
