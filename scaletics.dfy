/**
 * scale_tics: render a cumulative tick count in the first of five forms that
 * fits a column width -- minutes:seconds.hundredths, minutes:seconds, hours,
 * days, weeks -- or "?" when none fits.
 */
module ScaleTics {
  import opened Text

  /** The seconds count is held in a 32-bit unsigned ("narrow time"). */
  const NarrowModulus: nat := 0x1_0000_0000

  function Seconds(tics: nat, hertz: nat): nat
    requires hertz > 0
  {
    (tics / hertz) % NarrowModulus
  }

  /** Hundredths of a second past the whole second. */
  function Centis(tics: nat, hertz: nat): (c: nat)
    requires hertz > 0
    ensures c < 100
  {
    ((tics * 100) / hertz) % 100
  }

  /** The five candidate renderings, in the order they are tried. */
  function Renderings(tics: nat, hertz: nat): (r: seq<string>)
    requires hertz > 0
    ensures |r| == 5 && forall k :: 0 <= k < 5 ==> |r[k]| >= 2
  {
    var nt := Seconds(tics, hertz);
    var minutes := nt / 60;
    var hours := minutes / 60;
    var days := hours / 24;
    var weeks := days / 7;
    [ Dec(minutes) + ":" + Pad2(nt % 60) + "." + Pad2(Centis(tics, hertz)),
      Dec(minutes) + ":" + Pad2(nt % 60),
      Dec(hours) + "h",
      Dec(days) + "d",
      Dec(weeks) + "w" ]
  }

  /** First-fit choice among the renderings: the k-th is taken exactly when it
      fits and none before it does; "?" when none fits. */
  function Scale(tics: nat, width: int, hertz: nat): (r: string)
    requires hertz > 0
    ensures r == "?" || |r| <= width
    ensures forall k :: 0 <= k < 5 && |Renderings(tics, hertz)[k]| <= width
              && (forall j :: 0 <= j < k ==> |Renderings(tics, hertz)[j]| > width)
              ==> r == Renderings(tics, hertz)[k]
    ensures r == "?" <==> forall k :: 0 <= k < 5 ==> |Renderings(tics, hertz)[k]| > width
  {
    var ct := Centis(tics, hertz);
    var nt := Seconds(tics, hertz);
    var t1 := Dec(nt / 60) + ":" + Pad2(nt % 60) + "." + Pad2(ct);
    var ss := nt % 60;
    var minutes := nt / 60;
    var t2 := Dec(minutes) + ":" + Pad2(ss);
    var hours := minutes / 60;
    var hh := Dec(hours) + "h";
    var days := hours / 24;
    var dd := Dec(days) + "d";
    var weeks := days / 7;
    var ww := Dec(weeks) + "w";
    var rs := Renderings(tics, hertz);
    assert rs[0] == t1 && rs[1] == t2 && rs[2] == hh && rs[3] == dd && rs[4] == ww;
    if width >= |t1| then t1
    else if width >= |t2| then t2
    else if width >= |hh| then hh
    else if width >= |dd| then dd
    else if width >= |ww| then ww
    else "?"
  }

  /** Each rendering is at most as long as the one tried before it. */
  lemma RenderingsShrink(tics: nat, hertz: nat, k: nat)
    requires hertz > 0 && k < 4
    ensures |Renderings(tics, hertz)[k + 1]| <= |Renderings(tics, hertz)[k]|
  {
    var nt := Seconds(tics, hertz);
    var minutes := nt / 60;
    var hours := minutes / 60;
    var days := hours / 24;
    if k == 1 {
      DecLengthMonotone(hours, minutes);
    } else if k == 2 {
      DecLengthMonotone(days, hours);
    } else if k == 3 {
      DecLengthMonotone(days / 7, days);
    }
  }

  /** Because the renderings shrink, "?" comes back exactly when even the
      weeks form is too wide. */
  lemma UnknownOnlyWhenWeeksTooWide(tics: nat, width: int, hertz: nat)
    requires hertz > 0
    ensures Scale(tics, width, hertz) == "?" <==> |Renderings(tics, hertz)[4]| > width
  {
    if |Renderings(tics, hertz)[4]| > width {
      RenderingsShrink(tics, hertz, 3);
      RenderingsShrink(tics, hertz, 2);
      RenderingsShrink(tics, hertz, 1);
      RenderingsShrink(tics, hertz, 0);
    }
  }

  /** In the 9-wide "TIME+" column any time below 1000 minutes keeps its
      hundredths. */
  lemma TimePlusKeepsHundredths(tics: nat, hertz: nat)
    requires hertz > 0 && tics / hertz < 60000
    ensures Scale(tics, 9, hertz) == Renderings(tics, hertz)[0]
  {
    var nt := Seconds(tics, hertz);
    assert nt == tics / hertz;
    assert Pow10(3) == 1000;
    DecLengthBound(nt / 60, 3, 1000);
  }

  /** The minutes and seconds printed by the first rendering read back as
      the minutes and seconds of the tick count. */
  lemma {:induction false} FirstRenderingReadsBack(tics: nat, hertz: nat)
    requires hertz > 0
    ensures var nt := Seconds(tics, hertz);
            var s := Renderings(tics, hertz)[0];
            var m := Dec(nt / 60);
            && s[..|m|] == m && ParseDec(m) == nt / 60
            && s[|m|] == ':'
            && ParseDec(s[|m| + 1..|m| + 3]) == nt % 60
            && s[|m| + 3] == '.'
            && ParseDec(s[|m| + 4..]) == Centis(tics, hertz)
  {
    var nt := Seconds(tics, hertz);
    var m := Dec(nt / 60);
    var ss := Pad2(nt % 60);
    var cc := Pad2(Centis(tics, hertz));
    var s := Renderings(tics, hertz)[0];
    DecRoundTrip(nt / 60);
    assert s == m + ":" + ss + "." + cc;
    assert s[|m| + 1..|m| + 3] == ss;
    assert s[|m| + 4..] == cc;
  }
}
