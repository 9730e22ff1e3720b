/**
 * `Step.pretty_time` (director/groups.py), the elapsed-time text of the
 * completion log lines, on a whole number of seconds.
 */
module Timing {
  import opened Strings

  /** The three forms the text takes: `Xh Ym`, `Xm Ys` and `X.XXs`. */
  datatype Shown = HoursMinutes(h: nat, m: nat) | MinutesSeconds(m: nat, s: nat) | Seconds(fs: nat)

  /** Which form `pretty_time(t)` picks, and its numbers, as the code computes them. */
  function Shape(t: nat): Shown {
    var fs := t - (t / 60) * 60;
    var h := t / 3600;
    var m := (t % 3600) / 60;
    var s := t % 60;
    if t > 3600 then HoursMinutes(h, m)
    else if t > 60 then MinutesSeconds(m, s)
    else Seconds(fs)
  }

  function Render(x: Shown): string {
    match x
    case HoursMinutes(h, m) => NatToString(h) + "h " + NatToString(m) + "m"
    case MinutesSeconds(m, s) => NatToString(m) + "m " + NatToString(s) + "s"
    case Seconds(fs) => NatToString(fs) + ".00s"
  }

  /** `pretty_time(t)` for a whole number of seconds `t`. */
  function PrettyTime(t: nat): string {
    Render(Shape(t))
  }

  /** The number of seconds a form stands for (rounded down to its precision). */
  function Value(x: Shown): nat {
    match x
    case HoursMinutes(h, m) => h * 3600 + m * 60
    case MinutesSeconds(m, s) => m * 60 + s
    case Seconds(fs) => fs
  }

  /** The precision of a form, in seconds. */
  function Unit(x: Shown): nat {
    if x.HoursMinutes? then 60 else 1
  }

  /**
   * Which form `pretty_time` picks: hours and minutes above an hour, bare
   * seconds up to a minute, minutes and seconds between. The text never
   * overstates the time, and away from the two cut-overs it is exact to
   * its precision.
   */
  lemma ShapeForms(t: nat)
    ensures Shape(t).HoursMinutes? <==> t > 3600
    ensures Shape(t).Seconds? <==> t <= 60
    ensures Shape(t).Seconds? ==> Shape(t).fs == t % 60
    ensures Value(Shape(t)) <= t
    ensures t != 60 && t != 3600 ==> t < Value(Shape(t)) + Unit(Shape(t))
  {
    var h, r := t / 3600, t % 3600;
    assert t == h * 3600 + r && r < 3600;
    assert r == (r / 60) * 60 + r % 60;
    if t <= 60 {
      assert t - (t / 60) * 60 == t % 60;
    } else if t <= 3600 {
      assert (t % 3600) % 60 == t % 60 by {
        if t < 3600 {
          assert t % 3600 == t;
        }
      }
    }
    if t != 60 && t != 3600 {
      ShapeAgreesElsewhere(t);
      ShapeCorrectedReadsBack(t);
    }
  }

  /** The three forms on sample times. */
  lemma PrettyTimeExamples()
    ensures PrettyTime(59) == "59.00s"
    ensures PrettyTime(61) == "1m 1s"
    ensures PrettyTime(3661) == "1h 1m"
  {
    assert NatToString(1) == "1" && NatToString(5) == "5";
    assert NatToString(59) == NatToString(5) + "9" == "59";
    assert Shape(59) == Seconds(59);
    assert PrettyTime(59) == "59" + ".00s";
    assert Shape(61) == MinutesSeconds(1, 1);
    assert PrettyTime(61) == "1" + "m " + "1" + "s";
    assert Shape(3661) == HoursMinutes(1, 1);
    assert PrettyTime(3661) == "1" + "h " + "1" + "m";
  }

  /** The cut-overs at exactly one minute and exactly one hour. */
  lemma ShapeAtBoundaries()
    ensures Shape(60) == Seconds(0) && PrettyTime(60) == "0.00s"
    ensures Shape(3600) == MinutesSeconds(0, 0) && PrettyTime(3600) == "0m 0s"
    ensures Value(Shape(60)) + Unit(Shape(60)) <= 60
    ensures Value(Shape(3600)) + Unit(Shape(3600)) <= 3600
  {
  }

  /** `pretty_time` with `>=` at the two cut-overs. */
  function ShapeCorrected(t: nat): Shown {
    if t >= 3600 then HoursMinutes(t / 3600, (t % 3600) / 60)
    else if t >= 60 then MinutesSeconds(t / 60, t % 60)
    else Seconds(t)
  }

  /**
   * With `>=`, the text always reads back as the elapsed time to its
   * precision, minutes and seconds below 60, and the form grows with the time.
   */
  lemma ShapeCorrectedReadsBack(t: nat)
    ensures Value(ShapeCorrected(t)) <= t < Value(ShapeCorrected(t)) + Unit(ShapeCorrected(t))
    ensures ShapeCorrected(t).HoursMinutes? ==> ShapeCorrected(t).m < 60
    ensures ShapeCorrected(t).MinutesSeconds? ==> ShapeCorrected(t).m < 60 && ShapeCorrected(t).s < 60
    ensures ShapeCorrected(t).Seconds? <==> t < 60
    ensures ShapeCorrected(t).HoursMinutes? <==> t >= 3600
  {
    var h, r := t / 3600, t % 3600;
    assert t == h * 3600 + r && r < 3600;
    var m, s := r / 60, r % 60;
    assert r == m * 60 + s && m < 60;
    if t < 3600 {
      assert h == 0 && t / 60 == m && t % 60 == s;
    }
  }

  /** Away from exactly 60 and exactly 3600 seconds the code prints the corrected text. */
  lemma ShapeAgreesElsewhere(t: nat)
    requires t != 60 && t != 3600
    ensures Shape(t) == ShapeCorrected(t)
  {
    if t < 60 {
      assert t / 60 == 0;
    } else if t < 3600 {
      assert t % 3600 == t;
    }
  }
}
