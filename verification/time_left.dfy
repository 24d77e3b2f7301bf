/** The "time left" line of the battery widget: a pure function of the
    charge that estimates how long charging still takes and renders it as
    text. Floating-point products in the JavaScript code are replaced by exact
    integer arithmetic: floor(r * 1.2) is (6 * r) / 5 and floor(r * 1.5) is
    (3 * r) / 2 for the non-negative r where they are used. */
module TimeRemaining {

  import opened Options
  import opened Decimal

  const FULL := "fully charged"

  /** What the line shows, read back from its text. */
  datatype Reading = FullyCharged | Left(hrs: int, mins: int)

  /** The formatter: once at most one percent remains the battery counts as
      full; otherwise a zero hour or zero minute component is omitted. The
      first argument is the remaining percentage the formatter reads from its
      enclosing scope. */
  function FormatTime(remaining: int, hrs: int, mins: int): (s: string)
    ensures |s| > 0
    ensures s == FULL <==> remaining <= 1
    ensures remaining > 1 ==> IsDigit(s[0]) || s[0] == '-'
  {
    if remaining <= 1 then FULL
    else if hrs == 0 then
      StartsWith(ShowInt(mins), " min left");
      ShowInt(mins) + " min left"
    else if mins == 0 then
      StartsWith(ShowInt(hrs), " hr left");
      ShowInt(hrs) + " hr left"
    else
      StartsWith(ShowInt(hrs), " hr " + ShowInt(mins) + " min left");
      ShowInt(hrs) + " hr " + ShowInt(mins) + " min left"
  }

  lemma StartsWith(lead: string, rest: string)
    requires |lead| > 0
    ensures (lead + rest)[0] == lead[0]
  {
  }

  /** The estimator, branch for branch on the remaining percentage. */
  function TimeLeft(charge: int): (s: string)
    ensures |s| > 0
    ensures s == FULL <==> charge >= 99
  {
    var remaining := 100 - charge;
    if remaining <= 5 then FormatTime(remaining, 0, remaining)
    else if remaining <= 20 then FormatTime(remaining, 0, (6 * remaining) / 5)
    else if remaining <= 50 then
      var minutes := (3 * remaining) / 2;
      FormatTime(remaining, minutes / 60, minutes % 60)
    else FormatTime(remaining, remaining / 20, (remaining % 20) * 3)
  }

  /** Reads a rendered line back; `None` for text the formatter cannot produce. */
  function Parse(s: string): Option<Reading>
  {
    if s == FULL then Some(FullyCharged)
    else match ReadInt(s)
      case None => None
      case Some((a, rest)) => ParseUnits(a, rest)
  }

  /** The text after the leading number `a`. */
  function ParseUnits(a: int, rest: string): Option<Reading>
  {
    if rest == " min left" then Some(Left(0, a))
    else if rest == " hr left" then Some(Left(a, 0))
    else if |rest| >= 4 && rest[..4] == " hr " then ParseMinutes(a, rest[4..])
    else None
  }

  /** The minutes part after "`a` hr ". */
  function ParseMinutes(a: int, rest: string): Option<Reading>
  {
    match ReadInt(rest)
    case None => None
    case Some((b, tail)) => if tail == " min left" then Some(Left(a, b)) else None
  }

  /** Reference estimate in minutes for a remaining percentage above one:
      one minute per percent up to 5, 1.2 up to 20, 1.5 up to 50 and three
      minutes per percent beyond. */
  function TotalMinutes(remaining: int): int
  {
    if remaining <= 5 then remaining
    else if remaining <= 20 then (6 * remaining) / 5
    else if remaining <= 50 then (3 * remaining) / 2
    else 3 * remaining
  }

  /** What the line is meant to show: "fully charged" from 99 percent on,
      otherwise the reference estimate split into whole hours and the
      remaining minutes. */
  function Expected(charge: int): Reading
  {
    if charge >= 99 then FullyCharged
    else
      var t := TotalMinutes(100 - charge);
      Left(t / 60, t % 60)
  }

  /** Every number shown is a positive integer: each maximal run of digits
      starts with a non-zero digit. */
  predicate NumbersPositive(s: string) {
    forall k :: 0 <= k < |s| && RunStart(s, k) ==> s[k] != '0'
  }

  /** A number starts at `k`: a digit not preceded by a digit. */
  predicate RunStart(s: string, k: int)
    requires 0 <= k < |s|
  {
    IsDigit(s[k]) && (k == 0 || !IsDigit(s[k - 1]))
  }

  lemma ParseMinutesOnly(mins: int)
    ensures Parse(ShowInt(mins) + " min left") == Some(Left(0, mins))
  {
    var s := ShowInt(mins) + " min left";
    assert s[0] == ShowInt(mins)[0];
    assert s != FULL;
    ReadShowInt(mins, " min left");
  }

  lemma ParseHoursOnly(hrs: int)
    requires hrs != 0
    ensures Parse(ShowInt(hrs) + " hr left") == Some(Left(hrs, 0))
  {
    var s := ShowInt(hrs) + " hr left";
    assert s[0] == ShowInt(hrs)[0];
    assert s != FULL;
    ReadShowInt(hrs, " hr left");
  }

  lemma ParseUnitsHoursAndMinutes(hrs: int, mins: int)
    ensures ParseUnits(hrs, " hr " + ShowInt(mins) + " min left") == Some(Left(hrs, mins))
  {
    var rest := " hr " + ShowInt(mins) + " min left";
    assert |rest| > |" min left"| && |rest| > |" hr left"|;
    assert rest[..4] == " hr ";
    assert rest[4..] == ShowInt(mins) + " min left";
    ReadShowInt(mins, " min left");
  }

  lemma ParseHoursAndMinutes(hrs: int, mins: int)
    ensures Parse(ShowInt(hrs) + " hr " + ShowInt(mins) + " min left") == Some(Left(hrs, mins))
  {
    var rest := " hr " + ShowInt(mins) + " min left";
    var s := ShowInt(hrs) + rest;
    assert ShowInt(hrs) + " hr " + ShowInt(mins) + " min left" == s;
    assert s[0] == ShowInt(hrs)[0];
    assert s != FULL;
    ReadShowInt(hrs, rest);
    ParseUnitsHoursAndMinutes(hrs, mins);
  }

  /** The formatter's output determines what it was asked to show: reading
      it back gives "fully charged" or exactly the hour and minute pair. */
  lemma ParseFormatTime(remaining: int, hrs: int, mins: int)
    ensures Parse(FormatTime(remaining, hrs, mins))
         == Some(if remaining <= 1 then FullyCharged else Left(hrs, mins))
  {
    if remaining > 1 {
      if hrs == 0 {
        ParseMinutesOnly(mins);
      } else if mins == 0 {
        ParseHoursOnly(hrs);
      } else {
        ParseHoursAndMinutes(hrs, mins);
      }
    }
  }

  /** Splitting three minutes per percent into hours and minutes the way the
      last branch does (r / 20 hours, 3 * (r % 20) minutes) is the canonical
      split of 3 * r minutes. */
  lemma ThreePerPercentSplit(r: int)
    requires r >= 0
    ensures (3 * r) / 60 == r / 20
    ensures (3 * r) % 60 == (r % 20) * 3
  {
    var q, m := r / 20, r % 20;
    assert 3 * r == 60 * q + 3 * m;
  }

  /** Below full charge, each branch of the estimator hands the formatter
      the canonical hours/minutes split of TotalMinutes. */
  lemma TimeLeftFormatsReference(charge: int)
    requires charge < 99
    ensures TimeLeft(charge)
         == FormatTime(100 - charge, TotalMinutes(100 - charge) / 60, TotalMinutes(100 - charge) % 60)
  {
    var r := 100 - charge;
    if r <= 5 {
      assert TotalMinutes(r) == r;
    } else if r <= 20 {
      var m := (6 * r) / 5;
      assert TotalMinutes(r) == m && 0 <= m < 60;
    } else if r <= 50 {
      assert TotalMinutes(r) == (3 * r) / 2;
    } else {
      ThreePerPercentSplit(r);
      assert TotalMinutes(r) == 3 * r;
    }
  }

  /** The rendered line reads back as the reference estimate. */
  lemma TimeLeftMeetsReference(charge: int)
    ensures Parse(TimeLeft(charge)) == Some(Expected(charge))
  {
    var r := 100 - charge;
    if charge >= 99 {
      ParseFormatTime(r, 0, r);
    } else {
      TimeLeftFormatsReference(charge);
      var t := TotalMinutes(r);
      ParseFormatTime(r, t / 60, t % 60);
    }
  }

  /** The estimate strictly grows with the remaining percentage. */
  lemma TotalMinutesIncreasing(r1: int, r2: int)
    requires 2 <= r1 < r2
    ensures 0 < TotalMinutes(r1) < TotalMinutes(r2)
  {
  }

  /** For any charge below 99 the reading is a positive duration with fewer
      than sixty minutes; for a charge in 0..98 it is at most five hours. */
  lemma ExpectedBounds(charge: int)
    requires charge < 99
    ensures Expected(charge).Left?
    ensures 0 <= Expected(charge).mins < 60
    ensures 0 <= Expected(charge).hrs
    ensures Expected(charge).hrs > 0 || Expected(charge).mins > 0
    ensures charge >= 0 ==> Expected(charge).hrs <= 5
  {
    if charge < 98 {
      TotalMinutesIncreasing(2, 100 - charge);
    }
    if charge >= 0 {
      assert TotalMinutes(100 - charge) <= 300;
    }
  }

  /** Distinct charges below 99 have distinct readings, and none of them
      reads "fully charged". */
  lemma ExpectedInjective(a: int, b: int)
    requires a != b && !(a >= 99 && b >= 99)
    ensures Expected(a) != Expected(b)
  {
    if a < 99 && b < 99 {
      var ta, tb := TotalMinutes(100 - a), TotalMinutes(100 - b);
      if a < b {
        TotalMinutesIncreasing(100 - b, 100 - a);
      } else {
        TotalMinutesIncreasing(100 - a, 100 - b);
      }
      assert ta != tb;
    }
  }

  /** Two charges give the same line exactly when they are equal or both at
      least 99: below full charge the line identifies the charge. */
  lemma TimeLeftInjective(a: int, b: int)
    ensures TimeLeft(a) == TimeLeft(b) <==> a == b || (a >= 99 && b >= 99)
  {
    if a != b && !(a >= 99 && b >= 99) {
      ExpectedInjective(a, b);
      TimeLeftMeetsReference(a);
      TimeLeftMeetsReference(b);
    }
  }

  lemma NoDigits(s: string)
    requires forall i :: 0 <= i < |s| ==> !IsDigit(s[i])
    ensures NumbersPositive(s)
  {
  }

  lemma ShowPositive(n: nat)
    requires n > 0
    ensures NumbersPositive(Show(n))
  {
  }

  /** Gluing two strings whose numbers are positive keeps every number
      positive: a digit run that starts at the seam starts a run of the right
      part. */
  lemma NumbersPositiveConcat(a: string, b: string)
    requires NumbersPositive(a) && NumbersPositive(b)
    ensures NumbersPositive(a + b)
  {
    var s := a + b;
    forall k | 0 <= k < |s| && RunStart(s, k)
      ensures s[k] != '0'
    {
      if k < |a| {
        assert a[k] == s[k];
        assert k > 0 ==> a[k - 1] == s[k - 1];
        assert RunStart(a, k);
      } else {
        var j := k - |a|;
        assert b[j] == s[k];
        assert j > 0 ==> b[j - 1] == s[k - 1];
        assert RunStart(b, j);
      }
    }
  }

  /** Formatting a duration with non-negative parts, not both zero, shows
      only positive numbers and no minus sign. */
  lemma FormatShowsPositive(remaining: int, hrs: int, mins: int)
    requires remaining > 1
    requires hrs >= 0 && mins >= 0 && (hrs > 0 || mins > 0)
    ensures NumbersPositive(FormatTime(remaining, hrs, mins))
    ensures '-' !in FormatTime(remaining, hrs, mins)
  {
    NoDigits(" min left");
    NoDigits(" hr left");
    NoDigits(" hr ");
    if hrs == 0 {
      ShowPositive(mins);
      NumbersPositiveConcat(Show(mins), " min left");
    } else if mins == 0 {
      ShowPositive(hrs);
      NumbersPositiveConcat(Show(hrs), " hr left");
    } else {
      ShowPositive(hrs);
      ShowPositive(mins);
      NumbersPositiveConcat(Show(hrs), " hr ");
      NumbersPositiveConcat(Show(hrs) + " hr ", Show(mins));
      NumbersPositiveConcat(Show(hrs) + " hr " + Show(mins), " min left");
    }
  }

  /** The line is never empty, never shows a negative time, and never shows
      a zero component such as "0 min" or "0 hr". */
  lemma TimeLeftWellFormed(charge: int)
    ensures |TimeLeft(charge)| > 0
    ensures '-' !in TimeLeft(charge)
    ensures NumbersPositive(TimeLeft(charge))
  {
    var r := 100 - charge;
    if charge >= 99 {
      NoDigits(FULL);
    } else {
      ExpectedBounds(charge);
      if r <= 5 {
        FormatShowsPositive(r, 0, r);
      } else if r <= 20 {
        FormatShowsPositive(r, 0, (6 * r) / 5);
      } else if r <= 50 {
        var m := (3 * r) / 2;
        FormatShowsPositive(r, m / 60, m % 60);
      } else {
        ThreePerPercentSplit(r);
        FormatShowsPositive(r, r / 20, (r % 20) * 3);
      }
    }
  }

  /** Sample lines from the first two branches: one minute, then 1.2
      minutes, per remaining percent. */
  lemma MinutesOnlyExample()
    ensures TimeLeft(97) == "3 min left"
    ensures TimeLeft(88) == "14 min left"
  {
    assert TimeLeft(97) == ShowInt(3) + " min left";
    assert TimeLeft(88) == ShowInt(14) + " min left";
    assert Show(14) == Show(1) + [DigitChar(4)];
  }

  lemma HoursAndMinutesExample()
    ensures TimeLeft(55) == "1 hr 7 min left"
  {
    assert TimeLeft(55) == ShowInt(1) + " hr " + ShowInt(7) + " min left";
  }

  lemma HoursOnlyExample()
    ensures TimeLeft(0) == "5 hr left"
  {
    assert TimeLeft(0) == ShowInt(5) + " hr left";
  }

}
