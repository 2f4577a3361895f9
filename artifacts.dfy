/**
 * Names and one-line contents of the artifacts the meter writes to flash
 * (testing.py:52-54, 66-68, 100-102), and how the cleanup and reconciliation
 * loops recognise them by suffix (testing.py:76, 91).
 */
module Artifacts {
  import opened Text

  const MinuteSuffix: string := "_minute.txt"
  const HourSuffix: string := "_hour.txt"
  const DaySuffix: string := ".txt"

  /** `f"/{hour_counter:02d}-{minute_counter:02d}_minute.txt"` */
  function MinuteName(hour: nat, minute: nat): string
  {
    "/" + Pad2(hour) + "-" + Pad2(minute) + MinuteSuffix
  }

  /** `f"/{hour_counter:02d}_hour.txt"` */
  function HourName(hour: nat): string
  {
    "/" + Pad2(hour) + HourSuffix
  }

  /** `f"/day_{days_counter}.txt"` */
  function DayName(day: nat): string
  {
    "/day_" + NatToString(day) + DaySuffix
  }

  /** The test of the cleanup loop, `filename.endswith("_minute.txt")`. */
  predicate IsMinuteArtifact(name: string)
  {
    EndsWith(name, MinuteSuffix)
  }

  /** The test of the reconciliation loop, `filename.endswith("_hour.txt")`. */
  predicate IsHourArtifact(name: string)
  {
    EndsWith(name, HourSuffix)
  }

  /** No name is taken by both loops: the two suffixes disagree nine places from the end. */
  lemma KindsExclusive(name: string)
    ensures !(IsMinuteArtifact(name) && IsHourArtifact(name))
  {
    if IsHourArtifact(name) && |MinuteSuffix| <= |name| {
      var tail := name[|name| - |MinuteSuffix|..];
      assert tail[2] == name[|name| - 9] == HourSuffix[0];
      assert tail[2] != MinuteSuffix[2];
    }
  }

  lemma MinuteNameKind(hour: nat, minute: nat)
    ensures IsMinuteArtifact(MinuteName(hour, minute))
    ensures !IsHourArtifact(MinuteName(hour, minute))
  {
    EndsWithAppend("/" + Pad2(hour) + "-" + Pad2(minute), MinuteSuffix);
    KindsExclusive(MinuteName(hour, minute));
  }

  lemma HourNameKind(hour: nat)
    ensures IsHourArtifact(HourName(hour))
    ensures !IsMinuteArtifact(HourName(hour))
  {
    EndsWithAppend("/" + Pad2(hour), HourSuffix);
    KindsExclusive(HourName(hour));
  }

  /** A day artifact is neither deleted by the cleanup loop nor summed by the reconciliation loop. */
  lemma DayNameKind(day: nat)
    ensures !IsMinuteArtifact(DayName(day))
    ensures !IsHourArtifact(DayName(day))
  {
    var name := DayName(day);
    var digits := NatToString(day);
    // the character just before ".txt" is the last digit of the day number
    assert name[|name| - 5] == digits[|digits| - 1];
    assert IsDigit(name[|name| - 5]);
  }

  /** Distinct (hour, minute) pairs in two-digit range give distinct minute artifact names. */
  lemma MinuteNameInjective(h1: nat, m1: nat, h2: nat, m2: nat)
    requires h1 < 100 && m1 < 100 && h2 < 100 && m2 < 100
    requires MinuteName(h1, m1) == MinuteName(h2, m2)
    ensures h1 == h2 && m1 == m2
  {
    var a, b := MinuteName(h1, m1), MinuteName(h2, m2);
    assert a[1..3] == Pad2(h1) && b[1..3] == Pad2(h2);
    assert a[4..6] == Pad2(m1) && b[4..6] == Pad2(m2);
    Pad2Injective(h1, h2);
    Pad2Injective(m1, m2);
  }

  /** Each hour of the day has its own name, and the same name on every day. */
  lemma HourNameInjective(h1: nat, h2: nat)
    requires HourName(h1) == HourName(h2)
    ensures h1 == h2
  {
    var a, b := HourName(h1), HourName(h2);
    assert a[1..|a| - |HourSuffix|] == Pad2(h1);
    assert b[1..|b| - |HourSuffix|] == Pad2(h2);
    Pad2Injective(h1, h2);
  }

  /**
   * Every day gets a fresh day artifact name, so within one run a day
   * artifact is never overwritten. The day counter restarts at 1 on boot,
   * so a later run overwrites the day artifacts of an earlier one.
   */
  lemma DayNameInjective(d1: nat, d2: nat)
    requires DayName(d1) == DayName(d2)
    ensures d1 == d2
  {
    var a, b := DayName(d1), DayName(d2);
    assert a[5..|a| - |DaySuffix|] == NatToString(d1);
    assert b[5..|b| - |DaySuffix|] == NatToString(d2);
    NatToStringInjective(d1, d2);
  }

  /** The head before the separator of an hour artifact's line. */
  function HourLabel(hour: nat): string
  {
    "Hour " + Pad2(hour) + " - Price"
  }

  /** `f"Hour {hour_counter:02d} - Price: {hour_price_sum:.6f}\n"`, the formatted price given as text. */
  function HourLine(hour: nat, priceText: string): string
  {
    HourLabel(hour) + ":" + " " + priceText + "\n"
  }

  /**
   * Reading an hour artifact back with `split(":")[1]` yields exactly the text
   * written after "Price:", as long as the formatted price has no ':' (a
   * formatted number never has one).
   */
  lemma HourLineSplit(hour: nat, priceText: string)
    requires ':' !in priceText
    ensures Count(HourLine(hour, priceText), ':') == 1
    ensures |Split(HourLine(hour, priceText), ':')| == 2
    ensures Split(HourLine(hour, priceText), ':')[1] == " " + priceText + "\n"
  {
    var head, rest := HourLabel(hour), " " + priceText + "\n";
    assert forall i :: 0 <= i < |Pad2(hour)| ==> Pad2(hour)[i] != ':';
    assert ':' !in head by {
      forall i | 0 <= i < |head| ensures head[i] != ':' {
        if 5 <= i < 5 + |Pad2(hour)| {
          assert head[i] == Pad2(hour)[i - 5];
        }
      }
    }
    assert ':' !in rest;
    assert HourLine(hour, priceText) == head + [':'] + rest;
    SplitOneSeparator(head, ':', rest);
  }
}
