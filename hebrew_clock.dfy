/** The Hebrew clock widget: the time of day spelled out in pointed Hebrew words, and the delay
    after which the display is refreshed. */
module HebrewClock {

  /** Hour words of the 12-hour clock, 1..12. */
  const HOURS: map<int, string> := map[
    1 := "אַחַת",
    2 := "שְׁתַּיִם",
    3 := "שָׁלוֹשׁ",
    4 := "אַרְבַּע",
    5 := "חָמֵשׁ",
    6 := "שֵׁשׁ",
    7 := "שֶׁבַע",
    8 := "שְׁמוֹנֶה",
    9 := "תֵּשַׁע",
    10 := "עֶשֶׂר",
    11 := "אַחַת עֶשְׂרֵה",
    12 := "שְׁתֵּים עֶשְׂרֵה"
  ]

  /** Minute units 1..9, feminine form. */
  const MINUTE_UNITS: map<int, string> := map[
    1 := "אַחַת",
    2 := "שְׁתַּיִם",
    3 := "שָׁלוֹשׁ",
    4 := "אַרְבַּע",
    5 := "חָמֵשׁ",
    6 := "שֵׁשׁ",
    7 := "שֶׁבַע",
    8 := "שְׁמוֹנֶה",
    9 := "תֵּשַׁע"
  ]

  /** Minute tens 10, 20, 30, 40 and 50. */
  const MINUTE_TENS: map<int, string> := map[
    10 := "עֶשֶׂר",
    20 := "עֶשְׂרִים",
    30 := "שְׁלוֹשִׁים",
    40 := "אַרְבָּעִים",
    50 := "חֲמִשִּׁים"
  ]

  /** Minutes 11..19. */
  const MINUTE_TEENS: map<int, string> := map[
    11 := "אַחַת עֶשְׂרֵה",
    12 := "שְׁתֵּים עֶשְׂרֵה",
    13 := "שְׁלוֹשׁ עֶשְׂרֵה",
    14 := "אַרְבַּע עֶשְׂרֵה",
    15 := "חֲמֵשׁ עֶשְׂרֵה",
    16 := "שֵׁשׁ עֶשְׂרֵה",
    17 := "שְׁבַע עֶשְׂרֵה",
    18 := "שְׁמוֹנֶה עֶשְׂרֵה",
    19 := "תְּשַׁע עֶשְׂרֵה"
  ]

  const MORNING := "בַּבֹּקֶר"
  const NOON := "בַּצָּהֳרַיִם"
  const AFTERNOON := "אַחֲרֵי הַצָּהֳרַיִם"
  const EVENING := "בָּעֶרֶב"
  const NIGHT := "בַּלַּיְלָה"

  /** The joining "and" (a space, vav and sheva) placed between an hour and its minutes and between
      tens and units. */
  const AND := " וְ"

  /** The period of the day for a 24-hour hour: the five periods split 0..23 without gap or
      overlap, and any other value falls to night. */
  function GetTimeOfDay(hour24: int): (period: string)
    ensures period == MORNING <==> 5 <= hour24 <= 11
    ensures period == NOON <==> hour24 == 12
    ensures period == AFTERNOON <==> 13 <= hour24 <= 16
    ensures period == EVENING <==> 17 <= hour24 <= 20
    ensures period == NIGHT <==> hour24 < 5 || hour24 > 20
  {
    if 5 <= hour24 <= 11 then MORNING
    else if hour24 == 12 then NOON
    else if 13 <= hour24 <= 16 then AFTERNOON
    else if 17 <= hour24 <= 20 then EVENING
    else NIGHT
  }

  /** The minute spelled in words; the minute comes from `Date.getMinutes`, so lies in 0..59, and
      every table entry used is then defined. */
  function MinuteToHebrew(minute: int): (words: string)
    requires 0 <= minute <= 59
    ensures words == "" <==> minute == 0
    ensures 1 <= minute <= 9 ==> words == MINUTE_UNITS[minute]
    ensures 10 <= minute && minute % 10 == 0 ==> words == MINUTE_TENS[minute]
    ensures 11 <= minute <= 19 ==> words == MINUTE_TEENS[minute]
    ensures 20 < minute && minute % 10 != 0 ==>
      minute - minute % 10 in MINUTE_TENS && minute % 10 in MINUTE_UNITS &&
      words == MINUTE_TENS[minute - minute % 10] + AND + MINUTE_UNITS[minute % 10]
  {
    if minute == 0 then ""
    else if minute <= 9 then MINUTE_UNITS[minute]
    else if minute == 10 then MINUTE_TENS[10]
    else if 11 <= minute <= 19 then MINUTE_TEENS[minute]
    else
      var tens := (minute / 10) * 10;
      var units := minute % 10;
      if units == 0 then MINUTE_TENS[tens]
      else MINUTE_TENS[tens] + AND + MINUTE_UNITS[units]
  }

  /** The unit words are pairwise different, and between five and nine characters long. */
  lemma UnitWordsDistinct(a: int, b: int)
    requires a in MINUTE_UNITS && b in MINUTE_UNITS
    ensures 5 <= |MINUTE_UNITS[a]| <= 9
    ensures a != b ==> MINUTE_UNITS[a] != MINUTE_UNITS[b]
  {
  }

  /** The ten words are pairwise different, between six and eleven characters long. */
  lemma TenWordsDistinct(a: int, b: int)
    requires a in MINUTE_TENS && b in MINUTE_TENS
    ensures 6 <= |MINUTE_TENS[a]| <= 11
    ensures a != b ==> MINUTE_TENS[a] != MINUTE_TENS[b]
  {
  }

  /** The teen words are pairwise different, between fourteen and eighteen characters long. */
  lemma TeenWordsDistinct(a: int, b: int)
    requires a in MINUTE_TEENS && b in MINUTE_TEENS
    ensures 14 <= |MINUTE_TEENS[a]| <= 18
    ensures a != b ==> MINUTE_TEENS[a] != MINUTE_TEENS[b]
  {
  }

  /** No unit word is a ten word. */
  lemma UnitIsNoTen(a: int, b: int)
    requires a in MINUTE_UNITS && b in MINUTE_TENS
    ensures MINUTE_UNITS[a] != MINUTE_TENS[b]
  {
  }

  /** A teen word that starts like a round ten from 20 on is shorter than that ten followed by
      the joining "and" and a unit word. */
  lemma TeenShorterThanCompound(a: int, tens: int)
    requires a in MINUTE_TEENS && tens in {20, 30, 40, 50}
    ensures MINUTE_TEENS[a][0] == MINUTE_TENS[tens][0] ==> |MINUTE_TEENS[a]| < |MINUTE_TENS[tens]| + 8
  {
  }

  /** A compound minute is its ten word, the joining "and" and its unit word. */
  lemma CompoundWordShape(m: int)
    requires 20 < m <= 59 && m % 10 != 0
    ensures var tens, units := MINUTE_TENS[m - m % 10], MINUTE_UNITS[m % 10]; var w := MinuteToHebrew(m);
      && |w| == |tens| + |AND| + |units| && w[0] == tens[0] && w[|tens| + |AND|..] == units
  {
    var tens, units := MINUTE_TENS[m - m % 10], MINUTE_UNITS[m % 10];
    var w := MinuteToHebrew(m);
    assert w == tens + AND + units;
    assert w[|tens| + |AND|..] == units;
  }

  /** Minutes spelled with tens, the joining "and" and units: 21..59 except the round tens. */
  predicate IsCompoundMinute(m: int)
  {
    20 < m <= 59 && m % 10 != 0
  }

  /** The round tens 20..50 start with four different letters. */
  lemma TensStartDistinct(a: int, b: int)
    requires a in {20, 30, 40, 50} && b in {20, 30, 40, 50} && a != b
    ensures MINUTE_TENS[a][0] != MINUTE_TENS[b][0]
  {
  }

  /** The word of a minute spelled by one table entry, with its length bounds: unit words are at
      most nine characters long, ten words at most eleven and teen words at least fourteen. */
  lemma SingleWord(m: int)
    requires 1 <= m <= 59 && !IsCompoundMinute(m)
    ensures m <= 9 ==> MinuteToHebrew(m) == MINUTE_UNITS[m] && |MINUTE_UNITS[m]| <= 9
    ensures m % 10 == 0 ==> MinuteToHebrew(m) == MINUTE_TENS[m] && |MINUTE_TENS[m]| <= 11
    ensures 11 <= m <= 19 ==> MinuteToHebrew(m) == MINUTE_TEENS[m] && |MINUTE_TEENS[m]| >= 14
  {
    if m <= 9 {
      UnitWordsDistinct(m, m);
    } else if m % 10 == 0 {
      TenWordsDistinct(m, m);
    } else {
      TeenWordsDistinct(m, m);
    }
  }

  /** A unit minute is spelled differently from every other single-word minute. */
  lemma UnitWordIsSingle(a: int, b: int)
    requires 1 <= a <= 9 && 1 <= b <= 59 && a != b && !IsCompoundMinute(b)
    ensures MINUTE_UNITS[a] != MinuteToHebrew(b)
  {
    SingleWord(b);
    if b <= 9 {
      UnitWordsDistinct(a, b);
    } else if b % 10 == 0 {
      UnitIsNoTen(a, b);
    } else {
      UnitWordsDistinct(a, a);
    }
  }

  /** A ten minute is spelled differently from every other single-word minute. */
  lemma TenWordIsSingle(a: int, b: int)
    requires a in MINUTE_TENS && 1 <= b <= 59 && a != b && !IsCompoundMinute(b)
    ensures MINUTE_TENS[a] != MinuteToHebrew(b)
  {
    SingleWord(b);
    if b <= 9 {
      UnitIsNoTen(b, a);
    } else if b % 10 == 0 {
      TenWordsDistinct(a, b);
    } else {
      TenWordsDistinct(a, a);
    }
  }

  /** A teen minute is spelled differently from every other single-word minute. */
  lemma TeenWordIsSingle(a: int, b: int)
    requires 11 <= a <= 19 && 1 <= b <= 59 && a != b && !IsCompoundMinute(b)
    ensures MINUTE_TEENS[a] != MinuteToHebrew(b)
  {
    SingleWord(b);
    if 11 <= b <= 19 {
      TeenWordsDistinct(a, b);
    } else {
      TeenWordsDistinct(a, a);
    }
  }

  /** Two minutes from 1 to 59 that are each spelled by one table entry, a unit, ten or teen
      word, are spelled differently. */
  lemma SingleWordsDistinct(a: int, b: int)
    requires 1 <= a <= 59 && 1 <= b <= 59 && a != b && !IsCompoundMinute(a) && !IsCompoundMinute(b)
    ensures MinuteToHebrew(a) != MinuteToHebrew(b)
  {
    if a <= 9 {
      UnitWordIsSingle(a, b);
    } else if a % 10 == 0 {
      TenWordIsSingle(a, b);
    } else {
      TeenWordIsSingle(a, b);
    }
  }

  /** Two compound minutes differ in their first letter when their tens differ, and in their unit
      words when the tens agree. */
  lemma CompoundWordsDistinct(a: int, b: int)
    requires IsCompoundMinute(a) && IsCompoundMinute(b) && a != b
    ensures MinuteToHebrew(a) != MinuteToHebrew(b)
  {
    CompoundWordShape(a);
    CompoundWordShape(b);
    if a - a % 10 == b - b % 10 {
      UnitWordsDistinct(a % 10, b % 10);
      var k := |MINUTE_TENS[a - a % 10]| + |AND|;
      assert MinuteToHebrew(a)[k..] != MinuteToHebrew(b)[k..];
    } else {
      TensStartDistinct(a - a % 10, b - b % 10);
    }
  }

  /** A compound minute is longer than every single word that starts with the same letter. */
  lemma CompoundIsNoSingleWord(m: int, s: int)
    requires IsCompoundMinute(m) && 1 <= s <= 59 && !IsCompoundMinute(s)
    ensures MinuteToHebrew(m) != MinuteToHebrew(s)
  {
    var tens := m - m % 10;
    CompoundWordShape(m);
    UnitWordsDistinct(m % 10, m % 10);
    TenWordsDistinct(tens, tens);
    SingleWord(s);
    if 11 <= s <= 19 {
      TeenShorterThanCompound(s, tens);
    }
  }

  /** Different minutes are spelled differently, so the words identify the minute. */
  lemma MinuteWordsDistinct(m1: int, m2: int)
    requires 0 <= m1 <= 59 && 0 <= m2 <= 59 && m1 != m2
    ensures MinuteToHebrew(m1) != MinuteToHebrew(m2)
  {
    if m1 == 0 || m2 == 0 {
    } else if IsCompoundMinute(m1) && IsCompoundMinute(m2) {
      CompoundWordsDistinct(m1, m2);
    } else if IsCompoundMinute(m1) {
      CompoundIsNoSingleWord(m1, m2);
    } else if IsCompoundMinute(m2) {
      CompoundIsNoSingleWord(m2, m1);
    } else {
      SingleWordsDistinct(m1, m2);
    }
  }

  /** The hour on the 12-hour dial: the value in 1..12 that agrees with `hour24` modulo 12, so
      the hour word is always defined. */
  function To12Hour(hour24: int): (hour12: int)
    ensures 0 <= hour24 <= 23 ==> 1 <= hour12 <= 12 && hour12 in HOURS && hour12 % 12 == hour24 % 12
    ensures 1 <= hour24 <= 12 ==> hour12 == hour24
  {
    if hour24 == 0 then 12
    else if hour24 > 12 then hour24 - 12
    else hour24
  }

  /** The hour word, then the minutes joined by "and" unless the minute is 0, then the period. */
  function GetHebrewTime(hour24: int, minute: int): (time: string)
    requires 0 <= hour24 <= 23 && 0 <= minute <= 59
    ensures minute == 0 ==> time == HOURS[To12Hour(hour24)] + " " + GetTimeOfDay(hour24)
    ensures minute != 0 ==>
      time == HOURS[To12Hour(hour24)] + AND + MinuteToHebrew(minute) + " " + GetTimeOfDay(hour24)
  {
    var hourHebrew := HOURS[To12Hour(hour24)];
    var minuteHebrew := MinuteToHebrew(minute);
    var timeOfDay := GetTimeOfDay(hour24);
    if minute == 0 then hourHebrew + " " + timeOfDay
    else hourHebrew + AND + minuteHebrew + " " + timeOfDay
  }

  /** The hour word and the period together identify the 24-hour hour: no two hours of a day
      are displayed alike. */
  lemma HourAndPeriodIdentifyHour(h1: int, h2: int)
    requires 0 <= h1 <= 23 && 0 <= h2 <= 23
    requires HOURS[To12Hour(h1)] == HOURS[To12Hour(h2)] && GetTimeOfDay(h1) == GetTimeOfDay(h2)
    ensures h1 == h2
  {
    if To12Hour(h1) != To12Hour(h2) {
      HourWordsDistinct(To12Hour(h1), To12Hour(h2));
    }
  }

  /** The twelve hour words are pairwise different. */
  lemma HourWordsDistinct(a: int, b: int)
    requires a in HOURS && b in HOURS && a != b
    ensures HOURS[a] != HOURS[b]
  {
  }

  /** The minute part of the display: nothing on the hour, otherwise the joining "and" and the
      minute in words. */
  function MinutePart(minute: int): string
    requires 0 <= minute <= 59
  {
    if minute == 0 then "" else AND + MinuteToHebrew(minute)
  }

  /** A display is the hour word, the minute part, a space and the period. */
  lemma HebrewTimeParts(hour24: int, minute: int)
    requires 0 <= hour24 <= 23 && 0 <= minute <= 59
    ensures GetHebrewTime(hour24, minute) ==
      HOURS[To12Hour(hour24)] + MinutePart(minute) + " " + GetTimeOfDay(hour24)
  {
    if minute != 0 {
      Regroup(HOURS[To12Hour(hour24)], AND, MinuteToHebrew(minute));
    }
  }

  /** Concatenation regrouped; proved apart from the clock's tables, where it is cheap. */
  lemma Regroup(a: string, b: string, c: string)
    ensures a + b + c == a + (b + c)
  {
  }

  /** The minute part is empty or starts with the space and the vav of the joining "and". */
  lemma MinutePartStart(minute: int)
    requires 0 <= minute <= 59
    ensures var mid := MinutePart(minute); mid == "" || (|mid| >= 2 && mid[0] == ' ' && mid[1] == 'ו')
  {
    if minute != 0 {
      assert MinutePart(minute)[..|AND|] == AND;
    }
  }

  /** Every period word starts with a bet or an alef. */
  lemma PeriodStart(hour24: int)
    ensures |GetTimeOfDay(hour24)| > 0 && GetTimeOfDay(hour24)[0] in {'ב', 'א'}
  {
  }

  /** The positions of the parts in `w + mid + " " + p`, for a middle part that is empty or starts
      with a space and a vav, and a period that starts with a bet or an alef. */
  lemma Layout(w: string, mid: string, p: string)
    requires mid == "" || (|mid| >= 2 && mid[0] == ' ' && mid[1] == 'ו')
    requires |p| > 0 && p[0] in {'ב', 'א'}
    ensures var t := w + mid + " " + p;
      && |t| == |w| + |mid| + 1 + |p|
      && t[..|w|] == w && t[|w|] == ' ' && t[|w| + 1] in {'ו', 'ב', 'א'}
      && t[|t| - |p|..] == p && t[|t| - |p| - 1] == ' '
      && t[|w|..|t| - |p| - 1] == mid
  {
    var t := w + mid + " " + p;
    assert t[|w| + 1] == if mid == "" then p[0] else mid[1];
  }

  /** A space inside an hour word is never its last character, and is followed by an ayin. */
  lemma HourWordSpace(b: int, k: int)
    requires b in HOURS && 0 <= k < |HOURS[b]| && HOURS[b][k] == ' '
    ensures k + 1 < |HOURS[b]| && HOURS[b][k + 1] == 'ע'
  {
  }

  /** The only space inside a period word leaves twelve characters after it, and no period word
      is twelve characters long. */
  lemma PeriodSpace(hour24: int, k: int)
    requires 0 <= k < |GetTimeOfDay(hour24)| && GetTimeOfDay(hour24)[k] == ' '
    ensures |GetTimeOfDay(hour24)| - k - 1 == 12
  {
  }

  lemma PeriodLength(hour24: int)
    ensures |GetTimeOfDay(hour24)| != 12
  {
  }

  /** Two displays that agree begin with the same hour word. */
  lemma SameHourWord(a: int, b: int, t: string)
    requires a in HOURS && b in HOURS
    requires |t| > |HOURS[a]| + 1 && t[..|HOURS[a]|] == HOURS[a] && t[|HOURS[a]|] == ' '
    requires t[|HOURS[a]| + 1] in {'ו', 'ב', 'א'}
    requires |t| > |HOURS[b]| + 1 && t[..|HOURS[b]|] == HOURS[b] && t[|HOURS[b]|] == ' '
    requires t[|HOURS[b]| + 1] in {'ו', 'ב', 'א'}
    ensures a == b
  {
    var na, nb := |HOURS[a]|, |HOURS[b]|;
    if na < nb {
      assert HOURS[b][na] == t[na];
      HourWordSpace(b, na);
    } else if nb < na {
      assert HOURS[a][nb] == t[nb];
      HourWordSpace(a, nb);
    } else if a != b {
      HourWordsDistinct(a, b);
    }
  }

  /** Two displays that agree end with the same period. */
  lemma SamePeriod(h1: int, h2: int, t: string)
    requires var p := GetTimeOfDay(h1); |t| > |p| && t[|t| - |p|..] == p && t[|t| - |p| - 1] == ' '
    requires var p := GetTimeOfDay(h2); |t| > |p| && t[|t| - |p|..] == p && t[|t| - |p| - 1] == ' '
    ensures GetTimeOfDay(h1) == GetTimeOfDay(h2)
  {
    var p1, p2 := GetTimeOfDay(h1), GetTimeOfDay(h2);
    if |p1| < |p2| {
      var k := |p2| - |p1| - 1;
      assert p2[k] == t[|t| - |p1| - 1];
      PeriodSpace(h2, k);
      PeriodLength(h1);
    } else if |p2| < |p1| {
      var k := |p1| - |p2| - 1;
      assert p1[k] == t[|t| - |p2| - 1];
      PeriodSpace(h1, k);
      PeriodLength(h2);
    }
  }

  /** Two strings with the same beginning and the same end have the same middle. */
  lemma SameMiddle(w: string, mid1: string, mid2: string, p: string)
    requires w + mid1 + " " + p == w + mid2 + " " + p
    ensures mid1 == mid2
  {
    var t := w + mid1 + " " + p;
    assert mid1 == t[|w|..|t| - |p| - 1];
  }

  /** Different minutes have different minute parts. */
  lemma MinutePartsDistinct(m1: int, m2: int)
    requires 0 <= m1 <= 59 && 0 <= m2 <= 59 && m1 != m2
    ensures MinutePart(m1) != MinutePart(m2)
  {
    if m1 != 0 && m2 != 0 {
      var mid1, mid2 := MinutePart(m1), MinutePart(m2);
      assert MinuteToHebrew(m1) == mid1[|AND|..];
      assert MinuteToHebrew(m2) == mid2[|AND|..];
      MinuteWordsDistinct(m1, m2);
    }
  }

  /** The display identifies the time: different times of day, to the minute, are displayed
      differently. */
  lemma HebrewTimeIdentifiesTime(h1: int, m1: int, h2: int, m2: int)
    requires 0 <= h1 <= 23 && 0 <= m1 <= 59 && 0 <= h2 <= 23 && 0 <= m2 <= 59
    requires GetHebrewTime(h1, m1) == GetHebrewTime(h2, m2)
    ensures h1 == h2 && m1 == m2
  {
    var w1, mid1, p1 := HOURS[To12Hour(h1)], MinutePart(m1), GetTimeOfDay(h1);
    var w2, mid2, p2 := HOURS[To12Hour(h2)], MinutePart(m2), GetTimeOfDay(h2);
    HebrewTimeParts(h1, m1);
    HebrewTimeParts(h2, m2);
    MinutePartStart(m1);
    MinutePartStart(m2);
    PeriodStart(h1);
    PeriodStart(h2);
    var t := w1 + mid1 + " " + p1;
    assert t == w2 + mid2 + " " + p2;
    Layout(w1, mid1, p1);
    Layout(w2, mid2, p2);
    SameHourWord(To12Hour(h1), To12Hour(h2), t);
    SamePeriod(h1, h2, t);
    HourAndPeriodIdentifyHour(h1, h2);
    SameMiddle(w1, mid1, mid2, p1);
    if m1 != m2 {
      MinutePartsDistinct(m1, m2);
    }
  }

  /** `(60 - seconds) * 1000 - milliseconds`: the wait until the next minute starts, between 1 ms
      and one minute, ending exactly on the minute boundary. */
  function MsUntilNextMinute(seconds: int, milliseconds: int): (delay: int)
    requires 0 <= seconds <= 59 && 0 <= milliseconds <= 999
    ensures 1 <= delay <= 60000
    ensures seconds * 1000 + milliseconds + delay == 60000
  {
    (60 - seconds) * 1000 - milliseconds
  }
}
