/**
 * The arithmetic of the popup: `formatTime`, which renders seconds as
 * "<h>h <m>m" or "<m>m", and the total, count and ordering that
 * `displayTodayActivity` shows for today's per-domain seconds.
 */
module Popup {
  import opened Wrappers
  import opened Assoc
  import opened Ranking

  // ---------------------------------------------------------------------------
  // Decimal text, as a template literal renders an integer

  predicate IsDigit(c: char) {
    '0' <= c <= '9'
  }

  predicate AllDigits(s: string) {
    forall k :: 0 <= k < |s| ==> IsDigit(s[k])
  }

  function DigitChar(d: nat): char
    requires d < 10
  {
    ['0', '1', '2', '3', '4', '5', '6', '7', '8', '9'][d]
  }

  function DigitValue(c: char): nat
    requires IsDigit(c)
  {
    (c as int - '0' as int) as nat
  }

  /** The decimal digits of `n`, most significant first, with no leading zero. */
  function NatToString(n: nat): (s: string)
    ensures |s| > 0 && AllDigits(s)
  {
    if n < 10 then [DigitChar(n)] else NatToString(n / 10) + [DigitChar(n % 10)]
  }

  /** `${n}` for an integer. */
  function IntToString(i: int): string {
    if i < 0 then "-" + NatToString(-i) else NatToString(i)
  }

  /** The value of a string of digits. */
  function ParseNat(s: string): nat
    requires AllDigits(s)
  {
    if |s| == 0 then 0 else ParseNat(s[..|s| - 1]) * 10 + DigitValue(s[|s| - 1])
  }

  /** The digits read back as the number they render. */
  lemma {:induction false} ParseNatToString(n: nat)
    ensures ParseNat(NatToString(n)) == n
  {
    var s := NatToString(n);
    if n >= 10 {
      ParseNatToString(n / 10);
      assert s[..|s| - 1] == NatToString(n / 10);
    }
  }

  // ---------------------------------------------------------------------------
  // formatTime

  /** JavaScript's `a % b` for b > 0: the remainder takes the sign of `a`. */
  function JsRem(a: int, b: int): (r: int)
    requires b > 0
    ensures a >= 0 ==> r == a % b
    ensures -b < r < b
  {
    if a >= 0 then a % b else -((-a) % b)
  }

  /** `Math.floor(seconds / 3600)`; Dafny's division by a positive divisor floors. */
  function Hours(seconds: int): int {
    seconds / 3600
  }

  /** `Math.floor((seconds % 3600) / 60)`. */
  function Minutes(seconds: int): int {
    JsRem(seconds, 3600) / 60
  }

  function FormatTime(seconds: int): string {
    var hours := Hours(seconds);
    var minutes := Minutes(seconds);
    if hours > 0 then IntToString(hours) + "h " + IntToString(minutes) + "m"
    else IntToString(minutes) + "m"
  }

  /**
   * For a non-negative number of seconds the hours and minutes are its
   * whole hours and the whole minutes left over: minutes lie in 0..59 and
   * the seconds below a minute are dropped, not rounded.
   */
  lemma FormatTimeSplits(seconds: int)
    requires seconds >= 0
    ensures Hours(seconds) >= 0
    ensures 0 <= Minutes(seconds) <= 59
    ensures 3600 * Hours(seconds) + 60 * Minutes(seconds) <= seconds < 3600 * Hours(seconds) + 60 * Minutes(seconds) + 60
    ensures 3600 * Hours(seconds) + 60 * Minutes(seconds) == seconds - seconds % 60
  {
    var h := seconds / 3600;
    var r := seconds % 3600;
    assert seconds == 3600 * h + r;
    var m := r / 60;
    assert r == 60 * m + r % 60;
    assert seconds == 60 * (60 * h + m) + r % 60;
    ModOfSplit(seconds, 60 * h + m, r % 60);
  }

  lemma ModOfSplit(a: int, q: int, r: int)
    requires a == 60 * q + r && 0 <= r < 60
    ensures a % 60 == r
  {
  }

  /** The "h" part is shown exactly when there is at least one whole hour. */
  lemma FormatTimeShowsHours(seconds: int)
    ensures 'h' in FormatTime(seconds) <==> Hours(seconds) > 0
  {
    var m := IntToString(Minutes(seconds));
    NoLetterInNumber(Minutes(seconds));
    if Hours(seconds) > 0 {
      var t := IntToString(Hours(seconds)) + "h " + m + "m";
      assert t[|IntToString(Hours(seconds))|] == 'h';
    } else {
      var t := m + "m";
      forall k | 0 <= k < |t| ensures t[k] != 'h' {
        if k < |m| {
          assert t[k] == m[k];
        }
      }
    }
  }

  lemma NoLetterInNumber(i: int)
    ensures forall k :: 0 <= k < |IntToString(i)| ==> IntToString(i)[k] in "-0123456789"
  {
    var s := IntToString(i);
    forall k | 0 <= k < |s| ensures s[k] in "-0123456789" {
      if i >= 0 {
        assert IsDigit(s[k]);
      } else if k > 0 {
        assert s[k] == NatToString(-i)[k - 1];
        assert IsDigit(s[k]);
      }
    }
  }

  /** The first position of `c` in `s`. */
  function FindChar(s: string, c: char): (r: Option<nat>)
    ensures r.Some? ==> r.value < |s| && s[r.value] == c && forall k :: 0 <= k < r.value ==> s[k] != c
    ensures r.None? ==> forall k :: 0 <= k < |s| ==> s[k] != c
  {
    if |s| == 0 then None
    else if s[0] == c then Some(0)
    else match FindChar(s[1..], c)
      case None => None
      case Some(i) => Some(i + 1)
  }

  lemma {:induction false} FindCharIs(s: string, c: char, i: nat)
    requires i < |s| && s[i] == c && forall k :: 0 <= k < i ==> s[k] != c
    ensures FindChar(s, c) == Some(i)
  {
    if i > 0 {
      FindCharIs(s[1..], c, i - 1);
    }
  }

  /**
   * Reads "<h>h <m>m" or "<m>m" with unsigned decimal numbers back as the
   * seconds they stand for; None for any other text.
   */
  function ReadDuration(t: string): Option<int> {
    if |t| == 0 || t[|t| - 1] != 'm' then None else ReadBody(t[..|t| - 1])
  }

  /** The text before the final `m`: minutes alone, or hours, `h`, a space and minutes. */
  function ReadBody(body: string): Option<int> {
    match FindChar(body, 'h')
    case None =>
      if |body| > 0 && AllDigits(body) then Some(60 * ParseNat(body)) else None
    case Some(i) => ReadHours(body[..i], body[i + 1..])
  }

  /** Hours `hs`, then the rest after the `h`, which must be a space and minutes. */
  function ReadHours(hs: string, rest: string): Option<int> {
    if |rest| > 1 && rest[0] == ' ' && |hs| > 0 && AllDigits(hs) && AllDigits(rest[1..])
    then Some(3600 * ParseNat(hs) + 60 * ParseNat(rest[1..]))
    else None
  }

  /** The text of `formatTime` reads back as the seconds rounded down to the whole minute. */
  lemma FormatTimeReadsBack(seconds: int)
    requires seconds >= 0
    ensures ReadDuration(FormatTime(seconds)) == Some(seconds - seconds % 60)
  {
    FormatTimeSplits(seconds);
    var h := Hours(seconds);
    var m := Minutes(seconds);
    var hs, ms := NatToString(h), NatToString(m);
    ParseNatToString(m);
    if h > 0 {
      ParseNatToString(h);
      assert FormatTime(seconds) == hs + "h " + ms + "m";
      ReadHoursMinutes(hs, ms);
      assert ReadDuration(hs + "h " + ms + "m") == Some(3600 * h + 60 * m);
    } else {
      assert h == 0;
      assert FormatTime(seconds) == ms + "m";
      ReadMinutes(ms);
      assert ReadDuration(ms + "m") == Some(60 * m);
    }
  }

  lemma ReadHoursMinutes(hs: string, ms: string)
    requires |hs| > 0 && AllDigits(hs) && |ms| > 0 && AllDigits(ms)
    ensures ReadDuration(hs + "h " + ms + "m") == Some(3600 * ParseNat(hs) + 60 * ParseNat(ms))
  {
    var t := hs + "h " + ms + "m";
    var body := hs + "h " + ms;
    assert t == body + "m";
    assert t[..|t| - 1] == body;
    HoursBody(hs, ms);
    assert ReadDuration(t) == ReadBody(body);
    assert ReadBody(body) == ReadHours(hs, " " + ms);
    ReadHoursSpace(hs, ms);
  }

  lemma ReadHoursSpace(hs: string, ms: string)
    requires |hs| > 0 && AllDigits(hs) && |ms| > 0 && AllDigits(ms)
    ensures ReadHours(hs, " " + ms) == Some(3600 * ParseNat(hs) + 60 * ParseNat(ms))
  {
    var rest := " " + ms;
    assert rest[1..] == ms;
  }

  /** The part before the final `m` splits at its first `h` into the hours and the rest. */
  lemma HoursBody(hs: string, ms: string)
    requires AllDigits(hs)
    ensures var body := hs + "h " + ms;
      FindChar(body, 'h') == Some(|hs|) && body[..|hs|] == hs && body[|hs| + 1..] == " " + ms
  {
    var body := hs + "h " + ms;
    forall k | 0 <= k < |hs| ensures body[k] != 'h' {
      assert body[k] == hs[k] && IsDigit(hs[k]);
    }
    FindCharIs(body, 'h', |hs|);
    assert body[..|hs|] == hs;
    assert body[|hs| + 1..] == " " + ms;
  }

  lemma ReadMinutes(ms: string)
    requires |ms| > 0 && AllDigits(ms)
    ensures ReadDuration(ms + "m") == Some(60 * ParseNat(ms))
  {
    var t := ms + "m";
    var body := t[..|t| - 1];
    assert body == ms;
    forall k | 0 <= k < |body| ensures body[k] != 'h' {
      assert IsDigit(body[k]);
    }
  }

  // ---------------------------------------------------------------------------
  // displayTodayActivity

  /** What the popup shows for today: the total time text, the site count text and the domain order. */
  datatype TodaySummary = TodaySummary(totalTime: string, sitesCount: string, domains: seq<string>)

  /** `displayTodayActivity` on today's seconds per domain, in key order. */
  function TodayActivity(activity: Assoc<int>): TodaySummary {
    if |activity| == 0 then TodaySummary("0h 0m", "0", [])
    else
      TodaySummary(FormatTime(SumValues(activity)), IntToString(|activity|), Keys(SortByValueDesc(activity)))
  }

  /**
   * Without activity the total is the fixed "0h 0m", which is not what
   * `formatTime(0)` gives, the count is "0" and no domain is listed.
   */
  lemma TodayWithoutActivity()
    ensures var r := TodayActivity([]);
      r.totalTime == "0h 0m" && r.totalTime != FormatTime(0) && r.sitesCount == "0" && r.domains == []
  {
    FormatTimeZero();
  }

  /**
   * With activity, the count reads back as the number of domains, and the
   * domains are those of the activity, each once, by non-increasing seconds.
   */
  lemma TodayWithActivity(activity: Assoc<int>)
    requires UniqueKeys(activity) && |activity| > 0
    ensures var r := TodayActivity(activity);
      && AllDigits(r.sitesCount) && ParseNat(r.sitesCount) == |activity|
      && multiset(r.domains) == multiset(Keys(activity))
      && forall i, j :: 0 <= i < j < |r.domains| ==>
           HasKey(activity, r.domains[i]) && HasKey(activity, r.domains[j])
           && Get(activity, r.domains[i]).value >= Get(activity, r.domains[j]).value
  {
    var r := TodayActivity(activity);
    assert r.sitesCount == NatToString(|activity|);
    ParseNatToString(|activity|);
    assert r.domains == Keys(SortByValueDesc(activity));
    DomainsRanked(activity);
  }

  /** With activity, the total reads back as the summed seconds, to the minute. */
  lemma TodayTotal(activity: Assoc<int>, total: int)
    requires |activity| > 0 && total == SumValues(activity) && total >= 0
    ensures ReadDuration(TodayActivity(activity).totalTime) == Some(total - total % 60)
  {
    TotalTimeIs(activity);
    FormatTimeReadsBack(total);
  }

  lemma TotalTimeIs(activity: Assoc<int>)
    requires |activity| > 0
    ensures TodayActivity(activity).totalTime == FormatTime(SumValues(activity))
  {
  }

  /** `formatTime(0)` is "0m". */
  lemma FormatTimeZero()
    ensures FormatTime(0) == "0m"
  {
    assert Hours(0) == 0 && Minutes(0) == 0;
    assert NatToString(0) == "0";
  }

  /** The sorted keys are the keys, ordered by non-increasing seconds. */
  lemma DomainsRanked(activity: Assoc<int>)
    requires UniqueKeys(activity)
    ensures var domains := Keys(SortByValueDesc(activity));
      && multiset(domains) == multiset(Keys(activity))
      && forall i, j :: 0 <= i < j < |domains| ==>
           HasKey(activity, domains[i]) && HasKey(activity, domains[j])
           && Get(activity, domains[i]).value >= Get(activity, domains[j]).value
  {
    var ranked := SortByValueDesc(activity);
    SortIsDescendingPermutation(activity);
    SortKeepsKeys(activity);
    forall i | 0 <= i < |ranked| ensures Get(activity, ranked[i].0) == Some(ranked[i].1) {
      assert ranked[i] in multiset(activity);
      var k :| 0 <= k < |activity| && activity[k] == ranked[i];
      GetUnique(activity, k);
    }
  }

  lemma GetUnique(m: Assoc<int>, k: nat)
    requires UniqueKeys(m) && k < |m|
    ensures Get(m, m[k].0) == Some(m[k].1)
  {
    IndexOfUnique(m, k);
  }
}
