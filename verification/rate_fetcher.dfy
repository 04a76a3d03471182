/**
  The federal rate: the average 1-year Treasury yield over the week before
  the judgment date's week (src-tauri/src/rate_fetcher.rs). The HTTP request
  is an oracle argument; everything around it is modelled.
*/
module RateFetcher {
  import opened Wrappers
  import opened Civil
  import opened Numerals
  import opened Models

  datatype FetchError =
    | RequestError(detail: string)
    | ParseError(detail: string)
    | DateError(detail: string)
    | NoValidObservations
    | ApiKeyMissing
  {
    /** The error's display text. */
    function Message(): string {
      match this
      case RequestError(d) => "API request failed: " + d
      case ParseError(d) => "Failed to parse response: " + d
      case DateError(d) => "Failed to parse date: " + d
      case NoValidObservations => "No valid observations found"
      case ApiKeyMissing => "API key not configured"
    }
  }

  /** The request for the observations of the series between two dates
      (inclusive) with a given API key: `fetch_fred_data`. The source's
      request fails only with `RequestError` (transport) or `ParseError`
      (body); the type does not enforce that, and `GetFederalRate` passes
      whatever error it gets through unchanged. */
  type FredOracle = (string, Date, Date) -> Result<seq<FredObservation>, FetchError>

  /** What sending the key-validation request gave back. */
  datatype SendOutcome =
    | Responded(status: int)
    | FailedWithStatus(code: int, shown: string)
    | FailedWithoutStatus(message: string)

  /** `get_fallback_federal_rate`: the default federal rate used when the
      live rate is unavailable, 5 % written as a decimal fraction like the
      live average. */
  function FallbackFederalRate(): (r: real)
    ensures r * 100.0 == 5.0
  {
    0.05
  }

  /** Each error displays differently, so a message names its error. */
  lemma MessageInjective(e1: FetchError, e2: FetchError)
    ensures e1.Message() == e2.Message() <==> e1 == e2
  {
    if e1.Message() == e2.Message() {
      var m1, m2 := e1.Message(), e2.Message();
      assert m1[0] == m2[0] && m1[4] == m2[4] && m1[16] == m2[16];
      match e1
      case RequestError(d) =>
        assert e2.RequestError?;
        assert m1[20..] == d && m2[20..] == e2.detail;
      case ParseError(d) =>
        assert e2.ParseError?;
        assert m1[26..] == d && m2[26..] == e2.detail;
      case DateError(d) =>
        assert e2.DateError?;
        assert m1[22..] == d && m2[22..] == e2.detail;
      case NoValidObservations =>
      case ApiKeyMissing =>
    }
  }

  // ---------------------------------------------------------------------
  // The query window

  /** Monday to Sunday of the week before the week containing `judgment`. */
  function PrecedingWeek(judgment: Date): (w: (Date, Date))
    ensures Weekday(w.0) == Monday && Weekday(w.1) == Sunday
    ensures Ordinal(w.1) == Ordinal(w.0) + 6
    ensures 7 <= Ordinal(judgment) - Ordinal(w.0) <= 13
    ensures Ordinal(w.1) == Ordinal(judgment) - Weekday(judgment) - 1
  {
    var w := Window(judgment);
    WindowWeekdays(judgment);
    w
  }

  /** Step back past the start of the current week and then one more whole
      week; the window ends six days later. */
  function Window(judgment: Date): (w: (Date, Date))
    ensures Ordinal(w.1) == Ordinal(w.0) + 6
    ensures 7 <= Ordinal(judgment) - Ordinal(w.0) <= 13
    ensures Ordinal(w.1) == Ordinal(judgment) - Weekday(judgment) - 1
  {
    var daysSinceMonday := Weekday(judgment);
    var lastMonday := AddDays(judgment, -(daysSinceMonday + 7));
    (lastMonday, AddDays(lastMonday, 6))
  }

  lemma WindowWeekdays(judgment: Date)
    ensures Weekday(Window(judgment).0) == Monday && Weekday(Window(judgment).1) == Sunday
  {
    var w := Window(judgment);
    WeekBeforeDates(judgment, w.0, w.1);
  }

  /** The seven days ending the day before the judgment's week starts run
      from a Monday to a Sunday. */
  lemma WeekBeforeDates(judgment: Date, monday: Date, sunday: Date)
    requires Ordinal(sunday) == Ordinal(monday) + 6
    requires Ordinal(sunday) == Ordinal(judgment) - Weekday(judgment) - 1
    ensures Weekday(monday) == Monday && Weekday(sunday) == Sunday
  {
    WeekBefore(Ordinal(judgment) - 1);
  }

  /** Counting days so that day 0 is a Monday: stepping back past the start
      of the current week and one more whole week lands on a Monday, and the
      day before the current week starts is a Sunday. */
  lemma WeekBefore(o: int)
    ensures (o - o % 7 - 7) % 7 == Monday
    ensures (o - o % 7 - 1) % 7 == Sunday
  {
    var q := o / 7;
    assert o - o % 7 - 7 == 7 * (q - 1);
    assert o - o % 7 - 1 == 7 * (q - 1) + 6;
  }

  // ---------------------------------------------------------------------
  // Averaging the observations

  /** An observation that counts: not the "." placeholder and parsable. */
  predicate IsUsable(o: FredObservation) {
    o.value != "." && ParseDecimal(o.value).Some?
  }

  /** The parsed values of the usable observations, in order. */
  function UsableRates(obs: seq<FredObservation>): seq<real> {
    if obs == [] then []
    else
      var rest := UsableRates(obs[1..]);
      if IsUsable(obs[0]) then [ParseDecimal(obs[0].value).value] + rest else rest
  }

  function Sum(xs: seq<real>): real {
    if xs == [] then 0.0 else xs[0] + Sum(xs[1..])
  }

  /** `calculate_average_rate`: the mean of the usable values, converted
      from percent to a decimal rate. */
  function AverageRate(obs: seq<FredObservation>): (r: Result<real, FetchError>)
    ensures r.Failure? <==> forall i :: 0 <= i < |obs| ==> !IsUsable(obs[i])
    ensures r.Failure? ==> r.error == NoValidObservations
    ensures r.Success? <==> |UsableRates(obs)| > 0
    ensures r.Success? ==> r.value * 100.0 == Sum(UsableRates(obs)) / |UsableRates(obs)| as real
  {
    NoUsableRates(obs);
    MeanRate(UsableRates(obs))
  }

  /** The mean of percentages as a decimal rate; none at all is an error. */
  function MeanRate(rates: seq<real>): (r: Result<real, FetchError>)
    ensures r.Failure? <==> |rates| == 0
    ensures r.Failure? ==> r.error == NoValidObservations
    ensures r.Success? ==> r.value * 100.0 == Sum(rates) / |rates| as real
  {
    if |rates| == 0 then Failure(NoValidObservations)
    else Success(Sum(rates) / |rates| as real / 100.0)
  }

  /** `get_federal_rate`: refuse an empty key before anything is fetched,
      otherwise fetch the preceding week and average it. */
  function GetFederalRate(judgment: Date, apiKey: string, fetch: FredOracle): (r: Result<real, FetchError>)
    ensures apiKey == "" ==> r == Failure(ApiKeyMissing)
    ensures apiKey != "" ==>
      var window := PrecedingWeek(judgment);
      var fetched := fetch(apiKey, window.0, window.1);
      r == if fetched.Failure? then Failure(fetched.error) else AverageRate(fetched.value)
  {
    if apiKey == "" then Failure(ApiKeyMissing)
    else
      var (start, end) := PrecedingWeek(judgment);
      var observations :- fetch(apiKey, start, end);
      AverageRate(observations)
  }

  /** `validate_api_key`: the outcome of a test request, read as "the key
      works", "the key is rejected" or "the request itself failed". */
  function ValidateApiKey(apiKey: string, send: string -> SendOutcome): (r: Result<bool, FetchError>)
    ensures r == Success(true) <==>
      apiKey != "" && send(apiKey).Responded? && 200 <= send(apiKey).status <= 299
    ensures r.Failure? <==>
      apiKey != "" && (send(apiKey).FailedWithoutStatus?
        || (send(apiKey).FailedWithStatus? && send(apiKey).code != 400 && send(apiKey).code != 403))
    ensures r.Failure? && send(apiKey).FailedWithStatus? ==>
      r.error == RequestError("HTTP error: " + send(apiKey).shown)
    ensures r.Failure? && send(apiKey).FailedWithoutStatus? ==>
      r.error == RequestError("Request failed: " + send(apiKey).message)
  {
    if apiKey == "" then Success(false)
    else
      match send(apiKey)
      case Responded(status) => Success(200 <= status <= 299)
      case FailedWithStatus(code, shown) =>
        if code == 400 || code == 403 then Success(false)
        else Failure(RequestError("HTTP error: " + shown))
      case FailedWithoutStatus(message) => Failure(RequestError("Request failed: " + message))
  }

  // ---------------------------------------------------------------------
  // Lemmas

  /** The window is the only Monday 7 to 13 days before the judgment date. */
  lemma PrecedingWeekUnique(judgment: Date, monday: Date)
    requires Weekday(monday) == Monday
    requires 7 <= Ordinal(judgment) - Ordinal(monday) <= 13
    ensures monday == PrecedingWeek(judgment).0
  {
    SameWeekdayWithinWeek(monday, PrecedingWeek(judgment).0);
  }

  /** Wednesday 2024-01-10 queries Monday 2024-01-01 to Sunday 2024-01-07. */
  lemma PrecedingWeekExample()
    ensures PrecedingWeek(YearMonthDay(2024, 1, 10))
         == (YearMonthDay(2024, 1, 1), YearMonthDay(2024, 1, 7))
  {
    var j: Date := YearMonthDay(2024, 1, 10);
    var monday: Date := YearMonthDay(2024, 1, 1);
    var sunday: Date := YearMonthDay(2024, 1, 7);
    assert Ordinal(monday) == 738886;
    assert Ordinal(j) == Ordinal(monday) + 9;
    assert Ordinal(sunday) == Ordinal(monday) + 6;
    assert Weekday(monday) == Monday;
    PrecedingWeekUnique(j, monday);
    OrdinalMonotone(sunday, PrecedingWeek(j).1);
  }

  lemma {:induction false} NoUsableRates(obs: seq<FredObservation>)
    ensures |UsableRates(obs)| == 0 <==> forall i :: 0 <= i < |obs| ==> !IsUsable(obs[i])
  {
    if obs != [] {
      NoUsableRates(obs[1..]);
      assert forall i :: 1 <= i < |obs| ==> obs[i] == obs[1..][i - 1];
    }
  }

  lemma {:induction false} UsableRatesAppend(a: seq<FredObservation>, b: seq<FredObservation>)
    ensures UsableRates(a + b) == UsableRates(a) + UsableRates(b)
  {
    if a != [] {
      assert (a + b)[0] == a[0];
      assert (a + b)[1..] == a[1..] + b;
      UsableRatesAppend(a[1..], b);
    } else {
      assert a + b == b;
    }
  }

  /** An observation that is "." or does not parse, wherever it stands,
      does not change the average. */
  lemma AverageIgnoresPlaceholder(a: seq<FredObservation>, o: FredObservation, b: seq<FredObservation>)
    requires !IsUsable(o)
    ensures AverageRate(a + [o] + b) == AverageRate(a + b)
  {
    UsableRatesAppend(a + [o], b);
    UsableRatesAppend(a, [o]);
    UsableRatesAppend(a, b);
    assert UsableRates([o]) == [] by {
      assert [o][1..] == [];
    }
    assert UsableRates(a + [o] + b) == UsableRates(a + b);
  }

  lemma {:induction false} SumAppend(a: seq<real>, b: seq<real>)
    ensures Sum(a + b) == Sum(a) + Sum(b)
  {
    if a != [] {
      assert (a + b)[1..] == a[1..] + b;
      SumAppend(a[1..], b);
    } else {
      assert a + b == b;
    }
  }

  /** The percentage points that `count` values, each equal to the decimal
      `rate` in percent, add up to. */
  function PercentTotal(rate: real, count: nat): real {
    if count == 0 then 0.0 else PercentTotal(rate, count - 1) + rate * 100.0
  }

  lemma {:induction false} PercentTotalProduct(rate: real, count: nat)
    ensures PercentTotal(rate, count) == rate * 100.0 * count as real
  {
    if count > 0 {
      PercentTotalProduct(rate, count - 1);
    }
  }

  /** The average, scaled back over the usable values, gives their total:
      nothing is lost or counted twice. */
  lemma AverageTimesCount(obs: seq<FredObservation>)
    requires |UsableRates(obs)| > 0
    ensures PercentTotal(AverageRate(obs).value, |UsableRates(obs)|) == Sum(UsableRates(obs))
  {
    var rates := UsableRates(obs);
    MeanTimesCount(AverageRate(obs).value, Sum(rates), |rates|);
  }

  /** The mean, scaled back over the values, gives their total. */
  lemma MeanTotal(rates: seq<real>)
    requires |rates| > 0
    ensures MeanRate(rates).value * 100.0 * |rates| as real == Sum(rates)
  {
    MeanTimesCount(MeanRate(rates).value, Sum(rates), |rates|);
  }

  /** The mean of two runs together weights each run's mean by its length. */
  lemma MeanAppend(ra: seq<real>, rb: seq<real>)
    requires |ra| > 0 && |rb| > 0
    ensures MeanRate(ra + rb).Success?
    ensures MeanRate(ra + rb).value * 100.0 * |ra + rb| as real
      == MeanRate(ra).value * 100.0 * |ra| as real + MeanRate(rb).value * 100.0 * |rb| as real
  {
    SumAppend(ra, rb);
    MeanTotal(ra);
    MeanTotal(rb);
    MeanTotal(ra + rb);
  }

  lemma MeanTimesCount(v: real, s: real, n: nat)
    requires n > 0 && v * 100.0 == s / n as real
    ensures v * 100.0 * n as real == s
    ensures PercentTotal(v, n) == s
  {
    PercentTotalProduct(v, n);
  }

  /** Averaging two runs of observations together weights each run's
      average by its number of usable values. */
  lemma AverageAppend(a: seq<FredObservation>, b: seq<FredObservation>)
    requires |UsableRates(a)| > 0 && |UsableRates(b)| > 0
    ensures AverageRate(a + b).Success?
    ensures |UsableRates(a + b)| == |UsableRates(a)| + |UsableRates(b)|
    ensures PercentTotal(AverageRate(a + b).value, |UsableRates(a + b)|)
      == PercentTotal(AverageRate(a).value, |UsableRates(a)|) + PercentTotal(AverageRate(b).value, |UsableRates(b)|)
  {
    var ra, rb := UsableRates(a), UsableRates(b);
    UsableRatesAppend(a, b);
    SumAppend(ra, rb);
    AverageTimesCount(a);
    AverageTimesCount(b);
    AverageTimesCount(a + b);
  }

  lemma {:induction false} SumBounds(xs: seq<real>, lo: real, hi: real)
    requires forall i :: 0 <= i < |xs| ==> lo <= xs[i] <= hi
    ensures |xs| as real * lo <= Sum(xs) <= |xs| as real * hi
  {
    if xs != [] {
      SumBounds(xs[1..], lo, hi);
    }
  }

  lemma {:induction false} UsableRatesFrom(obs: seq<FredObservation>, lo: real, hi: real)
    requires forall i :: 0 <= i < |obs| && IsUsable(obs[i]) ==>
      lo <= ParseDecimal(obs[i].value).value <= hi
    ensures forall k :: 0 <= k < |UsableRates(obs)| ==> lo <= UsableRates(obs)[k] <= hi
  {
    if obs != [] {
      assert forall i :: 1 <= i < |obs| ==> obs[i] == obs[1..][i - 1];
      UsableRatesFrom(obs[1..], lo, hi);
    }
  }

  /** The average lies between the smallest and the largest usable value
      (in percent, so the decimal rate lies between them over 100). */
  lemma AverageWithin(obs: seq<FredObservation>, lo: real, hi: real)
    requires forall i :: 0 <= i < |obs| && IsUsable(obs[i]) ==>
      lo <= ParseDecimal(obs[i].value).value <= hi
    requires AverageRate(obs).Success?
    ensures lo / 100.0 <= AverageRate(obs).value <= hi / 100.0
  {
    UsableRatesFrom(obs, lo, hi);
    MeanWithin(UsableRates(obs), lo, hi);
  }

  lemma MeanWithin(rates: seq<real>, lo: real, hi: real)
    requires |rates| > 0
    requires forall k :: 0 <= k < |rates| ==> lo <= rates[k] <= hi
    ensures lo / 100.0 <= MeanRate(rates).value <= hi / 100.0
  {
    SumBounds(rates, lo, hi);
    QuotientBounds(Sum(rates), |rates| as real, lo, hi);
  }

  lemma QuotientBounds(s: real, n: real, lo: real, hi: real)
    requires n > 0.0 && n * lo <= s <= n * hi
    ensures lo / 100.0 <= s / n / 100.0 <= hi / 100.0
  {
    assert lo <= s / n <= hi;
  }

  /** When every usable observation says `v` percent, the rate is `v / 100`. */
  lemma AverageOfConstant(obs: seq<FredObservation>, v: real, k: nat)
    requires forall i :: 0 <= i < |obs| && IsUsable(obs[i]) ==> ParseDecimal(obs[i].value).value == v
    requires k < |obs| && IsUsable(obs[k])
    ensures AverageRate(obs) == Success(v / 100.0)
  {
    UsableRatesFrom(obs, v, v);
    NoUsableRates(obs);
    MeanOfConstant(UsableRates(obs), v);
  }

  lemma MeanOfConstant(rates: seq<real>, v: real)
    requires |rates| > 0
    requires forall k :: 0 <= k < |rates| ==> v <= rates[k] <= v
    ensures MeanRate(rates) == Success(v / 100.0)
  {
    MeanWithin(rates, v, v);
  }

  /** 4.5 %, a missing day and 4.7 % average to the decimal rate 0.046. */
  lemma AverageExample()
    ensures AverageRate([Observed("4.5"), Observed("."), Observed("4.7")]) == Success(0.046)
  {
    ExampleUsableRates();
    assert Sum([4.5, 4.7]) == 9.2 by {
      assert [4.5, 4.7][1..] == [4.7];
      assert [4.7][1..] == [];
    }
  }

  /** Three uneven values, 4.5 %, 4.6 % and 5.2 %, average to their mean
      14.3 / 3 percent, not to the midpoint of the extremes. */
  lemma UnevenAverageExample()
    ensures AverageRate([Observed("4.5"), Observed("4.6"), Observed("5.2")]) == Success(14.3 / 300.0)
  {
    UnevenUsableRates();
    assert Sum([4.5, 4.6, 5.2]) == 14.3 by {
      assert [4.5, 4.6, 5.2][1..] == [4.6, 5.2];
      assert [4.6, 5.2][1..] == [5.2];
      assert [5.2][1..] == [];
    }
  }

  lemma UnevenUsableRates()
    ensures UsableRates([Observed("4.5"), Observed("4.6"), Observed("5.2")]) == [4.5, 4.6, 5.2]
  {
    ExampleUsable();
    UnevenUsable();
    UsableRatesOfThree(Observed("4.5"), Observed("4.6"), Observed("5.2"));
  }

  lemma ExampleUsableRates()
    ensures UsableRates([Observed("4.5"), Observed("."), Observed("4.7")]) == [4.5, 4.7]
  {
    ExampleUsable();
    UsableRatesOfThree(Observed("4.5"), Observed("."), Observed("4.7"));
    assert Kept(Observed("4.5")) == [4.5];
    assert Kept(Observed(".")) == [];
    assert Kept(Observed("4.7")) == [4.7];
    assert [4.5] + [] + [4.7] == [4.5, 4.7];
  }

  /** Three observations keep, in order, the values of those that are usable. */
  lemma UsableRatesOfThree(o1: FredObservation, o2: FredObservation, o3: FredObservation)
    ensures UsableRates([o1, o2, o3]) == Kept(o1) + Kept(o2) + Kept(o3)
  {
    assert UsableRates([o3]) == Kept(o3) by {
      assert [o3][1..] == [];
    }
    assert UsableRates([o2, o3]) == Kept(o2) + Kept(o3) by {
      assert [o2, o3][1..] == [o3];
    }
    assert [o1, o2, o3][1..] == [o2, o3];
  }

  /** The value an observation contributes to `UsableRates`. */
  function Kept(o: FredObservation): seq<real> {
    if IsUsable(o) then [ParseDecimal(o.value).value] else []
  }

  lemma UnevenUsable()
    ensures IsUsable(Observed("4.6")) && ParseDecimal("4.6") == Some(4.6)
    ensures IsUsable(Observed("5.2")) && ParseDecimal("5.2") == Some(5.2)
  {
    ParseTenths('4', '6');
    ParseTenths('5', '2');
    assert "4.6" == ['4', '.', '6'] && "5.2" == ['5', '.', '2'];
  }

  lemma ExampleUsable()
    ensures IsUsable(Observed("4.5")) && ParseDecimal("4.5") == Some(4.5)
    ensures !IsUsable(Observed("."))
    ensures IsUsable(Observed("4.7")) && ParseDecimal("4.7") == Some(4.7)
  {
    ParseTenths('4', '5');
    ParseTenths('4', '7');
    assert "4.5" == ['4', '.', '5'] && "4.7" == ['4', '.', '7'];
  }

  /** No observations, or only missing ones, give `NoValidObservations`. */
  lemma NoObservationsExample()
    ensures AverageRate([]) == Failure(NoValidObservations)
    ensures AverageRate([Observed(".")]) == Failure(NoValidObservations)
  {
  }

  /** An observation with only its value filled in. */
  function Observed(value: string): FredObservation {
    FredObservation("", "", "", value)
  }
}
