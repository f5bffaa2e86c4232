/** The institutional chip-flow route (src/app/api/stock-chips/route.ts): for each of
    the last `days` calendar days, counted back from today, it skips Saturdays and
    Sundays, asks the exchange for that day's institutional trading table, picks the
    requested stock's row and turns its share counts into lots. The collected days
    are pushed newest first and reversed at the end, so the answer runs oldest first.

    The exchange is a parameter: `fetch(i)` is the outcome of the request for the
    day i days back. A day is identified by that offset rather than by its
    month/day label. */
module StockChips {
  import opened Common

  // ----- parseInt(str.replace(/,/g, ''), 10) || 0 -----

  /** The white space `parseInt` skips before the number. */
  predicate IsSpace(c: char) {
    c == ' ' || c == '\t' || c == '\n' || c == '\r' || c == '\U{0B}' || c == '\U{0C}' ||
    c == '\U{A0}' || c == '\U{2028}' || c == '\U{2029}' || c == '\U{FEFF}'
  }

  predicate IsDigit(c: char) {
    '0' <= c <= '9'
  }

  predicate AllDigits(s: string) {
    forall i :: 0 <= i < |s| ==> IsDigit(s[i])
  }

  /** `str.replace(/,/g, '')`. */
  function RemoveCommas(s: string): (r: string)
    ensures |r| <= |s| && ',' !in r
  {
    if |s| == 0 then []
    else (if s[0] == ',' then [] else [s[0]]) + RemoveCommas(s[1..])
  }

  function TrimStart(s: string): string {
    if |s| > 0 && IsSpace(s[0]) then TrimStart(s[1..]) else s
  }

  /** The longest run of decimal digits at the head of s. */
  function DigitPrefix(s: string): (r: string)
    ensures AllDigits(r) && r <= s
  {
    if |s| > 0 && IsDigit(s[0]) then [s[0]] + DigitPrefix(s[1..]) else []
  }

  function DigitsValue(ds: string): nat
    requires AllDigits(ds)
  {
    if |ds| == 0 then 0
    else DigitsValue(ds[..|ds| - 1]) * 10 + (ds[|ds| - 1] as int - '0' as int)
  }

  /** `parseInt(s, 10)`: skip white space, read an optional sign, then as many digits
      as follow; `None` (NaN) when no digit follows. */
  function ParseInt(s: string): Option<int> {
    var t := TrimStart(s);
    var negative := |t| > 0 && t[0] == '-';
    var unsigned := if |t| > 0 && (t[0] == '-' || t[0] == '+') then t[1..] else t;
    var ds := DigitPrefix(unsigned);
    if |ds| == 0 then None
    else
      var v: int := DigitsValue(ds);
      Some(if negative then -v else v)
  }

  /** `parseNum`: the comma-free integer parse, with NaN read as 0. */
  function ParseNum(s: string): int {
    ParseInt(RemoveCommas(s)).GetOr(0)
  }

  /** The decimal digits of n, without leading zeros. */
  function Decimal(n: nat): (r: string)
    ensures |r| > 0 && AllDigits(r)
  {
    if n < 10 then ['0' + n as char]
    else Decimal(n / 10) + ['0' + (n % 10) as char]
  }

  /** n written in decimal with a leading '-' when negative. */
  function Render(n: int): string {
    if n < 0 then "-" + Decimal(-n) else Decimal(n)
  }

  lemma {:induction false} DecimalValue(n: nat)
    ensures DigitsValue(Decimal(n)) == n
  {
    if n >= 10 {
      var d := Decimal(n);
      assert d[..|d| - 1] == Decimal(n / 10);
      DecimalValue(n / 10);
    }
  }

  lemma {:induction false} DigitPrefixStops(ds: string, rest: string)
    requires AllDigits(ds)
    requires |rest| == 0 || !IsDigit(rest[0])
    ensures DigitPrefix(ds + rest) == ds
  {
    if |ds| > 0 {
      assert (ds + rest)[1..] == ds[1..] + rest;
      DigitPrefixStops(ds[1..], rest);
    } else {
      assert ds + rest == rest;
    }
  }

  lemma {:induction false} RemoveCommasAppend(a: string, b: string)
    ensures RemoveCommas(a + b) == RemoveCommas(a) + RemoveCommas(b)
  {
    if |a| > 0 {
      assert (a + b)[1..] == a[1..] + b;
      RemoveCommasAppend(a[1..], b);
    } else {
      assert a + b == b;
    }
  }

  lemma {:induction false} RemoveCommasNone(s: string)
    requires ',' !in s
    ensures RemoveCommas(s) == s
  {
    if |s| > 0 {
      assert ',' !in s[1..];
      RemoveCommasNone(s[1..]);
    }
  }

  /** The unsigned digits of a decimal, followed by anything not starting with a digit. */
  lemma DigitsOfDecimal(m: nat, rest: string)
    requires |rest| == 0 || !IsDigit(rest[0])
    ensures var ds := DigitPrefix(Decimal(m) + rest); AllDigits(ds) && DigitsValue(ds) == m && |ds| > 0
  {
    DecimalValue(m);
    DigitPrefixStops(Decimal(m), rest);
  }

  /** `parseInt` reads n back from its decimal form followed by anything that does
      not start with a digit. */
  lemma ParseIntRender(n: int, rest: string)
    requires |rest| == 0 || !IsDigit(rest[0])
    ensures ParseInt(Render(n) + rest) == Some(n)
  {
    var m: nat := if n < 0 then -n else n;
    var d := Decimal(m);
    DigitsOfDecimal(m, rest);
    if n < 0 {
      var t := "-" + (d + rest);
      assert Render(n) + rest == t;
      assert t[1..] == d + rest;
      ParseIntSigned(t, m);
    } else {
      assert Render(n) + rest == d + rest;
      ParseIntUnsigned(d + rest, m);
    }
  }

  /** Text that starts with a digit parses as its leading digits. */
  lemma ParseIntUnsigned(t: string, m: nat)
    requires |t| > 0 && IsDigit(t[0])
    requires var ds := DigitPrefix(t); AllDigits(ds) && DigitsValue(ds) == m && |ds| > 0
    ensures ParseInt(t) == Some(m)
  {
    assert !IsSpace(t[0]);
    assert TrimStart(t) == t;
  }

  /** Text that starts with '-' and a digit parses as the negated leading digits. */
  lemma ParseIntSigned(t: string, m: nat)
    requires |t| > 1 && t[0] == '-'
    requires var ds := DigitPrefix(t[1..]); AllDigits(ds) && DigitsValue(ds) == m && |ds| > 0
    ensures ParseInt(t) == Some(-(m as int))
  {
    assert !IsSpace(t[0]);
    assert TrimStart(t) == t;
  }

  /** Reading an integer back: `parseNum` returns n for n written in decimal, whatever
      comma-free text that does not start with a digit follows it ("12.5" reads 12). */
  lemma ParseNumRender(n: int, rest: string)
    requires ',' !in rest
    requires |rest| == 0 || !IsDigit(rest[0])
    ensures ParseNum(Render(n) + rest) == n
  {
    var t := Render(n) + rest;
    assert forall i :: 0 <= i < |t| ==> t[i] != ',' by {
      var d := Decimal(if n < 0 then -n else n);
      assert forall i :: 0 <= i < |d| ==> d[i] != ',';
    }
    RemoveCommasNone(t);
    ParseIntRender(n, rest);
  }

  /** Thousands separators are ignored: removing any one comma does not change the
      parse, so "1,234,567" reads as 1234567. */
  lemma ParseNumIgnoresCommas(a: string, b: string)
    ensures ParseNum(a + "," + b) == ParseNum(a + b)
  {
    RemoveCommasDropsComma(a, b);
  }

  lemma RemoveCommasDropsComma(a: string, b: string)
    ensures RemoveCommas(a + "," + b) == RemoveCommas(a + b)
  {
    assert RemoveCommas(",") == "" by {
      assert ","[1..] == "";
    }
    calc {
      RemoveCommas(a + "," + b);
      { RemoveCommasAppend(a + ",", b); }
      RemoveCommas(a + ",") + RemoveCommas(b);
      { RemoveCommasAppend(a, ","); }
      RemoveCommas(a) + RemoveCommas(b);
      { RemoveCommasAppend(a, b); }
      RemoveCommas(a + b);
    }
  }

  /** Text with no digit after the optional sign parses as NaN and reads as 0. */
  lemma UnparseableReadsZero()
    ensures ParseNum("") == 0 && ParseNum("-") == 0 && ParseNum("N/A") == 0
  {
    assert RemoveCommas("-") == "-";
    assert TrimStart("-") == "-";
    assert RemoveCommas("N/A") == "N/A";
    assert TrimStart("N/A") == "N/A";
    assert DigitPrefix("N/A") == "";
  }

  // ----- shares to lots -----

  /** `Math.round((foreign + investment + dealer) / 1000)`: the net institutional
      flow in lots of 1000 shares, rounded to the nearest lot, halves upward. */
  function Institutional(foreign: int, investment: int, dealer: int): (r: int)
    ensures 1000 * r - 500 <= foreign + investment + dealer < 1000 * r + 500
  {
    Round((foreign + investment + dealer) as real / 1000.0)
  }

  /** `Math.round(-foreign * 0.15 / 1000)`: the estimated government-bank flow, 15% of
      the foreign flow with the opposite sign, in lots. */
  function Government(foreign: int): (r: int)
    ensures 20000 * r - 10000 <= -3 * foreign < 20000 * r + 10000
    ensures foreign >= 0 ==> r <= 0
    ensures foreign <= 0 ==> r >= 0
  {
    Round(-(foreign as real) * 0.15 / 1000.0)
  }

  /** Raising the foreign flow never raises the government estimate. */
  lemma GovernmentOpposesForeign(f1: int, f2: int)
    requires f1 <= f2
    ensures Government(f2) <= Government(f1)
  {
    RoundMonotone(-(f2 as real) * 0.15 / 1000.0, -(f1 as real) * 0.15 / 1000.0);
  }

  // ----- one day -----

  /** The outcome of one day's request: a non-OK status, a thrown error (network or
      JSON), or the body's `stat` and `data` (`None` when missing). */
  datatype DayResponse = NotOk | Threw | Body(stat: string, data: Option<seq<seq<string>>>)

  /** One entry of the answer; `daysBack` stands for the date label. */
  datatype ChipDay = ChipDay(daysBack: nat, institutional: int, government: int,
                             rawForeign: int, rawInvestment: int, rawDealer: int)

  /** `data.data.find(row => row[0] === stockId)`. */
  function FindRow(rows: seq<seq<string>>, stockId: string): (r: Option<seq<string>>)
    ensures r.Some? ==> r.value in rows && |r.value| > 0 && r.value[0] == stockId
  {
    if |rows| == 0 then None
    else if |rows[0]| > 0 && rows[0][0] == stockId then Some(rows[0])
    else FindRow(rows[1..], stockId)
  }

  /** The row found is the first carrying the id, and none is found exactly when no
      row carries it. */
  lemma {:induction false} FindRowFirst(rows: seq<seq<string>>, stockId: string)
    ensures FindRow(rows, stockId).None? <==> forall k :: 0 <= k < |rows| ==> |rows[k]| == 0 || rows[k][0] != stockId
    ensures FindRow(rows, stockId).Some? ==>
              exists k :: 0 <= k < |rows| && rows[k] == FindRow(rows, stockId).value &&
                          forall j :: 0 <= j < k ==> |rows[j]| == 0 || rows[j][0] != stockId
  {
    if |rows| > 0 && !(|rows[0]| > 0 && rows[0][0] == stockId) {
      FindRowFirst(rows[1..], stockId);
      if FindRow(rows, stockId).Some? {
        var k :| 0 <= k < |rows[1..]| && rows[1..][k] == FindRow(rows, stockId).value &&
                 forall j :: 0 <= j < k ==> |rows[1..][j]| == 0 || rows[1..][j][0] != stockId;
        assert rows[k + 1] == FindRow(rows, stockId).value;
      }
    } else if |rows| > 0 {
      assert rows[0] == FindRow(rows, stockId).value;
    }
  }

  /** The figures of a found row: the foreign, investment-trust and dealer columns. */
  function FromRow(row: seq<string>, daysBack: nat): ChipDay
    requires |row| >= 12
  {
    var foreign := ParseNum(row[4]);
    var investment := ParseNum(row[10]);
    var dealer := ParseNum(row[11]);
    ChipDay(daysBack, Institutional(foreign, investment, dealer), Government(foreign), foreign, investment, dealer)
  }

  /** What one weekday contributes. A found row too short to hold column 11 makes the
      parse throw, which the per-day `catch` swallows. */
  function DayRecord(stockId: string, resp: DayResponse, daysBack: nat): (r: Option<ChipDay>)
    ensures !resp.Body? ==> r.None?
    ensures resp.Body? && (resp.stat != "OK" || resp.data.None?) ==> r.None?
  {
    match resp
    case Body(stat, data) =>
      if stat != "OK" || data.None? then None
      else
        (match FindRow(data.value, stockId)
         case None => None
         case Some(row) => if |row| < 12 then None else Some(FromRow(row, daysBack)))
    case _ => None
  }

  /** A day's table without the stock's row contributes nothing; a record comes from
      a row of that table that carries the stock's id and all twelve columns. */
  lemma DayRecordNeedsRow(stockId: string, stat: string, rows: seq<seq<string>>, i: nat)
    ensures (forall k :: 0 <= k < |rows| ==> |rows[k]| == 0 || rows[k][0] != stockId) ==>
              DayRecord(stockId, Body(stat, Some(rows)), i).None?
    ensures DayRecord(stockId, Body(stat, Some(rows)), i).Some? ==>
              exists k :: 0 <= k < |rows| && |rows[k]| >= 12 && rows[k][0] == stockId &&
                          DayRecord(stockId, Body(stat, Some(rows)), i).value == FromRow(rows[k], i)
  {
    FindRowFirst(rows, stockId);
  }

  // ----- the window of days -----

  /** `targetDate.getDay()` for the day i days before a day whose weekday is dow. */
  function Weekday(dow: int, i: int): int {
    (dow - i) % 7
  }

  predicate IsWeekend(dow: int, i: int) {
    Weekday(dow, i) == 0 || Weekday(dow, i) == 6
  }

  /** The number of weekdays among the first n offsets. */
  function Weekdays(dow: int, n: nat): (r: nat)
    ensures r <= n
  {
    if n == 0 then 0 else Weekdays(dow, n - 1) + (if IsWeekend(dow, n - 1) then 0 else 1)
  }

  /** What iteration i contributes: nothing on a Saturday or Sunday, else the day's record. */
  function Outcome(stockId: string, dow: int, resp: DayResponse, i: nat): (r: Option<ChipDay>)
    ensures IsWeekend(dow, i) ==> r.None?
  {
    if IsWeekend(dow, i) then None else DayRecord(stockId, resp, i)
  }

  /** The outcome of every iteration, as one function of the offset. */
  function DayOf(stockId: string, dow: int, fetch: nat -> DayResponse): nat -> Option<ChipDay> {
    (i: nat) => Outcome(stockId, dow, fetch(i), i)
  }

  /** The outcomes of iterations 0 .. n-1. */
  function Outcomes(day: nat -> Option<ChipDay>, n: nat): (r: seq<Option<ChipDay>>)
    ensures |r| == n
  {
    if n == 0 then [] else Outcomes(day, n - 1) + [day(n - 1)]
  }

  /** The present values of a sequence of options, in order. */
  function Somes(o: seq<Option<ChipDay>>): seq<ChipDay> {
    if |o| == 0 then []
    else Somes(o[..|o| - 1]) + (if o[|o| - 1].Some? then [o[|o| - 1].value] else [])
  }

  /** The entries of iterations 0 .. n-1, in push order (newest first). */
  function Pushed(stockId: string, n: nat, dow: int, fetch: nat -> DayResponse): seq<ChipDay> {
    Somes(Outcomes(DayOf(stockId, dow, fetch), n))
  }

  /** The number of loop iterations `for (i = 0; i < days; i++)` runs. */
  function Window(days: int): nat {
    if days < 0 then 0 else days
  }

  function Reversed<T>(s: seq<T>): (r: seq<T>)
    ensures |r| == |s| && forall k :: 0 <= k < |s| ==> r[k] == s[|s| - 1 - k]
  {
    if |s| == 0 then [] else [s[|s| - 1]] + Reversed(s[..|s| - 1])
  }

  lemma {:induction false} OutcomesAt(day: nat -> Option<ChipDay>, n: nat, i: nat)
    requires i < n
    ensures Outcomes(day, n)[i] == day(i)
  {
    if i < n - 1 {
      OutcomesAt(day, n - 1, i);
    }
  }

  /** Present values: each comes from some index, and every present value is kept. */
  lemma {:induction false} SomesMembers(o: seq<Option<ChipDay>>)
    ensures forall d :: d in Somes(o) ==> exists i :: 0 <= i < |o| && o[i] == Some(d)
    ensures forall i :: 0 <= i < |o| && o[i].Some? ==> o[i].value in Somes(o)
  {
    if |o| > 0 {
      var p := o[..|o| - 1];
      SomesMembers(p);
      forall d | d in Somes(o) ensures exists i :: 0 <= i < |o| && o[i] == Some(d) {
        if d in Somes(p) {
          var i :| 0 <= i < |p| && p[i] == Some(d);
          assert o[i] == Some(d);
        } else {
          assert o[|o| - 1] == Some(d);
        }
      }
      forall i | 0 <= i < |o| && o[i].Some? ensures o[i].value in Somes(o) {
        if i < |o| - 1 {
          assert p[i] == o[i];
        }
      }
    }
  }

  /** When each present value carries its own index as offset, the values come in
      strictly increasing offset. */
  lemma {:induction false} SomesIncreasing(o: seq<Option<ChipDay>>)
    requires forall i :: 0 <= i < |o| && o[i].Some? ==> o[i].value.daysBack == i
    ensures forall p, q :: 0 <= p < q < |Somes(o)| ==> Somes(o)[p].daysBack < Somes(o)[q].daysBack
    ensures forall d :: d in Somes(o) ==> d.daysBack < |o|
  {
    if |o| > 0 {
      var prev := o[..|o| - 1];
      SomesIncreasing(prev);
      var s := Somes(o);
      assert forall d :: d in s ==> d in Somes(prev) || d == o[|o| - 1].value;
      forall p, q | 0 <= p < q < |s| ensures s[p].daysBack < s[q].daysBack {
        if q >= |Somes(prev)| {
          assert s[p] == Somes(prev)[p];
        }
      }
    }
  }

  /** The window yields at most one entry per weekday. */
  lemma {:induction false} PushedLength(stockId: string, n: nat, dow: int, fetch: nat -> DayResponse)
    ensures |Pushed(stockId, n, dow, fetch)| <= Weekdays(dow, n)
  {
    if n > 0 {
      PushedLength(stockId, n - 1, dow, fetch);
      var o := Outcomes(DayOf(stockId, dow, fetch), n);
      assert o[..n - 1] == Outcomes(DayOf(stockId, dow, fetch), n - 1);
      assert o[n - 1] == Outcome(stockId, dow, fetch(n - 1), n - 1);
    }
  }

  /** Every entry is a weekday of the window whose request succeeded and whose table
      held the stock, with that day's figures; every such day has its entry; and the
      entries come in strictly increasing offset, newest first. */
  lemma PushedContents(stockId: string, n: nat, dow: int, fetch: nat -> DayResponse)
    ensures forall d :: d in Pushed(stockId, n, dow, fetch) ==>
              d.daysBack < n && !IsWeekend(dow, d.daysBack) &&
              DayRecord(stockId, fetch(d.daysBack), d.daysBack) == Some(d)
    ensures forall i :: 0 <= i < n && !IsWeekend(dow, i) && DayRecord(stockId, fetch(i), i).Some? ==>
              DayRecord(stockId, fetch(i), i).value in Pushed(stockId, n, dow, fetch)
    ensures var s := Pushed(stockId, n, dow, fetch);
            forall p, q :: 0 <= p < q < |s| ==> s[p].daysBack < s[q].daysBack
  {
    var o := Outcomes(DayOf(stockId, dow, fetch), n);
    forall i | 0 <= i < n ensures o[i] == Outcome(stockId, dow, fetch(i), i) {
      OutcomesAt(DayOf(stockId, dow, fetch), n, i);
    }
    forall i | 0 <= i < n && o[i].Some? ensures o[i].value.daysBack == i {
      DayRecordOffset(stockId, fetch(i), i);
    }
    SomesMembers(o);
    SomesIncreasing(o);
  }

  /** A record carries the offset it was made for. */
  lemma DayRecordOffset(stockId: string, resp: DayResponse, i: nat)
    ensures DayRecord(stockId, resp, i).Some? ==> DayRecord(stockId, resp, i).value.daysBack == i
  {
  }

  /** Five weekdays in every seven consecutive days. */
  lemma {:induction false} WeekdaysPerWeek(dow: int, n: nat)
    requires 0 <= dow < 7
    ensures Weekdays(dow, n + 7) == Weekdays(dow, n) + 5
  {
    if n == 0 {
      FirstWeek(dow);
    } else {
      WeekdaysPerWeek(dow, n - 1);
      var x := dow - n + 1;
      assert Weekday(dow, n + 6) == (x - 7) % 7;
      assert (x - 7) % 7 == x % 7;
    }
  }

  lemma WeekdayWithinWeek(dow: int, k: int)
    requires 0 <= dow < 7 && 0 <= k < 7
    ensures Weekday(dow, k) == if dow >= k then dow - k else dow - k + 7
  {
  }

  lemma FirstWeek(dow: int)
    requires 0 <= dow < 7
    ensures Weekdays(dow, 7) == 5
  {
    WeekdayWithinWeek(dow, 0);
    WeekdayWithinWeek(dow, 1);
    WeekdayWithinWeek(dow, 2);
    WeekdayWithinWeek(dow, 3);
    WeekdayWithinWeek(dow, 4);
    WeekdayWithinWeek(dow, 5);
    WeekdayWithinWeek(dow, 6);
    assert Weekdays(dow, 7) == Weekdays(dow, 6) + (if IsWeekend(dow, 6) then 0 else 1);
    assert Weekdays(dow, 6) == Weekdays(dow, 5) + (if IsWeekend(dow, 5) then 0 else 1);
    assert Weekdays(dow, 5) == Weekdays(dow, 4) + (if IsWeekend(dow, 4) then 0 else 1);
    assert Weekdays(dow, 4) == Weekdays(dow, 3) + (if IsWeekend(dow, 3) then 0 else 1);
    assert Weekdays(dow, 3) == Weekdays(dow, 2) + (if IsWeekend(dow, 2) then 0 else 1);
    assert Weekdays(dow, 2) == Weekdays(dow, 1) + (if IsWeekend(dow, 1) then 0 else 1);
  }

  /** The default window of 15 days holds at most 11 weekdays. */
  lemma DefaultWindowBound(dow: int)
    requires 0 <= dow < 7
    ensures Weekdays(dow, 15) <= 11
  {
    WeekdaysPerWeek(dow, 8);
    WeekdaysPerWeek(dow, 1);
  }

  /** The body of one weekday's iteration: a usable answer with the stock's row of at
      least 12 columns becomes a record; any other answer, or an exception, adds none. */
  method ReadDay(stockId: string, resp: DayResponse, daysBack: nat) returns (day: Option<ChipDay>)
    ensures day == DayRecord(stockId, resp, daysBack)
  {
    day := None;
    match resp
    case Body(stat, data) =>
      if stat == "OK" && data.Some? {
        var row := FindRow(data.value, stockId);
        if row.Some? && |row.value| >= 12 {
          var foreign := ParseNum(row.value[4]);
          var investment := ParseNum(row.value[10]);
          var dealer := ParseNum(row.value[11]);
          day := Some(ChipDay(daysBack, Institutional(foreign, investment, dealer), Government(foreign),
                              foreign, investment, dealer));
        }
      }
    case _ =>
  }

  /** `fetchTWSEChipData`: the loop over the window and the final in-place reverse. */
  method FetchChipData(stockId: string, days: int, dow: int, fetch: nat -> DayResponse) returns (history: seq<ChipDay>)
    ensures history == Reversed(Pushed(stockId, Window(days), dow, fetch))
    ensures |history| <= Weekdays(dow, Window(days))
    ensures forall d :: d in history ==> d.daysBack < Window(days) && !IsWeekend(dow, d.daysBack)
    ensures forall p, q :: 0 <= p < q < |history| ==> history[p].daysBack > history[q].daysBack
  {
    var chipHistory: seq<ChipDay> := [];
    var i := 0;
    while i < days
      invariant 0 <= i <= Window(days)
      invariant chipHistory == Pushed(stockId, i, dow, fetch)
    {
      PushedStep(stockId, i, dow, fetch);
      if !IsWeekend(dow, i) {
        var day := ReadDay(stockId, fetch(i), i);
        if day.Some? {
          chipHistory := chipHistory + [day.value];
        }
      }
      i := i + 1;
    }
    PushedLength(stockId, i, dow, fetch);
    PushedContents(stockId, i, dow, fetch);
    history := Reversed(chipHistory);
    ReversedOrder(chipHistory);
  }

  /** One more iteration appends that iteration's outcome, if any. */
  lemma PushedStep(stockId: string, n: nat, dow: int, fetch: nat -> DayResponse)
    ensures var d := Outcome(stockId, dow, fetch(n), n);
            Pushed(stockId, n + 1, dow, fetch) == Pushed(stockId, n, dow, fetch) + (if d.Some? then [d.value] else [])
  {
    var o := Outcomes(DayOf(stockId, dow, fetch), n + 1);
    assert o[..n] == Outcomes(DayOf(stockId, dow, fetch), n);
    assert o[n] == Outcome(stockId, dow, fetch(n), n);
  }

  /** Reversal keeps the members and turns increasing offsets into decreasing ones. */
  lemma ReversedOrder(s: seq<ChipDay>)
    requires forall p, q :: 0 <= p < q < |s| ==> s[p].daysBack < s[q].daysBack
    ensures forall d :: d in Reversed(s) ==> d in s
    ensures forall p, q :: 0 <= p < q < |Reversed(s)| ==> Reversed(s)[p].daysBack > Reversed(s)[q].daysBack
  {
    var r := Reversed(s);
    assert forall k :: 0 <= k < |r| ==> r[k] == s[|s| - 1 - k];
  }

  // ----- GET -----

  datatype Reply = BadRequest | Chips(history: seq<ChipDay>)

  /** `parseInt(searchParams.get("days") || "15")`; a NaN count runs no iteration. */
  function DaysParam(days: Option<string>): int {
    var s := if days.None? || days == Some("") then "15" else days.value;
    ParseInt(s).GetOr(0)
  }

  /** A missing or empty count means 15 days; a decimal count is read as written;
      text that is not a number gives an empty window. */
  lemma DaysParamDefaults()
    ensures DaysParam(None) == 15 && DaysParam(Some("")) == 15
  {
    ParseIntRender(15, "");
    assert Render(15) + "" == "15";
  }

  /** A count written in decimal is read as written. */
  lemma DaysParamDecimal(n: nat)
    ensures DaysParam(Some(Decimal(n))) == n
  {
    ParseIntRender(n, "");
    assert Render(n) + "" == Decimal(n);
  }

  /** A count that is not a number gives NaN, and the loop runs no iteration. */
  lemma DaysParamNaN()
    ensures DaysParam(Some("all")) == 0
  {
    assert TrimStart("all") == "all";
    assert DigitPrefix("all") == "";
  }

  /** `GET`: 400 without a non-empty id, otherwise the collected chip history. */
  method Get(id: Option<string>, days: Option<string>, dow: int, fetch: nat -> DayResponse) returns (reply: Reply)
    ensures reply.BadRequest? <==> id.None? || id == Some("")
    ensures reply.Chips? ==> reply.history == Reversed(Pushed(id.value, Window(DaysParam(days)), dow, fetch))
  {
    var n := DaysParam(days);
    if id.None? || id == Some("") {
      return BadRequest;
    }
    var history := FetchChipData(id.value, n, dow, fetch);
    reply := Chips(history);
  }
}
