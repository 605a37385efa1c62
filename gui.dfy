/** The value logic inside the Tkinter callbacks of `final_gui.py`: the start-date
    check of the custom-forecast dialog, which duration and start month are passed
    to `forecastPlot`, the summary row saved to the forecast database and the
    list-box entry shown for it, the key of the saved snapshot file, the positional
    layout of the snapshot, and the product search filter. */
module Gui {
  import opened Support
  import opened Forecast

  /** The duration choices offered by the radio buttons, in order. */
  const Options: seq<string> := ["One Month Forecast", "One Quarter Forecast", "One Year Forecast"]

  // ---------------------------------------------------------------------------
  // The start-date check: re.match(r"^(20)\d\d([- /.])(0[1-9]|1[012])\2(0[1-9]|[12][0-9]|3[01])", s)

  predicate IsSeparator(c: char)
  {
    c == '-' || c == ' ' || c == '/' || c == '.'
  }

  /** `0[1-9]|1[012]` */
  predicate MonthDigits(a: char, b: char)
  {
    (a == '0' && '1' <= b <= '9') || (a == '1' && '0' <= b <= '2')
  }

  /** `0[1-9]|[12][0-9]|3[01]` */
  predicate DayDigits(a: char, b: char)
  {
    (a == '0' && '1' <= b <= '9') || ((a == '1' || a == '2') && IsDigit(b)) || (a == '3' && (b == '0' || b == '1'))
  }

  /** The pattern matched at the start of `s`: "20", two digits, a separator, a
      month, the same separator again (the back-reference `\2`), and a day. There is
      no `$`, so whatever follows the tenth character is not looked at. */
  predicate DateAccepted(s: string)
    ensures DateAccepted(s) ==>
      && |s| >= 10
      && (forall i :: 0 <= i < 10 && i != 4 && i != 7 ==> IsDigit(s[i]))
      && IsSeparator(s[7])
  {
    && |s| >= 10
    && s[0] == '2' && s[1] == '0' && IsDigit(s[2]) && IsDigit(s[3])
    && IsSeparator(s[4])
    && MonthDigits(s[5], s[6])
    && s[7] == s[4]
    && DayDigits(s[8], s[9])
  }

  function DigitValue(c: char): int
  {
    c as int - '0' as int
  }

  lemma TwoDigits(t: string)
    requires |t| == 2 && IsDigit(t[0]) && IsDigit(t[1])
    ensures DigitsValue(t) == 10 * DigitValue(t[0]) + DigitValue(t[1])
  {
    var t1 := t[..1];
    assert t1[..0] == [] && t1[0] == t[0];
    assert DigitsValue(t1) == DigitValue(t[0]);
    assert DigitsValue(t) == DigitsValue(t1) * 10 + DigitValue(t[1]);
  }

  lemma FourDigits(t: string)
    requires |t| == 4 && forall i :: 0 <= i < 4 ==> IsDigit(t[i])
    ensures DigitsValue(t) == 1000 * DigitValue(t[0]) + 100 * DigitValue(t[1]) + 10 * DigitValue(t[2]) + DigitValue(t[3])
  {
    var t3 := t[..3];
    var t2 := t3[..2];
    assert t2 == t[..2];
    TwoDigits(t2);
    assert DigitsValue(t3) == DigitsValue(t2) * 10 + DigitValue(t[2]);
  }

  /** A four-digit year field matches `(20)\d\d` exactly in 2000..2099. */
  lemma YearField(t: string)
    requires |t| == 4 && forall i :: 0 <= i < 4 ==> IsDigit(t[i])
    ensures t[0] == '2' && t[1] == '0' <==> 2000 <= DigitsValue(t) <= 2099
  {
    FourDigits(t);
  }

  /** A two-digit month field matches `0[1-9]|1[012]` exactly in 1..12. */
  lemma MonthField(t: string)
    requires |t| == 2 && IsDigit(t[0]) && IsDigit(t[1])
    ensures MonthDigits(t[0], t[1]) <==> 1 <= DigitsValue(t) <= 12
  {
    TwoDigits(t);
  }

  /** A two-digit day field matches `0[1-9]|[12][0-9]|3[01]` exactly in 1..31. */
  lemma DayField(t: string)
    requires |t| == 2 && IsDigit(t[0]) && IsDigit(t[1])
    ensures DayDigits(t[0], t[1]) <==> 1 <= DigitsValue(t) <= 31
  {
    TwoDigits(t);
  }

  /** Numerically, an accepted date is a year 2000..2099, a month 1..12 and a day
      1..31, written with two-digit month and day fields between two equal
      separators. */
  lemma DateAcceptedMeaning(s: string)
    ensures DateAccepted(s) <==>
      && |s| >= 10
      && (forall i :: 0 <= i < 10 && i != 4 && i != 7 ==> IsDigit(s[i]))
      && IsSeparator(s[4]) && s[7] == s[4]
      && 2000 <= DigitsValue(s[..4]) <= 2099
      && 1 <= DigitsValue(s[5..7]) <= 12
      && 1 <= DigitsValue(s[8..10]) <= 31
  {
    if |s| >= 10 && (forall i :: 0 <= i < 10 && i != 4 && i != 7 ==> IsDigit(s[i])) {
      var y, m, d := s[..4], s[5..7], s[8..10];
      assert y[0] == s[0] && y[1] == s[1] && m[0] == s[5] && m[1] == s[6] && d[0] == s[8] && d[1] == s[9];
      YearField(y);
      MonthField(m);
      DayField(d);
    }
  }

  /** Text after the first ten characters does not change the verdict. */
  lemma TrailingIgnored(s: string, rest: string)
    requires |s| >= 10
    ensures DateAccepted(s + rest) <==> DateAccepted(s)
    ensures DateAccepted(s) <==> DateAccepted(s[..10])
  {
  }

  /** What the "View Forecast" button leads to. */
  datatype ViewStep = ShowError(code: int) | OpenChart(durationChoice: string, startDate: string)

  /** `_showProductOrderForecast`: an error box and `-1` for a rejected date, else
      the chart dialog for the chosen duration and the entered text. */
  function ShowProductOrderForecast(date: string, durationChoice: string): (r: ViewStep)
    ensures r.ShowError? <==> !DateAccepted(date)
    ensures r.ShowError? ==> r.code == -1
    ensures r.OpenChart? ==> r.startDate == date && r.durationChoice == durationChoice
  {
    if !DateAccepted(date) then ShowError(-1) else OpenChart(durationChoice, date)
  }

  // ---------------------------------------------------------------------------
  // Dates as `str(datetime.date)` prints them

  datatype Date = Date(year: int, month: int, day: int)

  predicate ValidDate(d: Date)
  {
    1 <= d.year <= 9999 && 1 <= d.month <= 12 && 1 <= d.day <= 31
  }

  function Pad2(n: int): (s: string)
    requires 0 <= n < 100
    ensures |s| == 2 && IsDigit(s[0]) && IsDigit(s[1])
    ensures DigitValue(s[0]) == n / 10 && DigitValue(s[1]) == n % 10
  {
    [DigitChar(n / 10), DigitChar(n % 10)]
  }

  /** Four digits: the hundreds and the rest, two digits each. */
  function Pad4(n: int): (s: string)
    requires 0 <= n < 10000
    ensures |s| == 4 && forall i :: 0 <= i < 4 ==> IsDigit(s[i])
  {
    Pad2(n / 100) + Pad2(n % 100)
  }

  /** `str(date)`: `YYYY-MM-DD`, each field zero-padded. */
  function IsoText(d: Date): (s: string)
    requires ValidDate(d)
    ensures |s| == 10
  {
    Pad4(d.year) + "-" + Pad2(d.month) + "-" + Pad2(d.day)
  }

  // ---------------------------------------------------------------------------
  // `_displayChart`: duration index and start fields

  /** `int(startDate[0:4])` */
  function StartYear(date: string): (y: int)
    requires DateAccepted(date)
    ensures 2000 <= y <= 2099
  {
    DateAcceptedMeaning(date);
    DigitsValue(date[0..4])
  }

  /** `int(startDate[5:7])` */
  function StartMonth(date: string): (m: int)
    requires DateAccepted(date)
    ensures 1 <= m <= 12
  {
    DateAcceptedMeaning(date);
    DigitsValue(date[5..7])
  }

  /** The padded digits read back as the number. */
  lemma Pad4Value(n: int)
    requires 0 <= n < 10000
    ensures DigitsValue(Pad4(n)) == n
  {
    var hi, lo := Pad2(n / 100), Pad2(n % 100);
    var t := Pad4(n);
    assert t[0] == hi[0] && t[1] == hi[1] && t[2] == lo[0] && t[3] == lo[1];
    FourDigits(t);
  }

  lemma Pad2Value(n: int)
    requires 0 <= n < 100
    ensures DigitsValue(Pad2(n)) == n
  {
    TwoDigits(Pad2(n));
  }

  /** The default text of the date box, today's date, is accepted exactly in the
      years 2000..2099, and then the chart starts at today's year and month. */
  lemma TodayTextAccepted(d: Date)
    requires ValidDate(d)
    ensures DateAccepted(IsoText(d)) <==> 2000 <= d.year <= 2099
    ensures 2000 <= d.year <= 2099 ==>
      StartYear(IsoText(d)) == d.year && StartMonth(IsoText(d)) == d.month
  {
    var s := IsoText(d);
    var y, m, day := Pad4(d.year), Pad2(d.month), Pad2(d.day);
    assert s == y + "-" + m + "-" + day;
    assert s[..4] == y && s[5..7] == m && s[8..10] == day;
    Pad4Value(d.year);
    Pad2Value(d.month);
    Pad2Value(d.day);
    DateAcceptedMeaning(s);
  }

  /** The arguments `_displayChart` passes to `forecastPlot` besides the product. */
  datatype ChartCall = ChartCall(durIndex: nat, startYear: int, startMon: int)

  /** The loop over `range(len(OPTIONS))`: the position of the chosen duration, or
      no call at all when the choice is none of the options (a closed dialog). */
  method DisplayChart(durationChoice: string, startDate: string) returns (call: Option<ChartCall>)
    requires DateAccepted(startDate)
    ensures call.Some? <==> durationChoice in Options
    ensures call.Some? ==>
      && call.value.durIndex < |Options| && Options[call.value.durIndex] == durationChoice
      && call.value.startYear == StartYear(startDate) && call.value.startMon == StartMonth(startDate)
  {
    call := None;
    for durIndex := 0 to |Options|
      invariant call.Some? <==> durationChoice in Options[..durIndex]
      invariant call.Some? ==>
        && call.value.durIndex < durIndex && Options[call.value.durIndex] == durationChoice
        && call.value.startYear == StartYear(startDate) && call.value.startMon == StartMonth(startDate)
    {
      assert Options[..durIndex + 1] == Options[..durIndex] + [Options[durIndex]];
      if durationChoice == Options[durIndex] {
        call := Some(ChartCall(durIndex, StartYear(startDate), StartMonth(startDate)));
      }
    }
    assert Options[..|Options|] == Options;
  }

  /** The three options are distinct and select horizons of 1, 3 and 12 months. */
  lemma OptionHorizons(i: nat, j: nat)
    requires i < |Options| && j < |Options|
    ensures Options[i] == Options[j] <==> i == j
    ensures Horizon(i) == [1, 3, 12][i]
  {
  }

  // ---------------------------------------------------------------------------
  // `writeToDB`

  /** `durationChoice[:-9]`: the choice without its last nine characters. */
  function PeriodLabel(choice: string): (p: string)
    ensures |choice| >= 9 ==> p + choice[|choice| - 9..] == choice
    ensures |choice| < 9 ==> p == ""
  {
    if |choice| <= 9 then [] else choice[..|choice| - 9]
  }

  /** Removing nine characters strips exactly the word " Forecast". */
  lemma PeriodStripsForecast(name: string)
    ensures PeriodLabel(name + " Forecast") == name
  {
    var s := name + " Forecast";
    assert s[..|s| - 9] == name;
  }

  /** The saved periods of the three options. */
  lemma PeriodLabels()
    ensures PeriodLabel(Options[0]) == "One Month"
    ensures PeriodLabel(Options[1]) == "One Quarter"
    ensures PeriodLabel(Options[2]) == "One Year"
  {
    PeriodStripsForecast("One Month");
    PeriodStripsForecast("One Quarter");
    PeriodStripsForecast("One Year");
  }

  /** The row `writeToDB` inserts:
      `(productID, forecastRun, period, expirationDate, quantity, accuracy)`. */
  datatype SummaryRow = SummaryRow(productID: int, forecastRun: string, period: string,
                                   expiration: string, quantity: real, accuracy: real)

  /** The row saved for product `choice` on day `today`: the run date, the period
      label, the expiry date (one month after today, computed by the calendar
      library and passed in), the last fitted value `y[-1][0]`, and the test MAE
      times 100. `None` when `y` is empty, where `y[-1]` raises an IndexError. */
  function WriteToDB(choice: int, today: Date, durationChoice: string, expiry: Date, y: seq<real>, mae: real)
    : (r: Option<SummaryRow>)
    requires ValidDate(today) && ValidDate(expiry)
    ensures r.None? <==> y == []
    ensures r.Some? ==>
      && r.value.productID == choice && r.value.forecastRun == IsoText(today)
      && r.value.period == PeriodLabel(durationChoice) && r.value.expiration == IsoText(expiry)
      && r.value.quantity == y[|y| - 1] && r.value.accuracy == mae * 100.0
  {
    if y == [] then None
    else Some(SummaryRow(choice, IsoText(today), PeriodLabel(durationChoice), IsoText(expiry), y[|y| - 1], mae * 100.0))
  }

  /** The expiry date does not depend on the horizon chosen. */
  lemma ExpiryIgnoresHorizon(choice: int, today: Date, d1: string, d2: string, expiry: Date, y: seq<real>, mae: real)
    requires ValidDate(today) && ValidDate(expiry) && y != []
    ensures WriteToDB(choice, today, d1, expiry, y, mae).value.expiration
         == WriteToDB(choice, today, d2, expiry, y, mae).value.expiration
  {
  }

  // ---------------------------------------------------------------------------
  // `MainWin._getData`: the list-box entry of a saved row

  /** A column value as the database returns it. */
  datatype Field = IntField(i: int) | TextField(t: string) | RealField(r: real)

  /** The columns of a summary row in the order the query selects them. */
  function RowFields(r: SummaryRow): seq<Field>
  {
    [IntField(r.productID), TextField(r.forecastRun), TextField(r.period),
     TextField(r.expiration), RealField(r.quantity), RealField(r.accuracy)]
  }

  /** `str(item)`, with `showReal` standing for `str(round(item, 2))`. */
  function FieldText(f: Field, showReal: real -> string): string
  {
    match f
    case IntField(i) => IntText(i)
    case TextField(t) => t
    case RealField(r) => showReal(r)
  }

  /** The five spaces written after every field. */
  const Gap := "     "

  /** The texts of the fields, in order. */
  function Texts(fields: seq<Field>, showReal: real -> string): (ts: seq<string>)
    ensures |ts| == |fields| && forall i :: 0 <= i < |fields| ==> ts[i] == FieldText(fields[i], showReal)
  {
    seq(|fields|, i requires 0 <= i < |fields| => FieldText(fields[i], showReal))
  }

  /** Every text followed by the gap. */
  function Joined(ts: seq<string>): string
  {
    if ts == [] then "" else Joined(ts[..|ts| - 1]) + ts[|ts| - 1] + Gap
  }

  /** The entry text of a row's fields. */
  function Entry(fields: seq<Field>, showReal: real -> string): string
  {
    Joined(Texts(fields, showReal))
  }

  /** The loop that builds `s` field by field. */
  method EntryText(fields: seq<Field>, showReal: real -> string) returns (s: string)
    ensures s == Entry(fields, showReal)
  {
    var ts := Texts(fields, showReal);
    s := "";
    for k := 0 to |fields|
      invariant s == Joined(ts[..k])
    {
      assert ts[..k + 1][..k] == ts[..k];
      s := s + FieldText(fields[k], showReal) + Gap;
    }
    assert ts[..|fields|] == ts;
  }

  /** The joined texts read from the front: the first text, the gap, the rest. */
  lemma {:induction false} JoinedCons(t: string, rest: seq<string>)
    ensures Joined([t] + rest) == t + (Gap + Joined(rest))
    decreases |rest|
  {
    var all := [t] + rest;
    if rest != [] {
      var init, last := rest[..|rest| - 1], rest[|rest| - 1];
      assert all[..|all| - 1] == [t] + init && all[|all| - 1] == last;
      JoinedCons(t, init);
    } else {
      assert all[..0] == [];
    }
  }

  // ---------------------------------------------------------------------------
  // `str.split()` on whitespace

  /** The ASCII characters Python's `str.split()` treats as whitespace. */
  predicate IsSpace(c: char)
  {
    (9 <= c as int <= 13) || (28 <= c as int <= 32)
  }

  predicate NoSpace(s: string)
  {
    forall i :: 0 <= i < |s| ==> !IsSpace(s[i])
  }

  /** The longest prefix of `s` without whitespace. */
  function LeadingWord(s: string): (w: string)
    ensures |w| <= |s| && w == s[..|w|] && NoSpace(w)
    ensures |w| < |s| ==> IsSpace(s[|w|])
  {
    if s == [] || IsSpace(s[0]) then []
    else
      var w := LeadingWord(s[1..]);
      assert [s[0]] + w == s[..1 + |w|];
      [s[0]] + w
  }

  /** The non-empty runs of non-whitespace characters, in order. */
  function Words(s: string): (ws: seq<string>)
    ensures forall i :: 0 <= i < |ws| ==> ws[i] != [] && NoSpace(ws[i])
    decreases |s|
  {
    if s == [] then []
    else if IsSpace(s[0]) then Words(s[1..])
    else
      var w := LeadingWord(s);
      [w] + Words(s[|w|..])
  }

  /** Leading whitespace is skipped. */
  lemma {:induction false} WordsSkipSpaces(sp: string, rest: string)
    requires forall i :: 0 <= i < |sp| ==> IsSpace(sp[i])
    ensures Words(sp + rest) == Words(rest)
    decreases |sp|
  {
    if sp != [] {
      var s := sp + rest;
      assert s[0] == sp[0] && s[1..] == sp[1..] + rest;
      WordsSkipSpaces(sp[1..], rest);
    } else {
      assert sp + rest == rest;
    }
  }

  /** A word followed by whitespace or the end is split off whole. */
  lemma WordsLead(w: string, rest: string)
    requires w != [] && NoSpace(w) && (rest == [] || IsSpace(rest[0]))
    ensures Words(w + rest) == [w] + Words(rest)
  {
    LeadingWordIs(w, rest);
    assert (w + rest)[|w|..] == rest;
  }

  lemma {:induction false} LeadingWordIs(w: string, rest: string)
    requires NoSpace(w) && (rest == [] || IsSpace(rest[0]))
    ensures LeadingWord(w + rest) == w
    decreases |w|
  {
    if w != [] {
      assert (w + rest)[1..] == w[1..] + rest;
      LeadingWordIs(w[1..], rest);
    }
  }

  /** A summary row's entry splits into the product number, the run date, and then
      the words of the remaining columns. */
  lemma EntryWords(r: SummaryRow, showReal: real -> string)
    requires r.forecastRun != [] && NoSpace(r.forecastRun)
    ensures var fs := RowFields(r);
      Words(Entry(fs, showReal)) == [IntText(r.productID), r.forecastRun] + Words(Gap + Entry(fs[2..], showReal))
  {
    var fs := RowFields(r);
    var id, run := IntText(r.productID), r.forecastRun;
    var tail := Gap + Entry(fs[2..], showReal);
    assert fs == [fs[0], fs[1]] + fs[2..];
    EntryTwo(fs[0], fs[1], fs[2..], showReal);
    assert NoSpace(id);
    TwoWords(id, run, Entry(fs[2..], showReal));
  }

  /** Two words, each followed by the gap, split off the front of a text. */
  lemma TwoWords(id: string, run: string, rest: string)
    requires id != [] && NoSpace(id) && run != [] && NoSpace(run)
    ensures Words(id + (Gap + (run + (Gap + rest)))) == [id, run] + Words(Gap + rest)
  {
    var afterId := Gap + (run + (Gap + rest));
    assert afterId[0] == ' ';
    WordsLead(id, afterId);
    WordAfterGap(run, rest);
  }

  /** After the gap, a word followed by the gap is split off. */
  lemma WordAfterGap(run: string, rest: string)
    requires run != [] && NoSpace(run)
    ensures Words(Gap + (run + (Gap + rest))) == [run] + Words(Gap + rest)
  {
    var tail := Gap + rest;
    assert tail[0] == ' ';
    WordsSkipSpaces(Gap, run + tail);
    WordsLead(run, tail);
  }

  /** The entry of two fields and more read from the front. */
  lemma EntryTwo(f0: Field, f1: Field, rest: seq<Field>, showReal: real -> string)
    ensures Entry([f0, f1] + rest, showReal)
         == FieldText(f0, showReal) + (Gap + (FieldText(f1, showReal) + (Gap + Entry(rest, showReal))))
  {
    var t0, t1, tr := FieldText(f0, showReal), FieldText(f1, showReal), Texts(rest, showReal);
    assert Texts([f0, f1] + rest, showReal) == [t0] + ([t1] + tr);
    JoinedCons(t0, [t1] + tr);
    JoinedCons(t1, tr);
  }

  // ---------------------------------------------------------------------------
  // The snapshot file key

  /** `"{}_{}.bin".format(product, run)` */
  function SnapshotFile(product: string, run: string): string
  {
    product + "_" + run + ".bin"
  }

  /** The file `DialogWin2` opens for a selected list-box entry: named by its first
      two words; `None` where `choice[1]` raises an IndexError. */
  function LoadKey(entry: string): (k: Option<string>)
    ensures k.Some? <==> |Words(entry)| >= 2
  {
    var ws := Words(entry);
    if |ws| < 2 then None else Some(SnapshotFile(ws[0], ws[1]))
  }

  /** Selecting the entry of the row saved for a product on a given day opens the
      snapshot file `writeToPickle` wrote for that product on that day. */
  lemma SavedEntryOpensSnapshot(choice: int, today: Date, durationChoice: string, expiry: Date,
                                y: seq<real>, mae: real, showReal: real -> string)
    requires ValidDate(today) && ValidDate(expiry) && y != []
    ensures var row := WriteToDB(choice, today, durationChoice, expiry, y, mae).value;
      LoadKey(Entry(RowFields(row), showReal)) == Some(SnapshotFile(IntText(choice), IsoText(today)))
  {
    var row := WriteToDB(choice, today, durationChoice, expiry, y, mae).value;
    var run := IsoText(today);
    var y4, m2, d2 := Pad4(today.year), Pad2(today.month), Pad2(today.day);
    assert run == y4 + "-" + m2 + "-" + d2;
    assert forall i :: 0 <= i < |run| ==> IsDigit(run[i]) || run[i] == '-';
    EntryWords(row, showReal);
  }

  // ---------------------------------------------------------------------------
  // The snapshot `writeToPickle` saves and `DialogWin2` loads

  /** The plot data of one saved forecast, by role. */
  datatype Snapshot = Snapshot(x: seq<int>, y: seq<real>, productID: int, m: int,
                               listX: seq<int>, listY: seq<real>, newlabel: seq<int>, newpos: seq<int>)

  /** One element of the pickled list. */
  datatype Slot = IntSlot(n: int) | IntsSlot(ns: seq<int>) | RealsSlot(rs: seq<real>)

  /** `[x, y, choice, m, listX, listY, newlabel, newpos]` */
  function Pack(s: Snapshot): (l: seq<Slot>)
    ensures |l| == 8
  {
    [IntsSlot(s.x), RealsSlot(s.y), IntSlot(s.productID), IntSlot(s.m),
     IntsSlot(s.listX), RealsSlot(s.listY), IntsSlot(s.newlabel), IntsSlot(s.newpos)]
  }

  /** `x, y, productID, m, listX, listY, newlabel, newpos = pickle.load(...)`:
      `None` when the list does not have eight elements of the expected kinds. */
  function Unpack(l: seq<Slot>): (r: Option<Snapshot>)
    ensures r.Some? ==> Pack(r.value) == l
  {
    if |l| == 8 && l[0].IntsSlot? && l[1].RealsSlot? && l[2].IntSlot? && l[3].IntSlot?
       && l[4].IntsSlot? && l[5].RealsSlot? && l[6].IntsSlot? && l[7].IntsSlot?
    then Some(Snapshot(l[0].ns, l[1].rs, l[2].n, l[3].n, l[4].ns, l[5].rs, l[6].ns, l[7].ns))
    else None
  }

  /** Loading what was saved gives every value back in its role. */
  lemma PackRoundTrip(s: Snapshot)
    ensures Unpack(Pack(s)) == Some(s)
  {
  }

  /** The snapshot `writeToPickle` builds from the values `forecastPlot` returned:
      the saved chart is replotted from the same bars, month labels and year axis. */
  function WriteToPickle(out: ForecastOutput, choice: int): (l: seq<Slot>)
    ensures var s := Unpack(l);
      && s.Some? && s.value.productID == choice && s.value.m == out.months
      && s.value.x == out.x && s.value.y == out.y
      && s.value.listX == out.xTicks && s.value.listY == out.series
      && s.value.newlabel == out.yearLabels && s.value.newpos == out.yearPositions
  {
    var s := Snapshot(out.x, out.y, choice, out.months, out.xTicks, out.series, out.yearLabels, out.yearPositions);
    PackRoundTrip(s);
    Pack(s)
  }

  // ---------------------------------------------------------------------------
  // `DialogWin3.update_list`: the product search filter

  /** `c.lower()` on ASCII letters. */
  function LowerChar(c: char): char
  {
    if 'A' <= c <= 'Z' then (c as int + 32) as char else c
  }

  function Lower(s: string): (r: string)
    ensures |r| == |s| && forall i :: 0 <= i < |s| ==> r[i] == LowerChar(s[i])
  {
    seq(|s|, i requires 0 <= i < |s| => LowerChar(s[i]))
  }

  /** `sub in s` for strings. */
  predicate Contains(s: string, sub: string)
    decreases |s|
  {
    sub <= s || (s != [] && Contains(s[1..], sub))
  }

  /** `sub` is the slice of `s` starting at `i`. */
  predicate OccursAt(s: string, sub: string, i: int)
  {
    0 <= i <= |s| - |sub| && s[i..i + |sub|] == sub
  }

  /** `sub` occurs in `s` exactly when it is some slice of `s`. */
  lemma {:induction false} ContainsMeaning(s: string, sub: string)
    ensures Contains(s, sub) <==> exists i :: OccursAt(s, sub, i)
    decreases |s|
  {
    if s == [] {
      if sub == [] {
        assert OccursAt(s, sub, 0);
      }
      if exists i :: OccursAt(s, sub, i) {
        var i :| OccursAt(s, sub, i);
        assert sub == [];
      }
    } else {
      ContainsMeaning(s[1..], sub);
      if Contains(s, sub) {
        if sub <= s {
          assert OccursAt(s, sub, 0);
        } else {
          var i :| OccursAt(s[1..], sub, i);
          assert s[1..][i..i + |sub|] == s[i + 1..i + 1 + |sub|];
          assert OccursAt(s, sub, i + 1);
        }
      }
      if exists i :: OccursAt(s, sub, i) {
        var i :| OccursAt(s, sub, i);
        if i == 0 {
          assert sub <= s;
        } else {
          assert s[1..][i - 1..i - 1 + |sub|] == s[i..i + |sub|];
          assert OccursAt(s[1..], sub, i - 1);
        }
      }
    }
  }

  /** Every character of a contained string occurs in the containing one. */
  lemma ContainsChars(s: string, sub: string, j: nat)
    requires j < |sub|
    ensures Contains(s, sub) ==> sub[j] in s
  {
    ContainsMeaning(s, sub);
    if Contains(s, sub) {
      var i :| OccursAt(s, sub, i);
      assert s[i + j] == sub[j];
    }
  }

  /** Does the product match the search term? */
  predicate Matches(item: int, term: string)
  {
    Contains(Lower(IntText(item)), Lower(term))
  }

  /** The products shown for a search term, in list order. */
  function Matching(items: seq<int>, term: string): (r: seq<int>)
    ensures |r| <= |items|
    ensures forall i :: 0 <= i < |r| ==> r[i] in items && Matches(r[i], term)
  {
    if items == [] then []
    else
      var last := items[|items| - 1];
      Matching(items[..|items| - 1], term) + (if Matches(last, term) then [last] else [])
  }

  /** Product numbers have no letters, so lower-casing leaves their text alone. */
  lemma LowerIntText(n: int)
    ensures Lower(IntText(n)) == IntText(n)
  {
  }

  /** The shown products are exactly the listed ones whose number contains the
      lower-cased search term. */
  lemma {:induction false} MatchingMeaning(items: seq<int>, term: string)
    ensures forall x :: x in Matching(items, term) <==> x in items && Contains(IntText(x), Lower(term))
  {
    if items != [] {
      var init := items[..|items| - 1];
      MatchingMeaning(init, term);
      LowerIntText(items[|items| - 1]);
      assert items == init + [items[|items| - 1]];
      forall x | x in items && x != items[|items| - 1] ensures x in init {
      }
      forall x | x in init ensures x in items {
      }
      forall x ensures x in items && Contains(IntText(x), Lower(term)) ==> Matches(x, term) {
        LowerIntText(x);
      }
    }
  }

  /** Filtering keeps the list order: an ascending list stays ascending. */
  lemma {:induction false} MatchingAscending(items: seq<int>, term: string)
    requires StrictlyIncreasing(items)
    ensures StrictlyIncreasing(Matching(items, term))
    ensures |Matching(items, term)| <= |items|
  {
    if items != [] {
      var init := items[..|items| - 1];
      var last := items[|items| - 1];
      assert StrictlyIncreasing(init);
      MatchingAscending(init, term);
      MatchingMeaning(init, term);
      var prev := Matching(init, term);
      forall i | 0 <= i < |prev| ensures prev[i] < last {
        assert prev[i] in prev;
        var k :| 0 <= k < |init| && init[k] == prev[i];
        assert items[k] == prev[i];
      }
      if Matches(last, term) {
        AppendGreater(prev, last);
      }
    }
  }

  /** Appending an element above all others keeps a sequence ascending. */
  lemma AppendGreater(xs: seq<int>, x: int)
    requires StrictlyIncreasing(xs) && forall i :: 0 <= i < |xs| ==> xs[i] < x
    ensures StrictlyIncreasing(xs + [x])
  {
  }

  /** An empty search box shows the whole list. */
  lemma {:induction false} MatchingEmptyTerm(items: seq<int>)
    ensures Matching(items, "") == items
  {
    if items != [] {
      var init, last := items[..|items| - 1], items[|items| - 1];
      assert items == init + [last];
      MatchingEmptyTerm(init);
      EmptyTermMatches(last);
      assert Matching(items, "") == Matching(init, "") + [last];
    }
  }

  /** Every product matches the empty term. */
  lemma EmptyTermMatches(item: int)
    ensures Matches(item, "")
  {
    assert Lower("") == [];
  }

  /** A term with a letter in it matches no product. */
  lemma {:induction false} LetterTermShowsNothing(items: seq<int>, term: string, j: nat)
    requires j < |term| && (('A' <= term[j] <= 'Z') || ('a' <= term[j] <= 'z'))
    ensures Matching(items, term) == []
  {
    if items != [] {
      LetterTermShowsNothing(items[..|items| - 1], term, j);
      var t := IntText(items[|items| - 1]);
      LowerIntText(items[|items| - 1]);
      assert 'a' <= Lower(term)[j] <= 'z';
      assert Lower(term)[j] !in t;
      ContainsChars(t, Lower(term), j);
    }
  }

  /** The search dialog: the sorted product list and what its list box shows. */
  class ProductPicker {
    var productList: seq<int>
    var shown: seq<int>

    /** The list box starts with every product; the initial empty search keeps them all. */
    constructor(productList: seq<int>)
      ensures this.productList == productList && shown == productList
    {
      this.productList := productList;
      shown := productList;
      new;
      UpdateList("");
      MatchingEmptyTerm(productList);
    }

    /** Clear the list box and refill it with the matching products, in order. */
    method UpdateList(searchTerm: string)
      modifies this
      ensures productList == old(productList)
      ensures shown == Matching(productList, searchTerm)
    {
      var items := productList;
      shown := [];
      for k := 0 to |items|
        invariant productList == items
        invariant shown == Matching(items[..k], searchTerm)
      {
        assert items[..k + 1][..k] == items[..k];
        if Matches(items[k], searchTerm) {
          shown := shown + [items[k]];
        }
      }
      assert items[..|items|] == items;
    }
  }
}
