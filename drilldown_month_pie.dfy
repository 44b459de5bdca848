/** The year pie chart: tasks of the current year bucketed by month, the
    data sets and legend derived from the twelve counts, and the
    completed/incomplete breakdown of one selected month. */
module DrilldownMonthPie {
  import opened TaskModel
  import opened Arithmetic

  type MonthIndex = m: int | 0 <= m < 12

  datatype YearMonth = YearMonth(year: int, month: MonthIndex)

  /** The date library's parser (trim, then dayjs, then the explicit
      formats, then the numeric split). It is not part of this model; every
      member below takes it as a parameter, so the counting loop and the
      breakdown loop necessarily share one parser. */
  type DateParser = string -> Option<YearMonth>

  const MonthNames: seq<string> :=
    ["Jan", "Feb", "Mar", "Apr", "May", "Jun", "Jul", "Aug", "Sep", "Oct", "Nov", "Dec"]

  const GradientColors: seq<string> :=
    ["#E9E6F7", "#E3E0F5", "#D6D0EF", "#CCC6EB", "#BBB2E3", "#B0A6DF",
     "#9C95D4", "#8F89C9", "#7B74B5", "#6C67A3", "#575285", "#44406A"]

  /** An empty due date is never handed to the library. */
  function ParseDue(parse: DateParser, dateStr: string): (r: Option<YearMonth>)
    ensures dateStr == "" ==> r == None
    ensures r.Some? ==> 0 <= r.value.month < 12
  {
    if dateStr == "" then None else parse(dateStr)
  }

  /** Where one task ends up in the counting loop. */
  datatype Bucket = NoDate | Unparseable | OtherYear | InYear(month: MonthIndex)

  function Classify(parse: DateParser, year: int, t: Task): (b: Bucket)
    ensures b == NoDate <==> t.dueDate == ""
    ensures b == Unparseable <==> t.dueDate != "" && parse(t.dueDate) == None
    ensures b == OtherYear <==> t.dueDate != "" && parse(t.dueDate).Some? && parse(t.dueDate).value.year != year
    ensures b.InYear? <==> ParseDue(parse, t.dueDate).Some? && ParseDue(parse, t.dueDate).value.year == year
    ensures b.InYear? ==> ParseDue(parse, t.dueDate) == Some(YearMonth(year, b.month))
  {
    match ParseDue(parse, t.dueDate)
    case None => if t.dueDate == "" then NoDate else Unparseable
    case Some(ym) => if ym.year != year then OtherYear else InYear(ym.month)
  }

  /** Number of tasks that land in bucket `b`. */
  function CountOf(parse: DateParser, year: int, tasks: seq<Task>, b: Bucket): nat
  {
    if tasks == [] then 0
    else
      CountOf(parse, year, tasks[..|tasks| - 1], b)
      + (if Classify(parse, year, tasks[|tasks| - 1]) == b then 1 else 0)
  }

  /** Number of tasks whose due date parses to a month of `year`. */
  function InYearCount(parse: DateParser, year: int, tasks: seq<Task>): nat
  {
    if tasks == [] then 0
    else
      InYearCount(parse, year, tasks[..|tasks| - 1])
      + (if Classify(parse, year, tasks[|tasks| - 1]).InYear? then 1 else 0)
  }

  /** The twelve per-month counts the loop computes. */
  function MonthCounts(parse: DateParser, year: int, tasks: seq<Task>): seq<nat>
  {
    seq(12, m requires 0 <= m < 12 => CountOf(parse, year, tasks, InYear(m)))
  }

  /** `reduce((s, v) => s + v, 0)`. */
  function Sum(s: seq<nat>): nat
  {
    if s == [] then 0 else s[0] + Sum(s[1..])
  }

  /** The total is zero exactly when every count is zero. */
  lemma {:induction false} SumZeroIff(s: seq<nat>)
    ensures Sum(s) == 0 <==> forall i :: 0 <= i < |s| ==> s[i] == 0
  {
    if s != [] {
      SumZeroIff(s[1..]);
      assert forall i :: 1 <= i < |s| ==> s[i] == s[1..][i - 1];
    }
  }

  datatype InvalidDate = InvalidDate(id: string, due: string)

  /** The diagnostic list: every task with a non-empty due date the parser
      rejects, in task order. */
  function InvalidDates(parse: DateParser, tasks: seq<Task>): (r: seq<InvalidDate>)
    ensures |r| <= |tasks|
    ensures forall e :: e in r ==> e.due != "" && parse(e.due) == None
    ensures forall t :: t in tasks && t.dueDate != "" && parse(t.dueDate) == None ==>
      InvalidDate(t.id, t.dueDate) in r
  {
    if tasks == [] then []
    else
      var t := tasks[|tasks| - 1];
      InvalidDates(parse, tasks[..|tasks| - 1])
      + (if t.dueDate != "" && parse(t.dueDate) == None then [InvalidDate(t.id, t.dueDate)] else [])
  }

  /** Every entry of the invalid list is the id and due date of a task. */
  lemma {:induction false} InvalidDatesComeFromTasks(parse: DateParser, tasks: seq<Task>, e: InvalidDate)
    requires e in InvalidDates(parse, tasks)
    ensures exists t :: t in tasks && e == InvalidDate(t.id, t.dueDate)
  {
    var init := tasks[..|tasks| - 1];
    var t := tasks[|tasks| - 1];
    if e in InvalidDates(parse, init) {
      InvalidDatesComeFromTasks(parse, init, e);
      var u :| u in init && e == InvalidDate(u.id, u.dueDate);
      assert u in tasks;
    } else {
      assert t in tasks && e == InvalidDate(t.id, t.dueDate);
    }
  }

  /** Adding one task to the scan moves exactly the counter of its own month
      up by one, and leaves all twelve alone when it is not dated this year. */
  lemma {:induction false} MonthCountsStep(parse: DateParser, year: int, tasks: seq<Task>, t: Task)
    ensures var before, after := MonthCounts(parse, year, tasks), MonthCounts(parse, year, tasks + [t]);
      match Classify(parse, year, t)
      case InYear(m) => after == before[m := before[m] + 1]
      case _ => after == before
  {
    var all := tasks + [t];
    assert all[..|all| - 1] == tasks;
    assert all[|all| - 1] == t;
  }

  lemma InvalidDatesStep(parse: DateParser, tasks: seq<Task>, t: Task)
    ensures InvalidDates(parse, tasks + [t]) == InvalidDates(parse, tasks)
      + (if t.dueDate != "" && parse(t.dueDate) == None then [InvalidDate(t.id, t.dueDate)] else [])
  {
    var all := tasks + [t];
    assert all[..|all| - 1] == tasks;
    assert all[|all| - 1] == t;
  }

  /** One pass of the loop body: the task lands in its month's counter, in
      the invalid list, or nowhere. */
  method TallyTask(parse: DateParser, currentYear: int, counts: array<nat>, invalid: seq<InvalidDate>,
                   done: seq<Task>, t: Task) returns (invalid': seq<InvalidDate>)
    requires counts.Length == 12
    requires counts[..] == MonthCounts(parse, currentYear, done) && invalid == InvalidDates(parse, done)
    modifies counts
    ensures counts[..] == MonthCounts(parse, currentYear, done + [t])
    ensures invalid' == InvalidDates(parse, done + [t])
  {
    var dateStr := t.dueDate;
    var parsed := ParseDue(parse, dateStr);
    MonthCountsStep(parse, currentYear, done, t);
    InvalidDatesStep(parse, done, t);
    invalid' := invalid;
    if parsed.None? {
      assert !Classify(parse, currentYear, t).InYear?;
      if dateStr != "" {
        invalid' := invalid + [InvalidDate(t.id, dateStr)];
      }
    } else if parsed.value.year != currentYear {
      assert Classify(parse, currentYear, t) == OtherYear;
    } else {
      var m := parsed.value.month;
      assert Classify(parse, currentYear, t) == InYear(m);
      counts[m] := counts[m] + 1;
    }
  }

  /** The counting loop of the chart: one pass over the tasks filling a
      twelve-slot array and collecting the unparseable due dates. */
  method CountByMonth(parse: DateParser, currentYear: int, tasks: seq<Task>)
    returns (monthCounts: seq<nat>, invalidDates: seq<InvalidDate>)
    ensures monthCounts == MonthCounts(parse, currentYear, tasks)
    ensures invalidDates == InvalidDates(parse, tasks)
    ensures |monthCounts| == 12 && Sum(monthCounts) == InYearCount(parse, currentYear, tasks)
  {
    var counts := new nat[12](_ => 0);
    var invalid: seq<InvalidDate> := [];
    var i := 0;
    assert counts[..] == MonthCounts(parse, currentYear, tasks[..0]);
    while i < |tasks|
      invariant 0 <= i <= |tasks|
      invariant counts[..] == MonthCounts(parse, currentYear, tasks[..i])
      invariant invalid == InvalidDates(parse, tasks[..i])
    {
      invalid := TallyTask(parse, currentYear, counts, invalid, tasks[..i], tasks[i]);
      assert tasks[..i + 1] == tasks[..i] + [tasks[i]];
      i := i + 1;
    }
    assert tasks[..i] == tasks;
    monthCounts := counts[..];
    invalidDates := invalid;
    MonthCountsSumIsInYearCount(parse, currentYear, tasks);
  }

  lemma {:induction false} SumBump(a: seq<nat>, k: int)
    requires 0 <= k < |a|
    ensures Sum(a[k := a[k] + 1]) == Sum(a) + 1
  {
    if k == 0 {
      assert a[k := a[k] + 1][1..] == a[1..];
    } else {
      SumBump(a[1..], k - 1);
      assert a[k := a[k] + 1][1..] == a[1..][k - 1 := a[1..][k - 1] + 1];
    }
  }

  lemma {:induction false} SumOfZeros(s: seq<nat>)
    requires forall i :: 0 <= i < |s| ==> s[i] == 0
    ensures Sum(s) == 0
  {
    if s != [] {
      SumOfZeros(s[1..]);
    }
  }

  /** The twelve counts add up to the tasks dated in the current year. */
  lemma {:induction false} MonthCountsSumIsInYearCount(parse: DateParser, year: int, tasks: seq<Task>)
    ensures Sum(MonthCounts(parse, year, tasks)) == InYearCount(parse, year, tasks)
  {
    if tasks == [] {
      SumOfZeros(MonthCounts(parse, year, tasks));
    } else {
      var init, t := tasks[..|tasks| - 1], tasks[|tasks| - 1];
      assert init + [t] == tasks;
      MonthCountsSumIsInYearCount(parse, year, init);
      MonthCountsStep(parse, year, init, t);
      match Classify(parse, year, t)
      case InYear(m) =>
        SumBump(MonthCounts(parse, year, init), m);
      case _ =>
    }
  }

  /** Every task is accounted for exactly once: it has no due date, or is
      reported invalid, or is dated in another year, or is counted in one of
      the twelve months. */
  lemma {:induction false} EveryTaskAccountedOnce(parse: DateParser, year: int, tasks: seq<Task>)
    ensures CountOf(parse, year, tasks, NoDate) + |InvalidDates(parse, tasks)|
      + CountOf(parse, year, tasks, OtherYear) + Sum(MonthCounts(parse, year, tasks)) == |tasks|
  {
    InvalidDatesCount(parse, year, tasks);
    MonthCountsSumIsInYearCount(parse, year, tasks);
    BucketsPartition(parse, year, tasks);
  }

  lemma {:induction false} InvalidDatesCount(parse: DateParser, year: int, tasks: seq<Task>)
    ensures |InvalidDates(parse, tasks)| == CountOf(parse, year, tasks, Unparseable)
  {
    if tasks != [] {
      InvalidDatesCount(parse, year, tasks[..|tasks| - 1]);
    }
  }

  lemma {:induction false} BucketsPartition(parse: DateParser, year: int, tasks: seq<Task>)
    ensures CountOf(parse, year, tasks, NoDate) + CountOf(parse, year, tasks, Unparseable)
      + CountOf(parse, year, tasks, OtherYear) + InYearCount(parse, year, tasks) == |tasks|
  {
    if tasks != [] {
      BucketsPartition(parse, year, tasks[..|tasks| - 1]);
    }
  }

  /* ---------- Completed / incomplete breakdown of the selected month ---------- */

  /** Number of tasks dated in month `m` of `year` whose completion flag is `done`. */
  function StatusCount(parse: DateParser, year: int, tasks: seq<Task>, m: int, done: bool): nat
  {
    if tasks == [] then 0
    else
      var t := tasks[|tasks| - 1];
      var parsed := ParseDue(parse, t.dueDate);
      StatusCount(parse, year, tasks[..|tasks| - 1], m, done)
      + (if parsed.Some? && parsed.value.year == year && parsed.value.month == m && t.completed == done
         then 1 else 0)
  }

  datatype StatusSlice = StatusSlice(name: string, value: nat)

  /** The two-slice data set of the drill-down; empty while no month is selected. */
  function MonthlyStatusData(parse: DateParser, year: int, tasks: seq<Task>, selected: Option<int>): (r: seq<StatusSlice>)
    ensures selected == None <==> r == []
    ensures selected.Some? ==> |r| == 2 && r[0].name == "Completed" && r[1].name == "Incomplete"
    ensures selected.Some? && 0 <= selected.value < 12 ==>
      r[0].value + r[1].value == CountOf(parse, year, tasks, InYear(selected.value))
    ensures selected.Some? && !(0 <= selected.value < 12) ==> r[0].value == r[1].value == 0
  {
    match selected
    case None => []
    case Some(m) =>
      if 0 <= m < 12 then
        StatusCountsSplitBucket(parse, year, tasks, m);
        [StatusSlice("Completed", StatusCount(parse, year, tasks, m, true)),
         StatusSlice("Incomplete", StatusCount(parse, year, tasks, m, false))]
      else
        StatusCountsOutOfRange(parse, year, tasks, m, true);
        StatusCountsOutOfRange(parse, year, tasks, m, false);
        [StatusSlice("Completed", StatusCount(parse, year, tasks, m, true)),
         StatusSlice("Incomplete", StatusCount(parse, year, tasks, m, false))]
  }

  /** The breakdown loop: the same parser and the same year/month filter as
      the counting loop, splitting the matches on the completion flag. */
  method MonthlyStatus(parse: DateParser, currentYear: int, tasks: seq<Task>, selectedMonthIndex: Option<int>)
    returns (data: seq<StatusSlice>)
    ensures data == MonthlyStatusData(parse, currentYear, tasks, selectedMonthIndex)
    ensures selectedMonthIndex == None <==> data == []
    ensures selectedMonthIndex.Some? ==> |data| == 2 && data[0].name == "Completed" && data[1].name == "Incomplete"
  {
    if selectedMonthIndex == None {
      return [];
    }
    var m := selectedMonthIndex.value;
    var completed, incomplete := 0, 0;
    var i := 0;
    while i < |tasks|
      invariant 0 <= i <= |tasks|
      invariant completed == StatusCount(parse, currentYear, tasks[..i], m, true)
      invariant incomplete == StatusCount(parse, currentYear, tasks[..i], m, false)
    {
      var t := tasks[i];
      assert tasks[..i + 1][..i] == tasks[..i];
      var parsed := ParseDue(parse, t.dueDate);
      if parsed.Some? && parsed.value.year == currentYear && parsed.value.month == m {
        if t.completed {
          completed := completed + 1;
        } else {
          incomplete := incomplete + 1;
        }
      }
      i := i + 1;
    }
    assert tasks[..i] == tasks;
    data := [StatusSlice("Completed", completed), StatusSlice("Incomplete", incomplete)];
  }

  /** The drill-down header's total, `reduce((s, x) => s + (x?.value || 0), 0)`:
      at least every entry, and 0 only when every entry is. */
  function SelectedMonthTotal(data: seq<StatusSlice>): (r: nat)
    ensures forall k :: 0 <= k < |data| ==> data[k].value <= r
    ensures r == 0 <==> forall k :: 0 <= k < |data| ==> data[k].value == 0
  {
    if data == [] then 0 else data[0].value + SelectedMonthTotal(data[1..])
  }

  lemma {:induction false} StatusCountsSplitBucket(parse: DateParser, year: int, tasks: seq<Task>, m: MonthIndex)
    ensures StatusCount(parse, year, tasks, m, true) + StatusCount(parse, year, tasks, m, false)
      == CountOf(parse, year, tasks, InYear(m))
  {
    if tasks != [] {
      StatusCountsSplitBucket(parse, year, tasks[..|tasks| - 1], m);
    }
  }

  lemma {:induction false} StatusCountsOutOfRange(parse: DateParser, year: int, tasks: seq<Task>, m: int, done: bool)
    requires m < 0 || 12 <= m
    ensures StatusCount(parse, year, tasks, m, done) == 0
  {
    if tasks != [] {
      StatusCountsOutOfRange(parse, year, tasks[..|tasks| - 1], m, done);
    }
  }

  /** The drill-down total equals the pie slice of the selected month: the
      completed and incomplete counts add up to that month's counter. With
      no month (or an index no month has) it is zero. */
  lemma {:induction false} SelectedMonthTotalMatchesCount(parse: DateParser, year: int, tasks: seq<Task>, selected: Option<int>)
    ensures SelectedMonthTotal(MonthlyStatusData(parse, year, tasks, selected)) ==
      match selected
      case Some(m) => if 0 <= m < 12 then MonthCounts(parse, year, tasks)[m] else 0
      case None => 0
  {
    var data := MonthlyStatusData(parse, year, tasks, selected);
    if selected.Some? {
      var m := selected.value;
      assert SelectedMonthTotal(data[1..][1..]) == 0;
      assert SelectedMonthTotal(data[1..]) == data[1].value;
      assert SelectedMonthTotal(data) == data[0].value + data[1].value;
      if 0 <= m < 12 {
        StatusCountsSplitBucket(parse, year, tasks, m);
        assert MonthCounts(parse, year, tasks)[m] == CountOf(parse, year, tasks, InYear(m));
      } else {
        StatusCountsOutOfRange(parse, year, tasks, m, true);
        StatusCountsOutOfRange(parse, year, tasks, m, false);
      }
    }
  }

  /* ---------- Data sets derived from the twelve counts ---------- */

  datatype MonthSlice = MonthSlice(monthIndex: int, name: string, value: nat, color: string)

  /** One slice per month, January first, each carrying its own count. */
  function FullYearData(counts: seq<nat>): (r: seq<MonthSlice>)
    requires |counts| == 12
    ensures |r| == 12
    ensures forall i :: 0 <= i < 12 ==> r[i].monthIndex == i && r[i].value == counts[i]
    ensures forall i :: 0 <= i < 12 ==> r[i].name == MonthNames[i] && r[i].color == GradientColors[i]
  {
    seq(12, i requires 0 <= i < 12 => MonthSlice(i, MonthNames[i], counts[i], GradientColors[i]))
  }

  /** Month indices strictly increase along `data`. */
  ghost predicate Ascending(data: seq<MonthSlice>) {
    forall i, j :: 0 <= i < j < |data| ==> data[i].monthIndex < data[j].monthIndex
  }

  /** The months with at least one task, in their original order. */
  function NonEmptyMonths(data: seq<MonthSlice>): (r: seq<MonthSlice>)
    ensures |r| <= |data|
    ensures forall x :: x in r <==> x in data && x.value > 0
  {
    if data == [] then []
    else
      var rest := NonEmptyMonths(data[1..]);
      assert forall x :: x in rest ==> x in data[1..];
      if data[0].value > 0 then [data[0]] + rest else rest
  }

  lemma AscendingCons(x: MonthSlice, rest: seq<MonthSlice>)
    requires Ascending(rest)
    requires forall y :: y in rest ==> x.monthIndex < y.monthIndex
    ensures Ascending([x] + rest)
  {
    var r := [x] + rest;
    forall i, j | 0 <= i < j < |r| ensures r[i].monthIndex < r[j].monthIndex {
      if i == 0 {
        assert r[j] == rest[j - 1];
      } else {
        assert r[i] == rest[i - 1] && r[j] == rest[j - 1];
      }
    }
  }

  /** Filtering keeps the month order: an ascending input gives an ascending output. */
  lemma {:induction false} NonEmptyMonthsKeepOrder(data: seq<MonthSlice>)
    requires Ascending(data)
    ensures Ascending(NonEmptyMonths(data))
  {
    if data != [] {
      var rest := NonEmptyMonths(data[1..]);
      assert Ascending(data[1..]) by {
        forall i, j | 0 <= i < j < |data[1..]| ensures data[1..][i].monthIndex < data[1..][j].monthIndex {
          assert data[1..][i] == data[i + 1] && data[1..][j] == data[j + 1];
        }
      }
      NonEmptyMonthsKeepOrder(data[1..]);
      if data[0].value > 0 {
        forall y | y in rest ensures data[0].monthIndex < y.monthIndex {
          var j :| 0 <= j < |data[1..]| && data[1..][j] == y;
          assert data[j + 1] == y;
        }
        AscendingCons(data[0], rest);
      }
    }
  }

  function TotalValue(data: seq<MonthSlice>): nat
  {
    if data == [] then 0 else data[0].value + TotalValue(data[1..])
  }

  lemma {:induction false} NonEmptyMonthsKeepTotal(data: seq<MonthSlice>)
    ensures TotalValue(NonEmptyMonths(data)) == TotalValue(data)
  {
    if data != [] {
      NonEmptyMonthsKeepTotal(data[1..]);
      var rest := NonEmptyMonths(data[1..]);
      if data[0].value > 0 {
        assert ([data[0]] + rest)[1..] == rest;
      }
    }
  }

  lemma {:induction false} FullYearTotal(counts: seq<nat>, k: nat)
    requires |counts| == 12 && k <= 12
    ensures TotalValue(FullYearData(counts)[k..]) == Sum(counts[k..])
    decreases 12 - k
  {
    if k < 12 {
      FullYearTotal(counts, k + 1);
      assert FullYearData(counts)[k..][1..] == FullYearData(counts)[k + 1..];
      assert counts[k..][1..] == counts[k + 1..];
    }
  }

  /** Every slice of the chart is a month with tasks, carrying that month's count. */
  lemma FilteredSlicesAreNonEmptyMonths(counts: seq<nat>)
    requires |counts| == 12
    ensures var f := NonEmptyMonths(FullYearData(counts));
      Ascending(f) &&
      forall k :: 0 <= k < |f| ==> 0 <= f[k].monthIndex < 12 && f[k].value == counts[f[k].monthIndex] > 0
  {
    var full := FullYearData(counts);
    var f := NonEmptyMonths(full);
    NonEmptyMonthsKeepOrder(full);
    forall k | 0 <= k < |f|
      ensures 0 <= f[k].monthIndex < 12 && f[k].value == counts[f[k].monthIndex] > 0
    {
      assert f[k] in full;
      var i :| 0 <= i < 12 && full[i] == f[k];
    }
  }

  /** Every month with tasks has its slice in the chart. */
  lemma FilteredDataHasEveryNonEmptyMonth(counts: seq<nat>, m: int)
    requires |counts| == 12 && 0 <= m < 12 && counts[m] > 0
    ensures var f := NonEmptyMonths(FullYearData(counts));
      exists k :: 0 <= k < |f| && f[k].monthIndex == m
  {
    var full := FullYearData(counts);
    assert full[m] in NonEmptyMonths(full);
  }

  /** Hiding the empty months loses nothing: the slices add up to the year's total. */
  lemma FilteredDataKeepsTotal(counts: seq<nat>)
    requires |counts| == 12
    ensures TotalValue(NonEmptyMonths(FullYearData(counts))) == Sum(counts)
  {
    NonEmptyMonthsKeepTotal(FullYearData(counts));
    FullYearTotal(counts, 0);
    assert FullYearData(counts)[0..] == FullYearData(counts) && counts[0..] == counts;
  }

  /* ---------- Percentages ---------- */

  /** Math.round(value / total * 100) in integers: the nearest integer to
      100 * value / total, halves rounded up. */
  function RoundedPercent(value: nat, total: nat): (r: int)
    requires total > 0
    ensures 200 * value - total < (2 * total) * r <= 200 * value + total
    ensures value <= total ==> 0 <= r <= 100
  {
    var d := 2 * total;
    var q := (200 * value + total) / d;
    DivBracket(200 * value + total, d);
    MulLeftMonotone(d, q, 101);
    MulLeftMonotone(d, -1, q);
    q
  }

  /** The tooltip's percentage, with the zero-total guard. */
  function TooltipPercent(value: nat, total: nat): (r: int)
    ensures total == 0 ==> r == 0
    ensures total > 0 ==> 200 * value - total < (2 * total) * r <= 200 * value + total
  {
    if total == 0 then 0 else RoundedPercent(value, total)
  }

  datatype LegendEntry = LegendEntry(id: int, name: string, percent: int, value: nat, color: string)

  /** The legend: nothing for an empty year, otherwise one entry per shown
      slice with its rounded share of the total. */
  function LegendPayload(filtered: seq<MonthSlice>, total: nat): (r: seq<LegendEntry>)
    ensures total == 0 ==> r == []
    ensures total > 0 ==> |r| == |filtered|
    ensures total > 0 ==> forall k :: 0 <= k < |r| ==>
      r[k].id == filtered[k].monthIndex && r[k].value == filtered[k].value && r[k].name == filtered[k].name
      && r[k].percent == RoundedPercent(filtered[k].value, total)
  {
    if total == 0 then []
    else
      seq(|filtered|, k requires 0 <= k < |filtered| =>
        LegendEntry(filtered[k].monthIndex, filtered[k].name,
                    RoundedPercent(filtered[k].value, total), filtered[k].value, filtered[k].color))
  }

  function PercentSum(legend: seq<LegendEntry>): int
  {
    if legend == [] then 0 else legend[0].percent + PercentSum(legend[1..])
  }

  lemma {:induction false} PercentSumBounds(filtered: seq<MonthSlice>, total: nat)
    requires total > 0
    ensures var legend := LegendPayload(filtered, total);
      200 * TotalValue(filtered) - |filtered| * total <= (2 * total) * PercentSum(legend)
        <= 200 * TotalValue(filtered) + |filtered| * total
  {
    var legend := LegendPayload(filtered, total);
    if filtered != [] {
      var tail := filtered[1..];
      PercentSumBounds(tail, total);
      assert legend[1..] == LegendPayload(tail, total);
      var p0, ps := legend[0].percent, PercentSum(LegendPayload(tail, total));
      assert PercentSum(legend) == p0 + ps;
      Distrib(2 * total, p0, ps);
      Distrib(total, 1, |tail|);
      assert |filtered| * total == total * (1 + |tail|);
      assert |tail| * total == total * |tail|;
    }
  }

  /** Each legend entry names a month with tasks and that month's rounded share. */
  lemma LegendEntriesAreShares(counts: seq<nat>)
    requires |counts| == 12
    ensures var total := Sum(counts);
      var legend := LegendPayload(NonEmptyMonths(FullYearData(counts)), total);
      && (total == 0 <==> legend == [])
      && forall k :: 0 <= k < |legend| ==>
           0 <= legend[k].id < 12 && legend[k].value == counts[legend[k].id] > 0
           && legend[k].percent == RoundedPercent(counts[legend[k].id], total)
           && 0 <= legend[k].percent <= 100
  {
    var total := Sum(counts);
    var f := NonEmptyMonths(FullYearData(counts));
    var legend := LegendPayload(f, total);
    FilteredSlicesAreNonEmptyMonths(counts);
    if total > 0 {
      var m := PositiveSumHasPositive(counts);
      FilteredDataHasEveryNonEmptyMonth(counts, m);
      forall k | 0 <= k < |legend|
        ensures 0 <= legend[k].percent <= 100
      {
        SumBoundsEach(counts, f[k].monthIndex);
        assert legend[k].percent == RoundedPercent(f[k].value, total);
      }
    } else if |f| > 0 {
      SumBoundsEach(counts, f[0].monthIndex);
    }
  }

  /** The legend's percentages add up to 100 up to half a point per entry. */
  lemma LegendPercentagesNearHundred(counts: seq<nat>)
    requires |counts| == 12 && Sum(counts) > 0
    ensures var legend := LegendPayload(NonEmptyMonths(FullYearData(counts)), Sum(counts));
      200 - |legend| <= 2 * PercentSum(legend) <= 200 + |legend|
  {
    var total := Sum(counts);
    var f := NonEmptyMonths(FullYearData(counts));
    FilteredDataKeepsTotal(counts);
    PercentSumBounds(f, total);
    ScaleDown(total, |f|, PercentSum(LegendPayload(f, total)));
  }

  lemma ScaleDown(t: int, n: int, p: int)
    requires t > 0
    requires 200 * t - n * t <= (2 * t) * p <= 200 * t + n * t
    ensures 200 - n <= 2 * p <= 200 + n
  {
    assert 200 * t - n * t == t * (200 - n);
    assert 200 * t + n * t + t == t * (200 + n + 1);
    assert (2 * t) * p == t * (2 * p);
    MulLeftMonotone(t, 2 * p, 200 - n);
    MulLeftMonotone(t, 2 * p, 200 + n + 1);
  }

  lemma {:induction false} SumBoundsEach(s: seq<nat>, i: int)
    requires 0 <= i < |s|
    ensures s[i] <= Sum(s)
  {
    if i > 0 {
      SumBoundsEach(s[1..], i - 1);
    }
  }

  lemma {:induction false} PositiveSumHasPositive(s: seq<nat>) returns (i: int)
    requires Sum(s) > 0
    ensures 0 <= i < |s| && s[i] > 0
  {
    if s[0] > 0 {
      i := 0;
    } else {
      var j := PositiveSumHasPositive(s[1..]);
      i := j + 1;
    }
  }

  /* ---------- Selected month ---------- */

  /** The JavaScript values a click payload field can hold, as far as the
      handler distinguishes them. */
  datatype JsValue = Undefined | Null | Bool(b: bool) | Number(n: int) | Text(s: string)

  predicate Nullish(v: JsValue) {
    v == Undefined || v == Null
  }

  /** What the chart library hands to the click handler: a slice object, an
      event wrapping one, or an array whose first element wraps one. */
  datatype SlicePayload = SlicePayload(
    payloadMonthIndex: JsValue,       // payloadOrEvent?.payload?.monthIndex
    ownMonthIndex: JsValue,           // payloadOrEvent?.monthIndex
    isArray: bool,                    // Array.isArray(payloadOrEvent)
    firstPayloadMonthIndex: JsValue)  // payloadOrEvent[0]?.payload?.monthIndex

  /** The `??` chain of the click handler. A payload that is not an array
      makes the third operand `false`, which is not nullish, so the chain
      only falls through to `null` for an array. */
  function ExtractMonthIndex(p: SlicePayload): (r: JsValue)
    ensures !Nullish(p.payloadMonthIndex) ==> r == p.payloadMonthIndex
    ensures Nullish(p.payloadMonthIndex) && !Nullish(p.ownMonthIndex) ==> r == p.ownMonthIndex
    ensures r.Number? ==> r in {p.payloadMonthIndex, p.ownMonthIndex, p.firstPayloadMonthIndex}
    ensures Nullish(p.payloadMonthIndex) && Nullish(p.ownMonthIndex) && !p.isArray ==> r == Bool(false)
    ensures Nullish(p.payloadMonthIndex) && Nullish(p.ownMonthIndex) && p.isArray ==>
      r == if Nullish(p.firstPayloadMonthIndex) then Null else p.firstPayloadMonthIndex
  {
    if !Nullish(p.payloadMonthIndex) then p.payloadMonthIndex
    else if !Nullish(p.ownMonthIndex) then p.ownMonthIndex
    else
      var third := if p.isArray then p.firstPayloadMonthIndex else Bool(false);
      if !Nullish(third) then third else Null
  }

  /** The pie's drill-down selection: None shows the year, Some(m) the
      breakdown of month m. */
  class MonthSelection {
    var selectedMonthIndex: Option<int>

    constructor ()
      ensures selectedMonthIndex == None
    {
      selectedMonthIndex := None;
    }

    /** A slice click selects a month only when a number comes out of the
        payload; anything else leaves the selection as it was. */
    method SliceClick(p: SlicePayload)
      modifies this
      ensures ExtractMonthIndex(p).Number? ==> selectedMonthIndex == Some(ExtractMonthIndex(p).n)
      ensures !ExtractMonthIndex(p).Number? ==> selectedMonthIndex == old(selectedMonthIndex)
    {
      var monthIndex := ExtractMonthIndex(p);
      if monthIndex.Number? {
        selectedMonthIndex := Some(monthIndex.n);
      }
    }

    /** "Back to Year". */
    method BackToYear()
      modifies this
      ensures selectedMonthIndex == None
    {
      selectedMonthIndex := None;
    }
  }
}
