/** Choosing the two columns of the bar chart from the question's wording. */
module Chart {
  import opened Wrappers
  import opened Seqs
  import opened Strings
  import opened Tables

  /** The chosen axes: `x` labels the bars, `y` gives their heights. */
  datatype Axes = Axes(x: string, y: string)

  /** `col.lower() in prompt.lower()`. */
  predicate IsMentioned(name: string, question: string): (b: bool)
    ensures b <==> exists k :: OccursAt(Lower(name), Lower(question), k)
  {
    SubstringIff(Lower(name), Lower(question));
    IsSubstring(Lower(name), Lower(question))
  }

  /** The comprehension filter behind `mentioned_cols`. */
  function MentionedIn(question: string): string -> bool
  {
    name => IsMentioned(name, question)
  }

  /** `mentioned_cols`: the column names mentioned in the question, in table order. */
  function MentionedColumns(cols: seq<Column>, question: string): (r: seq<string>)
    ensures forall n :: n in r <==> n in Names(cols) && IsMentioned(n, question)
  {
    Filter(Names(cols), MentionedIn(question))
  }

  predicate IsNumeric(c: Column)
  {
    c.numeric
  }

  /** `numeric_cols`: the names of the numeric columns, in table order. */
  function NumericColumns(cols: seq<Column>): (r: seq<string>)
    ensures |r| <= |cols|
    ensures forall k :: 0 <= k < |cols| && cols[k].numeric ==> cols[k].name in r
    ensures forall n :: n in r ==> exists k :: 0 <= k < |cols| && cols[k].numeric && cols[k].name == n
  {
    MemberNames(Filter(cols, IsNumeric));
    OnlyNumericNames(cols);
    Names(Filter(cols, IsNumeric))
  }

  /** Every name kept by the numeric filter is the name of a numeric column. */
  lemma OnlyNumericNames(cols: seq<Column>)
    ensures forall n :: n in Names(Filter(cols, IsNumeric)) ==>
              exists k :: 0 <= k < |cols| && cols[k].numeric && cols[k].name == n
  {
    var f := Filter(cols, IsNumeric);
    forall n | n in Names(f)
      ensures exists k :: 0 <= k < |cols| && cols[k].numeric && cols[k].name == n
    {
      var i :| 0 <= i < |f| && Names(f)[i] == n;
      assert f[i] in cols;
      var k :| 0 <= k < |cols| && cols[k] == f[i];
      assert cols[k].numeric && cols[k].name == n;
    }
  }

  /** The comprehension filter behind `other_cols`. */
  function OtherThan(y: string): string -> bool
  {
    name => name != y
  }

  /** `other_cols`: the column names different from `y`, in table order. */
  function OtherColumns(cols: seq<Column>, y: string): (r: seq<string>)
    ensures forall n :: n in r <==> n in Names(cols) && n != y
  {
    Filter(Names(cols), OtherThan(y))
  }

  /**
   * The if/elif chain that picks `x_col` and `y_col`; `None` when both stay
   * `None`. Whatever is chosen names columns of the table.
   */
  function SelectAxes(cols: seq<Column>, question: string): (r: Option<Axes>)
    ensures r.Some? ==> r.value.x in Names(cols) && r.value.y in Names(cols)
    ensures r.Some? && MentionedColumns(cols, question) == [] ==>
              r.value.x in NumericColumns(cols) && r.value.y in NumericColumns(cols)
  {
    var mentioned := MentionedColumns(cols, question);
    var numeric := NumericColumns(cols);
    if |mentioned| >= 2 then
      Some(Axes(x := mentioned[1], y := mentioned[0]))
    else if |mentioned| == 1 && mentioned[0] in numeric then
      var others := OtherColumns(cols, mentioned[0]);
      Some(Axes(x := if others != [] then others[0] else mentioned[0], y := mentioned[0]))
    else if |numeric| >= 2 then
      NumericNamesAreNames(cols);
      Some(Axes(x := numeric[0], y := numeric[1]))
    else
      None
  }

  /** Every numeric column name is a column name. */
  lemma NumericNamesAreNames(cols: seq<Column>)
    ensures forall n :: n in NumericColumns(cols) ==> n in Names(cols)
  {
    var numeric := Filter(cols, IsNumeric);
    forall n | n in NumericColumns(cols) ensures n in Names(cols) {
      var k :| 0 <= k < |numeric| && Names(numeric)[k] == n;
      assert numeric[k] in cols;
      var m :| 0 <= m < |cols| && cols[m] == numeric[k];
      assert Names(cols)[m] == n;
    }
  }

  /**
   * Two or more mentioned columns: the first mentioned in table order becomes
   * `y` and the second becomes `x`, whatever order the question names them in.
   */
  lemma TwoMentionedColumns(cols: seq<Column>, question: string, i: nat, j: nat)
    requires i < j < |cols|
    requires IsMentioned(cols[i].name, question) && IsMentioned(cols[j].name, question)
    requires forall k :: 0 <= k < j && k != i ==> !IsMentioned(cols[k].name, question)
    ensures SelectAxes(cols, question) == Some(Axes(x := cols[j].name, y := cols[i].name))
  {
    var names := Names(cols);
    var p := MentionedIn(question);
    forall k | 0 <= k < j && k != i ensures !p(names[k]) {
      assert !IsMentioned(cols[k].name, question);
    }
    FilterFirstTwo(names, i, j, p);
  }

  /**
   * Exactly one mentioned column, and it is numeric: it becomes `y`; `x` is the
   * first column with another name, or `y` itself when there is none.
   */
  lemma OneNumericMention(cols: seq<Column>, question: string, i: nat)
    requires i < |cols| && cols[i].numeric
    requires IsMentioned(cols[i].name, question)
    requires forall k :: 0 <= k < |cols| && k != i ==> !IsMentioned(cols[k].name, question)
    ensures SelectAxes(cols, question).Some?
    ensures SelectAxes(cols, question).value.y == cols[i].name
    ensures var a := SelectAxes(cols, question).value;
            if forall k :: 0 <= k < |cols| ==> cols[k].name == a.y then a.x == a.y
            else a.x != a.y && exists k :: 0 <= k < |cols| && a.x == cols[k].name &&
                                           forall m :: 0 <= m < k ==> cols[m].name == a.y
  {
    var y := cols[i].name;
    SingleMention(cols, question, i);
    assert y in NumericColumns(cols);
    var a := SelectAxes(cols, question).value;
    assert a.y == y;
    var names := Names(cols);
    var others := OtherColumns(cols, y);
    assert a.x == if others != [] then others[0] else y;
    var o := OtherThan(y);
    if others != [] {
      FilterHeadIsFirst(names, o);
      var k :| 0 <= k < |names| && others[0] == names[k] && o(names[k]) &&
               forall m :: 0 <= m < k ==> !o(names[m]);
      assert a.x == cols[k].name && a.x != y;
      forall m | 0 <= m < k ensures cols[m].name == y {
        assert !o(names[m]);
      }
      assert !(forall k :: 0 <= k < |cols| ==> cols[k].name == a.y);
    } else {
      forall k | 0 <= k < |cols| ensures cols[k].name == y {
        assert names[k] in names;
        assert names[k] !in others;
      }
    }
  }

  /** Only column `i` is mentioned: the mentioned list is its name alone. */
  lemma SingleMention(cols: seq<Column>, question: string, i: nat)
    requires i < |cols| && IsMentioned(cols[i].name, question)
    requires forall k :: 0 <= k < |cols| && k != i ==> !IsMentioned(cols[k].name, question)
    ensures MentionedColumns(cols, question) == [cols[i].name]
  {
    var names := Names(cols);
    var p := MentionedIn(question);
    forall k | 0 <= k < |names| && k != i ensures !p(names[k]) {
      assert !IsMentioned(cols[k].name, question);
    }
    assert p(names[i]);
    FilterFirst(names, i, p);
    var tail := names[i + 1..];
    forall k | 0 <= k < |tail| ensures !p(tail[k]) {
      assert tail[k] == names[i + 1 + k];
    }
    FilterSkip(tail, |tail|, p);
    assert tail[|tail|..] == [];
  }

  /** No column mentioned: the first two numeric columns in table order become `x` and `y`. */
  lemma NoMentionFirstTwoNumeric(cols: seq<Column>, question: string, i: nat, j: nat)
    requires forall k :: 0 <= k < |cols| ==> !IsMentioned(cols[k].name, question)
    requires i < j < |cols| && cols[i].numeric && cols[j].numeric
    requires forall k :: 0 <= k < j && k != i ==> !cols[k].numeric
    ensures SelectAxes(cols, question) == Some(Axes(x := cols[i].name, y := cols[j].name))
  {
    var names := Names(cols);
    var p := MentionedIn(question);
    forall k | 0 <= k < |names| ensures !p(names[k]) {
      assert !IsMentioned(cols[k].name, question);
    }
    FilterSkip(names, |names|, p);
    assert names[|names|..] == [];
    assert MentionedColumns(cols, question) == [];
    FirstTwoNumeric(cols, i, j);
  }

  /** Columns `i` < `j` are the first two numeric columns: they head the numeric names. */
  lemma FirstTwoNumeric(cols: seq<Column>, i: nat, j: nat)
    requires i < j < |cols| && cols[i].numeric && cols[j].numeric
    requires forall k :: 0 <= k < j && k != i ==> !cols[k].numeric
    ensures var nums := NumericColumns(cols);
            |nums| >= 2 && nums[0] == cols[i].name && nums[1] == cols[j].name
  {
    FilterFirstTwo(cols, i, j, IsNumeric);
    var numeric := Filter(cols, IsNumeric);
    assert Names(numeric)[0] == numeric[0].name && Names(numeric)[1] == numeric[1].name;
  }

  /** A single mentioned column that is not numeric is ignored: the choice falls to the numeric columns. */
  lemma OneNonNumericMention(cols: seq<Column>, question: string, i: nat)
    requires i < |cols| && cols[i].name !in NumericColumns(cols)
    requires IsMentioned(cols[i].name, question)
    requires forall k :: 0 <= k < |cols| && k != i ==> !IsMentioned(cols[k].name, question)
    ensures var numeric := NumericColumns(cols);
            SelectAxes(cols, question) ==
              if |numeric| >= 2 then Some(Axes(x := numeric[0], y := numeric[1])) else None
  {
    SingleMention(cols, question, i);
  }

  /**
   * No pair is chosen exactly when at most one column is mentioned, no
   * mentioned column is numeric, and fewer than two columns are numeric.
   */
  lemma NoAxesExactly(cols: seq<Column>, question: string)
    ensures var mentioned := MentionedColumns(cols, question);
            var numeric := NumericColumns(cols);
            SelectAxes(cols, question).None? <==>
              |mentioned| < 2 && (forall n :: n in mentioned ==> n !in numeric) && |numeric| < 2
  {
  }

  /** With distinct column names and at least two columns, the two axes are different columns. */
  lemma AxesDistinct(cols: seq<Column>, question: string)
    requires |cols| >= 2 && NoDuplicates(Names(cols))
    requires SelectAxes(cols, question).Some?
    ensures SelectAxes(cols, question).value.x != SelectAxes(cols, question).value.y
  {
    var names := Names(cols);
    var mentioned := MentionedColumns(cols, question);
    var numeric := NumericColumns(cols);
    FilterNoDuplicates(names, MentionedIn(question));
    if |mentioned| == 1 && mentioned[0] in numeric {
      var y := mentioned[0];
      var k := if names[0] != y then 0 else 1;
      assert names[k] != y;
      assert names[k] in OtherColumns(cols, y);
    } else if |mentioned| < 2 {
      NumericNamesDistinct(cols);
    }
  }

  /** Distinct column names stay distinct among the numeric ones. */
  lemma {:induction false} NumericNamesDistinct(cols: seq<Column>)
    requires NoDuplicates(Names(cols))
    ensures NoDuplicates(NumericColumns(cols))
    decreases |cols|
  {
    if cols != [] {
      var rest := cols[1..];
      var names := Names(cols);
      assert Names(rest) == names[1..];
      assert NoDuplicates(Names(rest));
      NumericNamesDistinct(rest);
      NumericNamesAreNames(rest);
      var head := if cols[0].numeric then [cols[0]] else [];
      assert Filter(cols, IsNumeric) == head + Filter(rest, IsNumeric);
      NamesConcat(head, Filter(rest, IsNumeric));
      assert names[0] !in names[1..];
      var tailNames := NumericColumns(rest);
      assert cols[0].name !in tailNames;
      assert NumericColumns(cols) == Names(head) + tailNames;
    }
  }

  /** Names of a concatenation are the concatenated names. */
  lemma NamesConcat(a: seq<Column>, b: seq<Column>)
    ensures Names(a + b) == Names(a) + Names(b)
  {
  }

  /** The chart's title: `f"{y_col} by {x_col} (Top 10)"`. */
  function ChartTitle(a: Axes): (r: string)
    ensures |r| == |a.y| + |a.x| + 13
    ensures r[..|a.y|] == a.y && r[|a.y|..|a.y| + 4] == " by "
    ensures r[|a.y| + 4..|r| - 9] == a.x && r[|r| - 9..] == " (Top 10)"
  {
    a.y + " by " + a.x + " (Top 10)"
  }

  /** What the chart step ends in: a bar chart, or the "could not determine" warning. */
  datatype ChartPlan = BarChart(axes: Axes, title: string) | CannotDetermine

  /**
   * `if x_col and y_col`: a chart is attempted only when a pair was chosen and
   * neither name is empty (an empty string is falsy in Python).
   */
  function PlanChart(cols: seq<Column>, question: string): (r: ChartPlan)
    ensures r.BarChart? <==> SelectAxes(cols, question).Some? &&
                             SelectAxes(cols, question).value.x != "" &&
                             SelectAxes(cols, question).value.y != ""
    ensures r.BarChart? ==> r.axes == SelectAxes(cols, question).value &&
                            r.title == ChartTitle(r.axes)
  {
    match SelectAxes(cols, question)
    case Some(a) => if a.x != "" && a.y != "" then BarChart(a, ChartTitle(a)) else CannotDetermine
    case None => CannotDetermine
  }

  /** `.head(10)` of the rows already sorted by `y` descending: at most ten rows, the leading ones. */
  function PlottedRows(sortedRows: seq<Row>): (r: seq<Row>)
    ensures |r| <= 10 && |r| <= |sortedRows|
    ensures |r| == 10 || r == sortedRows
    ensures forall k :: 0 <= k < |r| ==> r[k] == sortedRows[k]
  {
    Head(sortedRows, 10)
  }

  /**
   * Table [Region, Revenue (numeric), Date] and the question "Revenue by
   * Region": both names are mentioned, and table order makes Region the `y` axis.
   */
  lemma RegionRevenueExample(cols: seq<Column>, question: string)
    requires |cols| == 3 && cols[0] == Column("Region", false) && cols[1] == Column("Revenue", true) &&
             cols[2] == Column("Date", false)
    requires question == "Revenue by Region"
    ensures SelectAxes(cols, question) == Some(Axes(x := "Revenue", y := "Region"))
  {
    RegionRevenueMentions(cols, question);
    TwoMentionedColumns(cols, question, 0, 1);
  }

  /** The chart drawn for that table and question is titled "Region by Revenue (Top 10)". */
  lemma RegionRevenueTitle(cols: seq<Column>, question: string)
    requires |cols| == 3 && cols[0] == Column("Region", false) && cols[1] == Column("Revenue", true) &&
             cols[2] == Column("Date", false)
    requires question == "Revenue by Region"
    ensures PlanChart(cols, question) == BarChart(Axes(x := "Revenue", y := "Region"), "Region by Revenue (Top 10)")
  {
    RegionRevenueExample(cols, question);
    TitleOfChosenAxes(cols, question, Axes(x := "Revenue", y := "Region"));
    RegionRevenueTitleText(Axes(x := "Revenue", y := "Region"));
  }

  /** The title text for y = Region and x = Revenue. */
  lemma RegionRevenueTitleText(a: Axes)
    requires a.x == "Revenue" && a.y == "Region"
    ensures ChartTitle(a) == "Region by Revenue (Top 10)"
  {
    assert a.y + " by " == "Region by ";
    assert a.y + " by " + a.x == "Region by Revenue";
  }

  /** Non-empty chosen names always give a bar chart titled from them. */
  lemma TitleOfChosenAxes(cols: seq<Column>, question: string, a: Axes)
    requires SelectAxes(cols, question) == Some(a) && a.x != "" && a.y != ""
    ensures PlanChart(cols, question) == BarChart(a, ChartTitle(a))
  {
  }

  /** Which of Region, Revenue and Date the question "Revenue by Region" mentions. */
  lemma RegionRevenueMentions(cols: seq<Column>, question: string)
    requires |cols| == 3 && cols[0] == Column("Region", false) && cols[1] == Column("Revenue", true) &&
             cols[2] == Column("Date", false)
    requires question == "Revenue by Region"
    ensures IsMentioned(cols[0].name, question) && IsMentioned(cols[1].name, question)
    ensures !IsMentioned(cols[2].name, question)
  {
    RevenueByRegionLowered(question);
    MentionedWhenOccurs(cols[0].name, question, "region", "revenue by region", 11);
    MentionedWhenOccurs(cols[1].name, question, "revenue", "revenue by region", 0);
    NotMentionedWhenFirstCharMissing(cols[2].name, question);
  }

  /** The lower-cased question "Revenue by Region". */
  lemma RevenueByRegionLowered(question: string)
    requires question == "Revenue by Region"
    ensures Lower(question) == "revenue by region"
    ensures Lower("Region") == "region" && Lower("Revenue") == "revenue"
    ensures LowerChar('D') !in Lower(question)
  {
    LowerOf(question, "revenue by region");
    LowerOf("Region", "region");
    LowerOf("Revenue", "revenue");
  }

  /** Lower-casing a literal, one character at a time. */
  lemma LowerOf(s: string, lower: string)
    requires |s| == |lower| && forall i :: 0 <= i < |s| ==> LowerChar(s[i]) == lower[i]
    ensures Lower(s) == lower
  {
  }

  /** A name whose lower-cased form occurs in the lower-cased question is mentioned. */
  lemma MentionedWhenOccurs(name: string, question: string, lowerName: string, lowerQuestion: string, k: nat)
    requires Lower(name) == lowerName && Lower(question) == lowerQuestion
    requires OccursAt(lowerName, lowerQuestion, k)
    ensures IsMentioned(name, question)
  {
    SubstringIff(Lower(name), Lower(question));
  }

  /** A name whose lower-cased first letter is absent from the lower-cased question is not mentioned. */
  lemma NotMentionedWhenFirstCharMissing(name: string, question: string)
    requires name != [] && LowerChar(name[0]) !in Lower(question)
    ensures !IsMentioned(name, question)
  {
    FirstCharMissing(Lower(name), Lower(question));
  }

  /**
   * Table [Sales, Profit, Year], all numeric, and a question naming none of
   * them: the first two numeric columns give x = Sales and y = Profit.
   */
  lemma SalesProfitExample(cols: seq<Column>, question: string)
    requires |cols| == 3 && cols[0] == Column("Sales", true) && cols[1] == Column("Profit", true) &&
             cols[2] == Column("Year", true)
    requires question == "How did it go?"
    ensures SelectAxes(cols, question) == Some(Axes(x := "Sales", y := "Profit"))
  {
    SalesProfitMentions(cols, question);
    NoMentionFirstTwoNumeric(cols, question, 0, 1);
  }

  /** The question "How did it go?" mentions none of Sales, Profit and Year. */
  lemma SalesProfitMentions(cols: seq<Column>, question: string)
    requires |cols| == 3 && cols[0] == Column("Sales", true) && cols[1] == Column("Profit", true) &&
             cols[2] == Column("Year", true)
    requires question == "How did it go?"
    ensures forall k :: 0 <= k < |cols| ==> !IsMentioned(cols[k].name, question)
  {
    var lq := "how did it go?";
    LowerOf(question, lq);
    assert LowerChar('S') == 's' && LowerChar('P') == 'p' && LowerChar('Y') == 'y';
    assert 's' !in lq && 'p' !in lq && 'y' !in lq;
    forall k | 0 <= k < |cols| ensures !IsMentioned(cols[k].name, question) {
      NotMentionedWhenFirstCharMissing(cols[k].name, question);
    }
  }
}
