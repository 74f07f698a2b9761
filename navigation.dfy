/**
 * The inline keyboards of the report screens and the callback data their
 * buttons carry: `verb_year_month[_categoryId]` tokens, buttons chunked into
 * rows of two, and the fixed navigation rows.
 */
module Navigation {
  import opened Wrappers
  import opened Models
  import opened Text
  import opened Reports

  // ------------------------------------------------------------------ callback tokens

  /** What a report button's callback data asks for. */
  datatype Token =
    | DetailedReport(year: int, month: int)
    | BackToReport(year: int, month: int)
    | CategoryDetails(year: int, month: int, categoryId: int)
    | SelectReportPeriod
    | NoAction

  /**
   * The callback data of a token, as the report screens interpolate it: the
   * token's pieces joined by '_'.
   */
  function Encode(t: Token): (data: string)
    ensures data == Join(Pieces(t), '_')
  {
    match t
    case DetailedReport(y, m) =>
      JoinFour("detailed", "report", IntToString(y), IntToString(m));
      DetailedPrefix(IntToString(y), IntToString(m));
      "detailed_report_" + IntToString(y) + "_" + IntToString(m)
    case BackToReport(y, m) =>
      JoinFive("back", "to", "report", IntToString(y), IntToString(m));
      BackPrefix(IntToString(y), IntToString(m));
      "back_to_report_" + IntToString(y) + "_" + IntToString(m)
    case CategoryDetails(y, m, id) =>
      JoinFive("category", "details", IntToString(y), IntToString(m), IntToString(id));
      CategoryPrefix(IntToString(y), IntToString(m), IntToString(id));
      "category_details_" + IntToString(y) + "_" + IntToString(m) + "_" + IntToString(id)
    case SelectReportPeriod =>
      JoinThree("select", "report", "period");
      assert "select_report_period" == "select" + "_" + "report" + "_" + "period";
      "select_report_period"
    case NoAction =>
      JoinTwo("no", "action");
      assert "no_action" == "no" + "_" + "action";
      "no_action"
  }

  /** The '_'-separated pieces of a token's data. */
  function Pieces(t: Token): (p: seq<string>)
    ensures forall i :: 0 <= i < |p| ==> p[i] != [] && '_' !in p[i]
  {
    match t
    case DetailedReport(y, m) => ["detailed", "report", IntToString(y), IntToString(m)]
    case BackToReport(y, m) => ["back", "to", "report", IntToString(y), IntToString(m)]
    case CategoryDetails(y, m, id) => ["category", "details", IntToString(y), IntToString(m), IntToString(id)]
    case SelectReportPeriod => ["select", "report", "period"]
    case NoAction => ["no", "action"]
  }

  lemma JoinCons(first: string, rest: seq<string>, sep: char)
    requires rest != []
    ensures Join([first] + rest, sep) == first + [sep] + Join(rest, sep)
  {
    assert ([first] + rest)[1..] == rest;
  }

  lemma JoinTwo(a: string, b: string)
    ensures Join([a, b], '_') == a + "_" + b
  {
    JoinCons(a, [b], '_');
  }

  lemma JoinThree(a: string, b: string, c: string)
    ensures Join([a, b, c], '_') == a + "_" + b + "_" + c
  {
    JoinTwo(b, c);
    JoinCons(a, [b, c], '_');
    assert [a] + [b, c] == [a, b, c];
  }

  lemma JoinFour(a: string, b: string, c: string, d: string)
    ensures Join([a, b, c, d], '_') == a + "_" + (b + "_" + c + "_" + d)
  {
    JoinThree(b, c, d);
    JoinCons(a, [b, c, d], '_');
    assert [a] + [b, c, d] == [a, b, c, d];
  }

  lemma JoinFive(a: string, b: string, c: string, d: string, e: string)
    ensures Join([a, b, c, d, e], '_') == a + "_" + (b + "_" + (c + "_" + d + "_" + e))
  {
    JoinFour(b, c, d, e);
    JoinCons(a, [b, c, d, e], '_');
    assert [a] + [b, c, d, e] == [a, b, c, d, e];
  }

  lemma DetailedPrefix(a: string, b: string)
    ensures "detailed" + "_" + ("report" + "_" + a + "_" + b) == "detailed_report_" + a + "_" + b
  {
    assert "detailed_report_" == "detailed" + "_" + "report" + "_";
  }

  lemma BackPrefix(a: string, b: string)
    ensures "back" + "_" + ("to" + "_" + ("report" + "_" + a + "_" + b)) == "back_to_report_" + a + "_" + b
  {
    assert "back_to_report_" == "back" + "_" + "to" + "_" + "report" + "_";
  }

  lemma CategoryPrefix(a: string, b: string, c: string)
    ensures "category" + "_" + ("details" + "_" + (a + "_" + b + "_" + c)) == "category_details_" + a + "_" + b + "_" + c
  {
    assert "category_details_" == "category" + "_" + "details" + "_";
  }

  /**
   * A reader for the callback data (the bot has none; the report buttons are
   * dispatched nowhere): split on '_' and read the integer fields.
   */
  function Decode(s: string): Option<Token>
  {
    var p := Split(s, '_');
    if p == ["select", "report", "period"] then Some(SelectReportPeriod)
    else if p == ["no", "action"] then Some(NoAction)
    else if |p| == 4 && p[0] == "detailed" && p[1] == "report" then
      match (ParseInt(p[2]), ParseInt(p[3]))
      case (Some(y), Some(m)) => Some(DetailedReport(y, m))
      case _ => None
    else if |p| == 5 && p[0] == "back" && p[1] == "to" && p[2] == "report" then
      match (ParseInt(p[3]), ParseInt(p[4]))
      case (Some(y), Some(m)) => Some(BackToReport(y, m))
      case _ => None
    else if |p| == 5 && p[0] == "category" && p[1] == "details" then
      match (ParseInt(p[2]), ParseInt(p[3]), ParseInt(p[4]))
      case (Some(y), Some(m), Some(id)) => Some(CategoryDetails(y, m, id))
      case _ => None
    else None
  }

  /** The data of a token splits back into its pieces. */
  lemma SplitEncode(t: Token)
    ensures Split(Encode(t), '_') == Pieces(t)
  {
    SplitJoin(Pieces(t), '_');
  }

  lemma DecodeDetailed(y: int, m: int)
    ensures Decode(Encode(DetailedReport(y, m))) == Some(DetailedReport(y, m))
  {
    SplitEncode(DetailedReport(y, m));
    IntRoundTrip(y);
    IntRoundTrip(m);
  }

  lemma DecodeBack(y: int, m: int)
    ensures Decode(Encode(BackToReport(y, m))) == Some(BackToReport(y, m))
  {
    SplitEncode(BackToReport(y, m));
    IntRoundTrip(y);
    IntRoundTrip(m);
  }

  lemma DecodeCategory(y: int, m: int, id: int)
    ensures Decode(Encode(CategoryDetails(y, m, id))) == Some(CategoryDetails(y, m, id))
  {
    SplitEncode(CategoryDetails(y, m, id));
    IntRoundTrip(y);
    IntRoundTrip(m);
    IntRoundTrip(id);
  }

  /** Every token's callback data reads back as that token, so distinct tokens have distinct data. */
  lemma DecodeEncode(t: Token)
    ensures Decode(Encode(t)) == Some(t)
  {
    match t
    case DetailedReport(y, m) => DecodeDetailed(y, m);
    case BackToReport(y, m) => DecodeBack(y, m);
    case CategoryDetails(y, m, id) => DecodeCategory(y, m, id);
    case SelectReportPeriod => SplitEncode(t);
    case NoAction => SplitEncode(t);
  }

  lemma EncodeInjective(a: Token, b: Token)
    ensures Encode(a) == Encode(b) <==> a == b
  {
    DecodeEncode(a);
    DecodeEncode(b);
  }

  // ------------------------------------------------------------------ buttons and rows

  /** What a button shows; the emoji and wording are left abstract. */
  datatype Caption =
    | ShowDetails
    | ChoosePeriod
    | Separator
    | BackToReportCaption
    | BackToDetails
    | MainReport
    | CategoryCaption(sign: Sign, name: string)

  /** `InlineKeyboardButton.WithCallbackData(caption, data)`. */
  datatype Button = Button(caption: Caption, data: string)

  type Keyboard = seq<seq<Button>>

  function Flatten(k: Keyboard): seq<Button>
  {
    if k == [] then [] else k[0] + Flatten(k[1..])
  }

  lemma {:induction false} FlattenAppend(a: Keyboard, b: Keyboard)
    ensures Flatten(a + b) == Flatten(a) + Flatten(b)
  {
    if a != [] {
      assert (a + b)[1..] == a[1..] + b;
      FlattenAppend(a[1..], b);
    } else {
      assert a + b == b;
    }
  }

  /** Buttons in rows of two, the last row holding one button when the count is odd. */
  function Chunks(bs: seq<Button>): (rows: Keyboard)
    ensures |rows| == (|bs| + 1) / 2
    ensures Flatten(rows) == bs
  {
    if bs == [] then []
    else if |bs| == 1 then [bs]
    else
      var rows := [bs[..2]] + Chunks(bs[2..]);
      assert rows[1..] == Chunks(bs[2..]);
      assert bs[..2] + bs[2..] == bs;
      rows
  }

  /** The rows hold the buttons in order, two to a row but the last when the count is odd: ⌈n/2⌉ rows. */
  lemma {:induction false} ChunksShape(bs: seq<Button>)
    ensures |Chunks(bs)| == (|bs| + 1) / 2
    ensures Flatten(Chunks(bs)) == bs
    ensures forall r :: 0 <= r < |Chunks(bs)| - 1 ==> |Chunks(bs)[r]| == 2
    ensures Chunks(bs) != [] ==> |Chunks(bs)[|Chunks(bs)| - 1]| == 2 - |bs| % 2
  {
    if |bs| >= 2 {
      ChunksShape(bs[2..]);
      var c := Chunks(bs);
      assert c[1..] == Chunks(bs[2..]);
      assert bs[..2] + bs[2..] == bs;
    }
  }

  /** The `for (i = 0; i < n; i += 2)` loop that lays buttons out in rows. */
  method ChunkPairs(bs: seq<Button>) returns (rows: Keyboard)
    ensures rows == Chunks(bs)
  {
    rows := [];
    var i := 0;
    while i < |bs|
      invariant 0 <= i <= |bs| + 1 && i % 2 == 0
      invariant i > |bs| ==> |bs| % 2 == 1
      invariant rows + Chunks(bs[Min(i, |bs|)..]) == Chunks(bs)
    {
      ChunksAt(bs, i);
      if i + 1 < |bs| {
        rows := rows + [[bs[i], bs[i + 1]]];
      } else {
        rows := rows + [[bs[i]]];
      }
      i := i + 2;
    }
    assert bs[Min(i, |bs|)..] == [];
  }

  /** The first row of the buttons from `i` on, and what is left after it. */
  lemma ChunksAt(bs: seq<Button>, i: int)
    requires 0 <= i < |bs|
    ensures i + 1 < |bs| ==> Chunks(bs[i..]) == [[bs[i], bs[i + 1]]] + Chunks(bs[i + 2..])
    ensures i + 1 == |bs| ==> Chunks(bs[i..]) == [[bs[i]]] && bs[Min(i + 2, |bs|)..] == []
  {
    if i + 1 < |bs| {
      assert bs[i..][..2] == [bs[i], bs[i + 1]];
      assert bs[i..][2..] == bs[i + 2..];
    } else {
      assert bs[i..] == [bs[i]];
    }
  }

  // ------------------------------------------------------------------ the report keyboards

  /** The button a category row gets in the detailed report. */
  function CategoryButton(r: Row, sign: Sign, year: int, month: int): Button
  {
    Button(CategoryCaption(sign, r.name), Encode(CategoryDetails(year, month, r.categoryId)))
  }

  function Buttons(rows: seq<Row>, sign: Sign, year: int, month: int): (bs: seq<Button>)
    ensures |bs| == |rows|
    ensures forall i :: 0 <= i < |rows| ==> bs[i] == CategoryButton(rows[i], sign, year, month)
  {
    seq(|rows|, i requires 0 <= i < |rows| => CategoryButton(rows[i], sign, year, month))
  }

  /** The `foreach` that makes one button per category row. */
  method CategoryButtons(rows: seq<Row>, sign: Sign, year: int, month: int) returns (bs: seq<Button>)
    ensures bs == Buttons(rows, sign, year, month)
  {
    bs := [];
    var i := 0;
    while i < |rows|
      invariant 0 <= i <= |rows|
      invariant bs == Buttons(rows[..i], sign, year, month)
    {
      ButtonsSnoc(rows, i, sign, year, month);
      bs := bs + [CategoryButton(rows[i], sign, year, month)];
      i := i + 1;
    }
    assert rows[..i] == rows;
  }

  lemma ButtonsSnoc(rows: seq<Row>, i: int, sign: Sign, year: int, month: int)
    requires 0 <= i < |rows|
    ensures Buttons(rows[..i + 1], sign, year, month) == Buttons(rows[..i], sign, year, month) + [CategoryButton(rows[i], sign, year, month)]
  {
    assert rows[..i + 1][..i] == rows[..i];
  }

  /** A category button asks for the details of its own category in the report's month. */
  lemma CategoryButtonTarget(r: Row, sign: Sign, year: int, month: int)
    ensures Decode(CategoryButton(r, sign, year, month).data) == Some(CategoryDetails(year, month, r.categoryId))
  {
    DecodeEncode(CategoryDetails(year, month, r.categoryId));
  }

  const PeriodButton: Button := Button(ChoosePeriod, "select_report_period")
  const SeparatorButton: Button := Button(Separator, "no_action")

  /**
   * The summary report's keyboard: a button for the detailed report of the
   * given month, a missing year or month taken from now, and the period button.
   */
  function ReportKeyboard(year: Option<int>, month: Option<int>, now: DateTime): (k: Keyboard)
    ensures |k| == 2 && |k[0]| == 1 && k[1] == [PeriodButton]
    ensures Decode(k[0][0].data) == Some(DetailedReport(if year.Some? then year.value else now.year,
                                                         if month.Some? then month.value else now.month))
  {
    var y := if year.Some? then year.value else now.year;
    var m := if month.Some? then month.value else now.month;
    DecodeEncode(DetailedReport(y, m));
    [[Button(ShowDetails, Encode(DetailedReport(y, m)))], [PeriodButton]]
  }

  /** The detailed report's keyboard for a month. */
  function DetailedKeyboard(income: seq<Row>, expense: seq<Row>, year: int, month: int): (k: Keyboard)
    ensures |k| == (|income| + 1) / 2 + (if income != [] && expense != [] then 1 else 0) + (|expense| + 1) / 2 + 1
    ensures k[|k| - 1] == [Button(BackToReportCaption, Encode(BackToReport(year, month))), PeriodButton]
  {
    Chunks(Buttons(income, Plus, year, month))
      + (if income != [] && expense != [] then [[SeparatorButton]] else [])
      + Chunks(Buttons(expense, Minus, year, month))
      + [[Button(BackToReportCaption, Encode(BackToReport(year, month))), PeriodButton]]
  }

  /**
   * The detailed keyboard lists the income buttons, then the separator only when
   * both lists are non-empty, then the expense buttons, each list two to a row,
   * and ends with the back and period buttons.
   */
  lemma DetailedKeyboardShape(income: seq<Row>, expense: seq<Row>, year: int, month: int)
    ensures var k := DetailedKeyboard(income, expense, year, month);
            var sep := if income != [] && expense != [] then 1 else 0;
            && |k| == (|income| + 1) / 2 + sep + (|expense| + 1) / 2 + 1
            && k[|k| - 1] == [Button(BackToReportCaption, Encode(BackToReport(year, month))), PeriodButton]
            && Flatten(k) == Buttons(income, Plus, year, month)
                             + (if sep == 1 then [SeparatorButton] else [])
                             + Buttons(expense, Minus, year, month)
                             + [Button(BackToReportCaption, Encode(BackToReport(year, month))), PeriodButton]
  {
    var a := Chunks(Buttons(income, Plus, year, month));
    var s: Keyboard := if income != [] && expense != [] then [[SeparatorButton]] else [];
    var b := Chunks(Buttons(expense, Minus, year, month));
    var last := [[Button(BackToReportCaption, Encode(BackToReport(year, month))), PeriodButton]];
    ChunksShape(Buttons(income, Plus, year, month));
    ChunksShape(Buttons(expense, Minus, year, month));
    FlattenAppend(a, s);
    FlattenAppend(a + s, b);
    FlattenAppend(a + s + b, last);
    assert Flatten(s) == (if income != [] && expense != [] then [SeparatorButton] else []);
    assert Flatten(last) == last[0];
  }

  /** `CreateDetailedReportKeyboard`: the month falls back to now's when missing. */
  method CreateDetailedReportKeyboard(income: seq<Row>, expense: seq<Row>, year: Option<int>, month: Option<int>, now: DateTime)
    returns (k: Keyboard)
    ensures k == DetailedKeyboard(income, expense, if year.Some? then year.value else now.year,
                                  if month.Some? then month.value else now.month)
  {
    var y := if year.Some? then year.value else now.year;
    var m := if month.Some? then month.value else now.month;
    var incomeButtons := CategoryButtons(income, Plus, y, m);
    k := ChunkPairs(incomeButtons);
    if incomeButtons != [] && expense != [] {
      k := k + [[SeparatorButton]];
    }
    var expenseButtons := CategoryButtons(expense, Minus, y, m);
    var expenseRows := ChunkPairs(expenseButtons);
    k := k + expenseRows;
    k := k + [[Button(BackToReportCaption, Encode(BackToReport(y, m))), PeriodButton]];
  }

  /** The category breakdown's keyboard: back to the detailed report, to the summary, and the period button. */
  function DetailsKeyboard(year: int, month: int): (k: Keyboard)
    ensures |k| == 2 && |k[0]| == 2 && k[1] == [PeriodButton]
    ensures Decode(k[0][0].data) == Some(DetailedReport(year, month))
    ensures Decode(k[0][1].data) == Some(BackToReport(year, month))
  {
    DecodeEncode(DetailedReport(year, month));
    DecodeEncode(BackToReport(year, month));
    [[Button(BackToDetails, Encode(DetailedReport(year, month))), Button(MainReport, Encode(BackToReport(year, month)))],
     [PeriodButton]]
  }

  /** The fixed buttons carry the data of their tokens. */
  lemma FixedButtonsData()
    ensures PeriodButton.data == Encode(SelectReportPeriod) && Decode(PeriodButton.data) == Some(SelectReportPeriod)
    ensures SeparatorButton.data == Encode(NoAction) && Decode(SeparatorButton.data) == Some(NoAction)
  {
    DecodeEncode(SelectReportPeriod);
    DecodeEncode(NoAction);
  }
}
