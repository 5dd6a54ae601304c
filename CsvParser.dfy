/**
 * Bulk import of ongoing courses from CSV text (services/csvParser.ts).
 *
 * The parser works in two phases. The first reads the header and the data
 * lines, building one row per non-blank line whose six required fields are
 * all present. The second validates each row and groups the rows into
 * courses by a lower-cased `room-courseName-block` key. Either phase's
 * errors make the result empty: courses and errors never come together.
 */
module CsvParser {
  import opened Wrappers
  import opened Text
  import opened Seqs
  import opened Types

  /** One data line, as the six trimmed text fields named by the header. */
  datatype CsvRow = CsvRow(room: string, courseName: string, block: string,
                           dayOfWeek: string, startTime: string, endTime: string)

  /**
   * The errors the parser reports, kept as values; `Message` spells each
   * one as the text the parser pushes.
   */
  datatype CsvError =
    | EmptyCsv
    | MissingHeaders(missing: seq<string>)
    | EmptyValues(lineNumber: nat)
    | InvalidDay(lineNumber: nat, dayOfWeek: string)
    | InvalidTime(lineNumber: nat)

  function Message(e: CsvError): string {
    match e
    case EmptyCsv => "CSV vazio ou contém apenas o cabeçalho."
    case MissingHeaders(missing) => "Cabeçalhos ausentes no CSV: " + Join(missing, ", ")
    case EmptyValues(n) => "Linha " + NatToString(n) + ": Contém valores vazios. Todos os campos são obrigatórios."
    case InvalidDay(n, day) => "Linha " + NatToString(n) + ": 'dayOfWeek' inválido (" + day + "). Use 0-6."
    case InvalidTime(n) => "Linha " + NatToString(n) + ": Formato de hora inválido. Use HH:mm."
  }

  /** What `parseCoursesFromCSV` returns; the courses carry no id yet. */
  datatype ParseResult = ParseResult(courses: seq<Course>, errors: seq<CsvError>)

  const ExpectedHeaders: seq<string> := ["room", "courseName", "block", "dayOfWeek", "startTime", "endTime"]

  // ---------------------------------------------------------------------
  // Lines, header and fields
  // ---------------------------------------------------------------------

  function DropCarriageReturn(s: string): string {
    if s != [] && s[|s| - 1] == '\r' then s[..|s| - 1] else s
  }

  /** `s.split(/\r?\n/)`: split at every newline, dropping one carriage return before it. */
  function SplitLines(s: string): (lines: seq<string>)
    ensures |lines| == |Split(s, '\n')|
  {
    var parts := Split(s, '\n');
    seq(|parts|, i requires 0 <= i < |parts| => if i < |parts| - 1 then DropCarriageReturn(parts[i]) else parts[i])
  }

  /** `csvText.trim().split(/\r?\n/)`. */
  function Lines(text: string): seq<string> {
    SplitLines(Trim(text))
  }

  /** `line.split(',').map(h => h.trim())`. */
  function Header(line: string): (header: seq<string>)
    ensures |header| == |Split(line, ',')|
  {
    var cells := Split(line, ',');
    seq(|cells|, i requires 0 <= i < |cells| => Trim(cells[i]))
  }

  /** The expected headers absent from `header`, in expected order. */
  function MissingHeaderNames(header: seq<string>): seq<string> {
    Filter(ExpectedHeaders, (h: string) => h !in header)
  }

  /** `values[index]?.trim() || ''`. */
  function FieldValue(values: seq<string>, index: nat): string {
    if index < |values| then Trim(values[index]) else ""
  }

  /** The `reduce` over the first `n` header columns; a repeated column keeps its last value. */
  function RowDataUpTo(header: seq<string>, values: seq<string>, n: nat): map<string, string>
    requires n <= |header|
  {
    if n == 0 then map[]
    else RowDataUpTo(header, values, n - 1)[header[n - 1] := FieldValue(values, n - 1)]
  }

  function RowData(header: seq<string>, values: seq<string>): map<string, string> {
    RowDataUpTo(header, values, |header|)
  }

  predicate Filled(rowData: map<string, string>, h: string) {
    h in rowData && rowData[h] != ""
  }

  /** `!expectedHeaders.some(h => !rowData[h])`: no required field is missing or empty. */
  predicate Complete(rowData: map<string, string>) {
    && Filled(rowData, "room") && Filled(rowData, "courseName") && Filled(rowData, "block")
    && Filled(rowData, "dayOfWeek") && Filled(rowData, "startTime") && Filled(rowData, "endTime")
  }

  /** Every field of the row is non-empty. */
  predicate FieldsFilled(r: CsvRow) {
    r.room != "" && r.courseName != "" && r.block != "" && r.dayOfWeek != "" && r.startTime != "" && r.endTime != ""
  }

  function ToRow(rowData: map<string, string>): (r: CsvRow)
    requires Complete(rowData)
    ensures FieldsFilled(r)
  {
    CsvRow(rowData["room"], rowData["courseName"], rowData["block"],
           rowData["dayOfWeek"], rowData["startTime"], rowData["endTime"])
  }

  predicate Blank(line: string) {
    Trim(line) == ""
  }

  // ---------------------------------------------------------------------
  // Phase one: the row loop
  // ---------------------------------------------------------------------

  /** What the row loop makes of one data line. */
  datatype LineOutcome = Skipped | Incomplete | Read(row: CsvRow)

  function ReadLine(header: seq<string>, line: string): (o: LineOutcome)
    ensures o.Skipped? <==> Blank(line)
    ensures o.Read? ==> FieldsFilled(o.row)
  {
    if Blank(line) then Skipped
    else
      var rowData := RowData(header, Split(line, ','));
      if Complete(rowData) then Read(ToRow(rowData)) else Incomplete
  }

  function LineOutcomes(lines: seq<string>, header: seq<string>): (outcomes: seq<LineOutcome>)
    ensures |outcomes| == |lines|
  {
    seq(|lines|, i requires 0 <= i < |lines| => ReadLine(header, lines[i]))
  }

  datatype Collected = Collected(rows: seq<CsvRow>, errors: seq<CsvError>)

  /** Rows and errors once the loop has looked at the lines `1 .. n - 1`. */
  function CollectRows(outcomes: seq<LineOutcome>, n: nat): Collected
    requires 1 <= n <= |outcomes|
  {
    if n == 1 then Collected([], [])
    else
      var prev := CollectRows(outcomes, n - 1);
      match outcomes[n - 1]
      case Skipped => prev
      case Incomplete => Collected(prev.rows, prev.errors + [EmptyValues(n)])
      case Read(row) => Collected(prev.rows + [row], prev.errors)
  }

  // ---------------------------------------------------------------------
  // Phase two: validation and grouping
  // ---------------------------------------------------------------------

  /** The longest prefix of `s` made of decimal digits. */
  function DigitPrefix(s: string): (d: string)
    ensures |d| <= |s| && d == s[..|d|]
    ensures forall i :: 0 <= i < |d| ==> IsDigit(d[i])
    ensures |d| < |s| ==> !IsDigit(s[|d|])
  {
    if s != [] && IsDigit(s[0]) then [s[0]] + DigitPrefix(s[1..]) else []
  }

  /**
   * `parseInt(s, 10)`: leading whitespace, an optional sign, then the
   * longest run of digits; `None` stands for NaN (no digit at all).
   */
  function ParseInt(s: string): (r: Option<int>)
    ensures (forall i :: 0 <= i < |s| ==> !IsDigit(s[i])) ==> r.None?
  {
    TrimStartSpec(s);
    var t := TrimStart(s);
    var negative := t != [] && t[0] == '-';
    var unsigned := if t != [] && (t[0] == '-' || t[0] == '+') then t[1..] else t;
    var digits := DigitPrefix(unsigned);
    var value: int := if digits == [] then 0 else DigitsValue(digits);
    if digits == [] then None else if negative then Some(-value) else Some(value)
  }

  /** `/^\d{2}:\d{2}$/.test(s)`. */
  predicate TimeOk(s: string) {
    |s| == 5 && IsDigit(s[0]) && IsDigit(s[1]) && s[2] == ':' && IsDigit(s[3]) && IsDigit(s[4])
  }

  predicate DayOk(r: CsvRow) {
    var day := ParseInt(r.dayOfWeek);
    day.Some? && 0 <= day.value <= 6
  }

  predicate RowValid(r: CsvRow) {
    DayOk(r) && TimeOk(r.startTime) && TimeOk(r.endTime)
  }

  predicate ScheduleValid(s: Schedule) {
    0 <= s.dayOfWeek <= 6 && TimeOk(s.startTime) && TimeOk(s.endTime)
  }

  /** The grouping key: `${room}-${courseName}-${block}` lower-cased. */
  function CourseKey(room: string, courseName: string, block: string): string {
    ToLower(room + "-" + courseName + "-" + block)
  }

  function RowKey(r: CsvRow): string {
    CourseKey(r.room, r.courseName, r.block)
  }

  /** What the two checks of the `forEach` body make of one row. */
  datatype RowCheck = BadDay | BadTime | Good(key: string, schedule: Schedule)

  function CheckRow(row: CsvRow): (c: RowCheck)
    ensures c.BadDay? <==> !DayOk(row)
    ensures c.Good? <==> RowValid(row)
    ensures c.Good? ==> c.key == RowKey(row) && ScheduleValid(c.schedule)
                        && c.schedule.startTime == row.startTime && c.schedule.endTime == row.endTime
                        && c.schedule.dayOfWeek == ParseInt(row.dayOfWeek).value
  {
    var day := ParseInt(row.dayOfWeek);
    if day.None? || day.value < 0 || day.value > 6 then BadDay
    else if !TimeOk(row.startTime) || !TimeOk(row.endTime) then BadTime
    else Good(RowKey(row), Schedule(day.value, row.startTime, row.endTime))
  }

  datatype CheckedRow = CheckedRow(row: CsvRow, check: RowCheck)

  function CheckRows(rows: seq<CsvRow>): (checked: seq<CheckedRow>)
    ensures |checked| == |rows|
  {
    seq(|rows|, i requires 0 <= i < |rows| => CheckedRow(rows[i], CheckRow(rows[i])))
  }

  /**
   * The `Map` of the grouping phase, as its keys in insertion order and the
   * course stored under each, plus the errors reported so far.
   */
  datatype Grouping = Grouping(keys: seq<string>, courses: seq<Course>, errors: seq<CsvError>)

  /** `courseMap.get(key).schedules.push(schedule)` when the key is present, else `courseMap.set(key, ...)`. */
  function AddSchedule(g: Grouping, key: string, row: CsvRow, schedule: Schedule): (g': Grouping)
    requires |g.keys| == |g.courses|
    ensures |g'.keys| == |g'.courses|
  {
    var j := IndexOf(g.keys, key);
    if j >= 0 then
      g.(courses := g.courses[j := g.courses[j].(schedules := g.courses[j].schedules + [schedule])])
    else
      Grouping(g.keys + [key], g.courses + [Course(None, row.room, row.courseName, row.block, [schedule])], g.errors)
  }

  /** One `forEach` step on the row at 0-based position `index`. */
  function GroupStep(g: Grouping, c: CheckedRow, index: nat): (g': Grouping)
    requires |g.keys| == |g.courses|
    ensures |g'.keys| == |g'.courses|
  {
    match c.check
    case BadDay => g.(errors := g.errors + [InvalidDay(index + 2, c.row.dayOfWeek)])
    case BadTime => g.(errors := g.errors + [InvalidTime(index + 2)])
    case Good(key, schedule) => AddSchedule(g, key, c.row, schedule)
  }

  /** The grouping state after the `forEach` has visited all of `checked`. */
  function GroupRows(checked: seq<CheckedRow>): (g: Grouping)
    ensures |g.keys| == |g.courses|
  {
    if checked == [] then Grouping([], [], [])
    else GroupStep(GroupRows(checked[..|checked| - 1]), checked[|checked| - 1], |checked| - 1)
  }

  /** The rows phase one keeps. */
  function ParsedRows(text: string): seq<CsvRow> {
    var lines := Lines(text);
    if |lines| < 2 then [] else CollectRows(LineOutcomes(lines, Header(lines[0])), |lines|).rows
  }

  /** `parseCoursesFromCSV(csvText)`. */
  function ParseCsv(text: string): (r: ParseResult)
    ensures r.errors == [] || r.courses == []
  {
    var lines := Lines(text);
    if |lines| < 2 then ParseResult([], [EmptyCsv])
    else
      var header := Header(lines[0]);
      var missing := MissingHeaderNames(header);
      if |missing| > 0 then ParseResult([], [MissingHeaders(missing)])
      else
        var collected := CollectRows(LineOutcomes(lines, header), |lines|);
        if |collected.errors| > 0 then ParseResult([], collected.errors)
        else
          var g := GroupRows(CheckRows(collected.rows));
          if |g.errors| > 0 then ParseResult([], g.errors) else ParseResult(g.courses, [])
  }

  /** The parser as written: the header checks, the row loop, then the grouping loop. */
  method ParseCoursesFromCsv(csvText: string) returns (result: ParseResult)
    ensures result == ParseCsv(csvText)
  {
    var lines := Lines(csvText);
    if |lines| < 2 {
      return ParseResult([], [EmptyCsv]);
    }
    var header := Header(lines[0]);
    var missingHeaders := MissingHeaderNames(header);
    if |missingHeaders| > 0 {
      return ParseResult([], [MissingHeaders(missingHeaders)]);
    }
    var rows, errors := ReadRows(lines, header);
    if |errors| > 0 {
      return ParseResult([], errors);
    }
    var keys, courses, groupErrors := GroupCourses(rows);
    if |groupErrors| > 0 {
      return ParseResult([], groupErrors);
    }
    return ParseResult(courses, []);
  }

  /** One more line of the loop. */
  lemma CollectRowsNext(outcomes: seq<LineOutcome>, n: nat)
    requires 1 <= n < |outcomes|
    ensures var prev := CollectRows(outcomes, n);
      CollectRows(outcomes, n + 1) == match outcomes[n]
        case Skipped => prev
        case Incomplete => Collected(prev.rows, prev.errors + [EmptyValues(n + 1)])
        case Read(row) => Collected(prev.rows + [row], prev.errors)
  {
  }

  /**
   * The body of the `for` loop for line `i`: a blank line is skipped, a line
   * with an empty required field adds an error naming its 1-based line
   * number, any other line adds its row.
   */
  method ReadLineInto(lines: seq<string>, header: seq<string>, i: nat, rows: seq<CsvRow>, errors: seq<CsvError>)
    returns (rows': seq<CsvRow>, errors': seq<CsvError>)
    requires 1 <= i < |lines|
    requires Collected(rows, errors) == CollectRows(LineOutcomes(lines, header), i)
    ensures Collected(rows', errors') == CollectRows(LineOutcomes(lines, header), i + 1)
  {
    var line := lines[i];
    CollectRowsNext(LineOutcomes(lines, header), i);
    assert LineOutcomes(lines, header)[i] == ReadLine(header, line);
    rows', errors' := rows, errors;
    if Trim(line) == "" {
      return;
    }
    var rowData := BuildRowData(header, Split(line, ','));
    if !Complete(rowData) {
      errors' := errors + [EmptyValues(i + 1)];
      return;
    }
    rows' := rows + [ToRow(rowData)];
  }

  /** The `for` loop over the data lines, pushing into `rows` and `errors`. */
  method ReadRows(lines: seq<string>, header: seq<string>) returns (rows: seq<CsvRow>, errors: seq<CsvError>)
    requires |lines| >= 1
    ensures Collected(rows, errors) == CollectRows(LineOutcomes(lines, header), |lines|)
  {
    rows, errors := [], [];
    var i := 1;
    while i < |lines|
      invariant 1 <= i <= |lines|
      invariant Collected(rows, errors) == CollectRows(LineOutcomes(lines, header), i)
    {
      rows, errors := ReadLineInto(lines, header, i, rows, errors);
      i := i + 1;
    }
  }

  /** `header.reduce((obj, col, index) => { obj[col] = ...; return obj; }, {})`. */
  method BuildRowData(header: seq<string>, values: seq<string>) returns (rowData: map<string, string>)
    ensures rowData == RowData(header, values)
  {
    rowData := map[];
    var index := 0;
    while index < |header|
      invariant 0 <= index <= |header|
      invariant rowData == RowDataUpTo(header, values, index)
    {
      rowData := rowData[header[index] := FieldValue(values, index)];
      index := index + 1;
    }
  }

  /** The `forEach` over the rows, filling the insertion-ordered map and the errors. */
  method GroupCourses(rows: seq<CsvRow>) returns (keys: seq<string>, courses: seq<Course>, errors: seq<CsvError>)
    ensures Grouping(keys, courses, errors) == GroupRows(CheckRows(rows))
  {
    ghost var checked := CheckRows(rows);
    keys, courses, errors := [], [], [];
    var index := 0;
    while index < |rows|
      invariant 0 <= index <= |rows|
      invariant Grouping(keys, courses, errors) == GroupRows(checked[..index])
    {
      assert checked[..index + 1][..index] == checked[..index];
      assert checked[index] == CheckedRow(rows[index], CheckRow(rows[index]));
      keys, courses, errors := GroupRowInto(keys, courses, errors, rows[index], index);
      index := index + 1;
    }
    assert checked[..|rows|] == checked;
  }

  /** The body of the `forEach` for row `index`: one step of `GroupRows`. */
  method GroupRowInto(keys: seq<string>, courses: seq<Course>, errors: seq<CsvError>, row: CsvRow, index: nat)
    returns (keys': seq<string>, courses': seq<Course>, errors': seq<CsvError>)
    requires |keys| == |courses|
    ensures Grouping(keys', courses', errors') == GroupStep(Grouping(keys, courses, errors), CheckedRow(row, CheckRow(row)), index)
  {
    keys', courses', errors' := keys, courses, errors;
    var day := ParseInt(row.dayOfWeek);
    if day.None? || day.value < 0 || day.value > 6 {
      errors' := errors + [InvalidDay(index + 2, row.dayOfWeek)];
    } else if !TimeOk(row.startTime) || !TimeOk(row.endTime) {
      errors' := errors + [InvalidTime(index + 2)];
    } else {
      var courseKey := RowKey(row);
      var schedule := Schedule(day.value, row.startTime, row.endTime);
      var j := IndexOf(keys, courseKey);
      if j >= 0 {
        courses' := courses[j := courses[j].(schedules := courses[j].schedules + [schedule])];
      } else {
        keys' := keys + [courseKey];
        courses' := courses + [Course(None, row.room, row.courseName, row.block, [schedule])];
      }
    }
  }

  // ---------------------------------------------------------------------
  // Header stage
  // ---------------------------------------------------------------------

  /** A text splits into two or more pieces exactly when it contains the separator. */
  lemma SplitInTwoIffSeparator(s: string, sep: char)
    ensures |Split(s, sep)| >= 2 <==> sep in s
  {
    if sep !in s {
      SplitNoSep(s, sep);
    } else {
      JoinSplit(s, sep);
    }
  }

  /**
   * Fewer than two lines, hence the single "empty CSV" error, exactly when
   * the trimmed text has no line break.
   */
  lemma TooFewLinesRejected(text: string)
    ensures |Lines(text)| < 2 <==> '\n' !in Trim(text)
    ensures '\n' !in Trim(text) ==> ParseCsv(text) == ParseResult([], [EmptyCsv])
  {
    SplitInTwoIffSeparator(Trim(text), '\n');
  }

  /** Blank text gives the single "empty CSV" error. */
  lemma BlankTextRejected(text: string)
    requires AllWhitespace(text)
    ensures ParseCsv(text) == ParseResult([], [EmptyCsv])
  {
    TrimEmptyIffBlank(text);
    TooFewLinesRejected(text);
  }

  /**
   * A missing required header yields one error naming every missing header
   * in expected order, before any data line is looked at.
   */
  lemma MissingHeadersRejected(text: string)
    requires |Lines(text)| >= 2
    ensures var missing := MissingHeaderNames(Header(Lines(text)[0]));
      && (forall h :: h in missing <==> h in ExpectedHeaders && h !in Header(Lines(text)[0]))
      && IsSubsequence(missing, ExpectedHeaders)
      && (missing != [] ==> ParseCsv(text) == ParseResult([], [MissingHeaders(missing)]))
  {
  }

  /** Courses and errors never come together. */

  // ---------------------------------------------------------------------
  // Field formats
  // ---------------------------------------------------------------------

  /** `parseInt` reads back what `String` writes for any integer. */
  lemma ParseIntOfIntToString(n: int)
    ensures ParseInt(IntToString(n)) == Some(n)
  {
    var m: nat := if n < 0 then -n else n;
    DigitsValueOfNatToString(m);
    ParseIntOfDigits(NatToString(m));
  }

  /** A run of digits, with or without a minus sign in front, reads back as its value. */
  lemma ParseIntOfDigits(digits: string)
    requires digits != [] && forall i :: 0 <= i < |digits| ==> IsDigit(digits[i])
    ensures ParseInt(digits) == Some(DigitsValue(digits))
    ensures ParseInt("-" + digits) == Some(-(DigitsValue(digits) as int))
  {
    ParseIntOfUnsigned(digits);
    ParseIntOfNegative(digits);
  }

  lemma ParseIntOfUnsigned(digits: string)
    requires digits != [] && forall i :: 0 <= i < |digits| ==> IsDigit(digits[i])
    ensures ParseInt(digits) == Some(DigitsValue(digits))
  {
    assert IsDigit(digits[0]);
    TrimStartKeeps(digits);
    DigitPrefixOfDigits(digits);
    ParseIntOfTrimmed(digits, digits);
  }

  lemma ParseIntOfNegative(digits: string)
    requires digits != [] && forall i :: 0 <= i < |digits| ==> IsDigit(digits[i])
    ensures ParseInt("-" + digits) == Some(-(DigitsValue(digits) as int))
  {
    var s := "-" + digits;
    TrimStartKeeps(s);
    assert s[1..] == digits;
    DigitPrefixOfDigits(digits);
    ParseIntOfTrimmed(s, digits);
  }

  /** `parseInt` on text with no leading blanks reads the digits after an optional sign. */
  lemma ParseIntOfTrimmed(s: string, digits: string)
    requires s != [] && TrimStart(s) == s && digits != []
    requires DigitPrefix(if s[0] == '-' || s[0] == '+' then s[1..] else s) == digits
    ensures ParseInt(s) == Some(if s[0] == '-' then -(DigitsValue(digits) as int) else DigitsValue(digits))
  {
  }

  lemma {:induction false} DigitPrefixOfDigits(s: string)
    requires forall i :: 0 <= i < |s| ==> IsDigit(s[i])
    ensures DigitPrefix(s) == s
  {
    if s != [] {
      DigitPrefixOfDigits(s[1..]);
    }
  }

  /** `parseInt` stops at the first non-digit. */
  lemma ParseIntReadsDigitPrefix()
    ensures ParseInt("3abc") == Some(3)
  {
    assert TrimStart("3abc") == "3abc";
    assert DigitPrefix("abc") == [];
    assert DigitPrefix("3abc") == "3";
    assert DigitsValue("3") == 3;
  }

  /** `parseInt` reads `-0` as 0. */
  lemma ParseIntNegativeZero()
    ensures ParseInt("-0") == Some(0)
  {
    assert TrimStart("-0") == "-0";
    assert "-0"[1..] == "0";
    assert DigitPrefix("0") == "0";
    assert DigitsValue("0") == 0;
  }

  /** Text without a leading digit is NaN. */
  lemma ParseIntNoDigits()
    ensures ParseInt("abc") == None
  {
    assert TrimStart("abc") == "abc";
    assert DigitPrefix("abc") == [];
  }

  /** The time pattern checks the shape only: "99:99" passes, and nothing asks for start < end. */
  lemma TimeFormatExamples()
    ensures TimeOk("99:99")
    ensures !TimeOk("8:00") && !TimeOk("08h00") && !TimeOk("08:00 ")
    ensures RowValid(CsvRow("101", "Web", "A", "1", "12:00", "08:00"))
  {
    assert DigitPrefix("1") == "1";
    assert DigitsValue("1") == 1;
  }

  /** The value `100 * HH + mm` that the digits of an "HH:mm" string spell. */
  function ClockValue(s: string): nat
    requires TimeOk(s)
  {
    1000 * DigitsValue([s[0]]) + 100 * DigitsValue([s[1]]) + 10 * DigitsValue([s[3]]) + DigitsValue([s[4]])
  }

  /**
   * On accepted times the string order used by the conflict check agrees
   * with the numeric order of `HH * 100 + mm`.
   */
  lemma TimeOrderIsNumeric(a: string, b: string)
    requires TimeOk(a) && TimeOk(b)
    ensures Less(a, b) <==> ClockValue(a) < ClockValue(b)
  {
    forall c | IsDigit(c) ensures DigitsValue([c]) == c as int - '0' as int {
      assert [c][..0] == [];
    }
    var a1, b1 := a[1..], b[1..];
    var a2, b2 := a1[1..], b1[1..];
    var a3, b3 := a2[1..], b2[1..];
    var a4, b4 := a3[1..], b3[1..];
    assert a4[1..] == [] && b4[1..] == [];
    assert a4[0] == a[4] && b4[0] == b[4] && a3[0] == a[3] && b3[0] == b[3];
    assert a2[0] == a[2] && b2[0] == b[2] && a1[0] == a[1] && b1[0] == b[1];
    assert Less(a4, b4) <==> a[4] < b[4];
    assert Less(a3, b3) <==> if a[3] != b[3] then a[3] < b[3] else a[4] < b[4];
    assert Less(a2, b2) == Less(a3, b3);
    assert Less(a1, b1) <==> if a[1] != b[1] then a[1] < b[1] else Less(a2, b2);
    assert Less(a, b) <==> if a[0] != b[0] then a[0] < b[0] else Less(a1, b1);
  }


  // ---------------------------------------------------------------------
  // Phase one: every non-blank data line becomes a row or an error
  // ---------------------------------------------------------------------

  /** The number of non-skipped lines among `1 .. n - 1`. */
  function ReadCount(outcomes: seq<LineOutcome>, n: nat): nat
    requires 1 <= n <= |outcomes|
  {
    if n == 1 then 0 else ReadCount(outcomes, n - 1) + (if outcomes[n - 1].Skipped? then 0 else 1)
  }

  /**
   * Phase one accounts for every non-blank line, as one row or one error,
   * and every row it keeps has all six fields filled.
   */
  lemma {:induction false} CollectRowsAccountsForEveryLine(outcomes: seq<LineOutcome>, n: nat)
    requires 1 <= n <= |outcomes|
    requires forall i :: 0 <= i < |outcomes| && outcomes[i].Read? ==> FieldsFilled(outcomes[i].row)
    ensures var c := CollectRows(outcomes, n);
      && |c.rows| + |c.errors| == ReadCount(outcomes, n)
      && (forall k :: 0 <= k < |c.rows| ==> FieldsFilled(c.rows[k]))
  {
    if n > 1 {
      CollectRowsAccountsForEveryLine(outcomes, n - 1);
    }
  }

  /**
   * The errors of phase one are exactly one "empty values" error per
   * incomplete line, numbered by its 1-based line in the trimmed text, in
   * line order.
   */
  lemma CollectRowsReportsIncompleteLines(outcomes: seq<LineOutcome>, n: nat)
    requires 1 <= n <= |outcomes|
    ensures var c := CollectRows(outcomes, n);
      && (forall i :: 1 <= i < n && outcomes[i].Incomplete? ==> EmptyValues(i + 1) in c.errors)
      && (forall e :: e in c.errors ==> exists i :: 1 <= i < n && outcomes[i].Incomplete? && e == EmptyValues(i + 1))
  {
    forall i | 1 <= i < n && outcomes[i].Incomplete?
      ensures EmptyValues(i + 1) in CollectRows(outcomes, n).errors
    {
      IncompleteLineListed(outcomes, n, i);
    }
    forall e | e in CollectRows(outcomes, n).errors
      ensures exists i :: 1 <= i < n && outcomes[i].Incomplete? && e == EmptyValues(i + 1)
    {
      CollectedErrorExplained(outcomes, n, e);
    }
  }

  /** The incomplete line `i` is reported once the loop has passed it. */
  lemma {:induction false} IncompleteLineListed(outcomes: seq<LineOutcome>, n: nat, i: nat)
    requires 1 <= i < n <= |outcomes| && outcomes[i].Incomplete?
    ensures EmptyValues(i + 1) in CollectRows(outcomes, n).errors
  {
    if i < n - 1 {
      IncompleteLineListed(outcomes, n - 1, i);
    }
  }

  /** Every error of phase one names an incomplete line. */
  lemma {:induction false} CollectedErrorExplained(outcomes: seq<LineOutcome>, n: nat, e: CsvError)
    requires 1 <= n <= |outcomes| && e in CollectRows(outcomes, n).errors
    ensures exists i :: 1 <= i < n && outcomes[i].Incomplete? && e == EmptyValues(i + 1)
  {
    var prev := CollectRows(outcomes, n - 1);
    if e in prev.errors {
      CollectedErrorExplained(outcomes, n - 1, e);
    } else {
      assert outcomes[n - 1].Incomplete? && e == EmptyValues(n);
    }
  }

  // ---------------------------------------------------------------------
  // Phase two: every row becomes a schedule or an error
  // ---------------------------------------------------------------------

  /** A parsed course: no id yet, at least one schedule, every schedule well-formed. */
  predicate CourseValid(c: Course) {
    c.id.None? && c.schedules != [] && forall k :: 0 <= k < |c.schedules| ==> ScheduleValid(c.schedules[k])
  }

  /** Every accepted row carries a well-formed schedule. */
  predicate ChecksSound(checked: seq<CheckedRow>) {
    forall k :: 0 <= k < |checked| && checked[k].check.Good? ==> ScheduleValid(checked[k].check.schedule)
  }

  predicate AllGood(checked: seq<CheckedRow>) {
    forall k :: 0 <= k < |checked| ==> checked[k].check.Good?
  }

  function TotalSchedules(courses: seq<Course>): nat {
    if courses == [] then 0 else |courses[0].schedules| + TotalSchedules(courses[1..])
  }

  lemma {:induction false} TotalSchedulesAppend(courses: seq<Course>, c: Course)
    ensures TotalSchedules(courses + [c]) == TotalSchedules(courses) + |c.schedules|
  {
    if courses != [] {
      assert (courses + [c])[1..] == courses[1..] + [c];
      TotalSchedulesAppend(courses[1..], c);
    }
  }

  lemma {:induction false} TotalSchedulesUpdate(courses: seq<Course>, j: nat, c: Course)
    requires j < |courses|
    ensures TotalSchedules(courses[j := c]) == TotalSchedules(courses) - |courses[j].schedules| + |c.schedules|
  {
    if j > 0 {
      assert courses[j := c][1..] == courses[1..][j - 1 := c];
      TotalSchedulesUpdate(courses[1..], j - 1, c);
    }
  }

  /** Pushing a well-formed schedule onto a well-formed course keeps it well-formed. */
  lemma AddScheduleKeepsValid(c: Course, schedule: Schedule)
    requires CourseValid(c) && ScheduleValid(schedule)
    ensures CourseValid(c.(schedules := c.schedules + [schedule]))
  {
    var c' := c.(schedules := c.schedules + [schedule]);
    forall k | 0 <= k < |c'.schedules| ensures ScheduleValid(c'.schedules[k]) {
      if k < |c.schedules| {
        assert c'.schedules[k] == c.schedules[k];
      }
    }
  }

  /** Each row adds one schedule or one error. */
  lemma {:induction false} GroupRowsCountsRows(checked: seq<CheckedRow>)
    ensures TotalSchedules(GroupRows(checked).courses) + |GroupRows(checked).errors| == |checked|
  {
    if checked != [] {
      var init, last := checked[..|checked| - 1], checked[|checked| - 1];
      GroupRowsCountsRows(init);
      var g := GroupRows(init);
      if last.check.Good? {
        var key, schedule := last.check.key, last.check.schedule;
        var j := IndexOf(g.keys, key);
        if j >= 0 {
          TotalSchedulesUpdate(g.courses, j, g.courses[j].(schedules := g.courses[j].schedules + [schedule]));
        } else {
          TotalSchedulesAppend(g.courses, Course(None, last.row.room, last.row.courseName, last.row.block, [schedule]));
        }
      }
    }
  }

  /** Every stored course is well-formed: no id, at least one schedule, every schedule valid. */
  lemma {:induction false} GroupedCoursesValid(checked: seq<CheckedRow>)
    requires ChecksSound(checked)
    ensures forall j :: 0 <= j < |GroupRows(checked).courses| ==> CourseValid(GroupRows(checked).courses[j])
  {
    if checked != [] {
      var init, last := checked[..|checked| - 1], checked[|checked| - 1];
      assert forall k :: 0 <= k < |init| ==> init[k] == checked[k];
      GroupedCoursesValid(init);
      var g := GroupRows(init);
      if last.check.Good? {
        var j := IndexOf(g.keys, last.check.key);
        if j >= 0 {
          AddScheduleKeepsValid(g.courses[j], last.check.schedule);
        }
      }
    }
  }

  /** The grouping reports no error exactly when every row is valid. */
  lemma {:induction false} GroupErrorsIffBadRow(checked: seq<CheckedRow>)
    ensures GroupRows(checked).errors == [] <==> AllGood(checked)
  {
    if checked != [] {
      var init := checked[..|checked| - 1];
      assert forall k :: 0 <= k < |init| ==> init[k] == checked[k];
      GroupErrorsIffBadRow(init);
    }
  }

  /**
   * Each row adds one schedule or one error; every stored course is
   * well-formed; and there are no errors exactly when every row is valid.
   */
  lemma GroupRowsAccountsForEveryRow(checked: seq<CheckedRow>)
    requires ChecksSound(checked)
    ensures var g := GroupRows(checked);
      && TotalSchedules(g.courses) + |g.errors| == |checked|
      && (forall j :: 0 <= j < |g.courses| ==> CourseValid(g.courses[j]))
      && (g.errors == [] <==> AllGood(checked))
  {
    GroupRowsCountsRows(checked);
    GroupedCoursesValid(checked);
    GroupErrorsIffBadRow(checked);
  }

  /** The errors of the rejected rows among `checked`, in row order. */
  function Rejections(checked: seq<CheckedRow>): seq<CsvError> {
    if checked == [] then []
    else
      var e := RejectionOf(checked[|checked| - 1], |checked| - 1);
      Rejections(checked[..|checked| - 1]) + (if e.Some? then [e.value] else [])
  }

  /**
   * The errors of phase two are exactly one error per rejected row, in row
   * order, numbered `index + 2` where `index` is the row's position among
   * the rows phase one kept (blank and incomplete lines are not counted, so
   * this need not be the row's line in the file).
   */
  lemma {:induction false} GroupErrorsAreRejections(checked: seq<CheckedRow>)
    ensures GroupRows(checked).errors == Rejections(checked)
  {
    if checked != [] {
      GroupErrorsAreRejections(checked[..|checked| - 1]);
    }
  }

  /** A rejected row's error is among the rejections. */
  lemma {:induction false} RejectionListed(checked: seq<CheckedRow>, k: nat)
    requires k < |checked| && RejectionOf(checked[k], k).Some?
    ensures RejectionOf(checked[k], k).value in Rejections(checked)
  {
    var init := checked[..|checked| - 1];
    if k < |init| {
      assert checked[k] == init[k];
      RejectionListed(init, k);
    }
  }

  /** Every rejection comes from one rejected row. */
  lemma {:induction false} RejectionExplained(checked: seq<CheckedRow>, e: CsvError)
    requires e in Rejections(checked)
    ensures exists k :: 0 <= k < |checked| && RejectionOf(checked[k], k) == Some(e)
  {
    var init := checked[..|checked| - 1];
    if e in Rejections(init) {
      RejectionExplained(init, e);
      var k :| 0 <= k < |init| && RejectionOf(init[k], k) == Some(e);
      assert checked[k] == init[k];
    } else {
      assert RejectionOf(checked[|checked| - 1], |checked| - 1) == Some(e);
    }
  }

  /** Each rejected row is reported, and each reported error comes from a rejected row. */
  lemma GroupRowsReportsRejectedRows(checked: seq<CheckedRow>)
    ensures var g := GroupRows(checked);
      && (forall k :: 0 <= k < |checked| && RejectionOf(checked[k], k).Some? ==> RejectionOf(checked[k], k).value in g.errors)
      && (forall e :: e in g.errors ==> exists k :: 0 <= k < |checked| && RejectionOf(checked[k], k) == Some(e))
  {
    GroupErrorsAreRejections(checked);
    forall k | 0 <= k < |checked| && RejectionOf(checked[k], k).Some?
      ensures RejectionOf(checked[k], k).value in Rejections(checked)
    {
      RejectionListed(checked, k);
    }
    forall e | e in Rejections(checked)
      ensures exists k :: 0 <= k < |checked| && RejectionOf(checked[k], k) == Some(e)
    {
      RejectionExplained(checked, e);
    }
  }

  /** The error a rejected row at position `index` produces. */
  function RejectionOf(c: CheckedRow, index: nat): Option<CsvError> {
    match c.check
    case BadDay => Some(InvalidDay(index + 2, c.row.dayOfWeek))
    case BadTime => Some(InvalidTime(index + 2))
    case Good(_, _) => None
  }

  // ---------------------------------------------------------------------
  // Phase two: the grouping map
  // ---------------------------------------------------------------------

  /** The key of every row, in row order (all rows accepted). */
  function KeysOf(checked: seq<CheckedRow>): (keys: seq<string>)
    requires AllGood(checked)
    ensures |keys| == |checked|
  {
    seq(|checked|, i requires 0 <= i < |checked| => checked[i].check.key)
  }

  /** The schedules of the accepted rows with key `key`, in row order. */
  function SchedulesOf(checked: seq<CheckedRow>, key: string): seq<Schedule> {
    if checked == [] then []
    else
      var last := checked[|checked| - 1];
      SchedulesOf(checked[..|checked| - 1], key)
        + (if last.check.Good? && last.check.key == key then [last.check.schedule] else [])
  }

  /** Course `c` is spelled as the first row whose key is `key`. */
  predicate SpelledAsFirstRow(checked: seq<CheckedRow>, key: string, c: Course)
    requires AllGood(checked)
  {
    var f := IndexOf(KeysOf(checked), key);
    0 <= f && c.room == checked[f].row.room && c.courseName == checked[f].row.courseName && c.block == checked[f].row.block
  }

  lemma KeysOfPrefix(checked: seq<CheckedRow>)
    requires checked != [] && AllGood(checked)
    ensures AllGood(checked[..|checked| - 1])
    ensures KeysOf(checked) == KeysOf(checked[..|checked| - 1]) + [checked[|checked| - 1].check.key]
  {
    var init := checked[..|checked| - 1];
    assert forall k :: 0 <= k < |init| ==> init[k] == checked[k];
  }

  /** One grouping step on an accepted row: a known key leaves the keys alone, a new key is appended. */
  lemma GroupRowsStep(checked: seq<CheckedRow>)
    requires checked != [] && AllGood(checked)
    ensures var key := checked[|checked| - 1].check.key;
      var keys := GroupRows(checked[..|checked| - 1]).keys;
      GroupRows(checked).keys == if key in keys then keys else keys + [key]
  {
    var init, last := checked[..|checked| - 1], checked[|checked| - 1];
    assert last.check.Good?;
    assert GroupRows(checked) == AddSchedule(GroupRows(init), last.check.key, last.row, last.check.schedule);
  }

  /** The map holds one entry per distinct row key. */
  lemma {:induction false} GroupKeysAreRowKeys(checked: seq<CheckedRow>)
    requires AllGood(checked)
    ensures var g := GroupRows(checked);
      && (forall j1, j2 :: 0 <= j1 < j2 < |g.keys| ==> g.keys[j1] != g.keys[j2])
      && (forall key :: key in g.keys <==> key in KeysOf(checked))
  {
    GroupKeysDistinct(checked);
    GroupKeysMembership(checked);
  }

  lemma {:induction false} GroupKeysDistinct(checked: seq<CheckedRow>)
    requires AllGood(checked)
    ensures var keys := GroupRows(checked).keys;
      forall j1, j2 :: 0 <= j1 < j2 < |keys| ==> keys[j1] != keys[j2]
  {
    if checked != [] {
      var init := checked[..|checked| - 1];
      KeysOfPrefix(checked);
      GroupKeysDistinct(init);
      GroupRowsStep(checked);
    }
  }

  lemma {:induction false} GroupKeysMembership(checked: seq<CheckedRow>)
    requires AllGood(checked)
    ensures forall key :: key in GroupRows(checked).keys <==> key in KeysOf(checked)
  {
    if checked != [] {
      var init := checked[..|checked| - 1];
      KeysOfPrefix(checked);
      GroupKeysMembership(init);
      GroupRowsStep(checked);
      var keys, keys' := GroupRows(init).keys, GroupRows(checked).keys;
      var key := checked[|checked| - 1].check.key;
      assert KeysOf(checked) == KeysOf(init) + [key];
      forall k ensures k in keys' <==> k in KeysOf(checked) {
        assert k in KeysOf(checked) <==> k in KeysOf(init) || k == key;
      }
    }
  }

  /** Entries `j1 < j2` have keys that first appear among the rows in that order. */
  lemma {:induction false} GroupKeyOrderAt(checked: seq<CheckedRow>, j1: nat, j2: nat)
    requires AllGood(checked)
    requires j1 < j2 < |GroupRows(checked).keys|
    ensures IndexOf(KeysOf(checked), GroupRows(checked).keys[j1]) < IndexOf(KeysOf(checked), GroupRows(checked).keys[j2])
  {
    var init, last := checked[..|checked| - 1], checked[|checked| - 1];
    KeysOfPrefix(checked);
    GroupRowsStep(checked);
    GroupKeysMembership(init);
    var keys, keys' := GroupRows(init).keys, GroupRows(checked).keys;
    var key, initKeys := last.check.key, KeysOf(init);
    assert keys'[j1] == keys[j1] && keys[j1] in initKeys;
    IndexOfAppendPresent(initKeys, key, keys[j1]);
    if j2 < |keys| {
      GroupKeyOrderAt(init, j1, j2);
      IndexOfAppendPresent(initKeys, key, keys[j2]);
    } else {
      IndexOfAppendNew(initKeys, key);
    }
  }

  /** The entries come in order of the first appearance of their key among the rows. */
  lemma GroupKeysInFirstAppearanceOrder(checked: seq<CheckedRow>)
    requires AllGood(checked)
    ensures var g := GroupRows(checked);
      forall j1, j2 :: 0 <= j1 < j2 < |g.keys| ==> IndexOf(KeysOf(checked), g.keys[j1]) < IndexOf(KeysOf(checked), g.keys[j2])
  {
    forall j1, j2 | 0 <= j1 < j2 < |GroupRows(checked).keys|
      ensures IndexOf(KeysOf(checked), GroupRows(checked).keys[j1]) < IndexOf(KeysOf(checked), GroupRows(checked).keys[j2])
    {
      GroupKeyOrderAt(checked, j1, j2);
    }
  }

  /** Entry `j` keeps the spelling of the first row that carried its key. */
  lemma {:induction false} FirstSpellingAt(checked: seq<CheckedRow>, j: nat)
    requires AllGood(checked)
    requires j < |GroupRows(checked).keys|
    ensures SpelledAsFirstRow(checked, GroupRows(checked).keys[j], GroupRows(checked).courses[j])
  {
    var init, last := checked[..|checked| - 1], checked[|checked| - 1];
    KeysOfPrefix(checked);
    GroupKeysAreRowKeys(init);
    var g, g' := GroupRows(init), GroupRows(checked);
    var key := last.check.key;
    var initKeys := KeysOf(init);
    if j < |g.keys| {
      FirstSpellingAt(init, j);
      var k := g.keys[j];
      assert g'.keys[j] == k;
      assert g'.courses[j].room == g.courses[j].room && g'.courses[j].courseName == g.courses[j].courseName
             && g'.courses[j].block == g.courses[j].block;
      IndexOfAppendPresent(initKeys, key, k);
      var f := IndexOf(initKeys, k);
      assert checked[f] == init[f];
    } else {
      assert key !in g.keys;
      IndexOfAppendNew(initKeys, key);
      assert checked[|init|] == last;
    }
  }

  /** Each entry keeps the spelling of the first row that carried its key. */
  lemma GroupKeepsFirstSpelling(checked: seq<CheckedRow>)
    requires AllGood(checked)
    ensures var g := GroupRows(checked);
      forall j :: 0 <= j < |g.keys| ==> SpelledAsFirstRow(checked, g.keys[j], g.courses[j])
  {
    forall j | 0 <= j < |GroupRows(checked).keys|
      ensures SpelledAsFirstRow(checked, GroupRows(checked).keys[j], GroupRows(checked).courses[j])
    {
      FirstSpellingAt(checked, j);
    }
  }

  /** The schedules stored under a key are those of the rows with that key, in row order. */
  lemma {:induction false} GroupSchedulesFollowRows(checked: seq<CheckedRow>)
    requires AllGood(checked)
    ensures var g := GroupRows(checked);
      forall j :: 0 <= j < |g.keys| ==> g.courses[j].schedules == SchedulesOf(checked, g.keys[j])
  {
    if checked != [] {
      var init, last := checked[..|checked| - 1], checked[|checked| - 1];
      KeysOfPrefix(checked);
      GroupSchedulesFollowRows(init);
      GroupKeysAreRowKeys(init);
      var g := GroupRows(init);
      var key := last.check.key;
      var g' := GroupRows(checked);
      if IndexOf(g.keys, key) < 0 {
        assert key !in KeysOf(init);
        SchedulesOfAbsentKey(init, key);
        assert g'.keys == g.keys + [key];
        forall j | 0 <= j < |g'.keys| ensures g'.courses[j].schedules == SchedulesOf(checked, g'.keys[j]) {
          if j < |g.keys| {
            assert g'.keys[j] == g.keys[j] != key;
          }
        }
      } else {
        var i := IndexOf(g.keys, key);
        assert g'.keys == g.keys;
        forall j | 0 <= j < |g'.keys| ensures g'.courses[j].schedules == SchedulesOf(checked, g'.keys[j]) {
          if j != i {
            assert g.keys[j] != key;
          }
        }
      }
    }
  }

  lemma {:induction false} SchedulesOfAbsentKey(checked: seq<CheckedRow>, key: string)
    requires AllGood(checked) && key !in KeysOf(checked)
    ensures SchedulesOf(checked, key) == []
  {
    if checked != [] {
      KeysOfPrefix(checked);
      SchedulesOfAbsentKey(checked[..|checked| - 1], key);
    }
  }

  // ---------------------------------------------------------------------
  // The whole parse
  // ---------------------------------------------------------------------

  /** There are at least two lines and every expected header is present. */
  predicate HeaderAccepted(text: string) {
    |Lines(text)| >= 2 && MissingHeaderNames(Header(Lines(text)[0])) == []
  }

  /** A non-blank data line with some required field missing or empty. */
  predicate MissingField(header: seq<string>, line: string) {
    !Blank(line) && !Complete(RowData(header, Split(line, ',')))
  }

  lemma IncompleteIffMissingField(header: seq<string>, line: string)
    ensures ReadLine(header, line).Incomplete? <==> MissingField(header, line)
  {
  }

  /** The number of non-blank lines among `lines[1 .. n - 1]`. */
  function NonBlankCount(lines: seq<string>, n: nat): nat
    requires 1 <= n <= |lines|
  {
    if n == 1 then 0 else NonBlankCount(lines, n - 1) + (if Blank(lines[n - 1]) then 0 else 1)
  }

  lemma {:induction false} ReadCountIsNonBlankCount(lines: seq<string>, header: seq<string>, n: nat)
    requires 1 <= n <= |lines|
    ensures ReadCount(LineOutcomes(lines, header), n) == NonBlankCount(lines, n)
  {
    if n > 1 {
      ReadCountIsNonBlankCount(lines, header, n - 1);
      assert LineOutcomes(lines, header)[n - 1] == ReadLine(header, lines[n - 1]);
    }
  }

  /** The grouping key of a parsed course, from its stored spelling. */
  function CourseKeyOf(c: Course): string {
    CourseKey(c.room, c.courseName, c.block)
  }

  /** The key of every row, in row order. */
  function RowKeys(rows: seq<CsvRow>): (keys: seq<string>)
    ensures |keys| == |rows|
  {
    seq(|rows|, i requires 0 <= i < |rows| => RowKey(rows[i]))
  }

  /** The schedules the valid rows with key `key` describe, in row order. */
  function RowSchedules(rows: seq<CsvRow>, key: string): seq<Schedule> {
    if rows == [] then []
    else
      var last := rows[|rows| - 1];
      RowSchedules(rows[..|rows| - 1], key)
        + (if RowValid(last) && RowKey(last) == key
           then [Schedule(ParseInt(last.dayOfWeek).value, last.startTime, last.endTime)] else [])
  }

  lemma ChecksOfRowsSound(rows: seq<CsvRow>)
    ensures ChecksSound(CheckRows(rows))
    ensures AllGood(CheckRows(rows)) <==> forall k :: 0 <= k < |rows| ==> RowValid(rows[k])
  {
    var checked := CheckRows(rows);
    assert forall k :: 0 <= k < |rows| ==> checked[k].check == CheckRow(rows[k]);
  }

  lemma {:induction false} SchedulesOfCheckRows(rows: seq<CsvRow>, key: string)
    ensures SchedulesOf(CheckRows(rows), key) == RowSchedules(rows, key)
  {
    if rows != [] {
      var init := rows[..|rows| - 1];
      var checked := CheckRows(rows);
      assert checked[..|checked| - 1] == CheckRows(init);
      SchedulesOfCheckRows(init, key);
      assert checked[|checked| - 1].check == CheckRow(rows[|rows| - 1]);
    }
  }

  lemma KeysOfCheckRows(rows: seq<CsvRow>)
    requires AllGood(CheckRows(rows))
    ensures KeysOf(CheckRows(rows)) == RowKeys(rows)
  {
    var checked := CheckRows(rows);
    assert forall k :: 0 <= k < |rows| ==> checked[k].check == CheckRow(rows[k]);
  }

  /** The key under which the grouping stores a course is the key of its own spelling. */
  lemma GroupKeysAreCourseKeys(rows: seq<CsvRow>)
    requires AllGood(CheckRows(rows))
    ensures var g := GroupRows(CheckRows(rows));
      forall j :: 0 <= j < |g.keys| ==> g.keys[j] == CourseKeyOf(g.courses[j])
  {
    var checked := CheckRows(rows);
    GroupKeepsFirstSpelling(checked);
    KeysOfCheckRows(rows);
    forall j | 0 <= j < |GroupRows(checked).keys|
      ensures GroupRows(checked).keys[j] == CourseKeyOf(GroupRows(checked).courses[j])
    {
      assert SpelledAsFirstRow(checked, GroupRows(checked).keys[j], GroupRows(checked).courses[j]);
      var f := IndexOf(RowKeys(rows), GroupRows(checked).keys[j]);
      assert checked[f].row == rows[f];
    }
  }

  /**
   * On success: the header was complete, no data line missed a field, every
   * row was valid, every course is well-formed, and there is one schedule
   * per non-blank data line.
   */
  lemma ParseSuccessShape(text: string)
    requires ParseCsv(text).errors == []
    ensures HeaderAccepted(text)
    ensures var lines := Lines(text);
      && (forall i :: 1 <= i < |lines| ==> !MissingField(Header(lines[0]), lines[i]))
      && (forall k :: 0 <= k < |ParsedRows(text)| ==> RowValid(ParsedRows(text)[k]))
      && (forall j :: 0 <= j < |ParseCsv(text).courses| ==> CourseValid(ParseCsv(text).courses[j]))
      && TotalSchedules(ParseCsv(text).courses) == NonBlankCount(lines, |lines|)
  {
    var lines := Lines(text);
    var header := Header(lines[0]);
    var outcomes := LineOutcomes(lines, header);
    CollectRowsReportsIncompleteLines(outcomes, |lines|);
    forall i | 1 <= i < |lines| ensures !MissingField(header, lines[i]) {
      IncompleteIffMissingField(header, lines[i]);
      assert outcomes[i] == ReadLine(header, lines[i]);
    }
    CollectRowsAccountsForEveryLine(outcomes, |lines|);
    ReadCountIsNonBlankCount(lines, header, |lines|);
    var rows := ParsedRows(text);
    ChecksOfRowsSound(rows);
    GroupRowsAccountsForEveryRow(CheckRows(rows));
  }

  /** On success the result is the grouping of the rows phase one kept, all of them valid. */
  lemma ParseCsvSucceeded(text: string)
    requires ParseCsv(text).errors == []
    ensures forall k :: 0 <= k < |ParsedRows(text)| ==> RowValid(ParsedRows(text)[k])
    ensures ParseCsv(text).courses == GroupRows(CheckRows(ParsedRows(text))).courses
  {
    ParseSuccessShape(text);
  }

  /** Grouping valid rows gives one course per distinct key. */
  lemma GroupedKeysDistinct(rows: seq<CsvRow>)
    requires forall k :: 0 <= k < |rows| ==> RowValid(rows[k])
    ensures var courses := GroupRows(CheckRows(rows)).courses;
      forall j1, j2 :: 0 <= j1 < j2 < |courses| ==> CourseKeyOf(courses[j1]) != CourseKeyOf(courses[j2])
  {
    ChecksOfRowsSound(rows);
    GroupKeysAreRowKeys(CheckRows(rows));
    GroupKeysAreCourseKeys(rows);
  }

  /** Every valid row's key has a course. */
  lemma GroupedCoversRows(rows: seq<CsvRow>)
    requires forall k :: 0 <= k < |rows| ==> RowValid(rows[k])
    ensures var courses := GroupRows(CheckRows(rows)).courses;
      forall k :: 0 <= k < |rows| ==> exists j :: 0 <= j < |courses| && CourseKeyOf(courses[j]) == RowKey(rows[k])
  {
    var checked := CheckRows(rows);
    ChecksOfRowsSound(rows);
    GroupKeysAreRowKeys(checked);
    GroupKeysAreCourseKeys(rows);
    KeysOfCheckRows(rows);
    forall k | 0 <= k < |rows|
      ensures exists j :: 0 <= j < |GroupRows(checked).courses| && CourseKeyOf(GroupRows(checked).courses[j]) == RowKey(rows[k])
    {
      assert RowKeys(rows)[k] == RowKey(rows[k]);
      var j := IndexOf(GroupRows(checked).keys, RowKey(rows[k]));
      assert GroupRows(checked).keys[j] == RowKey(rows[k]);
    }
  }

  /** Each course is spelled as the first row with its key and holds its rows' schedules. */
  lemma GroupedSpelling(rows: seq<CsvRow>)
    requires forall k :: 0 <= k < |rows| ==> RowValid(rows[k])
    ensures var courses := GroupRows(CheckRows(rows)).courses;
      forall j :: 0 <= j < |courses| ==> FirstRowSpelling(rows, courses[j])
  {
    var checked := CheckRows(rows);
    ChecksOfRowsSound(rows);
    GroupKeepsFirstSpelling(checked);
    GroupSchedulesFollowRows(checked);
    GroupKeysAreCourseKeys(rows);
    KeysOfCheckRows(rows);
    forall j | 0 <= j < |GroupRows(checked).courses| ensures FirstRowSpelling(rows, GroupRows(checked).courses[j]) {
      assert SpelledAsFirstRow(checked, GroupRows(checked).keys[j], GroupRows(checked).courses[j]);
      var f := IndexOf(RowKeys(rows), GroupRows(checked).keys[j]);
      assert checked[f].row == rows[f];
      SchedulesOfCheckRows(rows, GroupRows(checked).keys[j]);
    }
  }

  /** The courses come in order of the first row with their key. */
  lemma GroupedInFirstRowOrder(rows: seq<CsvRow>)
    requires forall k :: 0 <= k < |rows| ==> RowValid(rows[k])
    ensures var courses := GroupRows(CheckRows(rows)).courses;
      forall j1, j2 :: 0 <= j1 < j2 < |courses| ==>
        IndexOf(RowKeys(rows), CourseKeyOf(courses[j1])) < IndexOf(RowKeys(rows), CourseKeyOf(courses[j2]))
  {
    ChecksOfRowsSound(rows);
    GroupKeysInFirstAppearanceOrder(CheckRows(rows));
    GroupKeysAreCourseKeys(rows);
    KeysOfCheckRows(rows);
  }

  /**
   * Grouping valid rows: one course per distinct key, in order of first
   * appearance, each spelled as the first row with its key and holding the
   * schedules of its rows in row order.
   */
  lemma GroupingOfValidRows(rows: seq<CsvRow>)
    requires forall k :: 0 <= k < |rows| ==> RowValid(rows[k])
    ensures var courses := GroupRows(CheckRows(rows)).courses;
      && (forall j1, j2 :: 0 <= j1 < j2 < |courses| ==> CourseKeyOf(courses[j1]) != CourseKeyOf(courses[j2]))
      && (forall k :: 0 <= k < |rows| ==> exists j :: 0 <= j < |courses| && CourseKeyOf(courses[j]) == RowKey(rows[k]))
      && (forall j :: 0 <= j < |courses| ==> FirstRowSpelling(rows, courses[j]))
      && (forall j1, j2 :: 0 <= j1 < j2 < |courses| ==>
            IndexOf(RowKeys(rows), CourseKeyOf(courses[j1])) < IndexOf(RowKeys(rows), CourseKeyOf(courses[j2])))
  {
    GroupedKeysDistinct(rows);
    GroupedCoversRows(rows);
    GroupedSpelling(rows);
    GroupedInFirstRowOrder(rows);
  }

  /**
   * Course `c` is spelled as the first row with its key and holds the
   * schedules of all rows with its key, in row order.
   */
  predicate FirstRowSpelling(rows: seq<CsvRow>, c: Course) {
    var f := IndexOf(RowKeys(rows), CourseKeyOf(c));
    && 0 <= f
    && c.room == rows[f].room && c.courseName == rows[f].courseName && c.block == rows[f].block
    && c.schedules == RowSchedules(rows, CourseKeyOf(c))
  }

  /** On success the courses are the kept rows grouped by key (see `GroupingOfValidRows`). */
  lemma ParseGrouping(text: string)
    requires ParseCsv(text).errors == []
    ensures var rows, courses := ParsedRows(text), ParseCsv(text).courses;
      && (forall j1, j2 :: 0 <= j1 < j2 < |courses| ==> CourseKeyOf(courses[j1]) != CourseKeyOf(courses[j2]))
      && (forall k :: 0 <= k < |rows| ==> exists j :: 0 <= j < |courses| && CourseKeyOf(courses[j]) == RowKey(rows[k]))
      && (forall j :: 0 <= j < |courses| ==> FirstRowSpelling(rows, courses[j]))
      && (forall j1, j2 :: 0 <= j1 < j2 < |courses| ==>
            IndexOf(RowKeys(rows), CourseKeyOf(courses[j1])) < IndexOf(RowKeys(rows), CourseKeyOf(courses[j2])))
  {
    ParseCsvSucceeded(text);
    GroupingOfValidRows(ParsedRows(text));
  }

  /**
   * When the header is accepted and some data line misses a field, the
   * parse fails with one "empty values" error per such line, numbered by
   * its 1-based line in the trimmed text, and no other error.
   */
  lemma IncompleteLinesReported(text: string)
    requires HeaderAccepted(text)
    ensures var lines := Lines(text);
      var header, errors := Header(lines[0]), ParseCsv(text).errors;
      && (forall i :: 1 <= i < |lines| && MissingField(header, lines[i]) ==>
            ParseCsv(text).courses == [] && EmptyValues(i + 1) in errors)
      && ((exists i :: 1 <= i < |lines| && MissingField(header, lines[i])) ==>
            forall e :: e in errors ==> exists i :: 1 <= i < |lines| && MissingField(header, lines[i]) && e == EmptyValues(i + 1))
  {
    var lines := Lines(text);
    var header := Header(lines[0]);
    var outcomes := LineOutcomes(lines, header);
    var collected := CollectRows(outcomes, |lines|);
    PhaseOneErrorsReturned(text);
    forall i | 1 <= i < |lines| && MissingField(header, lines[i])
      ensures ParseCsv(text).courses == [] && EmptyValues(i + 1) in ParseCsv(text).errors
    {
      IncompleteIffMissingField(header, lines[i]);
      IncompleteLineListed(outcomes, |lines|, i);
    }
    if exists i :: 1 <= i < |lines| && MissingField(header, lines[i]) {
      var i0 :| 1 <= i0 < |lines| && MissingField(header, lines[i0]);
      IncompleteIffMissingField(header, lines[i0]);
      IncompleteLineListed(outcomes, |lines|, i0);
      forall e | e in ParseCsv(text).errors
        ensures exists i :: 1 <= i < |lines| && MissingField(header, lines[i]) && e == EmptyValues(i + 1)
      {
        CollectedErrorExplained(outcomes, |lines|, e);
        var i :| 1 <= i < |lines| && outcomes[i].Incomplete? && e == EmptyValues(i + 1);
        IncompleteIffMissingField(header, lines[i]);
      }
    }
  }

  /** With the header accepted, errors of phase one are the result. */
  lemma PhaseOneErrorsReturned(text: string)
    requires HeaderAccepted(text)
    ensures var lines := Lines(text);
      var collected := CollectRows(LineOutcomes(lines, Header(lines[0])), |lines|);
      collected.errors != [] ==> ParseCsv(text) == ParseResult([], collected.errors)
  {
  }

  /**
   * When every data line has its fields, each row with an invalid day or
   * time is reported as `index + 2` (its position among the kept rows, plus
   * two), nothing else is reported, and the parse fails exactly when some
   * row is invalid.
   */
  lemma RejectedRowsReported(text: string)
    requires HeaderAccepted(text)
    requires forall i :: 1 <= i < |Lines(text)| ==> !MissingField(Header(Lines(text)[0]), Lines(text)[i])
    ensures var rows, errors := ParsedRows(text), ParseCsv(text).errors;
      && (forall k :: 0 <= k < |rows| && !RowValid(rows[k]) ==> RowRejection(rows[k], k).value in errors)
      && (forall e :: e in errors ==> exists k :: 0 <= k < |rows| && RowRejection(rows[k], k) == Some(e))
      && (errors == [] <==> forall k :: 0 <= k < |rows| ==> RowValid(rows[k]))
  {
    PhaseOnePassed(text);
    RowRejectionsReported(ParsedRows(text));
  }

  /** With the header accepted and no field missing, the result is that of the grouping loop. */
  lemma PhaseOnePassed(text: string)
    requires HeaderAccepted(text)
    requires forall i :: 1 <= i < |Lines(text)| ==> !MissingField(Header(Lines(text)[0]), Lines(text)[i])
    ensures ParseCsv(text).errors == GroupRows(CheckRows(ParsedRows(text))).errors
  {
    var lines := Lines(text);
    var header := Header(lines[0]);
    var outcomes := LineOutcomes(lines, header);
    forall i | 1 <= i < |lines| ensures !outcomes[i].Incomplete? {
      IncompleteIffMissingField(header, lines[i]);
    }
    NoIncompleteLineNoError(outcomes, |lines|);
  }

  lemma {:induction false} NoIncompleteLineNoError(outcomes: seq<LineOutcome>, n: nat)
    requires 1 <= n <= |outcomes|
    requires forall i :: 1 <= i < n ==> !outcomes[i].Incomplete?
    ensures CollectRows(outcomes, n).errors == []
  {
    if n > 1 {
      NoIncompleteLineNoError(outcomes, n - 1);
    }
  }

  /** The grouping loop reports each invalid row once and nothing else. */
  lemma RowRejectionsReported(rows: seq<CsvRow>)
    ensures var errors := GroupRows(CheckRows(rows)).errors;
      && (forall k :: 0 <= k < |rows| && !RowValid(rows[k]) ==> RowRejection(rows[k], k).value in errors)
      && (forall e :: e in errors ==> exists k :: 0 <= k < |rows| && RowRejection(rows[k], k) == Some(e))
      && (errors == [] <==> forall k :: 0 <= k < |rows| ==> RowValid(rows[k]))
  {
    var checked := CheckRows(rows);
    assert forall k :: 0 <= k < |rows| ==> checked[k] == CheckedRow(rows[k], CheckRow(rows[k]));
    assert forall k :: 0 <= k < |rows| ==> RejectionOf(checked[k], k) == RowRejection(rows[k], k);
    GroupRowsReportsRejectedRows(checked);
    ChecksOfRowsSound(rows);
    GroupRowsAccountsForEveryRow(checked);
  }

  /** The error the grouping loop reports for the row at position `index`, if any. */
  function RowRejection(r: CsvRow, index: nat): (e: Option<CsvError>)
    ensures e == None <==> RowValid(r)
  {
    if !DayOk(r) then Some(InvalidDay(index + 2, r.dayOfWeek))
    else if !RowValid(r) then Some(InvalidTime(index + 2))
    else None
  }

  /** The hyphen-joined key cannot tell "Lab-1" / "Web" from "Lab" / "1-Web". */
  lemma ExampleAmbiguousKey()
    ensures CourseKey("Lab-1", "Web", "A") == CourseKey("Lab", "1-Web", "A")
  {
    assert "Lab-1" + "-" + "Web" + "-" + "A" == "Lab" + "-" + "1-Web" + "-" + "A";
  }
}
