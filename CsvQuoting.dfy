/**
 * Field quoting of the ongoing-course CSV export
 * (components/AdminPanel.tsx, `handleExport`).
 *
 * A value containing a comma or a double quote is written between double
 * quotes with every inner quote doubled (the escaping of section 2, item 7
 * of RFC 4180); any other value is written as it is. Unlike item 6 of that
 * section, a line break does not make a value quoted, so the round trip is
 * stated per row: `ReadRecord` reads one row of comma-separated fields and
 * undoes the quoting, and it is the inverse the quoting is proved against.
 */
module CsvQuoting {
  import opened Text

  /** `value.replace(/"/g, '""')`. */
  function DoubleQuotes(s: string): (r: string)
    ensures |r| >= |s|
  {
    if s == [] then []
    else (if s[0] == '"' then "\"\"" else [s[0]]) + DoubleQuotes(s[1..])
  }

  predicate NeedsQuotes(s: string) {
    ',' in s || '"' in s
  }

  /** The quoting applied to each exported value. */
  function QuoteField(s: string): (q: string)
    ensures NeedsQuotes(s) ==> |q| >= 2 && q[0] == '"' && q[|q| - 1] == '"'
    ensures !NeedsQuotes(s) ==> q == s
  {
    if NeedsQuotes(s) then "\"" + DoubleQuotes(s) + "\"" else s
  }

  /** The quoting of every value of a row, position by position. */
  function QuoteAll(values: seq<string>): (q: seq<string>)
    ensures |q| == |values|
    ensures forall i :: 0 <= i < |values| ==> q[i] == QuoteField(values[i])
  {
    if values == [] then [] else [QuoteField(values[0])] + QuoteAll(values[1..])
  }

  /** An unquoted value: everything up to the next comma. */
  function ReadPlain(s: string): (r: (string, string))
    ensures |r.1| <= |s|
  {
    if s == [] || s[0] == ',' then ([], s)
    else
      var (value, rest) := ReadPlain(s[1..]);
      ([s[0]] + value, rest)
  }

  /**
   * A quoted value after its opening quote: a doubled quote stands for one
   * quote, a single quote closes the value.
   */
  function ReadQuoted(s: string): (r: (string, string))
    ensures |r.1| <= |s|
  {
    if s == [] then ([], [])
    else if s[0] == '"' then
      if |s| > 1 && s[1] == '"' then
        var (value, rest) := ReadQuoted(s[2..]);
        ("\"" + value, rest)
      else ([], s[1..])
    else
      var (value, rest) := ReadQuoted(s[1..]);
      ([s[0]] + value, rest)
  }

  /** One field of a record: its value and the text after it. */
  function ReadField(s: string): (r: (string, string))
    ensures |r.1| <= |s|
  {
    if s != [] && s[0] == '"' then ReadQuoted(s[1..]) else ReadPlain(s)
  }

  /** The values of one comma-separated record. */
  function ReadRecord(s: string): (values: seq<string>)
    ensures |values| >= 1
    decreases |s|
  {
    var (value, rest) := ReadField(s);
    if rest != [] && rest[0] == ',' then [value] + ReadRecord(rest[1..]) else [value]
  }

  /** A value with no comma and no quote reads back up to the next separator. */
  lemma {:induction false} ReadPlainOfUnquoted(s: string, tail: string)
    requires !NeedsQuotes(s)
    requires tail == [] || tail[0] == ','
    ensures ReadPlain(s + tail) == (s, tail)
  {
    if s != [] {
      assert (s + tail)[1..] == s[1..] + tail;
      assert s[0] in s;
      assert forall c :: c in s[1..] ==> c in s;
      ReadPlainOfUnquoted(s[1..], tail);
      assert s == [s[0]] + s[1..];
    } else {
      assert s + tail == tail;
    }
  }

  /** `DoubleQuotes` one character at a time. */
  lemma DoubleQuotesCons(s: string)
    requires s != []
    ensures DoubleQuotes(s) == (if s[0] == '"' then "\"\"" else [s[0]]) + DoubleQuotes(s[1..])
  {
  }

  /** A doubled quote inside a quoted value reads as one quote. */
  lemma ReadQuotedOfEscape(rest: string)
    ensures ReadQuoted("\"\"" + rest) == ("\"" + ReadQuoted(rest).0, ReadQuoted(rest).1)
  {
    assert ("\"\"" + rest)[2..] == rest;
  }

  /** Any other character inside a quoted value reads as itself. */
  lemma ReadQuotedOfPlainChar(c: char, rest: string)
    requires c != '"'
    ensures ReadQuoted([c] + rest) == ([c] + ReadQuoted(rest).0, ReadQuoted(rest).1)
  {
    assert ([c] + rest)[1..] == rest;
  }

  /** The doubled body and the closing quote read back as the value itself. */
  lemma {:induction false} ReadQuotedOfDoubled(s: string, tail: string)
    requires tail == [] || tail[0] != '"'
    ensures ReadQuoted(DoubleQuotes(s) + "\"" + tail) == (s, tail)
  {
    if s == [] {
      assert DoubleQuotes(s) + "\"" + tail == "\"" + tail;
      assert ("\"" + tail)[1..] == tail;
    } else {
      ReadQuotedOfDoubled(s[1..], tail);
      var rest := DoubleQuotes(s[1..]) + "\"" + tail;
      DoubleQuotesCons(s);
      if s[0] == '"' {
        assert DoubleQuotes(s) + "\"" + tail == "\"\"" + rest;
        ReadQuotedOfEscape(rest);
        assert s == "\"" + s[1..];
      } else {
        assert DoubleQuotes(s) + "\"" + tail == [s[0]] + rest;
        ReadQuotedOfPlainChar(s[0], rest);
        assert s == [s[0]] + s[1..];
      }
    }
  }

  /** Reading a quoted field gives back the original value and stops at the separator. */
  lemma ReadFieldOfQuoted(s: string, tail: string)
    requires tail == [] || tail[0] == ','
    ensures ReadField(QuoteField(s) + tail) == (s, tail)
  {
    if NeedsQuotes(s) {
      ReadQuotedOfDoubled(s, tail);
      assert QuoteField(s) + tail == "\"" + (DoubleQuotes(s) + "\"" + tail);
    } else {
      ReadPlainOfUnquoted(s, tail);
      if s != [] {
        assert s[0] in s;
      }
    }
  }

  /**
   * Round trip: the exported row, read back with `ReadRecord`, gives back
   * exactly the values it was built from.
   */
  lemma {:induction false} ReadRecordOfQuotedRow(values: seq<string>)
    requires values != []
    ensures ReadRecord(Join(QuoteAll(values), ",")) == values
  {
    var q := QuoteAll(values);
    if |values| == 1 {
      ReadFieldOfQuoted(values[0], []);
      assert QuoteField(values[0]) + [] == QuoteField(values[0]);
    } else {
      var rest := Join(q[1..], ",");
      assert q[1..] == QuoteAll(values[1..]);
      assert Join(q, ",") == QuoteField(values[0]) + ("," + rest);
      ReadFieldOfQuoted(values[0], "," + rest);
      assert ("," + rest)[1..] == rest;
      ReadRecordOfQuotedRow(values[1..]);
    }
  }

  /** The quoting of item 7: `a"b` is written `"a""b"`; `Sala 101` is written bare. */
  lemma ExampleQuoting()
    ensures QuoteField("a\"b") == "\"a\"\"b\""
    ensures QuoteField("Sala 101") == "Sala 101"
  {
    assert DoubleQuotes("b") == "b";
    assert DoubleQuotes("\"b") == "\"\"b";
    assert DoubleQuotes("a\"b") == "a\"\"b";
    assert "a\"b"[1] == '"';
    assert !NeedsQuotes("Sala 101");
  }

  /**
   * A line break is written bare: in the file, whose rows are joined with
   * "\n", such a value splits its row in two.
   */
  lemma ExampleLineBreakNotQuoted()
    ensures QuoteField("a\nb") == "a\nb"
    ensures '\n' in Join(QuoteAll(["a\nb"]), ",")
  {
    assert !NeedsQuotes("a\nb");
    assert "a\nb"[1] == '\n';
  }
}
