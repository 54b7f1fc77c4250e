/**
 * Python's `csv.writer` with the default `excel` dialect writing into an
 * `io.StringIO`: minimal quoting, `"` doubled inside quoted fields, rows ending
 * in CRLF. This is the encoding of section 2 of RFC 4180; `ParseDocument`
 * reads that grammar back and is the partner of the encoder.
 */
module Csv {
  import opened Wrappers

  const CRLF: string := "\r\n"

  /** A field is quoted when it contains the delimiter, the quote character, CR or LF. */
  predicate NeedsQuoting(field: string)
  {
    ',' in field || '"' in field || '\r' in field || '\n' in field
  }

  /** The field's text with every `"` doubled. */
  function Escape(field: string): string
  {
    if field == [] then ""
    else if field[0] == '"' then "\"\"" + Escape(field[1..])
    else [field[0]] + Escape(field[1..])
  }

  /** One field under minimal quoting. */
  function EncodeField(field: string): string
  {
    if NeedsQuoting(field) then "\"" + Escape(field) + "\"" else field
  }

  /** The fields of a row, encoded and separated by commas. */
  function EncodeFields(row: seq<string>): string
  {
    if row == [] then ""
    else if |row| == 1 then EncodeField(row[0])
    else EncodeField(row[0]) + "," + EncodeFields(row[1..])
  }

  /** `writerow`: a row that would print as nothing but has a field (a single empty field) is written as `""`. */
  function EncodeRow(row: seq<string>): string
  {
    (if row == [""] then "\"\"" else EncodeFields(row)) + CRLF
  }

  /** Several rows written one after the other. */
  function EncodeRows(rows: seq<seq<string>>): string
  {
    if rows == [] then "" else EncodeRow(rows[0]) + EncodeRows(rows[1..])
  }

  lemma {:induction false} EncodeRowsAppend(rows: seq<seq<string>>, row: seq<string>)
    ensures EncodeRows(rows + [row]) == EncodeRows(rows) + EncodeRow(row)
  {
    if rows == [] {
      assert [row][1..] == [];
    } else {
      assert (rows + [row])[1..] == rows[1..] + [row];
      EncodeRowsAppend(rows[1..], row);
    }
  }

  // ---------------------------------------------------------------------------
  // Reading RFC 4180 text back

  /** The inside of a quoted field up to its closing quote: the field and what follows the quote. */
  function ParseQuoted(s: string): (r: Option<(string, string)>)
    ensures r.Some? ==> |r.value.1| < |s|
  {
    if s == [] then None
    else if s[0] == '"' then
      if |s| >= 2 && s[1] == '"' then
        match ParseQuoted(s[2..])
        case None => None
        case Some(p) => Some(("\"" + p.0, p.1))
      else Some(("", s[1..]))
    else
      match ParseQuoted(s[1..])
      case None => None
      case Some(p) => Some(([s[0]] + p.0, p.1))
  }

  predicate IsSpecial(c: char)
  {
    c == ',' || c == '"' || c == '\r' || c == '\n'
  }

  /** An unquoted field: every character up to a delimiter, quote, CR or LF. */
  function ParseBare(s: string): (r: (string, string))
    ensures |r.1| <= |s|
  {
    if s == [] || IsSpecial(s[0]) then ("", s)
    else
      var p := ParseBare(s[1..]);
      ([s[0]] + p.0, p.1)
  }

  function ParseField(s: string): (r: Option<(string, string)>)
    ensures r.Some? ==> |r.value.1| <= |s|
  {
    if s != [] && s[0] == '"' then ParseQuoted(s[1..]) else Some(ParseBare(s))
  }

  /** Comma-separated fields of one record, and the text after the last field. */
  function ParseFields(s: string): (r: Option<(seq<string>, string)>)
    ensures r.Some? ==> |r.value.1| <= |s|
    decreases |s|
  {
    match ParseField(s)
    case None => None
    case Some(p) =>
      if p.1 != [] && p.1[0] == ',' then
        match ParseFields(p.1[1..])
        case None => None
        case Some(q) => Some(([p.0] + q.0, q.1))
      else Some(([p.0], p.1))
  }

  /** One record: its fields followed by CRLF. */
  function ParseRecord(s: string): (r: Option<(seq<string>, string)>)
    ensures r.Some? ==> |r.value.1| < |s|
  {
    match ParseFields(s)
    case None => None
    case Some(p) => if CRLF <= p.1 then Some((p.0, p.1[2..])) else None
  }

  /** A whole document: records until the text is used up. */
  function ParseDocument(s: string): Option<seq<seq<string>>>
    decreases |s|
  {
    if s == [] then Some([])
    else
      match ParseRecord(s)
      case None => None
      case Some(p) =>
        (match ParseDocument(p.1)
         case None => None
         case Some(rest) => Some([p.0] + rest))
  }

  // ---------------------------------------------------------------------------
  // The round trip

  lemma {:induction false} ParseQuotedEscape(field: string, t: string)
    requires t == [] || t[0] != '"'
    ensures ParseQuoted(Escape(field) + "\"" + t) == Some((field, t))
  {
    if field == [] {
      assert Escape(field) + "\"" + t == "\"" + t;
      assert ("\"" + t)[1..] == t;
    } else {
      var tail := Escape(field[1..]) + "\"" + t;
      ParseQuotedEscape(field[1..], t);
      EscapeStep(field, t);
      if field[0] == '"' {
        ParseQuotedDoubled(tail, field[1..], t);
      } else {
        ParseQuotedPlain(field[0], tail, field[1..], t);
      }
      assert field == [field[0]] + field[1..];
    }
  }

  lemma EscapeStep(field: string, t: string)
    requires field != []
    ensures Escape(field) + "\"" + t ==
      (if field[0] == '"' then "\"\"" else [field[0]]) + (Escape(field[1..]) + "\"" + t)
  {
  }

  /** A doubled quote inside a quoted field reads as one quote. */
  lemma ParseQuotedDoubled(tail: string, f: string, u: string)
    requires ParseQuoted(tail) == Some((f, u))
    ensures ParseQuoted("\"\"" + tail) == Some(("\"" + f, u))
  {
    assert ("\"\"" + tail)[2..] == tail;
  }

  /** Any other character inside a quoted field reads as itself. */
  lemma ParseQuotedPlain(c: char, tail: string, f: string, u: string)
    requires c != '"' && ParseQuoted(tail) == Some((f, u))
    ensures ParseQuoted([c] + tail) == Some(([c] + f, u))
  {
    assert ([c] + tail)[1..] == tail;
  }

  lemma {:induction false} ParseBarePlain(field: string, t: string)
    requires !NeedsQuoting(field)
    requires t == [] || IsSpecial(t[0])
    ensures ParseBare(field + t) == (field, t)
  {
    if field == [] {
      assert field + t == t;
    } else {
      assert field[0] in field;
      assert (field + t)[1..] == field[1..] + t;
      assert !NeedsQuoting(field[1..]) by {
        forall c | c in field[1..] ensures c in field { }
      }
      ParseBarePlain(field[1..], t);
      assert field == [field[0]] + field[1..];
    }
  }

  /** A field followed by a delimiter, CR or nothing reads back as itself. */
  lemma ParseEncodedField(field: string, t: string)
    requires t == [] || t[0] == ',' || t[0] == '\r'
    ensures ParseField(EncodeField(field) + t) == Some((field, t))
  {
    if NeedsQuoting(field) {
      var s := EncodeField(field) + t;
      assert s == "\"" + (Escape(field) + "\"" + t);
      assert s[1..] == Escape(field) + "\"" + t;
      ParseQuotedEscape(field, t);
    } else {
      ParseBarePlain(field, t);
      if field != [] {
        assert field[0] in field;
      }
    }
  }

  lemma {:induction false} ParseEncodedFields(row: seq<string>, t: string)
    requires |row| >= 1
    requires t == [] || t[0] == '\r'
    ensures ParseFields(EncodeFields(row) + t) == Some((row, t))
  {
    if |row| == 1 {
      ParseEncodedSingle(row, t);
    } else {
      ParseEncodedFields(row[1..], t);
      ParseEncodedTail(row, t);
    }
  }

  lemma ParseEncodedSingle(row: seq<string>, t: string)
    requires |row| == 1
    requires t == [] || t[0] == '\r'
    ensures ParseFields(EncodeFields(row) + t) == Some((row, t))
  {
    ParseEncodedField(row[0], t);
    ParseFieldsLast(EncodeField(row[0]) + t, row[0], t);
    assert row == [row[0]];
  }

  lemma ParseEncodedTail(row: seq<string>, t: string)
    requires |row| >= 2
    requires ParseFields(EncodeFields(row[1..]) + t) == Some((row[1..], t))
    ensures ParseFields(EncodeFields(row) + t) == Some((row, t))
  {
    EncodeFieldsCons(row, t);
    ParseEncodedCons(row[0], EncodeFields(row[1..]) + t, row[1..], t);
    assert [row[0]] + row[1..] == row;
  }

  lemma EncodeFieldsCons(row: seq<string>, t: string)
    requires |row| >= 2
    ensures EncodeFields(row) + t == EncodeField(row[0]) + ("," + (EncodeFields(row[1..]) + t))
  {
    var a := EncodeField(row[0]);
    var b := EncodeFields(row[1..]);
    assert EncodeFields(row) == a + "," + b;
    Associate(a, ",", b, t);
  }

  lemma Associate(a: string, b: string, c: string, d: string)
    ensures a + b + c + d == a + (b + (c + d))
  {
  }

  /** An encoded field, a comma, and fields that read back: one more field reads back. */
  lemma ParseEncodedCons(field: string, rest: string, fields: seq<string>, t: string)
    requires ParseFields(rest) == Some((fields, t))
    ensures ParseFields(EncodeField(field) + ("," + rest)) == Some(([field] + fields, t))
  {
    ParseEncodedField(field, "," + rest);
    ParseFieldsNext(EncodeField(field) + ("," + rest), field, rest, fields, t);
  }

  /** A field followed by a comma: the record continues with the fields after the comma. */
  lemma ParseFieldsNext(s: string, field: string, u: string, fields: seq<string>, t: string)
    requires ParseField(s) == Some((field, "," + u)) && ParseFields(u) == Some((fields, t))
    ensures ParseFields(s) == Some(([field] + fields, t))
  {
    assert ("," + u)[1..] == u;
  }

  /** A field followed by anything but a comma ends the record. */
  lemma ParseFieldsLast(s: string, field: string, t: string)
    requires ParseField(s) == Some((field, t)) && (t == [] || t[0] != ',')
    ensures ParseFields(s) == Some(([field], t))
  {
  }

  /** A written row reads back as the same fields, provided it has at least one field. */
  lemma ParseEncodedRow(row: seq<string>, t: string)
    requires |row| >= 1
    ensures ParseRecord(EncodeRow(row) + t) == Some((row, t))
  {
    var tail := CRLF + t;
    assert tail[2..] == t;
    if row == [""] {
      var s := "\"\"" + tail;
      assert EncodeRow(row) + t == s;
      assert s[1..] == "\"" + tail;
      assert ("\"" + tail)[1..] == tail;
      assert ParseQuoted(s[1..]) == Some(("", tail));
    } else {
      assert EncodeRow(row) + t == EncodeFields(row) + tail;
      ParseEncodedFields(row, tail);
    }
  }

  /** Reading what the writer wrote gives back every row, in order. */
  lemma {:induction false} ParseEncodedRows(rows: seq<seq<string>>)
    requires forall i :: 0 <= i < |rows| ==> |rows[i]| >= 1
    ensures ParseDocument(EncodeRows(rows)) == Some(rows)
  {
    if rows != [] {
      var rest := EncodeRows(rows[1..]);
      ParseEncodedRow(rows[0], rest);
      ParseEncodedRows(rows[1..]);
      assert rows == [rows[0]] + rows[1..];
    }
  }

  // ---------------------------------------------------------------------------
  // The writer

  /** `io.StringIO`: a text buffer that grows by appending. */
  class StringBuffer {
    var contents: string

    constructor ()
      ensures contents == ""
    {
      contents := "";
    }

    method Write(s: string)
      modifies this
      ensures contents == old(contents) + s
    {
      contents := contents + s;
    }

    /** `getvalue()`. */
    function GetValue(): string
      reads this
    {
      contents
    }
  }

  /** `csv.writer(output)` with the excel dialect. */
  class Writer {
    const output: StringBuffer

    constructor (output: StringBuffer)
      ensures this.output == output
    {
      this.output := output;
    }

    /** `writerow`: appends the encoded row to the buffer and changes nothing else. */
    method WriteRow(row: seq<string>)
      modifies output
      ensures output.contents == old(output.contents) + EncodeRow(row)
    {
      output.Write(EncodeRow(row));
    }
  }
}
