/**
 * The downloadable guest-list template (src/app/api/templates/guests.csv/route.ts):
 * every field is enclosed in double quotes with its own quotes doubled
 * (section 2, rules 5-7 of RFC 4180), fields are separated by commas and
 * rows by a line feed (not the CRLF of section 2, rule 1), and the text is
 * prefixed with the byte-order mark U+FEFF.
 */
module CsvTemplate {
  import opened Options
  import GuestImport

  // ---------------------------------------------------------------------
  // Writing

  /** `String(v).replace(/"/g, '""')` */
  function Escape(v: string): (r: string)
    decreases |v|
  {
    if v == [] then []
    else (if v[0] == '"' then "\"\"" else [v[0]]) + Escape(v[1..])
  }

  /** `"${...}"`: the escaped field between quotes. */
  function QuoteField(v: string): string {
    "\"" + Escape(v) + "\""
  }

  /** `r.map(quote).join(",")` */
  function RowText(fields: seq<string>): string
    decreases |fields|
  {
    if fields == [] then ""
    else if |fields| == 1 then QuoteField(fields[0])
    else QuoteField(fields[0]) + "," + RowText(fields[1..])
  }

  /** `rows.map(row).join("\n")` */
  function CsvText(rows: seq<seq<string>>): string
    decreases |rows|
  {
    if rows == [] then ""
    else if |rows| == 1 then RowText(rows[0])
    else RowText(rows[0]) + "\n" + CsvText(rows[1..])
  }

  const Bom: char := '\U{FEFF}'

  /** The header row and three example households. */
  const TemplateRows: seq<seq<string>> := [
    ["שם משק בית", "טלפון", "שם מוזמן", "קשר", "מנה", "קבוצה"],
    ["משפחת כהן", "0502555897", "דנה כהן", "כלה", "צמחוני", "צד כלה"],
    ["משפחת כהן", "0502555897", "יואב כהן", "חתן", "רגיל", "צד חתן"],
    ["חברים", "0541234567", "רותם לוי", "חבר/ה", "טבעוני", "חברים"]
  ]

  /** The response body of `GET`. */
  function TemplateBody(): string {
    [Bom] + CsvText(TemplateRows)
  }

  // ---------------------------------------------------------------------
  // Reading back

  /** Reads a quoted field's content, `s` starting just after its opening
      quote: a doubled quote stands for one quote and a single quote ends the
      field. Returns the content and what follows the closing quote. */
  function ParseQuoted(s: string): (r: Option<(string, string)>)
    ensures r.Some? ==> |r.value.1| < |s|
    decreases |s|
  {
    if s == [] then None
    else if s[0] == '"' then
      if |s| >= 2 && s[1] == '"' then
        match ParseQuoted(s[2..])
        case None => None
        case Some(p) => Some(("\"" + p.0, p.1))
      else Some(("", s[1..]))
    else
      match ParseQuoted(s[1..])
      case None => None
      case Some(p) => Some(([s[0]] + p.0, p.1))
  }

  /** Reads the comma-separated quoted fields of one row. */
  function ParseFields(s: string): (r: Option<(seq<string>, string)>)
    ensures r.Some? ==> |r.value.1| < |s|
    decreases |s|
  {
    if s == [] || s[0] != '"' then None
    else
      match ParseQuoted(s[1..])
      case None => None
      case Some(p) =>
        if p.1 != [] && p.1[0] == ',' then
          match ParseFields(p.1[1..])
          case None => None
          case Some(q) => Some(([p.0] + q.0, q.1))
        else Some(([p.0], p.1))
  }

  /** Reads the line-separated rows of a whole text. */
  function ParseRows(s: string): Option<seq<seq<string>>>
    decreases |s|
  {
    match ParseFields(s)
    case None => None
    case Some(p) =>
      if p.1 == [] then Some([p.0])
      else if p.1[0] == '\n' then
        match ParseRows(p.1[1..])
        case None => None
        case Some(rows) => Some([p.0] + rows)
      else None
  }

  // ---------------------------------------------------------------------
  // Round trip

  /** A doubled quote reads as one quote of the content. */
  lemma ParseQuotedDoubled(t: string)
    ensures ParseQuoted("\"\"" + t)
            == match ParseQuoted(t)
               case None => None
               case Some(p) => Some(("\"" + p.0, p.1))
  {
    assert ("\"\"" + t)[2..] == t;
  }

  /** Any other character is content. */
  lemma ParseQuotedPlain(c: char, t: string)
    requires c != '"'
    ensures ParseQuoted([c] + t)
            == match ParseQuoted(t)
               case None => None
               case Some(p) => Some(([c] + p.0, p.1))
  {
    assert ([c] + t)[1..] == t;
  }

  /** Un-doubling the quotes recovers the field, whatever follows the closing quote. */
  lemma {:induction false} ParseQuotedEscape(v: string, rest: string)
    requires rest == [] || rest[0] != '"'
    ensures ParseQuoted(Escape(v) + "\"" + rest) == Some((v, rest))
    decreases |v|
  {
    if v == [] {
      assert Escape(v) + "\"" + rest == "\"" + rest;
    } else {
      var t := Escape(v[1..]) + "\"" + rest;
      ParseQuotedEscape(v[1..], rest);
      if v[0] == '"' {
        assert Escape(v) + "\"" + rest == "\"\"" + t;
        ParseQuotedDoubled(t);
      } else {
        assert Escape(v) + "\"" + rest == [v[0]] + t;
        ParseQuotedPlain(v[0], t);
      }
      assert [v[0]] + v[1..] == v;
    }
  }

  /** Hence the escape is injective: different fields are written differently. */
  lemma EscapeInjective(a: string, b: string)
    requires QuoteField(a) == QuoteField(b)
    ensures a == b
  {
    ParseQuotedEscape(a, "");
    ParseQuotedEscape(b, "");
    assert Escape(a) + "\"" == Escape(b) + "\"" by {
      assert QuoteField(a)[1..] == Escape(a) + "\"";
      assert QuoteField(b)[1..] == Escape(b) + "\"";
    }
    assert Escape(a) + "\"" + "" == Escape(a) + "\"";
    assert Escape(b) + "\"" + "" == Escape(b) + "\"";
  }

  /** A quoted field reads back as its content, followed by what comes after it. */
  lemma QuotedHead(v: string, after: string)
    requires after == [] || after[0] != '"'
    ensures var s := QuoteField(v) + after;
            s[0] == '"' && ParseQuoted(s[1..]) == Some((v, after))
  {
    var s := QuoteField(v) + after;
    assert s[1..] == Escape(v) + "\"" + after;
    ParseQuotedEscape(v, after);
  }

  /** The last field of a row. */
  lemma ParseFieldsLast(v: string, rest: string)
    requires rest == [] || (rest[0] != ',' && rest[0] != '"')
    ensures ParseFields(QuoteField(v) + rest) == Some(([v], rest))
  {
    QuotedHead(v, rest);
  }

  /** A field followed by a comma and more fields. */
  lemma ParseFieldsCons(v: string, tail: string)
    ensures ParseFields(QuoteField(v) + "," + tail)
            == match ParseFields(tail)
               case None => None
               case Some(q) => Some(([v] + q.0, q.1))
  {
    var after := "," + tail;
    assert QuoteField(v) + "," + tail == QuoteField(v) + after;
    QuotedHead(v, after);
    assert after[1..] == tail;
  }

  /** A written row reads back as its fields, when what follows is not a comma or a quote. */
  lemma {:induction false} ParseFieldsRow(fields: seq<string>, rest: string)
    requires fields != []
    requires rest == [] || (rest[0] != ',' && rest[0] != '"')
    ensures ParseFields(RowText(fields) + rest) == Some((fields, rest))
    decreases |fields|
  {
    if |fields| == 1 {
      ParseFieldsLast(fields[0], rest);
      assert [fields[0]] == fields;
    } else {
      var tail := RowText(fields[1..]) + rest;
      assert RowText(fields) + rest == QuoteField(fields[0]) + "," + tail;
      ParseFieldsCons(fields[0], tail);
      ParseFieldsRow(fields[1..], rest);
      assert [fields[0]] + fields[1..] == fields;
    }
  }

  /** A row followed by a line feed and more rows. */
  lemma ParseRowsCons(fields: seq<string>, tail: string)
    requires fields != []
    ensures ParseRows(RowText(fields) + "\n" + tail)
            == match ParseRows(tail)
               case None => None
               case Some(rows) => Some([fields] + rows)
  {
    var after := "\n" + tail;
    assert RowText(fields) + "\n" + tail == RowText(fields) + after;
    ParseFieldsRow(fields, after);
    assert after[1..] == tail;
  }

  /** Every row written reads back: the text has exactly the rows, in order,
      as long as there is at least one row and no row is empty. */
  lemma {:induction false} ParseRowsCsv(rows: seq<seq<string>>)
    requires rows != [] && forall i :: 0 <= i < |rows| ==> rows[i] != []
    ensures ParseRows(CsvText(rows)) == Some(rows)
    decreases |rows|
  {
    if |rows| == 1 {
      ParseFieldsRow(rows[0], "");
      assert CsvText(rows) == RowText(rows[0]) + "";
      assert [rows[0]] == rows;
    } else {
      var tail := CsvText(rows[1..]);
      assert CsvText(rows) == RowText(rows[0]) + "\n" + tail;
      ParseRowsCons(rows[0], tail);
      assert forall i :: 0 <= i < |rows[1..]| ==> rows[1..][i] == rows[i + 1];
      ParseRowsCsv(rows[1..]);
      assert [rows[0]] + rows[1..] == rows;
    }
  }

  /** A body made of the byte-order mark and the text of non-empty rows
      reads back as those rows. */
  lemma BodyShape(rows: seq<seq<string>>)
    requires rows != [] && forall i :: 0 <= i < |rows| ==> rows[i] != []
    ensures ([Bom] + CsvText(rows))[0] == Bom
    ensures ParseRows(([Bom] + CsvText(rows))[1..]) == Some(rows)
  {
    assert ([Bom] + CsvText(rows))[1..] == CsvText(rows);
    ParseRowsCsv(rows);
  }

  /** Every template row has fields. */
  lemma TemplateRowsNonEmpty()
    ensures |TemplateRows| == 4 && forall i :: 0 <= i < |TemplateRows| ==> |TemplateRows[i]| == 6
  {}

  /** The body is the byte-order mark followed by the CSV text, which reads
      back as the template rows, the header row first. */
  lemma TemplateBodyShape()
    ensures TemplateBody()[0] == Bom
    ensures ParseRows(TemplateBody()[1..]) == Some(TemplateRows)
  {
    TemplateRowsNonEmpty();
    BodyShape(TemplateRows);
  }

  /** The import recognises every header of the template. */
  lemma TemplateHeadersImport()
    ensures forall i :: 0 <= i < |TemplateRows[0]| ==> GuestImport.CanonicalHeader(TemplateRows[0][i]) in GuestImport.CanonicalKeys
  {
    GuestImport.HebrewHeaders();
    forall i | 0 <= i < |TemplateRows[0]|
      ensures GuestImport.CanonicalHeader(TemplateRows[0][i]) in GuestImport.CanonicalKeys
    {
      GuestImport.CanonicalHeaderRange(TemplateRows[0][i]);
    }
  }
}
