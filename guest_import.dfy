/**
 * Guest-list import (src/lib/guest-import.ts): spreadsheet headers in
 * Hebrew or English are mapped to canonical keys, cell values are trimmed,
 * each row is checked against the row schema and turned into a preview row,
 * and schema failures are reported with their 1-based spreadsheet row number.
 */
module GuestImport {
  import opened Strings
  import opened Options
  import Phone

  /** A cell as `Object.entries` yields it: null/undefined, or a value whose
      `toString()` is `text`. */
  datatype Cell = Absent | Text(text: string)

  /** `Object.entries(row)`: header and cell, in iteration order. */
  type RawRow = seq<(string, Cell)>

  /** The header alias table of `normalizeHeaders`. */
  const HeaderAliases: map<string, string> := map[
    "household_name" := "household_name",
    "household" := "household_name",
    "phone" := "phone",
    "guest_full_name" := "guest_full_name",
    "guest" := "guest_full_name",
    "name" := "guest_full_name",
    "relation" := "relation",
    "meal_preference" := "meal_preference",
    "group" := "group",
    "guest_phone" := "guest_phone",
    "שם משק בית" := "household_name",
    "טלפון" := "phone",
    "שם מוזמן" := "guest_full_name",
    "קשר" := "relation",
    "מנה" := "meal_preference",
    "קבוצה" := "group",
    "טלפון מוזמן" := "guest_phone",
    "טלפון אורח" := "guest_phone"
  ]

  /** The keys of the row schema. */
  const CanonicalKeys: set<string> :=
    {"household_name", "phone", "guest_full_name", "relation", "meal_preference", "group", "guest_phone"}

  /** `map[k] || map[k.toLowerCase()] || k` */
  function CanonicalHeader(k: string): string {
    if k in HeaderAliases then HeaderAliases[k]
    else if Lower(k) in HeaderAliases then HeaderAliases[Lower(k)]
    else k
  }

  /** Every alias names a schema key, and every schema key is its own alias. */
  lemma AliasTableShape()
    ensures forall k :: k in HeaderAliases ==> HeaderAliases[k] in CanonicalKeys
    ensures forall c :: c in CanonicalKeys ==> c in HeaderAliases && HeaderAliases[c] == c
  {}

  /** A header maps to a schema key or is kept as it is. */
  lemma CanonicalHeaderRange(k: string)
    ensures CanonicalHeader(k) == k || CanonicalHeader(k) in CanonicalKeys
  {
    AliasTableShape();
  }

  /** Header mapping is idempotent: a canonical key maps to itself and an
      unknown header is kept as it is. */
  lemma CanonicalHeaderIdempotent(k: string)
    ensures CanonicalHeader(CanonicalHeader(k)) == CanonicalHeader(k)
  {
    AliasTableShape();
  }

  /** A header that matches no alias, even lower-cased, is kept verbatim. */
  lemma UnknownHeaderKept(k: string)
    requires k !in HeaderAliases && Lower(k) !in HeaderAliases
    ensures CanonicalHeader(k) == k
  {}

  /** The Hebrew headers map to the English schema keys. */
  lemma HebrewHeaders()
    ensures CanonicalHeader("שם משק בית") == "household_name"
    ensures CanonicalHeader("טלפון") == "phone"
    ensures CanonicalHeader("שם מוזמן") == "guest_full_name"
    ensures CanonicalHeader("קשר") == "relation"
    ensures CanonicalHeader("מנה") == "meal_preference"
    ensures CanonicalHeader("קבוצה") == "group"
    ensures CanonicalHeader("טלפון מוזמן") == "guest_phone"
    ensures CanonicalHeader("טלפון אורח") == "guest_phone"
  {}

  /** `(v ?? "").toString().trim()` */
  function CellValue(v: Cell): string {
    match v
    case Absent => Trim("")
    case Text(t) => Trim(t)
  }

  /** Each entry with its header mapped to the canonical key and its cell trimmed. */
  function Canonicalised(entries: RawRow): (r: seq<(string, string)>)
    ensures |r| == |entries|
  {
    seq(|entries|, i requires 0 <= i < |entries| => (CanonicalHeader(entries[i].0), CellValue(entries[i].1)))
  }

  /** Assigning `out[key] = value` pair by pair, from an empty object. */
  function Assigned(pairs: seq<(string, string)>): map<string, string>
    decreases |pairs|
  {
    if pairs == [] then map[]
    else
      var last := pairs[|pairs| - 1];
      Assigned(pairs[..|pairs| - 1])[last.0 := last.1]
  }

  /** The object `normalizeHeaders` returns; a later entry overwrites an
      earlier one with the same canonical key. */
  function Normalized(entries: RawRow): map<string, string> {
    Assigned(Canonicalised(entries))
  }

  /** `normalizeHeaders`: a `for ... of` loop that fills `out` key by key. */
  method NormalizeHeaders(entries: RawRow) returns (out: map<string, string>)
    ensures out == Normalized(entries)
  {
    ghost var pairs := Canonicalised(entries);
    out := map[];
    var i := 0;
    while i < |entries|
      invariant 0 <= i <= |entries|
      invariant out == Assigned(pairs[..i])
    {
      var (k, v) := entries[i];
      var key := CanonicalHeader(k);
      out := out[key := CellValue(v)];
      assert pairs[i] == (key, CellValue(v));
      assert pairs[..i + 1][..i] == pairs[..i];
      i := i + 1;
    }
    assert pairs[..i] == pairs;
  }

  /** The keys assigned are the keys of the pairs. */
  lemma {:induction false} AssignedKeys(pairs: seq<(string, string)>, key: string)
    ensures key in Assigned(pairs) <==> exists i :: 0 <= i < |pairs| && pairs[i].0 == key
    decreases |pairs|
  {
    if pairs != [] {
      var init := pairs[..|pairs| - 1];
      AssignedKeys(init, key);
      if exists i :: 0 <= i < |init| && init[i].0 == key {
        var i :| 0 <= i < |init| && init[i].0 == key;
        assert pairs[i] == init[i];
      }
      if exists i :: 0 <= i < |pairs| && pairs[i].0 == key {
        var i :| 0 <= i < |pairs| && pairs[i].0 == key;
        if i < |init| {
          assert init[i] == pairs[i];
        }
      }
    }
  }

  /** The value under a key is the one of the last pair with that key. */
  lemma {:induction false} AssignedLastWins(pairs: seq<(string, string)>, i: int)
    requires 0 <= i < |pairs|
    requires forall j :: i < j < |pairs| ==> pairs[j].0 != pairs[i].0
    ensures pairs[i].0 in Assigned(pairs) && Assigned(pairs)[pairs[i].0] == pairs[i].1
    decreases |pairs|
  {
    if i < |pairs| - 1 {
      var init := pairs[..|pairs| - 1];
      assert init[i] == pairs[i];
      forall j | i < j < |init| ensures init[j].0 != init[i].0 {
        assert init[j] == pairs[j];
      }
      AssignedLastWins(init, i);
    }
  }

  /** Every value assigned is the value of some pair. */
  lemma {:induction false} AssignedValues(pairs: seq<(string, string)>, key: string)
    requires key in Assigned(pairs)
    ensures exists i :: 0 <= i < |pairs| && pairs[i] == (key, Assigned(pairs)[key])
    decreases |pairs|
  {
    var init := pairs[..|pairs| - 1];
    var last := pairs[|pairs| - 1];
    if last.0 == key {
      assert pairs[|pairs| - 1] == (key, Assigned(pairs)[key]);
    } else {
      AssignedValues(init, key);
      var i :| 0 <= i < |init| && init[i] == (key, Assigned(init)[key]);
      assert pairs[i] == init[i];
    }
  }

  /** The keys of the normalised row are exactly the canonical forms of the input headers. */
  lemma NormalizedKeys(entries: RawRow, key: string)
    ensures key in Normalized(entries) <==> exists i :: 0 <= i < |entries| && CanonicalHeader(entries[i].0) == key
  {
    var pairs := Canonicalised(entries);
    AssignedKeys(pairs, key);
    if exists i :: 0 <= i < |pairs| && pairs[i].0 == key {
      var i :| 0 <= i < |pairs| && pairs[i].0 == key;
      assert CanonicalHeader(entries[i].0) == key;
    }
    if exists i :: 0 <= i < |entries| && CanonicalHeader(entries[i].0) == key {
      var i :| 0 <= i < |entries| && CanonicalHeader(entries[i].0) == key;
      assert pairs[i].0 == key;
    }
  }

  /** The value under a key comes from the LAST entry whose header maps to that key. */
  lemma NormalizedLastWins(entries: RawRow, i: int)
    requires 0 <= i < |entries|
    requires forall j :: i < j < |entries| ==> CanonicalHeader(entries[j].0) != CanonicalHeader(entries[i].0)
    ensures CanonicalHeader(entries[i].0) in Normalized(entries)
    ensures Normalized(entries)[CanonicalHeader(entries[i].0)] == CellValue(entries[i].1)
  {
    var pairs := Canonicalised(entries);
    forall j | i < j < |pairs| ensures pairs[j].0 != pairs[i].0 {
      assert CanonicalHeader(entries[j].0) != CanonicalHeader(entries[i].0);
    }
    AssignedLastWins(pairs, i);
  }

  /** Every value of the normalised row is a trimmed string. */
  lemma NormalizedValuesTrimmed(entries: RawRow, key: string)
    requires key in Normalized(entries)
    ensures Trim(Normalized(entries)[key]) == Normalized(entries)[key]
  {
    var pairs := Canonicalised(entries);
    AssignedValues(pairs, key);
    var i :| 0 <= i < |pairs| && pairs[i] == (key, Assigned(pairs)[key]);
    match entries[i].1
    case Absent => TrimIdempotent("");
    case Text(t) => TrimIdempotent(t);
  }

  // ---------------------------------------------------------------------
  // The row schema

  /** `RowInput` after a successful parse. */
  datatype RowInput = RowInput(
    householdName: Option<string>,
    phone: string,
    guestFullName: string,
    relation: Option<string>,
    mealPreference: Option<string>,
    group: Option<string>,
    guestPhone: Option<string>)

  /** The outcome of `RowInput.safeParse`; on failure, the required keys that
      are missing, in schema order (the issue texts are the validation library's). */
  datatype ParseResult = Parsed(row: RowInput) | Invalid(missing: seq<string>)

  function Get(n: map<string, string>, k: string): Option<string> {
    if k in n then Some(n[k]) else None
  }

  /** `RowInput.safeParse(n)` on a normalised row. Every value there is a
      string, so the optional nullable fields always pass and the parse fails
      exactly when `phone` or `guest_full_name` is absent. */
  function ParseRow(n: map<string, string>): ParseResult {
    if "phone" in n && "guest_full_name" in n then
      Parsed(RowInput(Get(n, "household_name"), n["phone"], n["guest_full_name"], Get(n, "relation"),
                      Get(n, "meal_preference"), Get(n, "group"), Get(n, "guest_phone")))
    else
      Invalid((if "phone" in n then [] else ["phone"])
              + (if "guest_full_name" in n then [] else ["guest_full_name"]))
  }

  /** The parse fails exactly when a required key is absent, and then it
      reports every absent required key and nothing else. */
  lemma ParseRowRequiredKeys(n: map<string, string>)
    ensures ParseRow(n).Parsed? <==> "phone" in n && "guest_full_name" in n
    ensures ParseRow(n).Invalid? ==>
              && ParseRow(n).missing != []
              && forall k :: k in ParseRow(n).missing <==> k in ["phone", "guest_full_name"] && k !in n
  {}

  /** A parsed row carries the normalised values unchanged. */
  lemma ParseRowKeepsValues(n: map<string, string>)
    requires ParseRow(n).Parsed?
    ensures var row := ParseRow(n).row;
            && row.phone == n["phone"] && row.guestFullName == n["guest_full_name"]
            && row.householdName == Get(n, "household_name") && row.guestPhone == Get(n, "guest_phone")
            && row.relation == Get(n, "relation") && row.mealPreference == Get(n, "meal_preference")
            && row.group == Get(n, "group")
  {}

  // ---------------------------------------------------------------------
  // Preview rows

  /** A row's `_error`: the schema failure (its issue texts are the
      validation library's, so the missing keys stand for them) or the
      household phone message "טלפון משק בית לא תקין". */
  datatype RowError = SchemaIssues(missing: seq<string>) | BadHouseholdPhone

  datatype PreviewRow = PreviewRow(
    active: bool,
    error: Option<RowError>,
    householdName: string,
    phone: string,
    guestFullName: string,
    relation: string,
    mealPreference: string,
    group: string,
    guestPhone: string)

  /** One entry of the `errors` list: `idx` is the spreadsheet row number. */
  datatype ImportError = ImportError(idx: int, error: RowError)

  /** `/^\d{9,15}$/` */
  predicate PhonePatternOk(s: string) {
    9 <= |s| <= 15 && AllDigits(s)
  }

  /** The row pushed when the schema check fails: inactive, carrying the
      error, every field the raw normalised value or "". */
  function FailedRow(n: map<string, string>, missing: seq<string>): PreviewRow {
    PreviewRow(false, Some(SchemaIssues(missing)),
      Get(n, "household_name").GetOr(""), Get(n, "phone").GetOr(""), Get(n, "guest_full_name").GetOr(""),
      Get(n, "relation").GetOr(""), Get(n, "meal_preference").GetOr(""), Get(n, "group").GetOr(""),
      Get(n, "guest_phone").GetOr(""))
  }

  /** The row pushed when the schema check passes: phones canonicalised, an
      empty guest phone left empty, active exactly when the household phone
      passes the 9-15 digit check. */
  function ParsedRow(clean: RowInput): PreviewRow {
    var phone := Phone.CanonPhone(clean.phone);
    var gphone := if clean.guestPhone.Some? && clean.guestPhone.value != ""
                  then Some(Phone.CanonPhone(clean.guestPhone.value)) else None;
    var badPhone := !PhonePatternOk(phone);
    PreviewRow(!badPhone, if badPhone then Some(BadHouseholdPhone) else None,
      clean.householdName.GetOr(""), phone, clean.guestFullName, clean.relation.GetOr(""),
      clean.mealPreference.GetOr(""), clean.group.GetOr(""), gphone.GetOr(""))
  }

  /** The preview row of one normalised row. */
  function PreviewOf(n: map<string, string>): PreviewRow {
    match ParseRow(n)
    case Invalid(missing) => FailedRow(n, missing)
    case Parsed(clean) => ParsedRow(clean)
  }

  /** The schema check of one raw row. */
  function SchemaCheck(r: RawRow): ParseResult {
    ParseRow(Normalized(r))
  }

  /** The schema check of every raw row. */
  function SchemaChecks(rawRows: seq<RawRow>): (r: seq<ParseResult>)
    ensures |r| == |rawRows|
  {
    seq(|rawRows|, i requires 0 <= i < |rawRows| => SchemaCheck(rawRows[i]))
  }

  /** The error entries for a sequence of schema checks: one per failed
      check, numbered `i + 2` (row 1 is the header row and the data rows are 0-based). */
  function ErrorsOf(checks: seq<ParseResult>): seq<ImportError>
    decreases |checks|
  {
    if checks == [] then []
    else
      var i := |checks| - 1;
      ErrorsOf(checks[..i]) + (if checks[i].Invalid? then [ImportError(i + 2, SchemaIssues(checks[i].missing))] else [])
  }

  /** The `errors` list of `toPreviewRows`. */
  function ErrorList(rawRows: seq<RawRow>): seq<ImportError> {
    ErrorsOf(SchemaChecks(rawRows))
  }

  /** The body of the `forEach` for one row: normalise, parse, build the preview row. */
  method PreviewRowOf(r: RawRow) returns (row: PreviewRow, parsed: ParseResult)
    ensures parsed == SchemaCheck(r)
    ensures row == PreviewOf(Normalized(r))
  {
    var n := NormalizeHeaders(r);
    parsed := ParseRow(n);
    if parsed.Invalid? {
      row := FailedRow(n, parsed.missing);
    } else {
      row := ParsedRow(parsed.row);
    }
  }

  /** `toPreviewRows`: a `forEach` that pushes one preview row per input row
      and one error per schema failure. */
  method ToPreviewRows(rawRows: seq<RawRow>) returns (rows: seq<PreviewRow>, errors: seq<ImportError>)
    ensures |rows| == |rawRows|
    ensures forall i :: 0 <= i < |rawRows| ==> rows[i] == PreviewOf(Normalized(rawRows[i]))
    ensures errors == ErrorList(rawRows)
  {
    ghost var checks := SchemaChecks(rawRows);
    rows, errors := [], [];
    var i := 0;
    while i < |rawRows|
      invariant 0 <= i <= |rawRows|
      invariant |rows| == i
      invariant forall j :: 0 <= j < i ==> rows[j] == PreviewOf(Normalized(rawRows[j]))
      invariant errors == ErrorsOf(checks[..i])
    {
      var row, parsed := PreviewRowOf(rawRows[i]);
      assert parsed == checks[i];
      ErrorsOfPrefix(checks, i);
      if parsed.Invalid? {
        errors := errors + [ImportError(i + 2, SchemaIssues(parsed.missing))];
      }
      ghost var before := rows;
      rows := rows + [row];
      forall j | 0 <= j <= i ensures rows[j] == PreviewOf(Normalized(rawRows[j])) {
        if j < i {
          assert rows[j] == before[j];
        }
      }
      i := i + 1;
    }
    assert checks[..i] == checks;
  }

  /** One more check adds its error entry, if any, at the end. */
  lemma ErrorsOfPrefix(checks: seq<ParseResult>, i: int)
    requires 0 <= i < |checks|
    ensures ErrorsOf(checks[..i + 1])
            == ErrorsOf(checks[..i]) + (if checks[i].Invalid? then [ImportError(i + 2, SchemaIssues(checks[i].missing))] else [])
  {
    assert checks[..i + 1][..i] == checks[..i];
  }

  /** There are never more error entries than checks. */
  lemma {:induction false} ErrorsOfBounded(checks: seq<ParseResult>)
    ensures |ErrorsOf(checks)| <= |checks|
    decreases |checks|
  {
    if checks != [] {
      ErrorsOfBounded(checks[..|checks| - 1]);
    }
  }

  /** Every error entry names (as `idx - 2`) a failed check and carries its missing keys. */
  lemma {:induction false} ErrorsOfSound(checks: seq<ParseResult>, k: int)
    requires 0 <= k < |ErrorsOf(checks)|
    ensures var e := ErrorsOf(checks)[k];
            && 2 <= e.idx < |checks| + 2
            && checks[e.idx - 2].Invalid?
            && e.error == SchemaIssues(checks[e.idx - 2].missing)
    decreases |checks|
  {
    var i := |checks| - 1;
    var init := checks[..i];
    var es := ErrorsOf(init);
    if k < |es| {
      ErrorsOfSound(init, k);
      assert ErrorsOf(checks)[k] == es[k];
      assert init[es[k].idx - 2] == checks[es[k].idx - 2];
    }
  }

  /** Every failed check has an error entry with its row number. */
  lemma {:induction false} ErrorsOfComplete(checks: seq<ParseResult>, i: int)
    requires 0 <= i < |checks| && checks[i].Invalid?
    ensures exists k :: 0 <= k < |ErrorsOf(checks)| && ErrorsOf(checks)[k].idx == i + 2
    decreases |checks|
  {
    var last := |checks| - 1;
    var init := checks[..last];
    var es := ErrorsOf(init);
    assert ErrorsOf(checks)[..|es|] == es;
    if i < last {
      assert init[i] == checks[i];
      ErrorsOfComplete(init, i);
      var k :| 0 <= k < |es| && es[k].idx == i + 2;
      assert ErrorsOf(checks)[k] == es[k];
    } else {
      assert ErrorsOf(checks)[|es|].idx == i + 2;
    }
  }

  /** Error entries appear in row order, one row at most once. */
  lemma {:induction false} ErrorsOfIncreasing(checks: seq<ParseResult>)
    ensures forall k, l :: 0 <= k < l < |ErrorsOf(checks)| ==> ErrorsOf(checks)[k].idx < ErrorsOf(checks)[l].idx
    decreases |checks|
  {
    if checks != [] {
      var i := |checks| - 1;
      var init := checks[..i];
      ErrorsOfIncreasing(init);
      var es := ErrorsOf(init);
      forall k | 0 <= k < |es| ensures es[k].idx < i + 2 {
        ErrorsOfSound(init, k);
      }
    }
  }

  /** Hence every entry of `errors` names a data row whose preview row is
      inactive and carries exactly that error. */
  lemma ErrorListNamesFailedRows(rawRows: seq<RawRow>, k: int)
    requires 0 <= k < |ErrorList(rawRows)|
    ensures var e := ErrorList(rawRows)[k];
            && 2 <= e.idx < |rawRows| + 2
            && !PreviewOf(Normalized(rawRows[e.idx - 2])).active
            && PreviewOf(Normalized(rawRows[e.idx - 2])).error == Some(e.error)
  {
    var checks := SchemaChecks(rawRows);
    assert ErrorList(rawRows) == ErrorsOf(checks);
    ErrorsOfSound(checks, k);
    var e := ErrorsOf(checks)[k];
    var j := e.idx - 2;
    var n := Normalized(rawRows[j]);
    assert checks[j] == SchemaCheck(rawRows[j]);
    assert ParseRow(n) == checks[j];
    PreviewOfInvalid(n);
  }

  /** And every row failing the schema check is named by an entry of `errors`. */
  lemma ErrorListComplete(rawRows: seq<RawRow>, i: int)
    requires 0 <= i < |rawRows| && SchemaCheck(rawRows[i]).Invalid?
    ensures exists k :: 0 <= k < |ErrorList(rawRows)| && ErrorList(rawRows)[k].idx == i + 2
  {
    var checks := SchemaChecks(rawRows);
    assert checks[i] == SchemaCheck(rawRows[i]);
    ErrorsOfComplete(checks, i);
    var k :| 0 <= k < |ErrorsOf(checks)| && ErrorsOf(checks)[k].idx == i + 2;
    assert ErrorList(rawRows)[k].idx == i + 2;
  }

  /** A row that passes the schema check previews with its phones
      canonicalised (an absent or empty guest phone as ""), its other fields
      the normalised values or "", and is active, without error, exactly when
      the canonical household phone has 9 to 15 digits; otherwise it carries
      the bad-phone error. */
  lemma PreviewOfParsed(n: map<string, string>)
    requires ParseRow(n).Parsed?
    ensures var p := PreviewOf(n);
            && p.phone == Phone.CanonPhone(n["phone"])
            && (p.active <==> 9 <= |p.phone| <= 15)
            && (p.active ==> p.error.None?)
            && (!p.active ==> p.error == Some(BadHouseholdPhone))
            && p.guestPhone == (if "guest_phone" in n && n["guest_phone"] != "" then Phone.CanonPhone(n["guest_phone"]) else "")
            && p.guestFullName == n["guest_full_name"]
            && p.householdName == Get(n, "household_name").GetOr("")
            && p.relation == Get(n, "relation").GetOr("")
            && p.mealPreference == Get(n, "meal_preference").GetOr("")
            && p.group == Get(n, "group").GetOr("")
  {}

  /** A row whose schema check fails previews as inactive with that failure. */
  lemma PreviewOfInvalid(n: map<string, string>)
    requires ParseRow(n).Invalid?
    ensures !PreviewOf(n).active && PreviewOf(n).error == Some(SchemaIssues(ParseRow(n).missing))
  {}
}
