// The rows an import left out, written as CSV (import-errors.ts), and a
// reader for section 2 of RFC 4180 that gets them back.
module ImportErrors {
  import opened Common
  import opened Sorting
  import opened Text

  datatype FieldError = FieldError(col: string, msg: string)

  // `data` lists the row's own columns in order, each with its text; None is
  // null or undefined.
  datatype RowError = RowError(row: int, fields: seq<FieldError>, data: seq<(string, Option<string>)>)

  function Reasons(fields: seq<FieldError>): (r: seq<string>) {
    if fields == [] then [] else [fields[0].col + ": " + fields[0].msg] + Reasons(fields[1..])
  }

  function ErrorReasons(e: RowError): (r: string) {
    if e.fields == [] then [] else Join(Reasons(e.fields), "; ")
  }

  // A leading =, +, -, @, tab or carriage return would be read as a formula.
  predicate FormulaStart(c: char) {
    c == '=' || c == '+' || c == '-' || c == '@' || c == '\t' || c == '\r'
  }

  predicate NeedsQuotes(c: char) {
    c == '"' || c == ',' || c == ';' || c == '\n' || c == '\r'
  }

  function Guarded(value: Option<string>): (r: string) {
    var text := value.GetOr("");
    if text != [] && FormulaStart(text[0]) then "'" + text else text
  }

  function Doubled(text: string): (r: string) {
    if text == [] then []
    else if text[0] == '"' then "\"\"" + Doubled(text[1..])
    else [text[0]] + Doubled(text[1..])
  }

  function CsvCell(value: Option<string>): (r: string) {
    var text := Guarded(value);
    if exists i :: 0 <= i < |text| && NeedsQuotes(text[i]) then "\"" + Doubled(text) + "\"" else text
  }

  function Keys(data: seq<(string, Option<string>)>): (r: seq<string>) {
    if data == [] then [] else [data[0].0] + Keys(data[1..])
  }

  function AllKeys(errors: seq<RowError>): (r: seq<string>) {
    if errors == [] then [] else Keys(errors[0].data) + AllKeys(errors[1..])
  }

  // The keys not seen before, in order.
  function Fresh(keys: seq<string>, seen: seq<string>): (r: seq<string>)
    ensures seen <= r
  {
    if keys == [] then seen
    else if keys[0] in seen then Fresh(keys[1..], seen)
    else Fresh(keys[1..], seen + [keys[0]])
  }

  function Columns(errors: seq<RowError>): (r: seq<string>) { Fresh(AllKeys(errors), []) }

  function Lookup(data: seq<(string, Option<string>)>, column: string): (r: Option<string>) {
    if data == [] then None else if data[0].0 == column then data[0].1 else Lookup(data[1..], column)
  }

  // String(row)
  function RowText(row: int): (r: string) {
    if row < 0 then "-" + Digits(-row) else Digits(row)
  }

  // The values of one line of the file.
  function LineValues(e: RowError, columns: seq<string>): (r: seq<Option<string>>)
    ensures |r| == |columns| + 2
  {
    seq(|columns|, i requires 0 <= i < |columns| => Lookup(e.data, columns[i]))
      + [Some(RowText(e.row)), Some(ErrorReasons(e))]
  }

  function HeaderValues(columns: seq<string>): (r: seq<Option<string>>)
    ensures |r| == |columns| + 2
  {
    seq(|columns|, i requires 0 <= i < |columns| => Some(columns[i])) + [Some("Fila"), Some("Errores")]
  }

  function CellsOf(values: seq<Option<string>>): (r: seq<string>)
    ensures |r| == |values|
  {
    if |values| == 0 then [] else [CsvCell(values[0])] + CellsOf(values[1..])
  }

  function GuardedAll(values: seq<Option<string>>): (r: seq<string>)
    ensures |r| == |values| && forall i :: 0 <= i < |r| ==> r[i] == Guarded(values[i])
  {
    if |values| == 0 then [] else [Guarded(values[0])] + GuardedAll(values[1..])
  }

  predicate ByRow(a: RowError, b: RowError) { a.row <= b.row }

  function InRowOrder(errors: seq<RowError>): (r: seq<RowError>)
    ensures |r| == |errors|
  {
    Sort(errors, ByRow)
  }

  function TableValues(errors: seq<RowError>, columns: seq<string>): (r: seq<seq<Option<string>>>)
    ensures |r| == |errors| && forall i :: 0 <= i < |r| ==> r[i] == LineValues(errors[i], columns)
  {
    if errors == [] then [] else [LineValues(errors[0], columns)] + TableValues(errors[1..], columns)
  }

  // Every line of the file as values: the header, then the rows.
  function FileValues(errors: seq<RowError>): (r: seq<seq<Option<string>>>)
    ensures r != [] && forall i :: 0 <= i < |r| ==> |r[i]| == |Columns(errors)| + 2
  {
    [HeaderValues(Columns(errors))] + TableValues(InRowOrder(errors), Columns(errors))
  }

  function Written(lines: seq<seq<Option<string>>>): (r: seq<string>)
    requires forall i :: 0 <= i < |lines| ==> lines[i] != []
    ensures |r| == |lines| && forall i :: 0 <= i < |r| ==> r[i] == Join(CellsOf(lines[i]), ",")
  {
    if lines == [] then [] else [Join(CellsOf(lines[0]), ",")] + Written(lines[1..])
  }

  const BOM := "\U{FEFF}"

  // The file: the lines of FileValues, cells between commas, lines between
  // CRLFs, after a byte order mark.
  function FileText(errors: seq<RowError>): (r: string) {
    BOM + Join(Written(FileValues(errors)), "\r\n")
  }

  // The loop over the rows that collects their columns.
  method CollectColumns(errors: seq<RowError>) returns (columns: seq<string>)
    ensures columns == Columns(errors)
  {
    columns := [];
    for k := 0 to |errors|
      invariant Columns(errors) == Fresh(AllKeys(errors[k..]), columns)
    {
      var keys := Keys(errors[k].data);
      assert errors[k..][1..] == errors[k + 1..];
      FreshAppend(keys, AllKeys(errors[k + 1..]), columns);
      for j := 0 to |keys|
        invariant Columns(errors) == Fresh(AllKeys(errors[k + 1..]), Fresh(keys[j..], columns))
      {
        assert keys[j..][1..] == keys[j + 1..];
        if keys[j] !in columns { columns := columns + [keys[j]]; }
      }
    }
  }

  // errorRowsCsv
  method ErrorRowsCsv(errors: seq<RowError>) returns (csv: string)
    ensures csv == FileText(errors)
  {
    var columns := CollectColumns(errors);
    hide *;
    ghost var written := Written(FileValues(errors));
    var lines := [Join(CellsOf(HeaderValues(columns)), ",")];
    var sorted := InRowOrder(errors);
    FileLines(errors, columns);
    for k := 0 to |sorted|
      invariant lines == written[..k + 1]
    {
      lines := lines + [Join(CellsOf(LineValues(sorted[k], columns)), ",")];
    }
    assert lines == written;
    return BOM + Join(lines, "\r\n");
  }

  lemma FileLines(errors: seq<RowError>, columns: seq<string>)
    requires columns == Columns(errors)
    ensures var w := Written(FileValues(errors)); var sorted := InRowOrder(errors);
      && |w| == |sorted| + 1 && FileText(errors) == BOM + Join(w, "\r\n")
      && w[0] == Join(CellsOf(HeaderValues(columns)), ",")
      && forall k :: 0 <= k < |sorted| ==> w[k + 1] == Join(CellsOf(LineValues(sorted[k], columns)), ",")
  {
    hide InRowOrder, HeaderValues, CellsOf, Join, Columns;
    assert forall k :: 0 <= k < |InRowOrder(errors)| ==> FileValues(errors)[k + 1] == LineValues(InRowOrder(errors)[k], columns);
  }

  lemma {:induction false} FreshAppend(a: seq<string>, b: seq<string>, seen: seq<string>)
    ensures Fresh(a + b, seen) == Fresh(b, Fresh(a, seen))
  {
    if a == [] {
      assert a + b == b;
    } else {
      assert (a + b)[1..] == a[1..] + b;
      FreshAppend(a[1..], b, if a[0] in seen then seen else seen + [a[0]]);
    }
  }

  // ------------------------------------------------- reading it back: RFC 4180

  predicate Special(c: char) { c == ',' || c == '"' || c == '\r' || c == '\n' }

  // A field without quotes: up to the first comma, quote or line break.
  function ReadPlain(s: string): (r: (string, string))
    ensures |r.1| <= |s|
  {
    if s == [] || Special(s[0]) then ([], s)
    else
      var (text, rest) := ReadPlain(s[1..]);
      ([s[0]] + text, rest)
  }

  // The rest of a field after its opening quote.
  function ReadQuoted(s: string): (r: Option<(string, string)>)
    ensures r.Some? ==> |r.value.1| < |s|
  {
    if s == [] then None
    else if s[0] != '"' then Prefixed(s[0], ReadQuoted(s[1..]))
    else if |s| > 1 && s[1] == '"' then Prefixed('"', ReadQuoted(s[2..]))
    else Some(([], s[1..]))
  }

  function Prefixed(c: char, r: Option<(string, string)>): (result: Option<(string, string)>) {
    match r
    case None => None
    case Some(p) => Some(([c] + p.0, p.1))
  }

  function ReadField(s: string): (r: Option<(string, string)>)
    ensures r.Some? ==> |r.value.1| <= |s|
  {
    if s != [] && s[0] == '"' then ReadQuoted(s[1..]) else Some(ReadPlain(s))
  }

  // Fields between commas.
  function ReadRecord(s: string): (r: Option<(seq<string>, string)>)
    ensures r.Some? ==> |r.value.1| <= |s|
    decreases |s|
  {
    match ReadField(s)
    case None => None
    case Some(f) =>
      if f.1 != [] && f.1[0] == ',' then
        match ReadRecord(f.1[1..])
        case None => None
        case Some(more) => Some(([f.0] + more.0, more.1))
      else Some(([f.0], f.1))
  }

  // Records between line breaks; the last one may end with one too.
  function ReadFile(s: string): (r: Option<seq<seq<string>>>)
    decreases |s|
  {
    match ReadRecord(s)
    case None => None
    case Some(record) =>
      if record.1 == [] || record.1 == "\r\n" then Some([record.0])
      else if "\r\n" <= record.1 then
        match ReadFile(record.1[2..])
        case None => None
        case Some(more) => Some([record.0] + more)
      else None
  }

  // What may follow a cell.
  predicate AfterCell(rest: string) { rest == [] || rest[0] == ',' || rest[0] == '\r' }

  lemma {:induction false} PlainReadsBack(text: string, rest: string)
    requires (forall i :: 0 <= i < |text| ==> !Special(text[i])) && AfterCell(rest)
    ensures ReadPlain(text + rest) == (text, rest)
  {
    if text == [] {
      assert text + rest == rest;
    } else {
      assert (text + rest)[1..] == text[1..] + rest && text == [text[0]] + text[1..];
      PlainReadsBack(text[1..], rest);
    }
  }

  lemma {:induction false} QuotedReadsBack(text: string, rest: string)
    requires AfterCell(rest)
    ensures ReadQuoted(Doubled(text) + "\"" + rest) == Some((text, rest))
  {
    var s := Doubled(text) + "\"" + rest;
    if text == [] {
      assert s == "\"" + rest && s[1..] == rest;
    } else {
      var t := Doubled(text[1..]) + "\"" + rest;
      assert text == [text[0]] + text[1..];
      QuotedReadsBack(text[1..], rest);
      if text[0] == '"' {
        assert s == "\"\"" + t && s[2..] == t;
      } else {
        assert s == [text[0]] + t && s[1..] == t;
      }
    }
  }

  lemma CellReadsBack(value: Option<string>, rest: string)
    requires AfterCell(rest)
    ensures ReadField(CsvCell(value) + rest) == Some((Guarded(value), rest))
  {
    hide Guarded, ReadField, Doubled;
    var text := Guarded(value);
    if exists i :: 0 <= i < |text| && NeedsQuotes(text[i]) {
      QuotedField(text, rest);
    } else {
      PlainField(text, rest);
    }
  }

  lemma QuotedField(text: string, rest: string)
    requires AfterCell(rest)
    ensures ReadField("\"" + Doubled(text) + "\"" + rest) == Some((text, rest))
  {
    hide ReadQuoted, Doubled, AfterCell;
    QuotedReadsBack(text, rest);
    var s := "\"" + Doubled(text) + "\"" + rest;
    assert s[1..] == Doubled(text) + "\"" + rest;
  }

  lemma PlainField(text: string, rest: string)
    requires (forall i :: 0 <= i < |text| ==> !NeedsQuotes(text[i])) && AfterCell(rest)
    ensures ReadField(text + rest) == Some((text, rest))
  {
    hide ReadPlain;
    PlainReadsBack(text, rest);
    assert text + rest != [] ==> (text + rest)[0] == if text == [] then rest[0] else text[0];
  }

  lemma {:induction false} RecordReadsBack(values: seq<Option<string>>, rest: string)
    requires values != [] && (rest == [] || rest[0] == '\r')
    ensures ReadRecord(Join(CellsOf(values), ",") + rest) == Some((GuardedAll(values), rest))
  {
    hide CsvCell, Guarded, ReadField;
    var cell := CsvCell(values[0]);
    var s := Join(CellsOf(values), ",") + rest;
    if |values| == 1 {
      CellReadsBack(values[0], rest);
      assert s == cell + rest && GuardedAll(values) == [Guarded(values[0])];
    } else {
      var more := Join(CellsOf(values[1..]), ",") + rest;
      RecordReadsBack(values[1..], rest);
      CellReadsBack(values[0], "," + more);
      assert s == cell + ("," + more);
      assert ("," + more)[1..] == more;
    }
  }

  function GuardedLines(lines: seq<seq<Option<string>>>): (r: seq<seq<string>>)
    ensures |r| == |lines| && forall i :: 0 <= i < |r| ==> r[i] == GuardedAll(lines[i])
  {
    if lines == [] then [] else [GuardedAll(lines[0])] + GuardedLines(lines[1..])
  }

  // A line of two cells or more is never empty.
  lemma LineNotEmpty(values: seq<Option<string>>)
    requires |values| >= 2
    ensures Join(CellsOf(values), ",") != []
  {
  }

  lemma {:induction false} LinesReadBack(lines: seq<seq<Option<string>>>)
    requires lines != [] && forall i :: 0 <= i < |lines| ==> |lines[i]| >= 2
    ensures Join(Written(lines), "\r\n") != []
    ensures ReadFile(Join(Written(lines), "\r\n")) == Some(GuardedLines(lines))
  {
    hide CellsOf, GuardedAll, ReadRecord;
    var s := Join(Written(lines), "\r\n");
    var first := Join(CellsOf(lines[0]), ",");
    LineNotEmpty(lines[0]);
    if |lines| == 1 {
      RecordReadsBack(lines[0], []);
      assert s == first + [] && GuardedLines(lines) == [GuardedAll(lines[0])];
    } else {
      var more := Join(Written(lines[1..]), "\r\n");
      LinesReadBack(lines[1..]);
      RecordReadsBack(lines[0], "\r\n" + more);
      assert s == first + ("\r\n" + more);
      assert ("\r\n" + more)[2..] == more;
    }
  }

  // ----------------------------------------------------------------- results

  // Main result: whatever the cells hold, a reader of the file recovers the
  // header and then, in row order, one record per error with one cell per
  // column, the row and the reasons, each as it was guarded.
  lemma FileReadsBack(errors: seq<RowError>)
    ensures BOM <= FileText(errors)
    ensures ReadFile(FileText(errors)[|BOM|..]) == Some(GuardedLines(FileValues(errors)))
    ensures |GuardedLines(FileValues(errors))| == |errors| + 1
    ensures forall i :: 0 <= i <= |errors| ==> |GuardedLines(FileValues(errors))[i]| == |Columns(errors)| + 2
  {
    LinesReadBack(FileValues(errors));
    assert FileText(errors)[|BOM|..] == Join(Written(FileValues(errors)), "\r\n");
  }

  ghost predicate HasCell(data: seq<(string, Option<string>)>, column: string, value: Option<string>) {
    exists k :: 0 <= k < |data| && data[k] == (column, value)
  }

  lemma {:induction false} LookupFinds(data: seq<(string, Option<string>)>, column: string, value: Option<string>)
    requires Distinct(Keys(data))
    ensures HasCell(data, column, value) ==> Lookup(data, column) == value
    ensures column !in Keys(data) ==> Lookup(data, column) == None
  {
    if data != [] {
      assert Keys(data)[1..] == Keys(data[1..]);
      LookupFinds(data[1..], column, value);
      if HasCell(data, column, value) {
        var k :| 0 <= k < |data| && data[k] == (column, value);
        if k > 0 {
          assert data[1..][k - 1] == data[k] && HasCell(data[1..], column, value);
          KeyAt(data, k);
          KeyAt(data, 0);
        }
      }
    }
  }

  lemma {:induction false} KeyAt(data: seq<(string, Option<string>)>, k: nat)
    requires k < |data|
    ensures |Keys(data)| == |data| && Keys(data)[k] == data[k].0
  {
    if k > 0 {
      KeyAt(data[1..], k - 1);
    } else if |data| > 1 {
      KeyAt(data[1..], 0);
    }
  }

  // Record i + 1 of the file is row i: under each column what the row holds
  // there (nothing when it has no such column), then its number, then why.
  lemma RecordHoldsRow(errors: seq<RowError>, i: nat, j: nat, value: Option<string>)
    requires i < |errors| && j < |Columns(errors)|
    requires Distinct(Keys(InRowOrder(errors)[i].data))
    ensures var e := InRowOrder(errors)[i]; var column := Columns(errors)[j]; var n := |Columns(errors)|;
      var record := GuardedLines(FileValues(errors))[i + 1];
      && (HasCell(e.data, column, value) ==> record[j] == Guarded(value))
      && (column !in Keys(e.data) ==> record[j] == [])
      && record[n] == (if e.row >= 0 then Digits(e.row) else "'-" + Digits(-e.row))
      && record[n + 1] == Guarded(Some(ErrorReasons(e)))
  {
    hide InRowOrder, Columns;
    var e := InRowOrder(errors)[i];
    assert FileValues(errors)[i + 1] == LineValues(e, Columns(errors));
    hide FileValues;
    LineHoldsRow(e, Columns(errors), j, value);
  }

  lemma LineHoldsRow(e: RowError, columns: seq<string>, j: nat, value: Option<string>)
    requires j < |columns| && Distinct(Keys(e.data))
    ensures var n := |columns|; var record := GuardedAll(LineValues(e, columns));
      && (HasCell(e.data, columns[j], value) ==> record[j] == Guarded(value))
      && (columns[j] !in Keys(e.data) ==> record[j] == [])
      && record[n] == (if e.row >= 0 then Digits(e.row) else "'-" + Digits(-e.row))
      && record[n + 1] == Guarded(Some(ErrorReasons(e)))
  {
    LookupFinds(e.data, columns[j], value);
    hide HasCell, Keys, Digits, ErrorReasons, Lookup;
    assert e.row >= 0 ==> !FormulaStart(Digits(e.row)[0]);
    assert e.row < 0 ==> "'" + ("-" + Digits(-e.row)) == "'-" + Digits(-e.row);
  }

  // The first record names the columns, then the row and the reasons.
  lemma HeaderNamesColumns(errors: seq<RowError>, j: nat)
    requires j < |Columns(errors)|
    ensures var record := GuardedLines(FileValues(errors))[0]; var n := |Columns(errors)|;
      record[j] == Guarded(Some(Columns(errors)[j])) && record[n] == "Fila" && record[n + 1] == "Errores"
  {
    hide Columns, HeaderValues, TableValues, Guarded;
    assert FileValues(errors)[0] == HeaderValues(Columns(errors));
    hide FileValues;
    HeaderGuarded(Columns(errors), j);
  }

  lemma HeaderGuarded(columns: seq<string>, j: nat)
    requires j < |columns|
    ensures var record := GuardedAll(HeaderValues(columns)); var n := |columns|;
      record[j] == Guarded(Some(columns[j])) && record[n] == "Fila" && record[n + 1] == "Errores"
  {
    PlainHeader();
    hide Guarded, GuardedAll;
    var values, n := HeaderValues(columns), |columns|;
    assert values[j] == Some(columns[j]) && values[n] == Some("Fila") && values[n + 1] == Some("Errores");
  }

  lemma PlainHeader()
    ensures Guarded(Some("Fila")) == "Fila" && Guarded(Some("Errores")) == "Errores"
  {
  }

  // The reasons of a row can be told apart again, split at "; ", exactly when
  // it has some and none of them holds one.
  lemma ReasonsReadBack(e: RowError)
    ensures
      var each := seq(|e.fields|, i requires 0 <= i < |e.fields| => e.fields[i].col + ": " + e.fields[i].msg);
      Split(ErrorReasons(e), "; ") == each <==>
      e.fields != [] && forall i :: 0 <= i < |e.fields| ==> !Occurs(e.fields[i].col + ": " + e.fields[i].msg, "; ")
  {
    hide Occurs, Split;
    var reasons := Reasons(e.fields);
    ReasonsAt(e.fields);
    assert reasons == seq(|e.fields|, i requires 0 <= i < |e.fields| => e.fields[i].col + ": " + e.fields[i].msg);
    if e.fields != [] && forall i :: 0 <= i < |reasons| ==> !Occurs(reasons[i], "; ") {
      SplitJoin(reasons, "; ");
    }
    forall i | 0 <= i < |Split(ErrorReasons(e), "; ")| ensures !Occurs(Split(ErrorReasons(e), "; ")[i], "; ") {
      PartHasNoWord(ErrorReasons(e), "; ", i);
    }
  }

  // And each, at its first ": ", gives its column exactly when the column's
  // name holds none.
  lemma ColumnReadsBack(f: FieldError)
    ensures Split(f.col + ": " + f.msg, ": ")[0] == f.col <==> !Occurs(f.col, ": ")
  {
    hide Occurs, Split;
    if !Occurs(f.col, ": ") { SplitFirst(f.col, ": ", f.msg); }
    PartHasNoWord(f.col + ": " + f.msg, ": ", 0);
  }

  lemma {:induction false} ReasonsAt(fields: seq<FieldError>)
    ensures |Reasons(fields)| == |fields|
    ensures forall k :: 0 <= k < |fields| ==> Reasons(fields)[k] == fields[k].col + ": " + fields[k].msg
  {
    if fields != [] { ReasonsAt(fields[1..]); }
  }

  // The rows come in row order, none missing or repeated, and rows with the
  // same number in the order the import gave them.
  lemma RowsInOrder(errors: seq<RowError>, row: int)
    ensures forall i, j :: 0 <= i < j < |errors| ==> InRowOrder(errors)[i].row <= InRowOrder(errors)[j].row
    ensures multiset(InRowOrder(errors)) == multiset(errors)
    ensures Filter(InRowOrder(errors), (e: RowError) => e.row == row) == Filter(errors, (e: RowError) => e.row == row)
  {
    SortSorted(errors, ByRow);
    SortMultiset(errors, ByRow);
    SortStable(errors, ByRow, (e: RowError) => e.row == row);
  }

  // The columns: every key of every row once, by where it is first seen.
  ghost predicate FirstSeen(columns: seq<string>, keys: seq<string>) {
    && Distinct(columns)
    && (forall k :: 0 <= k < |keys| ==> keys[k] in columns)
    && forall i :: 0 <= i < |columns| ==> Seen(columns, keys, i)
  }

  ghost predicate Seen(columns: seq<string>, keys: seq<string>, i: nat)
    requires i < |columns|
  {
    exists p: nat :: p < |keys| && SeenAt(columns, keys, i, p)
  }

  // Column i is first written at key p, after the columns before it.
  ghost predicate SeenAt(columns: seq<string>, keys: seq<string>, i: nat, p: nat)
    requires i < |columns| && p < |keys|
  {
    keys[p] == columns[i] && forall c :: c in keys[..p] <==> c in columns[..i]
  }

  lemma {:induction false} FreshFirstSeen(keys: seq<string>, before: seq<string>, seen: seq<string>)
    requires FirstSeen(seen, before)
    ensures FirstSeen(Fresh(keys, seen), before + keys)
  {
    if keys == [] {
      assert before + keys == before;
    } else {
      var k := keys[0];
      var now := if k in seen then seen else seen + [k];
      FirstSeenStep(k, before, seen);
      assert before + keys == (before + [k]) + keys[1..];
      FreshFirstSeen(keys[1..], before + [k], now);
    }
  }

  lemma FirstSeenStep(k: string, before: seq<string>, seen: seq<string>)
    requires FirstSeen(seen, before)
    ensures FirstSeen(if k in seen then seen else seen + [k], before + [k])
  {
    var now := if k in seen then seen else seen + [k];
    var keys := before + [k];
    forall i | 0 <= i < |now| ensures Seen(now, keys, i) {
      if i < |seen| {
        assert Seen(seen, before, i);
        var p: nat :| p < |before| && SeenAt(seen, before, i, p);
        assert keys[..p] == before[..p] && now[..i] == seen[..i];
        assert SeenAt(now, keys, i, p);
      } else {
        assert keys[..|before|] == before && now[..i] == seen;
        forall c ensures c in before <==> c in seen {
          if c in seen {
            var j :| 0 <= j < |seen| && seen[j] == c;
            assert Seen(seen, before, j);
          }
        }
        assert SeenAt(now, keys, i, |before|);
      }
    }
  }

  lemma ColumnsFirstSeen(errors: seq<RowError>)
    ensures FirstSeen(Columns(errors), AllKeys(errors))
  {
    FreshFirstSeen(AllKeys(errors), [], []);
    assert [] + AllKeys(errors) == AllKeys(errors);
  }

  // No spreadsheet reads a cell as a formula, and a cell that would not be
  // read as one is left as it is.
  lemma GuardedIsNoFormula(value: Option<string>)
    ensures var text := value.GetOr("");
      && (Guarded(value) != [] ==> Guarded(value)[0] !in "=+-@\t\r")
      && (Guarded(value) == text <==> text == [] || text[0] !in "=+-@\t\r")
      && (Guarded(value) == text || Guarded(value) == "'" + text)
  {
  }

  // A cell that is not in quotes holds no separator of any spreadsheet, quote
  // or line break; one in quotes holds one of them.
  lemma QuotedWhenNeeded(value: Option<string>)
    ensures var cell := CsvCell(value); var text := Guarded(value);
      (cell != [] && cell[0] == '"') <==> exists i :: 0 <= i < |text| && text[i] in ",;\"\r\n"
  {
    hide Doubled;
    var text := Guarded(value);
    assert text != [] && text[0] == '"' ==> NeedsQuotes(text[0]) && text[0] in ",;\"\r\n";
    assert forall i :: 0 <= i < |text| ==> (NeedsQuotes(text[i]) <==> text[i] in ",;\"\r\n");
  }
}
