/**
 * `save_results_to_csv`: the rows the CSV writer receives, one field list per
 * row. A count is written the way the writer formats an `int`, as its decimal
 * text. The file itself (its opening, quoting and line endings) is not part
 * of this model; a `RowWriter` stands for the writer and only collects rows.
 */
module Report {
  import opened Wrappers
  import opened LogLine
  import opened Counter

  /** One CSV row: its fields, unquoted. */
  type Row = seq<string>

  const RequestsTitle: Row := ["Requests per IP"]
  const RequestsHeader: Row := ["IP Address", "Request Count"]
  const EndpointTitle: Row := ["Most Accessed Endpoint"]
  const EndpointHeader: Row := ["Endpoint", "Access Count"]
  const SuspiciousTitle: Row := ["Suspicious Activity"]
  const SuspiciousHeader: Row := ["IP Address", "Failed Login Count"]

  // ---------------------------------------------------------------------------
  // Writing a count: `str(n)` for a non-negative `n`

  function DigitChar(d: nat): (c: char)
    requires d < 10
    ensures IsDigit(c)
  {
    (('0' as int) + d) as char
  }

  function DigitValue(c: char): (d: nat)
    requires IsDigit(c)
    ensures d < 10
  {
    (c as int) - ('0' as int)
  }

  /** The decimal text of `n`, most significant digit first. */
  function DecimalString(n: nat): string
    decreases n
  {
    if n < 10 then [DigitChar(n)] else DecimalString(n / 10) + [DigitChar(n % 10)]
  }

  /** The value of a run of decimal digits. */
  function ParseDecimal(s: string): nat
    requires AllDigits(s)
  {
    if s == [] then 0 else 10 * ParseDecimal(s[..|s| - 1]) + DigitValue(s[|s| - 1])
  }

  /** Decimal text as `str` writes it: digits only, and no leading zero except in `0`. */
  predicate IsCanonicalDecimal(s: string) {
    IsDigits(s) && (s[0] == '0' ==> |s| == 1)
  }

  /** `DecimalString(n)` is canonical decimal text and reads back as `n`. */
  lemma {:induction false} DecimalRoundTrip(n: nat)
    ensures IsCanonicalDecimal(DecimalString(n))
    ensures ParseDecimal(DecimalString(n)) == n
    decreases n
  {
    var s := DecimalString(n);
    if n >= 10 {
      var h := DecimalString(n / 10);
      DecimalRoundTrip(n / 10);
      assert s[..|s| - 1] == h;
      assert s[0] == h[0];
    }
  }

  /** Canonical decimal text is the text of its own value. */
  lemma {:induction false} DecimalReadBack(s: string)
    requires IsCanonicalDecimal(s)
    ensures DecimalString(ParseDecimal(s)) == s
    decreases |s|
  {
    if |s| > 1 {
      var h := s[..|s| - 1];
      assert h[0] == s[0];
      DecimalReadBack(h);
      var v := ParseDecimal(h);
      assert v > 0 by {
        ZeroOnlyAsZeros(h);
      }
      var n := ParseDecimal(s);
      assert n / 10 == v && n % 10 == DigitValue(s[|s| - 1]);
      assert DigitChar(DigitValue(s[|s| - 1])) == s[|s| - 1];
    } else {
      assert DigitChar(DigitValue(s[0])) == s[0];
    }
  }

  /** A run of digits that starts with a non-zero digit has a non-zero value. */
  lemma {:induction false} ZeroOnlyAsZeros(s: string)
    requires IsDigits(s) && s[0] != '0'
    ensures ParseDecimal(s) > 0
    decreases |s|
  {
    if |s| > 1 {
      ZeroOnlyAsZeros(s[..|s| - 1]);
    }
  }

  // ---------------------------------------------------------------------------
  // The rows

  /** `(key, count)` as the row `[key, str(count)]`. */
  function DataRow(e: Entry): Row {
    [e.key, DecimalString(e.count)]
  }

  /** `writer.writerows` on `(key, count)` pairs. */
  function DataRows(t: seq<Entry>): (rows: seq<Row>)
    ensures |rows| == |t| && forall i :: 0 <= i < |t| ==> rows[i] == DataRow(t[i])
  {
    seq(|t|, i requires 0 <= i < |t| => DataRow(t[i]))
  }

  function RequestsSection(ipCounts: seq<Entry>): seq<Row> {
    [RequestsTitle, RequestsHeader] + DataRows(ipCounts) + [[]]
  }

  function EndpointSection(mostFrequent: Option<Entry>): seq<Row> {
    match mostFrequent
    case Some(e) => [EndpointTitle, EndpointHeader, DataRow(e), []]
    case None => [EndpointTitle, []]
  }

  function SuspiciousSection(suspicious: seq<Entry>): seq<Row> {
    [SuspiciousTitle, SuspiciousHeader] + DataRows(suspicious)
  }

  /** Every row `save_results_to_csv` writes, in order. */
  function ReportRows(ipCounts: seq<Entry>, mostFrequent: Option<Entry>, suspicious: seq<Entry>): seq<Row> {
    RequestsSection(ipCounts) + EndpointSection(mostFrequent) + SuspiciousSection(suspicious)
  }

  // ---------------------------------------------------------------------------
  // The writer

  /** The CSV writer, reduced to the rows it has been given. */
  class RowWriter {
    var rows: seq<Row>

    constructor ()
      ensures rows == []
    {
      rows := [];
    }

    /** `writer.writerow(row)`. */
    method WriteRow(row: Row)
      modifies this
      ensures rows == old(rows) + [row]
    {
      rows := rows + [row];
    }

    /** `writer.writerows(t)` on `(key, count)` pairs, one row per pair. */
    method WriteRows(t: seq<Entry>)
      modifies this
      ensures rows == old(rows) + DataRows(t)
    {
      for i := 0 to |t|
        invariant rows == old(rows) + DataRows(t[..i])
      {
        assert DataRows(t[..i + 1]) == DataRows(t[..i]) + [DataRow(t[i])];
        WriteRow(DataRow(t[i]));
      }
      assert t[..|t|] == t;
    }
  }

  /** The request counts, most requests first, then a blank row. */
  method WriteRequestsSection(writer: RowWriter, ipCounts: seq<Entry>)
    modifies writer
    ensures writer.rows == old(writer.rows) + RequestsSection(ipCounts)
  {
    writer.WriteRow(RequestsTitle);
    writer.WriteRow(RequestsHeader);
    writer.WriteRows(ipCounts);
    writer.WriteRow([]);
  }

  /** The endpoint header and row only when there is an endpoint, then a blank row. */
  method WriteEndpointSection(writer: RowWriter, mostFrequent: Option<Entry>)
    modifies writer
    ensures writer.rows == old(writer.rows) + EndpointSection(mostFrequent)
  {
    writer.WriteRow(EndpointTitle);
    if mostFrequent.Some? {
      writer.WriteRow(EndpointHeader);
      writer.WriteRow(DataRow(mostFrequent.value));
    }
    writer.WriteRow([]);
  }

  /** The flagged addresses, one row each, in the order of the dict. */
  method WriteSuspiciousSection(writer: RowWriter, suspicious: seq<Entry>)
    modifies writer
    ensures writer.rows == old(writer.rows) + SuspiciousSection(suspicious)
  {
    writer.WriteRow(SuspiciousTitle);
    writer.WriteRow(SuspiciousHeader);
    for i := 0 to |suspicious|
      invariant writer.rows == old(writer.rows) + [SuspiciousTitle, SuspiciousHeader] + DataRows(suspicious[..i])
    {
      assert DataRows(suspicious[..i + 1]) == DataRows(suspicious[..i]) + [DataRow(suspicious[i])];
      writer.WriteRow(DataRow(suspicious[i]));
    }
    assert suspicious[..|suspicious|] == suspicious;
  }

  /**
   * `save_results_to_csv(ip_counts, most_frequent_endpoint,
   * suspicious_activity, ...)`: the three sections, each after the last.
   */
  method SaveResultsToCsv(writer: RowWriter, ipCounts: seq<Entry>, mostFrequent: Option<Entry>,
                          suspicious: seq<Entry>)
    modifies writer
    ensures writer.rows == old(writer.rows) + ReportRows(ipCounts, mostFrequent, suspicious)
  {
    WriteRequestsSection(writer, ipCounts);
    WriteEndpointSection(writer, mostFrequent);
    WriteSuspiciousSection(writer, suspicious);
  }

  // ---------------------------------------------------------------------------
  // Reading the rows back

  /** What a report holds. */
  datatype Results = Results(ipCounts: seq<Entry>, mostFrequent: Option<Entry>, suspicious: seq<Entry>)

  /** A `[key, count]` row, or nothing. */
  function ReadRow(row: Row): Option<Entry> {
    if |row| == 2 && IsCanonicalDecimal(row[1]) then Some(Entry(row[0], ParseDecimal(row[1]))) else None
  }

  /** A run of `[key, count]` rows. */
  function ReadRows(rows: seq<Row>): Option<seq<Entry>> {
    if rows == [] then Some([])
    else match (ReadRow(rows[0]), ReadRows(rows[1..]))
      case (Some(e), Some(t)) => Some([e] + t)
      case _ => None
  }

  /** The number of two-field rows that start `rows`. */
  function PairRun(rows: seq<Row>): (n: nat)
    ensures n <= |rows|
  {
    if rows != [] && |rows[0]| == 2 then 1 + PairRun(rows[1..]) else 0
  }

  /** The first section and the rows after its blank row. */
  function ReadRequests(rows: seq<Row>): Option<(seq<Entry>, seq<Row>)> {
    if |rows| < 2 || rows[0] != RequestsTitle || rows[1] != RequestsHeader then None
    else
      var n := PairRun(rows[2..]);
      if 2 + n < |rows| && rows[2 + n] == [] then
        match ReadRows(rows[2..2 + n])
        case Some(t) => Some((t, rows[3 + n..]))
        case None => None
      else None
  }

  /** The second section and the rows after its blank row. */
  function ReadEndpoint(rows: seq<Row>): Option<(Option<Entry>, seq<Row>)> {
    if |rows| >= 2 && rows[0] == EndpointTitle && rows[1] == [] then Some((None, rows[2..]))
    else if |rows| >= 4 && rows[0] == EndpointTitle && rows[1] == EndpointHeader && rows[3] == [] then
      match ReadRow(rows[2])
      case Some(e) => Some((Some(e), rows[4..]))
      case None => None
    else None
  }

  /** The last section, which runs to the end. */
  function ReadSuspicious(rows: seq<Row>): Option<seq<Entry>> {
    if |rows| >= 2 && rows[0] == SuspiciousTitle && rows[1] == SuspiciousHeader then ReadRows(rows[2..])
    else None
  }

  /** The results a report's rows hold, or nothing when the rows are not a report. */
  function ReadReport(rows: seq<Row>): Option<Results> {
    match ReadRequests(rows)
    case None => None
    case Some((ipCounts, afterRequests)) =>
      match ReadEndpoint(afterRequests)
      case None => None
      case Some((mostFrequent, afterEndpoint)) =>
        match ReadSuspicious(afterEndpoint)
        case None => None
        case Some(suspicious) => Some(Results(ipCounts, mostFrequent, suspicious))
  }

  lemma DataRowRoundTrip(e: Entry)
    ensures ReadRow(DataRow(e)) == Some(e)
  {
    DecimalRoundTrip(e.count);
  }

  lemma {:induction false} DataRowsRoundTrip(t: seq<Entry>)
    ensures ReadRows(DataRows(t)) == Some(t)
    decreases |t|
  {
    if t != [] {
      assert DataRows(t)[1..] == DataRows(t[1..]);
      DataRowRoundTrip(t[0]);
      DataRowsRoundTrip(t[1..]);
      assert [t[0]] + t[1..] == t;
    }
  }

  /** A blank row ends the run of data rows. */
  lemma {:induction false} PairRunOfDataRows(t: seq<Entry>, rest: seq<Row>)
    requires rest != [] && rest[0] == []
    ensures PairRun(DataRows(t) + rest) == |t|
    decreases |t|
  {
    if t != [] {
      assert (DataRows(t) + rest)[1..] == DataRows(t[1..]) + rest;
      PairRunOfDataRows(t[1..], rest);
    } else {
      assert DataRows(t) + rest == rest;
    }
  }

  lemma RequestsRoundTrip(ipCounts: seq<Entry>, rest: seq<Row>)
    ensures ReadRequests(RequestsSection(ipCounts) + rest) == Some((ipCounts, rest))
  {
    var rows := RequestsSection(ipCounts) + rest;
    var d := DataRows(ipCounts);
    var n := |ipCounts|;
    assert rows[2..] == d + ([[]] + rest);
    PairRunOfDataRows(ipCounts, [[]] + rest);
    assert rows[2..2 + n] == d;
    assert rows[2 + n] == [];
    assert rows[3 + n..] == rest;
    DataRowsRoundTrip(ipCounts);
  }

  lemma EndpointRoundTrip(mostFrequent: Option<Entry>, rest: seq<Row>)
    ensures ReadEndpoint(EndpointSection(mostFrequent) + rest) == Some((mostFrequent, rest))
  {
    var rows := EndpointSection(mostFrequent) + rest;
    match mostFrequent
    case Some(e) =>
      DataRowRoundTrip(e);
      assert rows[1] != [];
      assert rows[4..] == rest;
    case None =>
      assert rows[2..] == rest;
  }

  lemma SuspiciousRoundTrip(suspicious: seq<Entry>)
    ensures ReadSuspicious(SuspiciousSection(suspicious)) == Some(suspicious)
  {
    assert SuspiciousSection(suspicious)[2..] == DataRows(suspicious);
    DataRowsRoundTrip(suspicious);
  }

  /**
   * The rows lose nothing: reading a report back gives the request counts,
   * the most accessed endpoint (or its absence) and the flagged addresses
   * that were written, whatever the addresses and endpoints are.
   */
  lemma ReportRoundTrip(ipCounts: seq<Entry>, mostFrequent: Option<Entry>, suspicious: seq<Entry>)
    ensures ReadReport(ReportRows(ipCounts, mostFrequent, suspicious)) ==
      Some(Results(ipCounts, mostFrequent, suspicious))
  {
    var e := EndpointSection(mostFrequent);
    var s := SuspiciousSection(suspicious);
    assert ReportRows(ipCounts, mostFrequent, suspicious) == RequestsSection(ipCounts) + (e + s);
    RequestsRoundTrip(ipCounts, e + s);
    EndpointRoundTrip(mostFrequent, s);
    SuspiciousRoundTrip(suspicious);
  }

  /**
   * The layout: the report starts with the request section, the endpoint
   * header and row appear exactly when there is an endpoint, and it ends with
   * one row per flagged address.
   */
  lemma ReportLayout(ipCounts: seq<Entry>, mostFrequent: Option<Entry>, suspicious: seq<Entry>)
    ensures var rows := ReportRows(ipCounts, mostFrequent, suspicious);
      var n := |ipCounts|;
      var m := if mostFrequent.Some? then 4 else 2;
      && |rows| == 3 + n + m + 2 + |suspicious|
      && rows[0] == RequestsTitle && rows[1] == RequestsHeader
      && rows[2..2 + n] == DataRows(ipCounts) && rows[2 + n] == []
      && rows[3 + n] == EndpointTitle
      && (mostFrequent.Some? <==> rows[4 + n] == EndpointHeader)
      && (mostFrequent.Some? ==> rows[5 + n] == DataRow(mostFrequent.value))
      && rows[2 + n + m] == []
      && rows[3 + n + m] == SuspiciousTitle && rows[4 + n + m] == SuspiciousHeader
      && rows[5 + n + m..] == DataRows(suspicious)
  {
    var rows := ReportRows(ipCounts, mostFrequent, suspicious);
    var n := |ipCounts|;
    var r := RequestsSection(ipCounts);
    var e := EndpointSection(mostFrequent);
    var s := SuspiciousSection(suspicious);
    assert rows == r + e + s;
    assert rows[..3 + n] == r;
    assert rows[3 + n..3 + n + |e|] == e;
    assert rows[3 + n + |e|..] == s;
  }

  /** The rows written when there are no results: titles, headers and blank rows only. */
  lemma EmptyReport()
    ensures ReportRows([], None, []) ==
      [RequestsTitle, RequestsHeader, [], EndpointTitle, [], SuspiciousTitle, SuspiciousHeader]
  {
    assert DataRows([]) == [];
  }

  lemma {:induction false} DataRowsReadBack(rows: seq<Row>, t: seq<Entry>)
    requires ReadRows(rows) == Some(t)
    ensures DataRows(t) == rows
    decreases |rows|
  {
    if rows != [] {
      var e := ReadRow(rows[0]).value;
      var u := ReadRows(rows[1..]).value;
      assert t == [e] + u;
      DataRowsReadBack(rows[1..], u);
      DecimalReadBack(rows[0][1]);
      assert DataRow(e) == rows[0];
      assert DataRows(t) == [DataRow(e)] + DataRows(u);
    }
  }

  lemma RequestsReadBack(rows: seq<Row>, ipCounts: seq<Entry>, rest: seq<Row>)
    requires ReadRequests(rows) == Some((ipCounts, rest))
    ensures rows == RequestsSection(ipCounts) + rest
  {
    var n := PairRun(rows[2..]);
    DataRowsReadBack(rows[2..2 + n], ipCounts);
    SplitAroundBlank(rows, 2, n);
  }

  /** Rows cut into a head of `h`, a run of `n`, a blank row and the rest. */
  lemma SplitAroundBlank(rows: seq<Row>, h: nat, n: nat)
    requires h + n < |rows| && rows[h + n] == []
    ensures rows == rows[..h] + rows[h..h + n] + [[]] + rows[h + n + 1..]
  {
    assert rows[..h + n + 1] == rows[..h] + rows[h..h + n] + [[]];
    assert rows == rows[..h + n + 1] + rows[h + n + 1..];
  }

  lemma EndpointReadBack(rows: seq<Row>, mostFrequent: Option<Entry>, rest: seq<Row>)
    requires ReadEndpoint(rows) == Some((mostFrequent, rest))
    ensures rows == EndpointSection(mostFrequent) + rest
  {
    if |rows| >= 2 && rows[0] == EndpointTitle && rows[1] == [] {
      assert rows == rows[..2] + rows[2..];
    } else {
      DecimalReadBack(rows[2][1]);
      assert DataRow(mostFrequent.value) == rows[2];
      assert rows == rows[..4] + rows[4..];
    }
  }

  lemma SuspiciousReadBack(rows: seq<Row>, suspicious: seq<Entry>)
    requires ReadSuspicious(rows) == Some(suspicious)
    ensures rows == SuspiciousSection(suspicious)
  {
    DataRowsReadBack(rows[2..], suspicious);
    assert rows == rows[..2] + rows[2..];
  }

  /**
   * Only a report reads back: rows that read back as results are exactly the
   * rows written for those results, so the layout is unambiguous.
   */
  lemma ReportReadBack(rows: seq<Row>, r: Results)
    requires ReadReport(rows) == Some(r)
    ensures rows == ReportRows(r.ipCounts, r.mostFrequent, r.suspicious)
  {
    var (ipCounts, afterRequests) := ReadRequests(rows).value;
    var (mostFrequent, afterEndpoint) := ReadEndpoint(afterRequests).value;
    RequestsReadBack(rows, ipCounts, afterRequests);
    EndpointReadBack(afterRequests, mostFrequent, afterEndpoint);
    SuspiciousReadBack(afterEndpoint, r.suspicious);
  }
}
