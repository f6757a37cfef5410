/**
 * `main` without its console output: load the records, run the three
 * analyses and write the report. The log text stands for the contents of the
 * input file and the writer for the output file.
 */
module Pipeline {
  import opened Wrappers
  import opened LogLine
  import opened LogLoader
  import opened Counter
  import opened Analysis
  import opened Report

  /** More failed logins than this flags an address. */
  const FailedLoginThreshold: nat := 5

  /** The records of the log text, as `parse_log_file` returns them. */
  function LoadedRecords(text: string): seq<Record> {
    Kept(ReadLines(text))
  }

  /** The rows `main` has written for the log text. */
  function ReportFor(text: string): seq<Row> {
    var logs := LoadedRecords(text);
    ReportRows(CountRequestsPerIp(logs), FindMostFrequentEndpoint(logs),
               Suspicious(logs, FailedLoginThreshold))
  }

  method RunAnalysis(text: string, writer: RowWriter)
    modifies writer
    ensures writer.rows == old(writer.rows) + ReportFor(text)
  {
    var parsedLogs := ParseLogFile(text);
    var ipCounts := CountRequestsPerIp(parsedLogs);
    var mostFrequentEndpoint := FindMostFrequentEndpoint(parsedLogs);
    var suspiciousActivity := DetectSuspiciousActivity(parsedLogs, FailedLoginThreshold);
    SaveResultsToCsv(writer, ipCounts, mostFrequentEndpoint, suspiciousActivity);
  }

  /**
   * What the report holds for a log text: every address that made a request
   * with its number of requests, the most accessed endpoint (none only when
   * no line matched), and the addresses with more than five failed logins.
   */
  lemma ReportForSpec(text: string)
    ensures var logs := LoadedRecords(text);
      var results := ReadReport(ReportFor(text));
      && results.Some?
      && results.value.ipCounts == CountRequestsPerIp(logs)
      && Total(results.value.ipCounts) == |logs|
      && (results.value.mostFrequent.None? <==> logs == [])
      && (forall e :: e in results.value.suspicious <==>
            (e.key in FailedLoginIps(logs) && e.count == FailedLogins(logs, e.key) &&
             e.count > FailedLoginThreshold))
  {
    var logs := LoadedRecords(text);
    var s := Suspicious(logs, FailedLoginThreshold);
    ReportRoundTrip(CountRequestsPerIp(logs), FindMostFrequentEndpoint(logs), s);
    CountRequestsPerIpSpec(logs);
    FindMostFrequentEndpointSpec(logs);
    SuspiciousEntries(logs, FailedLoginThreshold);
  }

  /**
   * A log in which no line matches (an empty file, say) still gets all three
   * section titles and both column headers, with no data rows.
   */
  lemma NoRecordsReport(text: string)
    requires LoadedRecords(text) == []
    ensures ReportFor(text) ==
      [RequestsTitle, RequestsHeader, [], EndpointTitle, [], SuspiciousTitle, SuspiciousHeader]
  {
    NoRecordsResults(FailedLoginThreshold);
    EmptyReport();
  }
}
