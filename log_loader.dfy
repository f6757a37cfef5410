/**
 * `parse_log_file`: the file's text is cut into lines the way `readlines`
 * cuts it, every line is matched against the access-log pattern, and the
 * records of the lines that match are kept in file order.
 */
module LogLoader {
  import opened Wrappers
  import opened LogLine

  // ---------------------------------------------------------------------------
  // Cutting the text into lines

  /**
   * `readlines`: each line keeps its closing line feed; the last line has
   * none when the text does not end with one.
   */
  function ReadLines(text: string): seq<string>
    decreases |text|
  {
    if text == [] then []
    else
      var n := LineLength(text);
      if n == |text| then [text]
      else [text[..n + 1]] + ReadLines(text[n + 1..])
  }

  /** The lines joined back together. */
  function Joined(lines: seq<string>): string {
    if lines == [] then [] else lines[0] + Joined(lines[1..])
  }

  /** A line as `readlines` returns it: non-empty, with a line feed at most at its end. */
  predicate IsLine(line: string) {
    |line| > 0 && NoNewline(line[..|line| - 1])
  }

  /** Cutting loses nothing: the lines joined back are the text. */
  lemma {:induction false} ReadLinesJoined(text: string)
    ensures Joined(ReadLines(text)) == text
    decreases |text|
  {
    if text != [] {
      var n := LineLength(text);
      if n < |text| {
        ReadLinesJoined(text[n + 1..]);
        assert text == text[..n + 1] + text[n + 1..];
      }
    }
  }

  /**
   * Every line is non-empty and holds a line feed at most as its last
   * character; every line but the last ends with one.
   */
  lemma {:induction false} ReadLinesShape(text: string)
    ensures forall i :: 0 <= i < |ReadLines(text)| ==> IsLine(ReadLines(text)[i])
    ensures forall i :: 0 <= i < |ReadLines(text)| - 1 ==>
      |ReadLines(text)[i]| > 0 && ReadLines(text)[i][|ReadLines(text)[i]| - 1] == '\n'
    decreases |text|
  {
    if text != [] {
      var n := LineLength(text);
      LineLengthSpec(text);
      if n < |text| {
        ReadLinesShape(text[n + 1..]);
        assert text[..n + 1][..n] == text[..n];
      }
    }
  }

  // ---------------------------------------------------------------------------
  // Keeping the records of the matching lines

  /** The result of matching each line, in order. */
  function MatchAll(lines: seq<string>): (ms: seq<Option<Record>>)
    ensures |ms| == |lines| && forall i :: 0 <= i < |lines| ==> ms[i] == MatchLine(lines[i])
  {
    seq(|lines|, i requires 0 <= i < |lines| => MatchLine(lines[i]))
  }

  /** The records of the matches that succeeded, in order. */
  function Present(ms: seq<Option<Record>>): seq<Record> {
    if ms == [] then []
    else Present(ms[..|ms| - 1]) + (if ms[|ms| - 1].Some? then [ms[|ms| - 1].value] else [])
  }

  /** The records kept from `lines`, in order. */
  function Kept(lines: seq<string>): seq<Record> {
    Present(MatchAll(lines))
  }

  /** The loop of `parse_log_file` over the lines it has read. */
  method ParseLogLines(lines: seq<string>) returns (parsed: seq<Record>)
    ensures parsed == Kept(lines)
  {
    ghost var ms := MatchAll(lines);
    parsed := [];
    for i := 0 to |lines|
      invariant parsed == Present(ms[..i])
    {
      assert ms[..i + 1][..i] == ms[..i];
      match MatchLine(lines[i]) {
        case Some(r) => parsed := parsed + [r];
        case None =>
      }
    }
    assert ms[..|lines|] == ms;
  }

  /** `parse_log_file` on the text the file holds. */
  method ParseLogFile(text: string) returns (parsed: seq<Record>)
    ensures parsed == Kept(ReadLines(text))
  {
    parsed := ParseLogLines(ReadLines(text));
  }

  // ---------------------------------------------------------------------------
  // What the kept records are

  lemma {:induction false} PresentAppend(a: seq<Option<Record>>, b: seq<Option<Record>>)
    ensures Present(a + b) == Present(a) + Present(b)
    decreases |b|
  {
    if b == [] {
      assert a + b == a;
    } else {
      var c := b[..|b| - 1];
      assert (a + b)[..|a + b| - 1] == a + c;
      PresentAppend(a, c);
    }
  }

  /** Lines are handled one at a time: keeping distributes over concatenation. */
  lemma KeptAppend(a: seq<string>, b: seq<string>)
    ensures Kept(a + b) == Kept(a) + Kept(b)
  {
    assert MatchAll(a + b) == MatchAll(a) + MatchAll(b) by {
      forall i | 0 <= i < |a + b|
        ensures MatchAll(a + b)[i] == (MatchAll(a) + MatchAll(b))[i]
      {
        if i < |a| {
          assert (a + b)[i] == a[i];
        } else {
          assert (a + b)[i] == b[i - |a|];
        }
      }
    }
    PresentAppend(MatchAll(a), MatchAll(b));
  }

  lemma {:induction false} PresentMembers(ms: seq<Option<Record>>, r: Record)
    ensures r in Present(ms) <==> exists i :: 0 <= i < |ms| && ms[i] == Some(r)
    decreases |ms|
  {
    if ms != [] {
      var n := |ms| - 1;
      var init := ms[..n];
      PresentMembers(init, r);
      if r in Present(ms) && r !in Present(init) {
        assert ms[n] == Some(r);
      }
      if exists i :: 0 <= i < |ms| && ms[i] == Some(r) {
        var i :| 0 <= i < |ms| && ms[i] == Some(r);
        if i < n {
          assert init[i] == ms[i];
        }
      }
    }
  }

  /** A record is kept exactly when some line matches and yields it. */
  lemma KeptMembers(lines: seq<string>, r: Record)
    ensures r in Kept(lines) <==> exists i :: 0 <= i < |lines| && MatchLine(lines[i]) == Some(r)
  {
    PresentMembers(MatchAll(lines), r);
  }

  /** No line yields more than one record. */
  lemma {:induction false} PresentAtMost(ms: seq<Option<Record>>)
    ensures |Present(ms)| <= |ms|
    decreases |ms|
  {
    if ms != [] {
      PresentAtMost(ms[..|ms| - 1]);
    }
  }

  lemma KeptAtMostLines(lines: seq<string>)
    ensures |Kept(lines)| <= |lines|
  {
    PresentAtMost(MatchAll(lines));
  }

  /**
   * Every kept record has the shape the pattern demands: a dotted address,
   * GET or POST, a non-empty endpoint and a digit status.
   */
  lemma {:induction false} KeptWellFormed(lines: seq<string>)
    ensures forall r :: r in Kept(lines) ==>
      && IsDottedQuad(r.ip)
      && (r.verb == "GET" || r.verb == "POST")
      && |r.endpoint| > 0
      && IsDigits(r.status)
  {
    forall r | r in Kept(lines)
      ensures IsDottedQuad(r.ip) && (r.verb == "GET" || r.verb == "POST")
      ensures |r.endpoint| > 0 && IsDigits(r.status)
    {
      KeptMembers(lines, r);
      var i :| 0 <= i < |lines| && MatchLine(lines[i]) == Some(r);
    }
  }
}
