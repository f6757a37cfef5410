/**
 * One access-log line, recognised the way `parse_log_file` recognises it with
 *
 *   <ip> - - [<timestamp>] "<method> <endpoint> HTTP<version>" <status> <rest>
 *
 * where <ip> is four digit runs joined by '.', <method> is GET or POST, <status>
 * is a digit run, <endpoint> is non-empty, and <timestamp>, <endpoint> and
 * <version> hold no line feed (the regex's `.`). The match is anchored at the
 * start of the line only, so <rest> is anything.
 *
 * A line can often be cut into these pieces in more than one way. The regex
 * engine tries the cuts in a fixed order and keeps the first that works: the
 * longest timestamp first (`\[.*\]` is greedy), then the shortest endpoint
 * (`.+?` is lazy), then the longest version (`HTTP.*"` is greedy). The matcher
 * below searches in that order, and the lemmas at the end prove that it finds
 * a cut exactly when one exists and that the cut it finds is the first one.
 */
module LogLine {
  import opened Wrappers

  // ---------------------------------------------------------------------------
  // Character classes

  /** What `\d` accepts (ASCII digits). */
  predicate IsDigit(c: char) {
    '0' <= c <= '9'
  }

  /** Every character of `s` is a digit. */
  predicate AllDigits(s: string) {
    forall i :: 0 <= i < |s| ==> IsDigit(s[i])
  }

  /** What `\d+` accepts on its own: a non-empty run of digits. */
  predicate IsDigits(s: string) {
    |s| > 0 && AllDigits(s)
  }

  /** What `.*` may consume: anything but a line feed. */
  predicate NoNewline(s: string) {
    forall i :: 0 <= i < |s| ==> s[i] != '\n'
  }

  /** The length of the longest run of digits that starts `s`. */
  function LeadingDigits(s: string): (n: nat)
    ensures n <= |s|
  {
    if |s| > 0 && IsDigit(s[0]) then 1 + LeadingDigits(s[1..]) else 0
  }

  /** The run `LeadingDigits` measures is all digits, and it cannot be longer. */
  lemma {:induction false} LeadingDigitsSpec(s: string)
    ensures AllDigits(s[..LeadingDigits(s)])
    ensures LeadingDigits(s) == |s| || !IsDigit(s[LeadingDigits(s)])
  {
    if |s| > 0 && IsDigit(s[0]) {
      LeadingDigitsSpec(s[1..]);
      assert s[..LeadingDigits(s)] == [s[0]] + s[1..][..LeadingDigits(s[1..])];
    }
  }

  /** The length of the part of `s` before its first line feed. */
  function LineLength(s: string): (n: nat)
    ensures n <= |s|
  {
    if |s| == 0 || s[0] == '\n' then 0 else 1 + LineLength(s[1..])
  }

  /** The part `LineLength` measures holds no line feed, and a line feed or the end follows it. */
  lemma {:induction false} LineLengthSpec(s: string)
    ensures NoNewline(s[..LineLength(s)])
    ensures LineLength(s) == |s| || s[LineLength(s)] == '\n'
  {
    if |s| > 0 && s[0] != '\n' {
      LineLengthSpec(s[1..]);
      assert s[..LineLength(s)] == [s[0]] + s[1..][..LineLength(s[1..])];
    }
  }

  /** A run of digits followed by a non-digit (or nothing) is measured exactly. */
  lemma {:induction false} LeadingDigitsOfRun(a: string, t: string)
    requires AllDigits(a)
    requires t == [] || !IsDigit(t[0])
    ensures LeadingDigits(a + t) == |a|
    decreases |a|
  {
    if |a| > 0 {
      assert (a + t)[1..] == a[1..] + t;
      LeadingDigitsOfRun(a[1..], t);
    } else {
      assert a + t == t;
    }
  }

  lemma Assoc(a: string, b: string, c: string)
    ensures a + b + c == a + (b + c)
  {
  }

  lemma SplitThree(s: string, i: nat, j: nat)
    requires i <= j <= |s|
    ensures s == s[..i] + s[i..j] + s[j..]
  {
    assert s[..j] == s[..i] + s[i..j];
  }

  lemma WithinLine(s: string, k: nat)
    requires k <= LineLength(s)
    ensures NoNewline(s[..k])
  {
    LineLengthSpec(s);
    assert s[..k] == s[..LineLength(s)][..k];
  }

  lemma NoNewlineWithinLine(s: string, a: string, b: string)
    requires s == a + b && NoNewline(a)
    ensures |a| <= LineLength(s)
  {
    LineLengthSpec(s);
    assert forall i | 0 <= i < |a| :: s[i] != '\n';
  }

  // ---------------------------------------------------------------------------
  // The address: `\d+\.\d+\.\d+\.\d+`

  /** `s` is exactly `n` (at least one) non-empty digit runs joined by '.'. */
  predicate IsDottedRuns(s: string, n: nat)
    decreases n
  {
    if n <= 1 then n == 1 && IsDigits(s)
    else
      var j := LeadingDigits(s);
      0 < j < |s| && s[j] == '.' && IsDottedRuns(s[j + 1..], n - 1)
  }

  /** Four digit runs joined by '.'; the numbers are not range-checked. */
  predicate IsDottedQuad(ip: string) {
    IsDottedRuns(ip, 4)
  }

  /** The length of the prefix of `s` that `n` dotted digit runs match, if any. */
  function DottedPrefix(s: string, n: nat): (r: Option<nat>)
    requires n >= 1
    ensures r.Some? ==> r.value <= |s|
    decreases n
  {
    var j := LeadingDigits(s);
    if j == 0 then None
    else if n == 1 then Some(j)
    else if j < |s| && s[j] == '.' then
      match DottedPrefix(s[j + 1..], n - 1)
      case Some(k) => Some(j + 1 + k)
      case None => None
    else None
  }

  /** The prefix `DottedPrefix` measures is made of `n` dotted digit runs. */
  lemma {:induction false} DottedPrefixSound(s: string, n: nat)
    requires n >= 1
    ensures DottedPrefix(s, n).Some? ==> IsDottedRuns(s[..DottedPrefix(s, n).value], n)
    decreases n
  {
    var j := LeadingDigits(s);
    LeadingDigitsSpec(s);
    if 0 < j && 1 < n && j < |s| && s[j] == '.' {
      DottedPrefixSound(s[j + 1..], n - 1);
      if DottedPrefix(s[j + 1..], n - 1).Some? {
        DottedFromPieces(s, j, DottedPrefix(s[j + 1..], n - 1).value, n);
      }
    }
  }

  /** A digit run, a dot and `n - 1` dotted runs make `n` dotted runs. */
  lemma DottedFromPieces(s: string, j: nat, k: nat, n: nat)
    requires n >= 2 && j == LeadingDigits(s) && 0 < j < |s| && s[j] == '.'
    requires j + 1 + k <= |s| && IsDottedRuns(s[j + 1..][..k], n - 1)
    ensures IsDottedRuns(s[..j + 1 + k], n)
  {
    var p := s[..j + 1 + k];
    LeadingDigitsSpec(s);
    assert p[..j] == s[..j];
    assert p[..j] + p[j..] == p;
    LeadingDigitsOfRun(p[..j], p[j..]);
    assert p[j + 1..] == s[j + 1..][..k];
  }

  /** `n` dotted digit runs followed by a non-digit are measured exactly. */
  lemma {:induction false} DottedPrefixFinds(s: string, m: nat, n: nat)
    requires n >= 1 && m <= |s| && IsDottedRuns(s[..m], n)
    requires m == |s| || !IsDigit(s[m])
    ensures DottedPrefix(s, n) == Some(m)
    decreases n
  {
    LeadingDigitsOfPrefix(s, m);
    if n == 1 {
      LeadingDigitsSpec(s[..m]);
    } else {
      DottedHead(s, m, n);
      var j := LeadingDigits(s[..m]);
      var t, k := s[j + 1..], m - j - 1;
      assert k == |t| || t[k] == s[m];
      DottedPrefixFinds(t, k, n - 1);
      DottedPrefixStep(s, n, j, k);
    }
  }

  /** The first run and dot of `n` dotted runs that end at `m`. */
  lemma DottedHead(s: string, m: nat, n: nat)
    requires n >= 2 && m <= |s| && IsDottedRuns(s[..m], n)
    ensures var j := LeadingDigits(s[..m]);
      0 < j < m && s[j] == '.' && IsDottedRuns(s[j + 1..][..m - j - 1], n - 1)
  {
    var j := LeadingDigits(s[..m]);
    assert s[..m][j + 1..] == s[j + 1..][..m - j - 1];
  }

  /** Cutting `s` just before a non-digit does not change its leading run. */
  lemma LeadingDigitsOfPrefix(s: string, m: nat)
    requires m <= |s| && (m == |s| || !IsDigit(s[m]))
    ensures LeadingDigits(s) == LeadingDigits(s[..m])
  {
    var j := LeadingDigits(s[..m]);
    LeadingDigitsSpec(s[..m]);
    assert s[..j] == s[..m][..j];
    assert s == s[..j] + s[j..];
    LeadingDigitsOfRun(s[..j], s[j..]);
  }

  lemma DottedPrefixStep(s: string, n: nat, j: nat, k: nat)
    requires n >= 2 && j == LeadingDigits(s) && 0 < j < |s| && s[j] == '.'
    requires DottedPrefix(s[j + 1..], n - 1) == Some(k)
    ensures DottedPrefix(s, n) == Some(j + 1 + k)
  {
  }

  // ---------------------------------------------------------------------------
  // The pieces of a line and the shape they must form

  /** One way of cutting a line into the pieces of the pattern. */
  datatype Parts = Parts(ip: string, timestamp: string, verb: string, endpoint: string,
                         version: string, status: string, rest: string)

  /** The text from the closing quote on: `" <status> <rest>`. */
  function StatusText(p: Parts): string {
    "\" " + p.status + " " + p.rest
  }

  /** The text after ` HTTP`. */
  function TailText(p: Parts): string {
    p.version + StatusText(p)
  }

  /** The text after `<method> `. */
  function TargetText(p: Parts): string {
    p.endpoint + " HTTP" + TailText(p)
  }

  /** The text after `] "`. */
  function RequestText(p: Parts): string {
    p.verb + " " + TargetText(p)
  }

  /** The text after ` - - [`. */
  function BracketText(p: Parts): string {
    p.timestamp + "] \"" + RequestText(p)
  }

  /** The whole line the pieces spell. */
  function LineText(p: Parts): string {
    p.ip + " - - [" + BracketText(p)
  }

  predicate StatusOk(p: Parts) {
    IsDigits(p.status)
  }

  predicate TailOk(p: Parts) {
    NoNewline(p.version) && StatusOk(p)
  }

  predicate TargetOk(p: Parts) {
    |p.endpoint| > 0 && NoNewline(p.endpoint) && TailOk(p)
  }

  predicate RequestOk(p: Parts) {
    (p.verb == "GET" || p.verb == "POST") && TargetOk(p)
  }

  predicate BracketOk(p: Parts) {
    NoNewline(p.timestamp) && RequestOk(p)
  }

  predicate LineOk(p: Parts) {
    IsDottedQuad(p.ip) && BracketOk(p)
  }

  predicate StatusFits(u: string, p: Parts) {
    StatusText(p) == u && StatusOk(p)
  }

  predicate TailFits(v: string, p: Parts) {
    TailText(p) == v && TailOk(p)
  }

  predicate TargetFits(w: string, p: Parts) {
    TargetText(p) == w && TargetOk(p)
  }

  predicate RequestFits(y: string, p: Parts) {
    RequestText(p) == y && RequestOk(p)
  }

  predicate BracketFits(x: string, p: Parts) {
    BracketText(p) == x && BracketOk(p)
  }

  /** `p` is a way of reading `line` as the pattern. */
  predicate Matches(line: string, p: Parts) {
    LineText(p) == line && LineOk(p)
  }

  /**
   * The backtracking engine reaches cut `p` no later than cut `q`: a longer
   * timestamp first, then a shorter endpoint, then a longer version.
   */
  predicate TriedNoLater(p: Parts, q: Parts) {
    |p.timestamp| > |q.timestamp| ||
    (|p.timestamp| == |q.timestamp| &&
      (|p.endpoint| < |q.endpoint| ||
        (|p.endpoint| == |q.endpoint| && |p.version| >= |q.version|)))
  }

  // ---------------------------------------------------------------------------
  // The matcher, one piece of the pattern at a time. Each search returns the
  // pieces it has read; the lemmas further down say what the results mean.

  const NoParts := Parts("", "", "", "", "", "", "")

  /** `" (\d+) ` at the start of `u`: the digit run is the longest one. */
  function ReadStatus(u: string): Option<Parts> {
    if 2 <= |u| && u[..2] == "\" " then
      var n := LeadingDigits(u[2..]);
      if 0 < n && 2 + n < |u| && u[2 + n] == ' ' then
        Some(NoParts.(status := u[2..2 + n], rest := u[3 + n..]))
      else None
    else None
  }

  /** `.*" ...` at the start of `v`, trying the longest version at most `i` long first. */
  function FindTailFrom(v: string, i: nat): Option<Parts>
    requires i <= LineLength(v)
    decreases i
  {
    match ReadStatus(v[i..])
    case Some(s) => Some(s.(version := v[..i]))
    case None => if i == 0 then None else FindTailFrom(v, i - 1)
  }

  /** `.*" ...` after ` HTTP`: the longest version that lets the rest match. */
  function FindTail(v: string): Option<Parts> {
    FindTailFrom(v, LineLength(v))
  }

  /** Whether ` HTTP` and a matching tail follow an endpoint `e` characters long. */
  predicate TargetHit(w: string, e: nat) {
    e + 5 <= |w| && w[e..e + 5] == " HTTP" && FindTail(w[e + 5..]).Some?
  }

  /** `.+? HTTP...` at the start of `w`, trying endpoints of length `e`, `e + 1`, ... */
  function FindTargetFrom(w: string, e: nat): Option<Parts>
    requires 1 <= e <= |w| + 1
    decreases |w| + 1 - e
  {
    if e > LineLength(w) then None
    else if TargetHit(w, e) then Some(FindTail(w[e + 5..]).value.(endpoint := w[..e]))
    else FindTargetFrom(w, e + 1)
  }

  /** `.+? HTTP...` after the method: the shortest endpoint that lets the rest match. */
  function FindTarget(w: string): Option<Parts> {
    FindTargetFrom(w, 1)
  }

  /** `(GET|POST) ...` at the start of `y`. */
  function ReadRequest(y: string): Option<Parts> {
    if 4 <= |y| && y[..4] == "GET " then
      match FindTarget(y[4..])
      case Some(t) => Some(t.(verb := "GET"))
      case None => None
    else if 5 <= |y| && y[..5] == "POST " then
      match FindTarget(y[5..])
      case Some(t) => Some(t.(verb := "POST"))
      case None => None
    else None
  }

  /** Whether `] "` and a matching request follow a timestamp `k` characters long. */
  predicate BracketHit(x: string, k: nat) {
    k + 3 <= |x| && x[k..k + 3] == "] \"" && ReadRequest(x[k + 3..]).Some?
  }

  /** `.*\] "...` at the start of `x`, trying the longest timestamp at most `k` long first. */
  function FindBracketFrom(x: string, k: nat): Option<Parts>
    requires k <= LineLength(x)
    decreases k
  {
    if BracketHit(x, k) then Some(ReadRequest(x[k + 3..]).value.(timestamp := x[..k]))
    else if k == 0 then None
    else FindBracketFrom(x, k - 1)
  }

  /** `.*\] "...` after ` - - [`: the longest timestamp that lets the rest match. */
  function FindBracket(x: string): Option<Parts> {
    FindBracketFrom(x, LineLength(x))
  }

  /** The reading `re.match` finds in `line`, if any. */
  function MatchParts(line: string): Option<Parts> {
    match DottedPrefix(line, 4)
    case None => None
    case Some(j) =>
      if j + 6 <= |line| && line[j..j + 6] == " - - [" then
        match FindBracket(line[j + 6..])
        case Some(b) => Some(b.(ip := line[..j]))
        case None => None
      else None
  }

  // ---------------------------------------------------------------------------
  // The record `parse_log_file` keeps for a matching line

  /** The named groups of the match: `match.groupdict()`. */
  datatype Record = Record(ip: string, verb: string, endpoint: string, status: string)

  function RecordOf(p: Parts): Record {
    Record(p.ip, p.verb, p.endpoint, p.status)
  }

  /** `re.match(pattern, line)`, as the record of its groups or no match. */
  function MatchLine(line: string): (r: Option<Record>)
    ensures r.Some? ==>
      && IsDottedQuad(r.value.ip)
      && (r.value.verb == "GET" || r.value.verb == "POST")
      && |r.value.endpoint| > 0
      && IsDigits(r.value.status)
      && |r.value.ip| + 6 <= |line|
      && line[..|r.value.ip| + 6] == r.value.ip + " - - ["
  {
    match MatchParts(line)
    case Some(p) =>
      MatchPartsSound(line);
      RecordShape(line, p);
      Some(RecordOf(p))
    case None => None
  }

  /** The groups of a reading have the shapes of the pattern, and the line starts with the address. */
  lemma RecordShape(line: string, p: Parts)
    requires Matches(line, p)
    ensures IsDottedQuad(p.ip) && (p.verb == "GET" || p.verb == "POST")
    ensures |p.endpoint| > 0 && IsDigits(p.status)
    ensures |p.ip| + 6 <= |line| && line[..|p.ip| + 6] == p.ip + " - - ["
  {
    var head := p.ip + " - - [";
    assert line == head + BracketText(p);
    assert line[..|head|] == head;
  }

  // ---------------------------------------------------------------------------
  // What the matcher finds: a reading exactly when one exists, and the first
  // one the backtracking engine would try.

  /** A status the matcher reads is a digit run followed by a space. */
  lemma ReadStatusSound(u: string)
    ensures ReadStatus(u).Some? ==> StatusFits(u, ReadStatus(u).value)
  {
    if ReadStatus(u).Some? {
      var n := LeadingDigits(u[2..]);
      LeadingDigitsSpec(u[2..]);
      assert u[2..][..n] == u[2..2 + n];
      SplitThree(u, 2, 2 + n);
      assert u[2 + n..] == " " + u[3 + n..];
    }
  }

  lemma {:induction false} FindTailFromSound(v: string, i: nat)
    requires i <= LineLength(v)
    ensures FindTailFrom(v, i).Some? ==>
      TailFits(v, FindTailFrom(v, i).value) && |FindTailFrom(v, i).value.version| <= i
    decreases i
  {
    if ReadStatus(v[i..]).Some? {
      ReadStatusSound(v[i..]);
      WithinLine(v, i);
      TailFromPieces(v, i, ReadStatus(v[i..]).value);
    } else if i > 0 {
      FindTailFromSound(v, i - 1);
    }
  }

  /** A tail the matcher reads spells the text after ` HTTP`. */
  lemma FindTailSound(v: string)
    ensures FindTail(v).Some? ==> TailFits(v, FindTail(v).value)
  {
    FindTailFromSound(v, LineLength(v));
  }

  lemma {:induction false} FindTargetFromSound(w: string, e: nat)
    requires 1 <= e <= |w| + 1
    ensures FindTargetFrom(w, e).Some? ==>
      TargetFits(w, FindTargetFrom(w, e).value) && e <= |FindTargetFrom(w, e).value.endpoint|
    decreases |w| + 1 - e
  {
    if e <= LineLength(w) {
      if TargetHit(w, e) {
        FindTailSound(w[e + 5..]);
        WithinLine(w, e);
        TargetFromPieces(w, e, FindTail(w[e + 5..]).value);
      } else {
        FindTargetFromSound(w, e + 1);
      }
    }
  }

  /** A target the matcher reads spells the text after the method. */
  lemma FindTargetSound(w: string)
    ensures FindTarget(w).Some? ==> TargetFits(w, FindTarget(w).value)
  {
    FindTargetFromSound(w, 1);
  }

  /** A request the matcher reads spells the text after `] "`. */
  lemma ReadRequestSound(y: string)
    ensures ReadRequest(y).Some? ==> RequestFits(y, ReadRequest(y).value)
  {
    if 4 <= |y| && y[..4] == "GET " {
      FindTargetSound(y[4..]);
      if FindTarget(y[4..]).Some? {
        RequestFromPieces(y, "GET", FindTarget(y[4..]).value);
      }
    } else if 5 <= |y| && y[..5] == "POST " {
      FindTargetSound(y[5..]);
      if FindTarget(y[5..]).Some? {
        RequestFromPieces(y, "POST", FindTarget(y[5..]).value);
      }
    }
  }

  lemma {:induction false} FindBracketFromSound(x: string, k: nat)
    requires k <= LineLength(x)
    ensures FindBracketFrom(x, k).Some? ==>
      BracketFits(x, FindBracketFrom(x, k).value) && |FindBracketFrom(x, k).value.timestamp| <= k
    decreases k
  {
    if BracketHit(x, k) {
      ReadRequestSound(x[k + 3..]);
      WithinLine(x, k);
      BracketFromPieces(x, k, ReadRequest(x[k + 3..]).value);
    } else if k > 0 {
      FindBracketFromSound(x, k - 1);
    }
  }

  /** A bracket the matcher reads spells the text after ` - - [`. */
  lemma FindBracketSound(x: string)
    ensures FindBracket(x).Some? ==> BracketFits(x, FindBracket(x).value)
  {
    FindBracketFromSound(x, LineLength(x));
  }

  /** A reading the matcher returns spells the line and fits every group. */
  lemma MatchPartsSound(line: string)
    ensures MatchParts(line).Some? ==> Matches(line, MatchParts(line).value)
  {
    if MatchParts(line).Some? {
      var j := DottedPrefix(line, 4).value;
      var x := line[j + 6..];
      var b := FindBracket(x).value;
      assert MatchParts(line) == Some(b.(ip := line[..j])) by {
        MatchPartsAt(line, j);
      }
      DottedPrefixSound(line, 4);
      FindBracketSound(x);
      LineFromPieces(line, j, b);
    }
  }

  lemma MatchPartsAt(line: string, j: nat)
    requires DottedPrefix(line, 4) == Some(j)
    ensures MatchParts(line).Some? ==>
      j + 6 <= |line| && FindBracket(line[j + 6..]).Some? &&
      MatchParts(line) == Some(FindBracket(line[j + 6..]).value.(ip := line[..j]))
  {
    if j + 6 <= |line| && line[j..j + 6] == " - - [" {
      var b := FindBracket(line[j + 6..]);
      assert MatchParts(line) == if b.Some? then Some(b.value.(ip := line[..j])) else None;
    } else {
      assert MatchParts(line) == None;
    }
  }

  lemma TailFromPieces(v: string, i: nat, s: Parts)
    requires i <= |v| && NoNewline(v[..i]) && StatusFits(v[i..], s)
    ensures TailFits(v, s.(version := v[..i]))
  {
    assert v == v[..i] + v[i..];
  }

  lemma TargetFromPieces(w: string, e: nat, t: Parts)
    requires 1 <= e && e + 5 <= |w| && NoNewline(w[..e])
    requires w[e..e + 5] == " HTTP" && TailFits(w[e + 5..], t)
    ensures TargetFits(w, t.(endpoint := w[..e]))
  {
    SplitThree(w, e, e + 5);
  }

  lemma RequestFromPieces(y: string, verb: string, t: Parts)
    requires verb == "GET" || verb == "POST"
    requires |verb| + 1 <= |y| && y[..|verb| + 1] == verb + " "
    requires TargetFits(y[|verb| + 1..], t)
    ensures RequestFits(y, t.(verb := verb))
  {
    assert y == y[..|verb| + 1] + y[|verb| + 1..];
    Assoc(verb, " ", TargetText(t));
  }

  lemma BracketFromPieces(x: string, k: nat, r: Parts)
    requires k + 3 <= |x| && NoNewline(x[..k])
    requires x[k..k + 3] == "] \"" && RequestFits(x[k + 3..], r)
    ensures BracketFits(x, r.(timestamp := x[..k]))
  {
    SplitThree(x, k, k + 3);
  }

  lemma LineFromPieces(line: string, j: nat, b: Parts)
    requires j + 6 <= |line| && IsDottedQuad(line[..j])
    requires line[j..j + 6] == " - - [" && BracketFits(line[j + 6..], b)
    ensures Matches(line, b.(ip := line[..j]))
  {
    var p := b.(ip := line[..j]);
    assert BracketText(p) == BracketText(b);
    SplitThree(line, j, j + 6);
  }

  lemma CutEqual(a: string, b: string, c: string, d: string)
    requires a + b == c + d && |a| == |c|
    ensures a == c && b == d
  {
    assert a == (a + b)[..|a|] && c == (c + d)[..|c|];
    assert b == (a + b)[|a|..] && d == (c + d)[|c|..];
  }

  /** A literal found at position `i` of `s`. */
  lemma LiteralAt(s: string, i: nat, lit: string, tail: string)
    requires i <= |s| && s[i..] == lit + tail
    ensures i + |lit| <= |s| && s[i..i + |lit|] == lit && s[i + |lit|..] == tail
  {
    CutEqual(lit, tail, s[i..][..|lit|], s[i..][|lit|..]);
  }

  lemma {:induction false} ReadStatusFinds(u: string, p: Parts)
    requires StatusFits(u, p)
    ensures ReadStatus(u).Some?
    ensures ReadStatus(u).value.status == p.status && ReadStatus(u).value.rest == p.rest
  {
    var st, tail := p.status, " " + p.rest;
    assert u == "\" " + (st + tail);
    assert u[..2] == "\" " && u[2..] == st + tail;
    LeadingDigitsOfRun(st, tail);
    var n := |st|;
    assert u[2 + n] == ' ';
    assert u[2..2 + n] == st;
    assert u[3 + n..] == p.rest;
  }

  /** Two readings of one tail whose versions have the same length are the same reading. */
  lemma {:induction false} TailSameLength(v: string, p: Parts, q: Parts)
    requires TailFits(v, p) && TailFits(v, q) && |p.version| == |q.version|
    ensures p.version == q.version && p.status == q.status && p.rest == q.rest
  {
    CutEqual(p.version, StatusText(p), q.version, StatusText(q));
    ReadStatusFinds(StatusText(p), p);
    ReadStatusFinds(StatusText(p), q);
  }

  lemma {:induction false} FindTailFromBest(v: string, i: nat, p: Parts)
    requires i <= LineLength(v)
    requires TailFits(v, p) && |p.version| <= i
    ensures FindTailFrom(v, i).Some?
    ensures |p.version| <= |FindTailFrom(v, i).value.version|
    decreases i
  {
    if ReadStatus(v[i..]).None? {
      if |p.version| == i {
        CutEqual(p.version, StatusText(p), v[..i], v[i..]);
        ReadStatusFinds(v[i..], p);
      } else {
        FindTailFromBest(v, i - 1, p);
      }
    }
  }

  /** The version the matcher picks is at least as long as any that works. */
  lemma FindTailBest(v: string, p: Parts)
    requires TailFits(v, p)
    ensures FindTail(v).Some?
    ensures |p.version| <= |FindTail(v).value.version|
  {
    NoNewlineWithinLine(v, p.version, StatusText(p));
    FindTailFromBest(v, LineLength(v), p);
  }

  /** Where the pieces of a target reading sit in the text. */
  lemma TargetCut(w: string, p: Parts)
    requires TargetFits(w, p)
    ensures |p.endpoint| <= LineLength(w) && |p.endpoint| + 5 <= |w|
    ensures w[|p.endpoint|..|p.endpoint| + 5] == " HTTP"
    ensures TailFits(w[|p.endpoint| + 5..], p)
  {
    var n := |p.endpoint|;
    NoNewlineWithinLine(w, p.endpoint, " HTTP" + TailText(p));
    CutEqual(p.endpoint, " HTTP" + TailText(p), w[..n], w[n..]);
    LiteralAt(w, n, " HTTP", TailText(p));
  }

  /**
   * If an endpoint of length `n` is followed by ` HTTP` and a tail whose
   * version is `ver` long, the lazy search from `e` stops at a shorter
   * endpoint or at this one with a version at least as long.
   */
  lemma {:induction false} FindTargetFromReaches(w: string, e: nat, n: nat, ver: nat)
    requires 1 <= e <= n <= LineLength(w) && TargetHit(w, n)
    requires ver <= |FindTail(w[n + 5..]).value.version|
    ensures FindTargetFrom(w, e).Some?
    ensures var r := FindTargetFrom(w, e).value;
      |r.endpoint| < n || (|r.endpoint| == n && ver <= |r.version|)
    decreases n - e
  {
    if e < n && !TargetHit(w, e) {
      FindTargetFromReaches(w, e + 1, n, ver);
    }
  }

  /** The endpoint the matcher picks is the shortest that works. */
  lemma FindTargetBest(w: string, p: Parts)
    requires TargetFits(w, p)
    ensures FindTarget(w).Some?
    ensures var r := FindTarget(w).value;
      |r.endpoint| < |p.endpoint| ||
      (|r.endpoint| == |p.endpoint| && |p.version| <= |r.version|)
  {
    var n := |p.endpoint|;
    TargetCut(w, p);
    FindTailBest(w[n + 5..], p);
    FindTargetFromReaches(w, 1, n, |p.version|);
  }

  lemma {:induction false} ReadRequestBest(y: string, p: Parts)
    requires RequestFits(y, p)
    ensures ReadRequest(y).Some?
    ensures var r := ReadRequest(y).value;
      r.verb == p.verb &&
      (|r.endpoint| < |p.endpoint| ||
       (|r.endpoint| == |p.endpoint| && |p.version| <= |r.version|))
  {
    var n := |p.verb| + 1;
    CutEqual(p.verb + " ", TargetText(p), y[..n], y[n..]);
    FindTargetBest(y[n..], p);
    if p.verb == "GET" {
      assert y[..4] == "GET ";
    } else {
      assert y[..5] == "POST ";
      assert y[..4] != "GET " by {
        assert y[..4][0] == 'P';
      }
    }
  }

  /** Where the pieces of a bracket reading sit in the text. */
  lemma BracketCut(x: string, p: Parts)
    requires BracketFits(x, p)
    ensures |p.timestamp| <= LineLength(x) && |p.timestamp| + 3 <= |x|
    ensures x[..|p.timestamp|] == p.timestamp
    ensures x[|p.timestamp|..|p.timestamp| + 3] == "] \""
    ensures RequestFits(x[|p.timestamp| + 3..], p)
  {
    var t := |p.timestamp|;
    NoNewlineWithinLine(x, p.timestamp, "] \"" + RequestText(p));
    CutEqual(p.timestamp, "] \"" + RequestText(p), x[..t], x[t..]);
    LiteralAt(x, t, "] \"", RequestText(p));
  }

  /**
   * If a timestamp of length `t` is followed by `] "` and a request whose
   * reading is (endpoint length, version length) no later than (`n`, `ver`),
   * the greedy search from `k` down stops at a longer timestamp or at this one.
   */
  lemma {:induction false} FindBracketFromReaches(x: string, k: nat, t: nat, n: nat, ver: nat)
    requires t <= k <= LineLength(x) && BracketHit(x, t)
    requires var q := ReadRequest(x[t + 3..]).value;
      |q.endpoint| < n || (|q.endpoint| == n && ver <= |q.version|)
    ensures FindBracketFrom(x, k).Some?
    ensures var r := FindBracketFrom(x, k).value;
      |r.timestamp| > t ||
      (|r.timestamp| == t && (|r.endpoint| < n || (|r.endpoint| == n && ver <= |r.version|)))
    decreases k
  {
    if !BracketHit(x, k) {
      FindBracketFromReaches(x, k - 1, t, n, ver);
    }
  }

  /** The timestamp the matcher picks is the longest that works. */
  lemma FindBracketBest(x: string, p: Parts)
    requires BracketFits(x, p)
    ensures FindBracket(x).Some?
    ensures TriedNoLater(FindBracket(x).value, p)
  {
    var t := |p.timestamp|;
    BracketCut(x, p);
    ReadRequestBest(x[t + 3..], p);
    FindBracketFromReaches(x, LineLength(x), t, |p.endpoint|, |p.version|);
  }

  /** Where the address of a line reading ends. */
  lemma LineCut(line: string, p: Parts)
    requires Matches(line, p)
    ensures DottedPrefix(line, 4) == Some(|p.ip|) && |p.ip| + 6 <= |line|
    ensures line[|p.ip|..|p.ip| + 6] == " - - ["
    ensures BracketFits(line[|p.ip| + 6..], p)
  {
    var j := |p.ip|;
    var rest := " - - [" + BracketText(p);
    assert line == p.ip + rest by {
      assert LineText(p) == line;
      Assoc(p.ip, " - - [", BracketText(p));
    }
    assert line[..j] == p.ip && line[j..] == rest by {
      CutEqual(p.ip, rest, line[..j], line[j..]);
    }
    assert DottedPrefix(line, 4) == Some(j) by {
      assert line[j] == rest[0] == ' ';
      DottedPrefixFinds(line, j, 4);
    }
    LiteralAt(line, j, " - - [", BracketText(p));
  }

  /** Whenever the line can be read as the pattern, the matcher finds a reading tried no later. */
  lemma MatchPartsFirst(line: string, p: Parts)
    requires Matches(line, p)
    ensures MatchParts(line).Some?
    ensures TriedNoLater(MatchParts(line).value, p)
  {
    var j := |p.ip|;
    var x := line[j + 6..];
    LineCut(line, p);
    FindBracketBest(x, p);
    assert MatchParts(line) == Some(FindBracket(x).value.(ip := line[..j]));
  }

  lemma TargetSameLengths(w: string, p: Parts, q: Parts)
    requires TargetFits(w, p) && TargetFits(w, q)
    requires |p.endpoint| == |q.endpoint| && |p.version| == |q.version|
    ensures p.endpoint == q.endpoint && p.version == q.version
    ensures p.status == q.status && p.rest == q.rest
  {
    var n := |p.endpoint|;
    TargetCut(w, p);
    TargetCut(w, q);
    TailSameLength(w[n + 5..], p, q);
    CutEqual(p.endpoint, " HTTP" + TailText(p), q.endpoint, " HTTP" + TailText(q));
  }

  lemma RequestSameLengths(y: string, p: Parts, q: Parts)
    requires RequestFits(y, p) && RequestFits(y, q)
    requires |p.endpoint| == |q.endpoint| && |p.version| == |q.version|
    ensures p.verb == q.verb && p.endpoint == q.endpoint && p.version == q.version
    ensures p.status == q.status && p.rest == q.rest
  {
    assert y[0] == p.verb[0] && y[0] == q.verb[0];
    CutEqual(p.verb + " ", TargetText(p), q.verb + " ", TargetText(q));
    TargetSameLengths(TargetText(p), p, q);
  }

  lemma BracketSameLengths(x: string, p: Parts, q: Parts)
    requires BracketFits(x, p) && BracketFits(x, q)
    requires |p.timestamp| == |q.timestamp|
    requires |p.endpoint| == |q.endpoint| && |p.version| == |q.version|
    ensures p.timestamp == q.timestamp && p.verb == q.verb && p.endpoint == q.endpoint
    ensures p.version == q.version && p.status == q.status && p.rest == q.rest
  {
    BracketCut(x, p);
    BracketCut(x, q);
    RequestSameLengths(x[|p.timestamp| + 3..], p, q);
  }

  /**
   * Two readings of a line whose timestamps, endpoints and versions have the
   * same lengths are the same reading: the order of trial has no ties.
   */
  lemma SameLengthsSameParts(line: string, p: Parts, q: Parts)
    requires Matches(line, p) && Matches(line, q)
    requires |p.timestamp| == |q.timestamp| && |p.endpoint| == |q.endpoint|
    requires |p.version| == |q.version|
    ensures p == q
  {
    LineCut(line, p);
    LineCut(line, q);
    CutEqual(p.ip, " - - [" + BracketText(p), q.ip, " - - [" + BracketText(q));
    BracketSameLengths(line[|p.ip| + 6..], p, q);
  }

  /**
   * `MatchParts` is `re.match` on this pattern: it reports no match exactly
   * when the line cannot be read as the pattern at all, and otherwise returns
   * the reading that the backtracking engine tries first.
   */
  lemma MatchPartsIsFirstReading(line: string)
    ensures MatchParts(line).None? <==> forall p :: !Matches(line, p)
    ensures MatchParts(line).Some? ==>
      Matches(line, MatchParts(line).value) &&
      forall p :: Matches(line, p) ==> TriedNoLater(MatchParts(line).value, p)
  {
    MatchPartsSound(line);
    forall p | Matches(line, p)
      ensures MatchParts(line).Some? && TriedNoLater(MatchParts(line).value, p)
    {
      MatchPartsFirst(line, p);
    }
  }

  /** Two readings that the engine each tries no later than the other are the same reading. */
  lemma FirstReadingUnique(line: string, p: Parts, q: Parts)
    requires Matches(line, p) && Matches(line, q)
    requires TriedNoLater(p, q) && TriedNoLater(q, p)
    ensures p == q
  {
    SameLengthsSameParts(line, p, q);
  }

  /** A line yields a record exactly when it can be read as the pattern. */
  lemma MatchLineIffShape(line: string)
    ensures MatchLine(line).Some? <==> exists p :: Matches(line, p)
    ensures forall r :: MatchLine(line) == Some(r) ==>
      exists p :: Matches(line, p) && r == RecordOf(p) &&
        forall q :: Matches(line, q) ==> TriedNoLater(p, q)
  {
    MatchPartsIsFirstReading(line);
    if MatchParts(line).Some? {
      var p := MatchParts(line).value;
      assert MatchLine(line) == Some(RecordOf(p));
      assert Matches(line, p);
    } else {
      assert MatchLine(line).None?;
    }
  }

  /** The text the line holds before the closing `" ` of the request. */
  function BeforeStatus(p: Parts): string {
    p.ip + " - - [" + p.timestamp + "] \"" + p.verb + " " + p.endpoint + " HTTP" + p.version
  }

  lemma LineTextSplit(p: Parts)
    ensures LineText(p) == BeforeStatus(p) + StatusText(p)
  {
    var u := StatusText(p);
    assert TailText(p) == p.version + u;
    assert TargetText(p) == p.endpoint + " HTTP" + p.version + u;
    assert RequestText(p) == p.verb + " " + p.endpoint + " HTTP" + p.version + u;
    assert BracketText(p) == p.timestamp + "] \"" + p.verb + " " + p.endpoint + " HTTP" + p.version + u;
  }

  /** At position `i` the line holds `" `, then `status`, then a space. */
  predicate SpacedStatusAt(line: string, i: nat, status: string) {
    i + |status| + 3 <= |line| && line[i..i + |status| + 3] == "\" " + status + " "
  }

  /**
   * The status of a record is a digit run that the line follows with a
   * space, right after a `" `: a line that ends in `" 401` and a newline,
   * with nothing after the status, yields no record with that status.
   */
  lemma StatusFollowedBySpace(line: string)
    ensures MatchLine(line).Some? ==>
      exists i :: SpacedStatusAt(line, i, MatchLine(line).value.status)
  {
    MatchLineIffShape(line);
    if MatchLine(line).Some? {
      var r := MatchLine(line).value;
      var p :| Matches(line, p) && r == RecordOf(p);
      SpacedStatusOf(line, p);
    }
  }

  lemma SpacedStatusOf(line: string, p: Parts)
    requires LineText(p) == line
    ensures SpacedStatusAt(line, |BeforeStatus(p)|, p.status)
  {
    LineTextSplit(p);
    var b := BeforeStatus(p);
    var w := "\" " + p.status + " ";
    assert line == b + (w + p.rest);
    assert line[|b|..|b| + |w|] == w;
  }
}
