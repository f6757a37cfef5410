/**
 * The three analyses run on the parsed records: requests per address, the
 * most requested endpoint, and the addresses with too many failed logins
 * (status 401).
 */
module Analysis {
  import opened Wrappers
  import opened LogLine
  import opened Counter

  /** The address of every record, in order. */
  function Ips(logs: seq<Record>): (ips: seq<string>)
    ensures |ips| == |logs| && forall i :: 0 <= i < |logs| ==> ips[i] == logs[i].ip
  {
    seq(|logs|, i requires 0 <= i < |logs| => logs[i].ip)
  }

  /** The endpoint of every record, in order. */
  function Endpoints(logs: seq<Record>): (eps: seq<string>)
    ensures |eps| == |logs| && forall i :: 0 <= i < |logs| ==> eps[i] == logs[i].endpoint
  {
    seq(|logs|, i requires 0 <= i < |logs| => logs[i].endpoint)
  }

  /** A failed login: the status text is exactly `401`. */
  predicate IsFailedLogin(r: Record) {
    r.status == "401"
  }

  /** The address of every failed login, in order. */
  function FailedLoginIps(logs: seq<Record>): seq<string> {
    if logs == [] then []
    else
      var last := logs[|logs| - 1];
      FailedLoginIps(logs[..|logs| - 1]) + (if IsFailedLogin(last) then [last.ip] else [])
  }

  /** The number of failed logins from `ip`. */
  function FailedLogins(logs: seq<Record>, ip: string): nat {
    multiset(FailedLoginIps(logs))[ip]
  }

  // ---------------------------------------------------------------------------
  // count_requests_per_ip

  /** `Counter(log['ip'] for log in parsed_logs).most_common()`. */
  function CountRequestsPerIp(logs: seq<Record>): seq<Entry> {
    MostCommon(Ips(logs))
  }

  /** The entries of `most_common()` are the entries of the counter. */
  lemma MostCommonMembers(xs: seq<string>)
    ensures forall e :: e in MostCommon(xs) <==> e in Tally(xs)
  {
    SortPerm(Tally(xs));
    assert forall e :: e in MostCommon(xs) <==> e in multiset(MostCommon(xs));
    assert forall e :: e in Tally(xs) <==> e in multiset(Tally(xs));
  }

  /** Every entry of the counter holds its key's number of occurrences. */
  lemma TallyEntries(xs: seq<string>)
    ensures forall e :: e in Tally(xs) ==> e.count == multiset(xs)[e.key] && e.key in xs
  {
    TallyCounts(xs);
    TallyKeys(xs);
    forall e | e in Tally(xs)
      ensures e.key in xs
    {
      var i :| 0 <= i < |Tally(xs)| && Tally(xs)[i] == e;
      assert Keys(Tally(xs))[i] == e.key;
    }
  }

  /**
   * `most_common()` lists every element of `xs` once with its number of
   * occurrences, largest count first and equal counts in first-seen order,
   * and the counts add up to `|xs|`.
   */
  lemma MostCommonSpec(xs: seq<string>)
    ensures var r := MostCommon(xs);
      && Distinct(Keys(r))
      && (forall k :: k in Keys(r) <==> k in xs)
      && (forall e :: e in r ==> e.count == multiset(xs)[e.key])
      && RankedDesc(r, xs)
      && Total(r) == |xs|
  {
    var r := MostCommon(xs);
    MostCommonMembers(xs);
    TallyEntries(xs);
    TallyKeys(xs);
    TallyOrder(xs);
    SortRanked(Tally(xs), xs);
    TallyTotal(xs);
    SortTotal(Tally(xs));
    forall i, j | 0 <= i < j < |r|
      ensures Keys(r)[i] != Keys(r)[j]
    {
      assert r[i] in r && r[j] in r;
      assert Precedes(r[i], r[j], xs);
    }
    forall k | k in xs
      ensures k in Keys(r)
    {
      assert k in Keys(Tally(xs));
      var i :| 0 <= i < |Tally(xs)| && Keys(Tally(xs))[i] == k;
      assert Tally(xs)[i] in r;
      var j :| 0 <= j < |r| && r[j] == Tally(xs)[i];
      assert Keys(r)[j] == k;
    }
    forall k | k in Keys(r)
      ensures k in xs
    {
      var j :| 0 <= j < |r| && Keys(r)[j] == k;
      assert r[j] in r;
    }
  }

  /**
   * `count_requests_per_ip` lists every address that made a request once,
   * with its number of requests, most requests first and ties in the order
   * the addresses first appeared; the counts add up to the number of records.
   */
  lemma CountRequestsPerIpSpec(logs: seq<Record>)
    ensures var r := CountRequestsPerIp(logs);
      && Distinct(Keys(r))
      && (forall ip :: ip in Keys(r) <==> exists i :: 0 <= i < |logs| && logs[i].ip == ip)
      && (forall e :: e in r ==> e.count == multiset(Ips(logs))[e.key])
      && RankedDesc(r, Ips(logs))
      && Total(r) == |logs|
  {
    var ips := Ips(logs);
    MostCommonSpec(ips);
    forall ip
      ensures ip in ips <==> exists i :: 0 <= i < |logs| && logs[i].ip == ip
    {
      if ip in ips {
        var i :| 0 <= i < |ips| && ips[i] == ip;
        assert logs[i].ip == ip;
      }
    }
  }

  // ---------------------------------------------------------------------------
  // find_most_frequent_endpoint

  /** `Counter(log['endpoint'] for log in parsed_logs).most_common(1)`, or none. */
  function FindMostFrequentEndpoint(logs: seq<Record>): Option<Entry> {
    FirstMax(Tally(Endpoints(logs)))
  }

  /**
   * `most_common(1)` on `Counter(xs)`: nothing for an empty `xs`; otherwise an
   * element of `xs` with its number of occurrences, which no other element
   * exceeds, and among the elements as frequent the one seen first.
   */
  lemma MostCommonOneSpec(xs: seq<string>)
    ensures FirstMax(Tally(xs)).None? <==> xs == []
    ensures FirstMax(Tally(xs)).Some? ==>
      var e := FirstMax(Tally(xs)).value;
      && e.key in xs
      && e.count == multiset(xs)[e.key]
      && (forall k :: multiset(xs)[k] <= e.count)
      && (forall k :: multiset(xs)[k] == e.count ==> FirstIndex(xs, e.key) <= FirstIndex(xs, k))
  {
    var t := Tally(xs);
    TallyKeys(xs);
    TallyEntries(xs);
    TallyOrder(xs);
    if xs != [] {
      assert xs[0] in Keys(t);
      var m := FirstMaxIndex(t);
      FirstMaxIndexSpec(t);
      assert t[m] in t;
      forall k
        ensures multiset(xs)[k] <= t[m].count
        ensures multiset(xs)[k] == t[m].count ==> FirstIndex(xs, t[m].key) <= FirstIndex(xs, k)
      {
        if k in xs {
          var p :| 0 <= p < |t| && Keys(t)[p] == k;
          assert t[p] in t;
          assert p < m ==> t[p].count < t[m].count;
          assert m < p ==> FirstIndex(xs, t[m].key) < FirstIndex(xs, t[p].key);
        }
      }
    }
  }

  /**
   * `find_most_frequent_endpoint`: none when there are no records; otherwise
   * an endpoint that was requested, with its number of requests, which no
   * other endpoint exceeds, and among the endpoints as popular the one
   * requested first.
   */
  lemma FindMostFrequentEndpointSpec(logs: seq<Record>)
    ensures FindMostFrequentEndpoint(logs).None? <==> logs == []
    ensures FindMostFrequentEndpoint(logs).Some? ==>
      var e := FindMostFrequentEndpoint(logs).value;
      var eps := Endpoints(logs);
      && (exists i :: 0 <= i < |logs| && logs[i].endpoint == e.key)
      && e.count == multiset(eps)[e.key]
      && (forall k :: multiset(eps)[k] <= e.count)
      && (forall k :: multiset(eps)[k] == e.count ==> FirstIndex(eps, e.key) <= FirstIndex(eps, k))
  {
    var eps := Endpoints(logs);
    MostCommonOneSpec(eps);
    if logs != [] {
      var e := FindMostFrequentEndpoint(logs).value;
      var i :| 0 <= i < |eps| && eps[i] == e.key;
      assert logs[i].endpoint == e.key;
    }
  }

  /** `most_common(1)` agrees with the head of `most_common()`. */
  lemma FindMostFrequentEndpointIsHead(logs: seq<Record>)
    ensures FindMostFrequentEndpoint(logs) ==
      var r := MostCommon(Endpoints(logs));
      if r == [] then None else Some(r[0])
  {
    var eps := Endpoints(logs);
    var t := Tally(eps);
    SortPerm(t);
    if t != [] {
      TallyOrder(eps);
      FirstMaxIsHead(t);
    }
  }

  // ---------------------------------------------------------------------------
  // detect_suspicious_activity

  /** The entries whose count exceeds `threshold`, in order: the dict comprehension. */
  function Above(t: seq<Entry>, threshold: int): seq<Entry> {
    if t == [] then []
    else
      var last := t[|t| - 1];
      Above(t[..|t| - 1], threshold) + (if last.count > threshold then [last] else [])
  }

  /** What `detect_suspicious_activity(parsed_logs, threshold)` returns. */
  function Suspicious(logs: seq<Record>, threshold: int): seq<Entry> {
    Above(Tally(FailedLoginIps(logs)), threshold)
  }

  /** The dict that `failed_attempts` holds: its keys in insertion order, with their values. */
  function AsEntries(order: seq<string>, counts: map<string, nat>): (t: seq<Entry>)
    requires forall k :: k in order ==> k in counts
    ensures Keys(t) == order
  {
    seq(|order|, i requires 0 <= i < |order| => Entry(order[i], counts[order[i]]))
  }

  /** `failed_attempts[ip] += 1` for an address already in the dict is `Bump` on its entries. */
  lemma AddRepeatedFailure(order: seq<string>, counts: map<string, nat>, ip: string)
    requires Distinct(order) && forall k :: k in order <==> k in counts
    requires ip in counts
    ensures AsEntries(order, counts[ip := counts[ip] + 1]) == Bump(AsEntries(order, counts), ip)
  {
    var t := AsEntries(order, counts);
    var b := Bump(t, ip);
    var u := AsEntries(order, counts[ip := counts[ip] + 1]);
    BumpLength(t, ip);
    assert ip in Keys(t);
    forall i | 0 <= i < |u|
      ensures u[i] == b[i]
    {
      BumpAt(t, ip, i);
      RaisedEntry(order, counts, ip, i);
    }
  }

  /** Raising the value of `ip` changes the entry at `i` exactly when its key is `ip`. */
  lemma RaisedEntry(order: seq<string>, counts: map<string, nat>, ip: string, i: nat)
    requires forall k :: k in order ==> k in counts
    requires ip in counts && i < |order|
    ensures var u := AsEntries(order, counts[ip := counts[ip] + 1]);
      var t := AsEntries(order, counts);
      && |u| == |t| && i < |t|
      && (t[i].key == ip ==> u[i] == Entry(ip, t[i].count + 1))
      && (t[i].key != ip ==> u[i] == t[i])
  {
  }

  /** `failed_attempts[ip] += 1` for a new address adds it last with count one: `Bump` again. */
  lemma AddFirstFailure(order: seq<string>, counts: map<string, nat>, ip: string)
    requires Distinct(order) && forall k :: k in order <==> k in counts
    requires ip !in counts
    ensures AsEntries(order + [ip], counts[ip := 1]) == Bump(AsEntries(order, counts), ip)
  {
    var t := AsEntries(order, counts);
    var b := Bump(t, ip);
    var u := AsEntries(order + [ip], counts[ip := 1]);
    BumpSpec(t, ip);
    assert |b| == |t| + 1 && b[|t|] == Entry(ip, 1);
    forall i | 0 <= i < |u|
      ensures u[i] == b[i]
    {
      if i < |t| {
        assert t[i].key != ip;
        assert b[i] == t[i];
      }
    }
  }

  lemma FailedLoginIpsSnoc(logs: seq<Record>, i: nat)
    requires i < |logs|
    ensures FailedLoginIps(logs[..i + 1]) ==
      FailedLoginIps(logs[..i]) + (if IsFailedLogin(logs[i]) then [logs[i].ip] else [])
  {
    assert logs[..i + 1][..i] == logs[..i];
  }

  lemma TallySnoc(xs: seq<string>, x: string)
    ensures Tally(xs + [x]) == Bump(Tally(xs), x)
  {
    assert (xs + [x])[..|xs|] == xs;
  }

  /**
   * The loop of `detect_suspicious_activity`: a defaultdict from address to
   * failed logins, held as its keys in insertion order and its values. It
   * holds the counter of the failed-login addresses.
   */
  method CountFailedLogins(logs: seq<Record>) returns (order: seq<string>, failed: map<string, nat>)
    ensures Distinct(order)
    ensures forall k :: k in order <==> k in failed
    ensures AsEntries(order, failed) == Tally(FailedLoginIps(logs))
  {
    order, failed := [], map[];
    ghost var seen: seq<string> := [];
    for i := 0 to |logs|
      invariant seen == FailedLoginIps(logs[..i])
      invariant Distinct(order)
      invariant forall k :: k in order <==> k in failed
      invariant AsEntries(order, failed) == Tally(seen)
    {
      FailedLoginIpsSnoc(logs, i);
      if IsFailedLogin(logs[i]) {
        var ip := logs[i].ip;
        TallySnoc(seen, ip);
        if ip in failed {
          AddRepeatedFailure(order, failed, ip);
          failed := failed[ip := failed[ip] + 1];
        } else {
          AddFirstFailure(order, failed, ip);
          order := order + [ip];
          failed := failed[ip := 1];
        }
        seen := seen + [ip];
      }
    }
    assert logs[..|logs|] == logs;
  }

  /** The dict comprehension: the entries whose count exceeds `threshold`, in dict order. */
  method KeepAbove(order: seq<string>, failed: map<string, nat>, threshold: int) returns (flagged: seq<Entry>)
    requires forall k :: k in order ==> k in failed
    ensures flagged == Above(AsEntries(order, failed), threshold)
  {
    ghost var all := AsEntries(order, failed);
    flagged := [];
    for j := 0 to |order|
      invariant flagged == Above(all[..j], threshold)
    {
      assert all[..j + 1][..j] == all[..j];
      if failed[order[j]] > threshold {
        flagged := flagged + [Entry(order[j], failed[order[j]])];
      }
    }
    assert all[..|order|] == all;
  }

  /**
   * `detect_suspicious_activity`: counts the failed logins of every address,
   * then keeps the addresses whose count exceeds `threshold`.
   */
  method DetectSuspiciousActivity(logs: seq<Record>, threshold: int) returns (flagged: seq<Entry>)
    ensures flagged == Suspicious(logs, threshold)
  {
    var order, failed := CountFailedLogins(logs);
    flagged := KeepAbove(order, failed, threshold);
  }

  lemma {:induction false} AboveMembers(t: seq<Entry>, threshold: int)
    ensures forall e :: e in Above(t, threshold) <==> e in t && e.count > threshold
    decreases |t|
  {
    if t != [] {
      var init := t[..|t| - 1];
      AboveMembers(init, threshold);
      assert t == init + [t[|t| - 1]];
    }
  }

  /** Keeping some entries keeps their order. */
  lemma {:induction false} AboveInOrder(t: seq<Entry>, threshold: int, xs: seq<string>)
    requires SeenInOrder(t, xs)
    ensures SeenInOrder(Above(t, threshold), xs)
    decreases |t|
  {
    if t != [] {
      var init := t[..|t| - 1];
      AboveInOrder(init, threshold, xs);
      AboveMembers(init, threshold);
      var a := Above(init, threshold);
      forall i | 0 <= i < |a|
        ensures FirstIndex(xs, a[i].key) < FirstIndex(xs, t[|t| - 1].key)
      {
        assert a[i] in init;
        var k :| 0 <= k < |init| && init[k] == a[i];
        assert t[k] == a[i];
      }
    }
  }

  /** Raising the threshold only drops more entries. */
  lemma {:induction false} AboveAbove(t: seq<Entry>, t1: int, t2: int)
    requires t1 <= t2
    ensures Above(Above(t, t1), t2) == Above(t, t2)
    decreases |t|
  {
    if t != [] {
      var init, last := t[..|t| - 1], t[|t| - 1];
      AboveAbove(init, t1, t2);
      if last.count > t1 {
        var a := Above(init, t1) + [last];
        assert Above(t, t1) == a;
        assert a[..|a| - 1] == Above(init, t1) && a[|a| - 1] == last;
        var tail := if last.count > t2 then [last] else [];
        assert Above(a, t2) == Above(Above(init, t1), t2) + tail;
        assert Above(t, t2) == Above(init, t2) + tail;
      } else {
        assert Above(t, t1) == Above(init, t1);
      }
    }
  }

  /**
   * An address is flagged exactly when it has a failed login and more failed
   * logins than `threshold`; it is flagged once, with that number, and the
   * flagged addresses come in the order of their first failed login.
   */
  lemma SuspiciousSpec(logs: seq<Record>, threshold: int)
    ensures var r := Suspicious(logs, threshold);
      && Distinct(Keys(r))
      && (forall ip :: ip in Keys(r) <==> ip in FailedLoginIps(logs) && FailedLogins(logs, ip) > threshold)
      && (forall e :: e in r ==> e.count == FailedLogins(logs, e.key))
      && SeenInOrder(r, FailedLoginIps(logs))
  {
    var xs := FailedLoginIps(logs);
    var t := Tally(xs);
    var r := Suspicious(logs, threshold);
    TallyEntries(xs);
    TallyKeys(xs);
    TallyOrder(xs);
    AboveMembers(t, threshold);
    AboveInOrder(t, threshold, xs);
    forall i, j | 0 <= i < j < |r|
      ensures Keys(r)[i] != Keys(r)[j]
    {
      assert FirstIndex(xs, r[i].key) < FirstIndex(xs, r[j].key);
    }
    forall ip
      ensures ip in Keys(r) <==> ip in xs && FailedLogins(logs, ip) > threshold
    {
      if ip in Keys(r) {
        var j :| 0 <= j < |r| && Keys(r)[j] == ip;
        assert r[j] in r;
      }
      if ip in xs && FailedLogins(logs, ip) > threshold {
        var i :| 0 <= i < |t| && Keys(t)[i] == ip;
        assert t[i] in t && t[i] in r;
        var j :| 0 <= j < |r| && r[j] == t[i];
        assert Keys(r)[j] == ip;
      }
    }
  }

  /** The flagged entries are exactly the addresses' failed-login counts that exceed `threshold`. */
  lemma SuspiciousEntries(logs: seq<Record>, threshold: int)
    ensures forall e: Entry :: e in Suspicious(logs, threshold) <==>
      (e.key in FailedLoginIps(logs) && e.count == FailedLogins(logs, e.key) && e.count > threshold)
  {
    var s := Suspicious(logs, threshold);
    SuspiciousSpec(logs, threshold);
    forall e: Entry | e.key in FailedLoginIps(logs) && e.count == FailedLogins(logs, e.key) && e.count > threshold
      ensures e in s
    {
      var j :| 0 <= j < |s| && Keys(s)[j] == e.key;
      assert s[j] in s;
    }
  }

  /** With a higher threshold, the flagged addresses are those of a lower threshold that exceed it. */
  lemma SuspiciousMonotone(logs: seq<Record>, t1: int, t2: int)
    requires t1 <= t2
    ensures Suspicious(logs, t2) == Above(Suspicious(logs, t1), t2)
    ensures forall e :: e in Suspicious(logs, t2) ==> e in Suspicious(logs, t1)
  {
    AboveAbove(Tally(FailedLoginIps(logs)), t1, t2);
    AboveMembers(Suspicious(logs, t1), t2);
  }

  /** The positions of the failed logins from `ip`. */
  function FailedPositions(logs: seq<Record>, ip: string): set<nat> {
    set i: nat | i < |logs| && logs[i].ip == ip && IsFailedLogin(logs[i])
  }

  lemma FailedPositionsSnoc(logs: seq<Record>, ip: string)
    requires logs != []
    ensures var n := |logs| - 1;
      FailedPositions(logs, ip) ==
        FailedPositions(logs[..n], ip) + (if logs[n].ip == ip && IsFailedLogin(logs[n]) then {n} else {})
  {
    var n := |logs| - 1;
    forall i | 0 <= i < n
      ensures logs[..n][i] == logs[i]
    {
    }
  }

  lemma FailedLoginsSnoc(logs: seq<Record>, ip: string)
    requires logs != []
    ensures var n := |logs| - 1;
      FailedLogins(logs, ip) ==
        FailedLogins(logs[..n], ip) + (if logs[n].ip == ip && IsFailedLogin(logs[n]) then 1 else 0)
  {
  }

  /** `FailedLogins` counts the records from `ip` whose status is `401`. */
  lemma {:induction false} FailedLoginsCount(logs: seq<Record>, ip: string)
    ensures FailedLogins(logs, ip) == |FailedPositions(logs, ip)|
    decreases |logs|
  {
    if logs != [] {
      var n := |logs| - 1;
      FailedLoginsCount(logs[..n], ip);
      FailedPositionsSnoc(logs, ip);
      FailedLoginsSnoc(logs, ip);
    }
  }

  /** `n` copies of `x`. */
  function Copies<T>(x: T, n: nat): (s: seq<T>)
    ensures |s| == n && forall i :: 0 <= i < n ==> s[i] == x
  {
    seq(n, _ => x)
  }

  /** The counter of `n` copies of one key has that key alone, with count `n`. */
  lemma {:induction false} TallyOfCopies(k: string, n: nat)
    requires n > 0
    ensures Tally(Copies(k, n)) == [Entry(k, n)]
    decreases n
  {
    var xs := Copies(k, n);
    if n > 1 {
      assert xs[..n - 1] == Copies(k, n - 1);
      TallyOfCopies(k, n - 1);
    } else {
      assert xs[..0] == [];
    }
  }

  lemma {:induction false} FailedLoginIpsOfCopies(r: Record, n: nat)
    requires IsFailedLogin(r)
    ensures FailedLoginIps(Copies(r, n)) == Copies(r.ip, n)
    decreases n
  {
    if n > 0 {
      assert Copies(r, n)[..n - 1] == Copies(r, n - 1);
      FailedLoginIpsOfCopies(r, n - 1);
      assert Copies(r.ip, n - 1) + [r.ip] == Copies(r.ip, n);
    }
  }

  /**
   * `n` failed logins from one address flag it, with count `n`, exactly when
   * `n` exceeds the threshold: six failures are flagged at threshold 5 and
   * not at threshold 6.
   */
  lemma RepeatedFailures(r: Record, n: nat, threshold: int)
    requires IsFailedLogin(r) && n > 0
    ensures Suspicious(Copies(r, n), threshold) == if n > threshold then [Entry(r.ip, n)] else []
  {
    FailedLoginIpsOfCopies(r, n);
    TallyOfCopies(r.ip, n);
    var t := [Entry(r.ip, n)];
    assert Suspicious(Copies(r, n), threshold) == Above(t, threshold);
    assert t[..0] == [] && Above([], threshold) == [];
  }

  /** With no records there are no counts, no endpoint and no flagged address. */
  lemma NoRecordsResults(threshold: int)
    ensures CountRequestsPerIp([]) == []
    ensures FindMostFrequentEndpoint([]) == None
    ensures Suspicious([], threshold) == []
  {
    assert Ips([]) == [] && Endpoints([]) == [] && FailedLoginIps([]) == [];
    assert Tally([]) == [];
  }
}
