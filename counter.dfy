/**
 * The parts of Python's `collections.Counter` that the analysis uses, over
 * strings. A counter is a sequence of (key, count) entries in the order the
 * keys were first seen, which is the order a Python dict keeps.
 *
 * - `Tally(xs)` is `Counter(xs)`.
 * - `SortByCount(t)` is `most_common()`: a stable sort by count, largest first,
 *   so that keys with equal counts stay in first-seen order.
 * - `FirstMax(t)` is `most_common(1)`, which goes through `max` and so
 *   returns the first entry of largest count.
 */
module Counter {
  import opened Wrappers

  /** One `(key, count)` pair of a counter. */
  datatype Entry = Entry(key: string, count: nat)

  function Keys(t: seq<Entry>): (ks: seq<string>)
    ensures |ks| == |t| && forall i :: 0 <= i < |t| ==> ks[i] == t[i].key
  {
    seq(|t|, i requires 0 <= i < |t| => t[i].key)
  }

  predicate Distinct(ks: seq<string>) {
    forall i, j :: 0 <= i < j < |ks| ==> ks[i] != ks[j]
  }

  /** The sum of the counts. */
  function Total(t: seq<Entry>): nat {
    if t == [] then 0 else Total(t[..|t| - 1]) + t[|t| - 1].count
  }

  /** The position where `k` first occurs in `xs`, or `|xs|` when it does not. */
  function FirstIndex(xs: seq<string>, k: string): nat {
    if xs == [] then 0 else if xs[0] == k then 0 else 1 + FirstIndex(xs[1..], k)
  }

  lemma {:induction false} FirstIndexSpec(xs: seq<string>, k: string)
    ensures FirstIndex(xs, k) <= |xs|
    ensures FirstIndex(xs, k) < |xs| <==> k in xs
    ensures FirstIndex(xs, k) < |xs| ==> xs[FirstIndex(xs, k)] == k
    ensures forall i :: 0 <= i < FirstIndex(xs, k) && i < |xs| ==> xs[i] != k
  {
    if xs != [] && xs[0] != k {
      FirstIndexSpec(xs[1..], k);
      assert xs == [xs[0]] + xs[1..];
    }
  }

  /** Appending an element does not move the first occurrence of a key already there. */
  lemma {:induction false} FirstIndexAppend(xs: seq<string>, x: string, k: string)
    ensures k in xs ==> FirstIndex(xs + [x], k) == FirstIndex(xs, k)
    ensures k !in xs && k == x ==> FirstIndex(xs + [x], k) == |xs|
  {
    if xs != [] {
      assert (xs + [x])[1..] == xs[1..] + [x];
      FirstIndexAppend(xs[1..], x, k);
    } else {
      assert xs + [x] == [x];
    }
  }

  // ---------------------------------------------------------------------------
  // Counting: `Counter(xs)`

  /** One more occurrence of `k`: its count goes up, or it is added at the end with count 1. */
  function Bump(t: seq<Entry>, k: string): seq<Entry> {
    if t == [] then [Entry(k, 1)]
    else if t[0].key == k then [t[0].(count := t[0].count + 1)] + t[1..]
    else [t[0]] + Bump(t[1..], k)
  }

  /** `Counter(xs)`: the distinct elements of `xs` with their numbers of occurrences. */
  function Tally(xs: seq<string>): seq<Entry> {
    if xs == [] then [] else Bump(Tally(xs[..|xs| - 1]), xs[|xs| - 1])
  }

  /** The keys of a non-empty counter: the first key, then the keys of the rest. */
  lemma KeysCons(t: seq<Entry>)
    requires t != []
    ensures Keys(t) == [t[0].key] + Keys(t[1..])
    ensures Distinct(Keys(t)) ==> Distinct(Keys(t[1..])) && t[0].key !in Keys(t[1..])
  {
    assert Keys(t) == [t[0].key] + Keys(t[1..]);
  }

  /** `Bump` keeps the length when `k` is a key, and appends `(k, 1)` otherwise. */
  lemma {:induction false} BumpLength(t: seq<Entry>, k: string)
    ensures k in Keys(t) ==> |Bump(t, k)| == |t|
    ensures k !in Keys(t) ==> |Bump(t, k)| == |t| + 1 && Bump(t, k)[|t|] == Entry(k, 1)
    decreases |t|
  {
    if t != [] {
      assert Keys(t) == [t[0].key] + Keys(t[1..]);
      if t[0].key != k {
        BumpLength(t[1..], k);
        assert Bump(t, k) == [t[0]] + Bump(t[1..], k);
      }
    }
  }

  /** With distinct keys, `Bump` raises the entry at `i` exactly when its key is `k`. */
  lemma {:induction false} BumpAt(t: seq<Entry>, k: string, i: nat)
    requires Distinct(Keys(t)) && i < |t|
    ensures i < |Bump(t, k)|
    ensures t[i].key != k ==> Bump(t, k)[i] == t[i]
    ensures t[i].key == k ==> Bump(t, k)[i] == Entry(k, t[i].count + 1)
    decreases i
  {
    var b := Bump(t, k);
    if t[0].key == k {
      assert b == [Entry(k, t[0].count + 1)] + t[1..];
      if i > 0 {
        assert Keys(t)[0] != Keys(t)[i];
        assert b[i] == t[1..][i - 1];
      }
    } else {
      assert b == [t[0]] + Bump(t[1..], k);
      if i > 0 {
        KeysCons(t);
        BumpAt(t[1..], k, i - 1);
      }
    }
  }

  /** With distinct keys, `Bump` raises the entry of `k` by one or appends `(k, 1)`. */
  lemma BumpSpec(t: seq<Entry>, k: string)
    requires Distinct(Keys(t))
    ensures k in Keys(t) ==> |Bump(t, k)| == |t|
    ensures k !in Keys(t) ==> |Bump(t, k)| == |t| + 1 && Bump(t, k)[|t|] == Entry(k, 1)
    ensures forall i :: 0 <= i < |t| && t[i].key != k ==> Bump(t, k)[i] == t[i]
    ensures forall i :: 0 <= i < |t| && t[i].key == k ==> Bump(t, k)[i] == Entry(k, t[i].count + 1)
  {
    BumpLength(t, k);
    forall i | 0 <= i < |t|
      ensures t[i].key != k ==> Bump(t, k)[i] == t[i]
      ensures t[i].key == k ==> Bump(t, k)[i] == Entry(k, t[i].count + 1)
    {
      BumpAt(t, k, i);
    }
  }

  /** The keys after a `Bump`: unchanged when `k` is there, `k` appended otherwise. */
  lemma BumpKeys(t: seq<Entry>, k: string)
    requires Distinct(Keys(t))
    ensures Keys(Bump(t, k)) == if k in Keys(t) then Keys(t) else Keys(t) + [k]
  {
    BumpSpec(t, k);
  }

  /** The keys of `Counter(xs)` are the elements of `xs`. */
  lemma {:induction false} TallyKeys(xs: seq<string>)
    ensures Distinct(Keys(Tally(xs)))
    ensures forall k :: k in Keys(Tally(xs)) <==> k in xs
    decreases |xs|
  {
    if xs != [] {
      var init, x := xs[..|xs| - 1], xs[|xs| - 1];
      assert xs == init + [x];
      TallyKeys(init);
      BumpKeys(Tally(init), x);
    }
  }

  /** The keys of `Counter(xs)` come in the order they were first seen in `xs`. */
  lemma {:induction false} TallyOrder(xs: seq<string>)
    ensures SeenInOrder(Tally(xs), xs)
    decreases |xs|
  {
    if xs != [] {
      var init, x := xs[..|xs| - 1], xs[|xs| - 1];
      var ks, ks' := Keys(Tally(init)), Keys(Tally(xs));
      assert xs == init + [x];
      TallyKeys(init);
      TallyOrder(init);
      BumpKeys(Tally(init), x);
      forall i, j | 0 <= i < j < |ks'|
        ensures FirstIndex(xs, ks'[i]) < FirstIndex(xs, ks'[j])
      {
        assert ks'[i] == ks[i] && ks[i] in init;
        FirstIndexAppend(init, x, ks[i]);
        FirstIndexAppend(init, x, ks'[j]);
        if j < |ks| {
          assert FirstIndex(init, ks[i]) < FirstIndex(init, ks[j]);
        } else {
          FirstIndexSpec(init, ks[i]);
        }
      }
    }
  }

  /** Each entry of `Counter(xs)` holds the number of occurrences of its key. */
  lemma {:induction false} TallyCounts(xs: seq<string>)
    ensures forall i :: 0 <= i < |Tally(xs)| ==> Tally(xs)[i].count == multiset(xs)[Tally(xs)[i].key]
    decreases |xs|
  {
    if xs != [] {
      var init, x := xs[..|xs| - 1], xs[|xs| - 1];
      assert xs == init + [x];
      TallyKeys(init);
      TallyCounts(init);
      BumpSpec(Tally(init), x);
      forall i | 0 <= i < |Tally(xs)|
        ensures Tally(xs)[i].count == multiset(xs)[Tally(xs)[i].key]
      {
        if i < |Tally(init)| {
          assert Keys(Tally(init))[i] == Tally(init)[i].key;
        } else {
          assert x !in Keys(Tally(init));
          assert x !in init;
        }
      }
    }
  }

  /** The counts of `Counter(xs)` add up to the length of `xs`. */
  lemma {:induction false} TallyTotal(xs: seq<string>)
    ensures Total(Tally(xs)) == |xs|
    decreases |xs|
  {
    if xs != [] {
      var init, x := xs[..|xs| - 1], xs[|xs| - 1];
      TallyKeys(init);
      TallyTotal(init);
      BumpTotal(Tally(init), x);
    }
  }

  lemma {:induction false} BumpTotal(t: seq<Entry>, k: string)
    ensures Total(Bump(t, k)) == Total(t) + 1
    decreases |t|
  {
    if t != [] {
      assert t == [t[0]] + t[1..];
      BumpTotal(t[1..], k);
      TotalCons(t[0], t[1..]);
      if t[0].key == k {
        TotalCons(t[0].(count := t[0].count + 1), t[1..]);
      } else {
        TotalCons(t[0], Bump(t[1..], k));
      }
    }
  }

  lemma {:induction false} TotalCons(e: Entry, t: seq<Entry>)
    ensures Total([e] + t) == e.count + Total(t)
    decreases |t|
  {
    if t != [] {
      assert ([e] + t)[..|t|] == [e] + t[..|t| - 1];
      TotalCons(e, t[..|t| - 1]);
    } else {
      assert ([e] + t)[..0] == [];
    }
  }

  // ---------------------------------------------------------------------------
  // Ordering: `most_common()`

  /** Place `e` after every entry whose count is at least its own. */
  function Insert(e: Entry, s: seq<Entry>): seq<Entry> {
    if s == [] then [e]
    else if s[0].count >= e.count then [s[0]] + Insert(e, s[1..])
    else [e] + s
  }

  /** A stable sort by count, largest first, inserting the entries in order. */
  function SortByCount(t: seq<Entry>): seq<Entry> {
    if t == [] then [] else Insert(t[|t| - 1], SortByCount(t[..|t| - 1]))
  }

  /** `Counter(xs).most_common()`. */
  function MostCommon(xs: seq<string>): seq<Entry> {
    SortByCount(Tally(xs))
  }

  /**
   * `a` comes before `b` in `most_common()`: a larger count, or the same
   * count and a key seen earlier in `xs`.
   */
  predicate Precedes(a: Entry, b: Entry, xs: seq<string>) {
    a.count > b.count || (a.count == b.count && FirstIndex(xs, a.key) < FirstIndex(xs, b.key))
  }

  predicate RankedDesc(s: seq<Entry>, xs: seq<string>) {
    forall i, j :: 0 <= i < j < |s| ==> Precedes(s[i], s[j], xs)
  }

  /** The keys of `t` occur in `xs` in the order of `t`. */
  predicate SeenInOrder(t: seq<Entry>, xs: seq<string>) {
    forall i, j :: 0 <= i < j < |t| ==> FirstIndex(xs, t[i].key) < FirstIndex(xs, t[j].key)
  }

  lemma {:induction false} InsertPerm(e: Entry, s: seq<Entry>)
    ensures multiset(Insert(e, s)) == multiset(s) + multiset{e}
    decreases |s|
  {
    if s != [] && s[0].count >= e.count {
      InsertPerm(e, s[1..]);
      assert s == [s[0]] + s[1..];
    }
  }

  /** `most_common()` rearranges the entries and neither adds nor drops any. */
  lemma {:induction false} SortPerm(t: seq<Entry>)
    ensures multiset(SortByCount(t)) == multiset(t)
    ensures |SortByCount(t)| == |t|
    decreases |t|
  {
    if t != [] {
      var init := t[..|t| - 1];
      SortPerm(init);
      InsertPerm(t[|t| - 1], SortByCount(init));
      assert t == init + [t[|t| - 1]];
      assert |SortByCount(t)| == |multiset(SortByCount(t))|;
    }
  }

  lemma InsertMembers(e: Entry, s: seq<Entry>)
    ensures forall y :: y in Insert(e, s) <==> y in s || y == e
  {
    InsertPerm(e, s);
    assert forall y :: y in Insert(e, s) <==> y in multiset(Insert(e, s));
    assert forall y :: y in s <==> y in multiset(s);
  }

  /** The first entry of a ranked sequence precedes all the others. */
  lemma HeadPrecedes(s: seq<Entry>, xs: seq<string>)
    requires s != [] && RankedDesc(s, xs)
    ensures forall y :: y in s[1..] ==> Precedes(s[0], y, xs)
  {
    forall y | y in s[1..]
      ensures Precedes(s[0], y, xs)
    {
      var k :| 0 <= k < |s| - 1 && s[1..][k] == y;
      assert s[k + 1] == y;
    }
  }

  lemma {:induction false} InsertRanked(e: Entry, s: seq<Entry>, xs: seq<string>)
    requires RankedDesc(s, xs)
    requires forall x :: x in s ==> FirstIndex(xs, x.key) < FirstIndex(xs, e.key)
    ensures RankedDesc(Insert(e, s), xs)
    decreases |s|
  {
    if s != [] {
      var rest := s[1..];
      if s[0].count >= e.count {
        assert RankedDesc(rest, xs) && forall x :: x in rest ==> x in s;
        InsertRanked(e, rest, xs);
        InsertMembers(e, rest);
        HeadPrecedes(s, xs);
        var r := Insert(e, s);
        assert r == [s[0]] + Insert(e, rest);
        forall j | 1 <= j < |r|
          ensures Precedes(r[0], r[j], xs)
        {
          assert r[j] in Insert(e, rest);
        }
      } else {
        HeadPrecedes(s, xs);
        assert forall y :: y in s ==> y.count < e.count;
      }
    }
  }

  lemma {:induction false} InsertTotal(e: Entry, s: seq<Entry>)
    ensures Total(Insert(e, s)) == Total(s) + e.count
    decreases |s|
  {
    if s != [] {
      assert s == [s[0]] + s[1..];
      TotalCons(s[0], s[1..]);
      if s[0].count >= e.count {
        InsertTotal(e, s[1..]);
        TotalCons(s[0], Insert(e, s[1..]));
      } else {
        TotalCons(e, s);
      }
    } else {
      TotalCons(e, s);
    }
  }

  /** `most_common()` keeps the total of the counts. */
  lemma {:induction false} SortTotal(t: seq<Entry>)
    ensures Total(SortByCount(t)) == Total(t)
    decreases |t|
  {
    if t != [] {
      SortTotal(t[..|t| - 1]);
      InsertTotal(t[|t| - 1], SortByCount(t[..|t| - 1]));
    }
  }

  /**
   * If the keys of `t` were first seen in `xs` in the order of `t`, then
   * `most_common()` orders them by count, largest first, and keys of equal
   * count by when they were first seen.
   */
  lemma {:induction false} SortRanked(t: seq<Entry>, xs: seq<string>)
    requires SeenInOrder(t, xs)
    ensures RankedDesc(SortByCount(t), xs)
    decreases |t|
  {
    if t != [] {
      var init, e := t[..|t| - 1], t[|t| - 1];
      SortRanked(init, xs);
      SortPerm(init);
      forall x | x in SortByCount(init)
        ensures FirstIndex(xs, x.key) < FirstIndex(xs, e.key)
      {
        assert x in multiset(init);
        var k :| 0 <= k < |init| && init[k] == x;
        assert t[k] == x;
      }
      InsertRanked(e, SortByCount(init), xs);
    }
  }

  // ---------------------------------------------------------------------------
  // The largest entry: `most_common(1)`

  /** `max` over the entries by count: a later entry replaces the best so far only when larger. */
  function FirstMaxIndex(t: seq<Entry>): (m: nat)
    requires t != []
    ensures m < |t|
  {
    if |t| == 1 then 0
    else
      var b := FirstMaxIndex(t[..|t| - 1]);
      if t[|t| - 1].count > t[b].count then |t| - 1 else b
  }

  /** `most_common(1)`, as its single entry or none when the counter is empty. */
  function FirstMax(t: seq<Entry>): Option<Entry> {
    if t == [] then None else Some(t[FirstMaxIndex(t)])
  }

  /** The entry `max` picks has the largest count, and every entry before it a smaller one. */
  lemma {:induction false} FirstMaxIndexSpec(t: seq<Entry>)
    requires t != []
    ensures forall j :: 0 <= j < |t| ==> t[j].count <= t[FirstMaxIndex(t)].count
    ensures forall j :: 0 <= j < FirstMaxIndex(t) ==> t[j].count < t[FirstMaxIndex(t)].count
    decreases |t|
  {
    if |t| > 1 {
      var init := t[..|t| - 1];
      FirstMaxIndexSpec(init);
      assert forall j :: 0 <= j < |init| ==> init[j] == t[j];
    }
  }

  /**
   * `most_common(1)` is the head of `most_common()`: the stable sort puts the
   * first entry of largest count in front.
   */
  lemma {:induction false} FirstMaxIsHead(t: seq<Entry>)
    requires t != []
    ensures SortByCount(t) != [] && FirstMax(t) == Some(SortByCount(t)[0])
    decreases |t|
  {
    var init, e := t[..|t| - 1], t[|t| - 1];
    if init != [] {
      FirstMaxIsHead(init);
      var s := SortByCount(init);
      var b := FirstMaxIndex(init);
      assert t[b] == init[b] == s[0];
      assert SortByCount(t) == Insert(e, s);
    }
  }
}
