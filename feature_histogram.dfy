/**
  The feature scan (api/features.js). It walks every Syscara ad, counts
  how often each feature name occurs in the ads' `features` arrays, and
  answers with the list of (feature, count) pairs sorted by count, most
  frequent first, together with the number of ads and of distinct
  features.

  The counter is a plain object: its entries come out in the order the
  features were first met, and `sort` is stable, so features with equal
  counts keep that order.
*/
module FeatureHistogram {
  import opened Wrappers
  import opened JsValue
  import OrderedIndex

  /** `Array.isArray(ad.features) ? ad.features : []` */
  function FeaturesOf(ad: Value): seq<Value> {
    var fs := Field(ad, "features");
    if fs.Arr? then fs.items else []
  }

  /** The property keys the counter is indexed by. */
  function Names(fs: seq<Value>): (r: seq<string>)
    ensures |r| == |fs|
    ensures forall i :: 0 <= i < |fs| ==> r[i] == ToStr(fs[i])
  {
    seq(|fs|, i requires 0 <= i < |fs| => ToStr(fs[i]))
  }

  lemma NamesSnoc(fs: seq<Value>, j: nat)
    requires j < |fs|
    ensures Names(fs[..j + 1]) == Names(fs[..j]) + [ToStr(fs[j])]
  {
    var a := Names(fs[..j + 1]);
    var b := Names(fs[..j]) + [ToStr(fs[j])];
    assert |a| == |b|;
    forall i | 0 <= i < |a|
      ensures a[i] == b[i]
    {
    }
  }

  /** Every feature occurrence of the first `n` ads, in the order the loops visit them. */
  function Occurrences(ads: seq<Value>, n: nat): seq<string>
    requires n <= |ads|
  {
    if n == 0 then [] else Occurrences(ads, n - 1) + Names(FeaturesOf(ads[n - 1]))
  }

  /**
    One visit of feature `f`: `if (!c[f]) c[f] = 0; c[f]++`. A new key
    goes to the end of the object's key order.
  */
  function Step(c: OrderedIndex.Index<nat>, f: string): OrderedIndex.Index<nat> {
    if f in c.vals then OrderedIndex.Index(c.keys, c.vals[f := c.vals[f] + 1])
    else OrderedIndex.Index(c.keys + [f], c.vals[f := 1])
  }

  /** The counter after visiting the first `n` occurrences of `xs` one by one. */
  function TallyPrefix(xs: seq<string>, n: nat): OrderedIndex.Index<nat>
    requires n <= |xs|
  {
    if n == 0 then OrderedIndex.Index([], map[]) else Step(TallyPrefix(xs, n - 1), xs[n - 1])
  }

  /** The counter after visiting all of `xs`. */
  function Tally(xs: seq<string>): OrderedIndex.Index<nat> {
    TallyPrefix(xs, |xs|)
  }

  /** The counter is a well-formed index: one key per counted feature. */
  lemma {:induction false} TallyValid(xs: seq<string>, n: nat)
    requires n <= |xs|
    ensures OrderedIndex.Valid(TallyPrefix(xs, n))
  {
    if n > 0 {
      TallyValid(xs, n - 1);
      var c := TallyPrefix(xs, n - 1);
      var f := xs[n - 1];
      assert Step(c, f) == OrderedIndex.Put(c, f, (if f in c.vals then c.vals[f] else 0) + 1);
    }
  }

  /** Each counter holds the number of occurrences of its feature; absent features never occurred. */
  lemma {:induction false} TallyCounts(xs: seq<string>, n: nat, f: string)
    requires n <= |xs|
    ensures f in TallyPrefix(xs, n).vals <==> f in multiset(xs[..n])
    ensures f in TallyPrefix(xs, n).vals ==> TallyPrefix(xs, n).vals[f] == multiset(xs[..n])[f]
  {
    if n > 0 {
      TallyCounts(xs, n - 1, f);
      assert xs[..n] == xs[..n - 1] + [xs[n - 1]];
    }
  }

  /** Visiting more occurrences afterwards does not change the counter of a prefix. */
  lemma {:induction false} TallyPrefixFrame(xs: seq<string>, ys: seq<string>, n: nat)
    requires n <= |xs|
    ensures TallyPrefix(xs + ys, n) == TallyPrefix(xs, n)
  {
    if n > 0 {
      TallyPrefixFrame(xs, ys, n - 1);
      assert (xs + ys)[n - 1] == xs[n - 1];
    }
  }

  /** The counter `c` after visiting the first `j` features of one ad. */
  function Onto(c: OrderedIndex.Index<nat>, fs: seq<Value>, j: nat): OrderedIndex.Index<nat>
    requires j <= |fs|
  {
    if j == 0 then c else Step(Onto(c, fs, j - 1), ToStr(fs[j - 1]))
  }

  /** The counter after the first `n` ads. */
  function Counted(ads: seq<Value>, n: nat): OrderedIndex.Index<nat>
    requires n <= |ads|
  {
    if n == 0 then OrderedIndex.Index([], map[])
    else
      var fs := FeaturesOf(ads[n - 1]);
      Onto(Counted(ads, n - 1), fs, |fs|)
  }

  /** Continuing a tally over the features of one more ad is the tally of the longer sequence. */
  lemma {:induction false} OntoTally(xs: seq<string>, fs: seq<Value>, j: nat)
    requires j <= |fs|
    ensures Onto(Tally(xs), fs, j) == TallyPrefix(xs + Names(fs), |xs| + j)
  {
    if j == 0 {
      TallyPrefixFrame(xs, Names(fs), |xs|);
    } else {
      OntoTally(xs, fs, j - 1);
      assert (xs + Names(fs))[|xs| + j - 1] == ToStr(fs[j - 1]);
    }
  }

  /** After `n` ads the counter is the tally of their occurrences. */
  ghost predicate Agrees(ads: seq<Value>, n: nat)
    requires n <= |ads|
  {
    Counted(ads, n) == Tally(Occurrences(ads, n))
  }

  /** One more ad keeps the counter the tally of the occurrences seen so far. */
  lemma CountedStep(ads: seq<Value>, n: nat)
    requires 0 < n <= |ads| && Agrees(ads, n - 1)
    ensures Agrees(ads, n)
  {
    var fs := FeaturesOf(ads[n - 1]);
    OntoTally(Occurrences(ads, n - 1), fs, |fs|);
  }

  lemma {:induction false} AgreesUpTo(ads: seq<Value>, n: nat)
    requires n <= |ads|
    ensures Agrees(ads, n)
  {
    if n > 0 {
      AgreesUpTo(ads, n - 1);
      CountedStep(ads, n);
    }
  }

  /** The loops' counter is the tally of all occurrences. */
  lemma CountedTally(ads: seq<Value>)
    ensures Counted(ads, |ads|) == Tally(Occurrences(ads, |ads|))
  {
    AgreesUpTo(ads, |ads|);
  }

  /** The inner loop: count the features of one ad. */
  method CountFeatures(counter: OrderedIndex.Index<nat>, features: seq<Value>) returns (next: OrderedIndex.Index<nat>)
    ensures next == Onto(counter, features, |features|)
  {
    next := counter;
    for j := 0 to |features|
      invariant next == Onto(counter, features, j)
    {
      var f := ToStr(features[j]);
      next := Step(next, f);
    }
  }

  /** None of the first `n` ads is `null` or `undefined`. */
  predicate Present(ads: seq<Value>, n: nat)
    requires n <= |ads|
  {
    n == 0 || (Present(ads, n - 1) && !Nullish(ads[n - 1]))
  }

  lemma {:induction false} PresentAll(ads: seq<Value>, n: nat)
    requires n <= |ads|
    ensures Present(ads, n) <==> forall j :: 0 <= j < n ==> !Nullish(ads[j])
  {
    if n > 0 {
      PresentAll(ads, n - 1);
    }
  }

  /** The counting loops over the ads and their feature arrays. An ad that is `null` or `undefined` throws. */
  method Count(ads: seq<Value>) returns (r: Option<OrderedIndex.Index<nat>>)
    ensures r.None? <==> exists i :: 0 <= i < |ads| && Nullish(ads[i])
    ensures r.Some? ==> r.value == Counted(ads, |ads|)
  {
    var counter: OrderedIndex.Index<nat> := OrderedIndex.Index([], map[]);
    var i := 0;
    while i < |ads|
      invariant i <= |ads|
      invariant counter == Counted(ads, i)
      invariant Present(ads, i)
    {
      if Nullish(ads[i]) {
        PresentAll(ads, |ads|);
        return None;
      }
      counter := CountFeatures(counter, FeaturesOf(ads[i]));
      i := i + 1;
    }
    PresentAll(ads, |ads|);
    r := Some(counter);
  }

  // ---------------------------------------------------------------------
  // Sorting the entries by count, most frequent first
  // ---------------------------------------------------------------------

  /** `Object.entries(featureCounter)`, as `{ feature, count }` pairs in key order. */
  datatype Row = Row(feature: string, count: nat)

  /** The count kept for `k` (absent keys read as 0). */
  function CountIn(m: map<string, nat>, k: string): nat {
    if k in m then m[k] else 0
  }

  function RowsOf(ks: seq<string>, m: map<string, nat>): (r: seq<Row>)
    ensures |r| == |ks|
    ensures forall i :: 0 <= i < |r| ==> r[i] == Row(ks[i], CountIn(m, ks[i]))
    decreases |ks|
  {
    if ks == [] then [] else RowsOf(ks[..|ks| - 1], m) + [Row(ks[|ks| - 1], CountIn(m, ks[|ks| - 1]))]
  }

  function Rows(c: OrderedIndex.Index<nat>): seq<Row> {
    RowsOf(c.keys, c.vals)
  }

  /** Counts never increase along the list. */
  predicate SortedDesc(s: seq<Row>) {
    forall i, j :: 0 <= i < j < |s| ==> s[i].count >= s[j].count
  }

  function Sum(s: seq<Row>): nat
    decreases |s|
  {
    if s == [] then 0 else Sum(s[..|s| - 1]) + s[|s| - 1].count
  }

  lemma SumSnoc(s: seq<Row>, x: Row)
    ensures Sum(s + [x]) == Sum(s) + x.count
  {
    assert (s + [x])[..|s|] == s;
  }

  /** Place `x` after every row counted at least as often: a stable insertion. */
  function Insert(s: seq<Row>, x: Row): (r: seq<Row>)
    ensures |r| == |s| + 1
    decreases |s|
  {
    if s == [] then [x]
    else if s[|s| - 1].count >= x.count then s + [x]
    else Insert(s[..|s| - 1], x) + [s[|s| - 1]]
  }

  /** Insertion adds exactly `x`. */
  lemma {:induction false} InsertPerm(s: seq<Row>, x: Row)
    ensures multiset(Insert(s, x)) == multiset(s) + multiset{x}
    decreases |s|
  {
    if s != [] && s[|s| - 1].count < x.count {
      InsertPerm(s[..|s| - 1], x);
      assert s == s[..|s| - 1] + [s[|s| - 1]];
    }
  }

  /** Insertion adds `x`'s count to the sum. */
  lemma {:induction false} InsertSum(s: seq<Row>, x: Row)
    ensures Sum(Insert(s, x)) == Sum(s) + x.count
    decreases |s|
  {
    if s == [] {
      SumSnoc([], x);
    } else if s[|s| - 1].count >= x.count {
      SumSnoc(s, x);
    } else {
      InsertSum(s[..|s| - 1], x);
      SumSnoc(Insert(s[..|s| - 1], x), s[|s| - 1]);
    }
  }

  /** Insertion into a sorted list keeps it sorted. */
  lemma {:induction false} InsertSorted(s: seq<Row>, x: Row)
    requires SortedDesc(s)
    ensures SortedDesc(Insert(s, x))
    decreases |s|
  {
    if s != [] && s[|s| - 1].count < x.count {
      var init := s[..|s| - 1];
      var last := s[|s| - 1];
      var r := Insert(init, x);
      InsertSorted(init, x);
      InsertPerm(init, x);
      forall k | 0 <= k < |r|
        ensures r[k].count >= last.count
      {
        assert r[k] in multiset(r);
        if r[k] != x {
          assert r[k] in multiset(init);
          var a :| 0 <= a < |init| && init[a] == r[k];
          assert s[a] == init[a];
        }
      }
    }
  }

  /** `.sort((a, b) => b[1] - a[1])` */
  function SortDesc(s: seq<Row>): (r: seq<Row>)
    ensures |r| == |s|
    decreases |s|
  {
    if s == [] then [] else Insert(SortDesc(s[..|s| - 1]), s[|s| - 1])
  }

  /** The sort yields a list sorted by count, most frequent first. */
  lemma {:induction false} SortDescSorted(s: seq<Row>)
    ensures SortedDesc(SortDesc(s))
    decreases |s|
  {
    if s != [] {
      SortDescSorted(s[..|s| - 1]);
      InsertSorted(SortDesc(s[..|s| - 1]), s[|s| - 1]);
    }
  }

  /** The sort only reorders: it yields a permutation of its input. */
  lemma {:induction false} SortDescPerm(s: seq<Row>)
    ensures multiset(SortDesc(s)) == multiset(s)
    decreases |s|
  {
    if s != [] {
      SortDescPerm(s[..|s| - 1]);
      InsertPerm(SortDesc(s[..|s| - 1]), s[|s| - 1]);
      MultisetSnoc(s);
    }
  }

  lemma MultisetSnoc(s: seq<Row>)
    requires s != []
    ensures multiset(s) == multiset(s[..|s| - 1]) + multiset{s[|s| - 1]}
  {
    assert s == s[..|s| - 1] + [s[|s| - 1]];
  }

  /** The sort keeps the total of the counts. */
  lemma {:induction false} SortDescSum(s: seq<Row>)
    ensures Sum(SortDesc(s)) == Sum(s)
    decreases |s|
  {
    if s != [] {
      var init := s[..|s| - 1];
      SortDescSum(init);
      InsertSum(SortDesc(init), s[|s| - 1]);
    }
  }

  /** The sort yields a sorted permutation with the same total. */
  lemma SortDescCorrect(s: seq<Row>)
    ensures SortedDesc(SortDesc(s))
    ensures multiset(SortDesc(s)) == multiset(s)
    ensures Sum(SortDesc(s)) == Sum(s)
  {
    SortDescSorted(s);
    SortDescPerm(s);
    SortDescSum(s);
  }

  /** The 200 response. */
  datatype Report = Report(totalVehicles: nat, totalFeatures: nat, features: seq<Row>)

  /** From the counter to the response, for `n` ads. */
  function Summarize(n: nat, c: OrderedIndex.Index<nat>): Report {
    var sorted := SortDesc(Rows(c));
    Report(n, |sorted|, sorted)
  }

  // ---------------------------------------------------------------------
  // What the response guarantees
  // ---------------------------------------------------------------------

  /** The counts of a key sequence in a map, summed. */
  function KeySum(ks: seq<string>, m: map<string, nat>): nat
    decreases |ks|
  {
    if ks == [] then 0 else KeySum(ks[..|ks| - 1], m) + CountIn(m, ks[|ks| - 1])
  }

  lemma {:induction false} RowsSum(ks: seq<string>, m: map<string, nat>)
    ensures Sum(RowsOf(ks, m)) == KeySum(ks, m)
    decreases |ks|
  {
    if ks != [] {
      RowsSum(ks[..|ks| - 1], m);
      SumSnoc(RowsOf(ks[..|ks| - 1], m), Row(ks[|ks| - 1], CountIn(m, ks[|ks| - 1])));
    }
  }

  /** Changing the count of a key outside `ks` leaves the sum over `ks` alone. */
  lemma {:induction false} KeySumFrame(ks: seq<string>, m: map<string, nat>, f: string, v: nat)
    requires f !in ks
    ensures KeySum(ks, m[f := v]) == KeySum(ks, m)
    decreases |ks|
  {
    if ks != [] {
      KeySumFrame(ks[..|ks| - 1], m, f, v);
    }
  }

  /** Adding one to the count of a key that occurs once in `ks` adds one to the sum. */
  lemma {:induction false} KeySumBump(ks: seq<string>, m: map<string, nat>, f: string)
    requires f in m && f in ks
    requires forall i, j :: 0 <= i < j < |ks| ==> ks[i] != ks[j]
    ensures KeySum(ks, m[f := m[f] + 1]) == KeySum(ks, m) + 1
    decreases |ks|
  {
    var init := ks[..|ks| - 1];
    if ks[|ks| - 1] == f {
      assert f !in init;
      KeySumFrame(init, m, f, m[f] + 1);
    } else {
      assert f in init;
      KeySumBump(init, m, f);
    }
  }

  /** The counters after `n` occurrences add up to `n`. */
  ghost predicate SumsTo(xs: seq<string>, n: nat)
    requires n <= |xs|
  {
    KeySum(TallyPrefix(xs, n).keys, TallyPrefix(xs, n).vals) == n
  }

  /** A visit adds one to exactly one counter. */
  lemma KeySumStep(c: OrderedIndex.Index<nat>, f: string)
    requires OrderedIndex.Valid(c)
    ensures KeySum(Step(c, f).keys, Step(c, f).vals) == KeySum(c.keys, c.vals) + 1
  {
    if f in c.vals {
      KeySumBump(c.keys, c.vals, f);
    } else {
      KeySumFrame(c.keys, c.vals, f, 1);
      assert (c.keys + [f])[..|c.keys|] == c.keys;
    }
  }

  lemma SumStep(xs: seq<string>, n: nat)
    requires 0 < n <= |xs| && SumsTo(xs, n - 1)
    ensures SumsTo(xs, n)
  {
    TallyValid(xs, n - 1);
    KeySumStep(TallyPrefix(xs, n - 1), xs[n - 1]);
  }

  /** The counters of a tally add up to the number of occurrences visited. */
  lemma {:induction false} TallySum(xs: seq<string>, n: nat)
    requires n <= |xs|
    ensures KeySum(TallyPrefix(xs, n).keys, TallyPrefix(xs, n).vals) == n
  {
    if n > 0 {
      TallySum(xs, n - 1);
      SumStep(xs, n);
    }
  }

  /** The counts of the whole tally: `TallyCounts` for all of `xs`. */
  lemma TallyCountsAll(xs: seq<string>, f: string)
    ensures f in Tally(xs).vals <==> f in multiset(xs)
    ensures f in Tally(xs).vals ==> Tally(xs).vals[f] == multiset(xs)[f]
  {
    TallyCounts(xs, |xs|, f);
    assert xs[..|xs|] == xs;
  }

  /** Each row of the counter is a feature that occurs, with its number of occurrences. */
  lemma RowsCount(xs: seq<string>, row: Row)
    requires row in Rows(Tally(xs))
    ensures row.feature in multiset(xs) && row.count == multiset(xs)[row.feature]
  {
    var c := Tally(xs);
    TallyValid(xs, |xs|);
    var k :| 0 <= k < |c.keys| && Rows(c)[k] == row;
    TallyCountsAll(xs, c.keys[k]);
  }

  /**
    The response lists features sorted by count, most frequent first, and
    each row holds a feature that occurs together with its number of
    occurrences.
  */
  lemma ResponseRows(n: nat, xs: seq<string>)
    ensures var rep := Summarize(n, Tally(xs));
      && rep.totalVehicles == n
      && SortedDesc(rep.features)
      && (forall i :: 0 <= i < |rep.features| ==>
            rep.features[i].feature in multiset(xs) && rep.features[i].count == multiset(xs)[rep.features[i].feature])
  {
    var rows := Rows(Tally(xs));
    var sorted := SortDesc(rows);
    TallyValid(xs, |xs|);
    SortDescCorrect(rows);
    forall i | 0 <= i < |sorted|
      ensures sorted[i].feature in multiset(xs) && sorted[i].count == multiset(xs)[sorted[i].feature]
    {
      assert sorted[i] in multiset(sorted);
      RowsCount(xs, sorted[i]);
    }
  }

  /** Every feature that occurs is listed, with its number of occurrences. */
  lemma ResponseComplete(n: nat, xs: seq<string>, f: string)
    requires f in multiset(xs)
    ensures Row(f, multiset(xs)[f]) in Summarize(n, Tally(xs)).features
  {
    var c := Tally(xs);
    var rows := Rows(c);
    TallyValid(xs, |xs|);
    SortDescCorrect(rows);
    TallyCountsAll(xs, f);
    var k :| 0 <= k < |c.keys| && c.keys[k] == f;
    assert rows[k] == Row(f, multiset(xs)[f]);
    assert rows[k] in multiset(rows);
  }

  /**
    No feature is listed twice, `totalFeatures` is the number of distinct
    features, and the counts add up to the number of occurrences.
  */
  lemma ResponseTotals(n: nat, xs: seq<string>)
    ensures var rep := Summarize(n, Tally(xs));
      && (forall i, j :: 0 <= i < j < |rep.features| ==> rep.features[i].feature != rep.features[j].feature)
      && rep.totalFeatures == |set f | f in xs|
      && Sum(rep.features) == |xs|
  {
    var c := Tally(xs);
    var rows := Rows(c);
    TallyValid(xs, |xs|);
    SortDescCorrect(rows);
    DistinctAfterSort(rows, SortDesc(rows));
    DistinctCount(c, xs);
    RowsSum(c.keys, c.vals);
    TallySum(xs, |xs|);
  }

  /** A permutation of rows with distinct features has distinct features. */
  lemma DistinctAfterSort(rows: seq<Row>, sorted: seq<Row>)
    requires multiset(rows) == multiset(sorted)
    requires forall i, j :: 0 <= i < j < |rows| ==> rows[i].feature != rows[j].feature
    ensures forall i, j :: 0 <= i < j < |sorted| ==> sorted[i].feature != sorted[j].feature
  {
    forall i, j | 0 <= i < j < |sorted|
      ensures sorted[i].feature != sorted[j].feature
    {
      if sorted[i].feature == sorted[j].feature {
        assert sorted[i] in multiset(sorted) && sorted[j] in multiset(sorted);
        if sorted[i] == sorted[j] {
          MultisetTwo(sorted, i, j);
          SingleInDistinct(rows, sorted[i]);
        }
      }
    }
  }

  lemma MultisetTwo(s: seq<Row>, i: nat, j: nat)
    requires i < j < |s| && s[i] == s[j]
    ensures multiset(s)[s[i]] >= 2
  {
    assert s == s[..i] + [s[i]] + s[i + 1..j] + [s[j]] + s[j + 1..];
  }

  lemma {:induction false} SingleInDistinct(rows: seq<Row>, x: Row)
    requires forall i, j :: 0 <= i < j < |rows| ==> rows[i].feature != rows[j].feature
    ensures multiset(rows)[x] <= 1
    decreases |rows|
  {
    if rows != [] {
      var init := rows[..|rows| - 1];
      SingleInDistinct(init, x);
      assert rows == init + [rows[|rows| - 1]];
      if rows[|rows| - 1] == x {
        assert x !in init;
      }
    }
  }

  /** A counter of `xs` has one key per distinct element of `xs`. */
  lemma DistinctCount(c: OrderedIndex.Index<nat>, xs: seq<string>)
    requires c == Tally(xs)
    ensures |c.keys| == |set f | f in xs|
  {
    TallyValid(xs, |xs|);
    OrderedIndex.Size(c);
    forall f
      ensures f in c.vals <==> f in (set g | g in xs)
    {
      TallyCountsAll(xs, f);
    }
    assert c.vals.Keys == set f | f in xs;
  }

  datatype ScanError =
    | MissingCredentials           // 500 "Fehlende ENV Variablen"
    | SyscaraFailed(details: string)
    | Thrown                       // a TypeError while counting, caught

  /**
    The request: credentials, the Syscara response (its text when not
    OK), and the ads of the parsed response in key order
    (`Object.keys(data)` and `data[key]`).
  */
  method Handler(user: string, pass: string, response: Result<seq<Value>, string>) returns (r: Result<Report, ScanError>)
    ensures user == "" || pass == "" ==> r == Failure(MissingCredentials)
    ensures user != "" && pass != "" && response.Failure? ==> r == Failure(SyscaraFailed(response.error))
    ensures user != "" && pass != "" && response.Success? ==> (
      var ads := response.value;
      && ((exists i :: 0 <= i < |ads| && Nullish(ads[i])) <==> r == Failure(Thrown))
      && ((forall i :: 0 <= i < |ads| ==> !Nullish(ads[i])) ==> r == Success(Summarize(|ads|, Tally(Occurrences(ads, |ads|))))))
  {
    if user == "" || pass == "" {
      return Failure(MissingCredentials);
    }
    if response.Failure? {
      return Failure(SyscaraFailed(response.error));
    }
    var counter := Count(response.value);
    if counter.None? {
      return Failure(Thrown);
    }
    CountedTally(response.value);
    r := Success(Summarize(|response.value|, counter.value));
  }
}
