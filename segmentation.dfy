/** Segmented analysis (analise_segmentada): group the wagers by the
    distinct values of one column, in order of first appearance, drop the
    groups with fewer than MIN_SEGMENT entries and report count, ROI and
    win rate for each group that is left. */
module Segmentation {
  import opened Wagers
  import opened Metrics

  /** The smallest group the analysis reports. */
  const MIN_SEGMENT: nat := 20

  /** One line of the summary table: value, entries, ROI, win rate. */
  datatype Row = Row(value: Cell, entries: nat, roi: real, winRate: real)

  /** The column `c` of the table. */
  function Keys(rs: seq<Wager>, c: Column): seq<Cell> {
    seq(|rs|, k requires 0 <= k < |rs| => ValueAt(rs[k], c))
  }

  predicate Distinct<T(==)>(s: seq<T>) {
    forall i, j :: 0 <= i < j < |s| ==> s[i] != s[j]
  }

  /** `u` lists values in the order they first occur in `s`: wherever a
      later value of `u` occurs in `s`, an earlier one has already occurred. */
  ghost predicate InFirstSeenOrder<T>(u: seq<T>, s: seq<T>) {
    forall i, j, k :: 0 <= i < j < |u| && 0 <= k < |s| && s[k] == u[j] ==> u[i] in s[..k]
  }

  /** The distinct values of `s` in order of first appearance (`unique()`). */
  function Unique(s: seq<Cell>): (u: seq<Cell>)
    ensures Distinct(u)
    ensures forall x :: x in u <==> x in s
    ensures |u| <= |s|
  {
    if s == [] then []
    else
      var u := Unique(s[..|s| - 1]);
      var x := s[|s| - 1];
      assert forall y :: y in s <==> y in s[..|s| - 1] || y == x by {
        assert s == s[..|s| - 1] + [x];
      }
      if x in u then u else u + [x]
  }

  lemma {:induction false} UniqueInFirstSeenOrder(s: seq<Cell>)
    ensures InFirstSeenOrder(Unique(s), s)
  {
    if s != [] {
      var n := |s| - 1;
      var init, x := s[..n], s[n];
      var u := Unique(init);
      UniqueInFirstSeenOrder(init);
      assert forall k :: 0 <= k < n ==> s[..k] == init[..k];
      if x in u {
        forall i, j, k | 0 <= i < j < |u| && 0 <= k < |s| && s[k] == u[j]
          ensures u[i] in s[..k]
        {
          if k == n {
            var k' :| 0 <= k' < n && init[k'] == x;
            assert u[i] in init[..k'];
            assert init[..k'] == s[..k'];
            assert s[..k'] <= s[..k];
          } else {
            assert u[i] in init[..k];
          }
        }
      } else {
        var u' := u + [x];
        assert Unique(s) == u';
        forall i, j, k | 0 <= i < j < |u'| && 0 <= k < |s| && s[k] == u'[j]
          ensures u'[i] in s[..k]
        {
          if j == |u| {
            assert k == n;
            assert u[i] in init;
            assert init == s[..k];
          } else {
            assert s[k] in u;
            assert k < n;
            assert u[i] in init[..k];
          }
        }
      }
    }
  }

  /** The records whose column `c` holds `v`: df[df[c] == v]. */
  function Select(rs: seq<Wager>, c: Column, v: Cell): (sel: seq<Wager>)
    ensures |sel| <= |rs|
  {
    if rs == [] then []
    else
      var w := rs[|rs| - 1];
      Select(rs[..|rs| - 1], c, v) + (if ValueAt(w, c) == v then [w] else [])
  }

  /** The selection keeps exactly the records carrying `v`, each as often
      as it occurs in the table. */
  lemma {:induction false} SelectKeepsExactlyMatching(rs: seq<Wager>, c: Column, v: Cell)
    ensures forall w :: w in Select(rs, c, v) <==> w in rs && ValueAt(w, c) == v
    ensures forall w :: multiset(Select(rs, c, v))[w] == if ValueAt(w, c) == v then multiset(rs)[w] else 0
  {
    if rs != [] {
      var n := |rs| - 1;
      var init, last := rs[..n], rs[n];
      SelectKeepsExactlyMatching(init, c, v);
      assert rs == init + [last];
      var extra := if ValueAt(last, c) == v then [last] else [];
      assert Select(rs, c, v) == Select(init, c, v) + extra;
      forall w ensures w in Select(rs, c, v) <==> w in rs && ValueAt(w, c) == v {
        assert w in rs <==> w in init || w == last;
      }
      forall w ensures multiset(Select(rs, c, v))[w] == if ValueAt(w, c) == v then multiset(rs)[w] else 0 {
        assert multiset(rs)[w] == multiset(init)[w] + multiset([last])[w];
        assert multiset(Select(rs, c, v))[w] == multiset(Select(init, c, v))[w] + multiset(extra)[w];
      }
    }
  }

  /** A group, and hence its size, ROI and win rate, depends only on which
      records the table holds and how often, not on their order. */
  lemma GroupIgnoresOrder(rs: seq<Wager>, qs: seq<Wager>, c: Column, v: Cell)
    requires multiset(rs) == multiset(qs)
    ensures multiset(Select(rs, c, v)) == multiset(Select(qs, c, v))
    ensures |Select(rs, c, v)| == |Select(qs, c, v)|
    ensures Roi(Select(rs, c, v)) == Roi(Select(qs, c, v))
    ensures |Select(rs, c, v)| > 0 ==> WinRate(Select(rs, c, v)) == WinRate(Select(qs, c, v))
  {
    var a, b := Select(rs, c, v), Select(qs, c, v);
    SameGroupContents(rs, qs, c, v);
    AggregatesIgnoreOrder(a, b);
  }

  lemma SameGroupContents(rs: seq<Wager>, qs: seq<Wager>, c: Column, v: Cell)
    requires multiset(rs) == multiset(qs)
    ensures multiset(Select(rs, c, v)) == multiset(Select(qs, c, v))
  {
    var a, b := multiset(Select(rs, c, v)), multiset(Select(qs, c, v));
    SelectKeepsExactlyMatching(rs, c, v);
    SelectKeepsExactlyMatching(qs, c, v);
    forall w ensures a[w] == b[w] {
    }
  }

  /** The row for value `v`, or nothing when its group is too small. */
  function RowFor(rs: seq<Wager>, c: Column, v: Cell): (r: seq<Row>)
    ensures |r| <= 1
    ensures r != [] <==> |Select(rs, c, v)| >= MIN_SEGMENT
  {
    var group := Select(rs, c, v);
    if |group| < MIN_SEGMENT then []
    else [Row(v, |group|, Roi(group), WinRate(group))]
  }

  /** The rows for the candidate values `vs`, in their order. */
  function RowsFor(rs: seq<Wager>, c: Column, vs: seq<Cell>): (r: seq<Row>)
    ensures |r| <= |vs|
  {
    if vs == [] then []
    else RowsFor(rs, c, vs[..|vs| - 1]) + RowFor(rs, c, vs[|vs| - 1])
  }

  /** The summary table the segmented analysis reports. */
  function Segments(rs: seq<Wager>, c: Column): (r: seq<Row>)
    ensures |r| <= |rs|
  {
    RowsFor(rs, c, Unique(Keys(rs, c)))
  }

  /** The loop over the distinct values that appends one row per group
      large enough. */
  method SegmentedAnalysis(rs: seq<Wager>, c: Column) returns (summary: seq<Row>)
    ensures summary == Segments(rs, c)
  {
    var values := Unique(Keys(rs, c));
    summary := [];
    for i := 0 to |values|
      invariant summary == RowsFor(rs, c, values[..i])
    {
      var value := values[i];
      assert values[..i + 1][..i] == values[..i];
      assert RowsFor(rs, c, values[..i + 1]) == summary + RowFor(rs, c, value);
      var group := Select(rs, c, value);
      var n := |group|;
      if n < MIN_SEGMENT {
        continue;
      }
      summary := summary + [Row(value, n, Roi(group), WinRate(group))];
    }
    assert values[..|values|] == values;
  }

  // ---------------------------------------------------------------------
  // What the rows say
  // ---------------------------------------------------------------------

  function RowValues(rows: seq<Row>): seq<Cell> {
    seq(|rows|, i requires 0 <= i < |rows| => rows[i].value)
  }

  /** A row exists for a candidate value exactly when its group reaches
      the threshold. */
  lemma {:induction false} RowsForLargeGroups(rs: seq<Wager>, c: Column, vs: seq<Cell>)
    ensures forall v :: v in RowValues(RowsFor(rs, c, vs)) <==> v in vs && |Select(rs, c, v)| >= MIN_SEGMENT
  {
    if vs != [] {
      var init, last := vs[..|vs| - 1], vs[|vs| - 1];
      RowsForLargeGroups(rs, c, init);
      var before, tail := RowValues(RowsFor(rs, c, init)), RowValues(RowFor(rs, c, last));
      assert RowValues(RowsFor(rs, c, vs)) == before + tail;
      assert tail == if |Select(rs, c, last)| >= MIN_SEGMENT then [last] else [];
      forall v
        ensures v in before + tail <==> v in vs && |Select(rs, c, v)| >= MIN_SEGMENT
      {
        assert v in vs <==> v in init || v == last by {
          assert vs == init + [last];
        }
      }
    }
  }

  /** Each row measures exactly the records carrying its value: its count
      is their number, its ROI and win rate are theirs. */
  lemma {:induction false} RowsMeasureTheirGroup(rs: seq<Wager>, c: Column, vs: seq<Cell>)
    ensures forall r :: r in RowsFor(rs, c, vs) ==>
      && r.entries == |Select(rs, c, r.value)|
      && r.entries >= MIN_SEGMENT
      && r.roi == Roi(Select(rs, c, r.value))
      && r.winRate == WinRate(Select(rs, c, r.value))
  {
    if vs != [] {
      RowsMeasureTheirGroup(rs, c, vs[..|vs| - 1]);
    }
  }

  /** Rows keep the candidates' distinctness and order. */
  lemma {:induction false} RowsKeepOrder(rs: seq<Wager>, c: Column, vs: seq<Cell>, s: seq<Cell>)
    requires Distinct(vs) && InFirstSeenOrder(vs, s)
    ensures Distinct(RowValues(RowsFor(rs, c, vs)))
    ensures InFirstSeenOrder(RowValues(RowsFor(rs, c, vs)), s)
  {
    if vs != [] {
      var n := |vs| - 1;
      var init, last := vs[..n], vs[n];
      assert InFirstSeenOrder(init, s);
      RowsKeepOrder(rs, c, init, s);
      RowsForLargeGroups(rs, c, init);
      var before := RowValues(RowsFor(rs, c, init));
      var tail := RowValues(RowFor(rs, c, last));
      assert RowValues(RowsFor(rs, c, vs)) == before + tail;
      if tail != [] {
        assert tail == [last];
        forall i | 0 <= i < |before|
          ensures before[i] != last
          ensures forall k :: 0 <= k < |s| && s[k] == last ==> before[i] in s[..k]
        {
          assert before[i] in init;
          var i' :| 0 <= i' < n && init[i'] == before[i];
          assert vs[i'] == before[i] && vs[n] == last;
        }
      }
    }
  }

  /** Every row reports a group of at least MIN_SEGMENT wagers; each value
      appears at most once; rows follow the first appearance of their value. */
  lemma SegmentsAreLargeDistinctAndOrdered(rs: seq<Wager>, c: Column)
    ensures forall r :: r in Segments(rs, c) ==> r.entries >= MIN_SEGMENT
    ensures Distinct(RowValues(Segments(rs, c)))
    ensures InFirstSeenOrder(RowValues(Segments(rs, c)), Keys(rs, c))
  {
    var ks := Keys(rs, c);
    RowsMeasureTheirGroup(rs, c, Unique(ks));
    UniqueInFirstSeenOrder(ks);
    RowsKeepOrder(rs, c, Unique(ks), ks);
  }

  /** A value occurring in the column has a row exactly when its group
      reaches the threshold; so the table is empty exactly when no group does. */
  lemma SegmentsCoverLargeGroups(rs: seq<Wager>, c: Column)
    ensures forall v :: v in RowValues(Segments(rs, c)) <==> v in Keys(rs, c) && |Select(rs, c, v)| >= MIN_SEGMENT
    ensures Segments(rs, c) == [] <==> forall k :: 0 <= k < |rs| ==> |Select(rs, c, ValueAt(rs[k], c))| < MIN_SEGMENT
  {
    var ks := Keys(rs, c);
    RowsForLargeGroups(rs, c, Unique(ks));
    if Segments(rs, c) != [] {
      var v := Segments(rs, c)[0].value;
      assert RowValues(Segments(rs, c))[0] == v;
      assert v in ks;
      var k :| 0 <= k < |rs| && ks[k] == v;
    }
    if exists k :: 0 <= k < |rs| && |Select(rs, c, ValueAt(rs[k], c))| >= MIN_SEGMENT {
      var k :| 0 <= k < |rs| && |Select(rs, c, ValueAt(rs[k], c))| >= MIN_SEGMENT;
      assert ks[k] in ks;
      assert ValueAt(rs[k], c) in RowValues(Segments(rs, c));
    }
  }

  // ---------------------------------------------------------------------
  // Row counts against the whole set
  // ---------------------------------------------------------------------

  /** Total of the entry counts of a table. */
  function Entries(rows: seq<Row>): nat {
    if rows == [] then 0 else Entries(rows[..|rows| - 1]) + rows[|rows| - 1].entries
  }

  /** Total size of the groups of the values `vs`. */
  function GroupSizes(rs: seq<Wager>, c: Column, vs: seq<Cell>): nat {
    if vs == [] then 0 else GroupSizes(rs, c, vs[..|vs| - 1]) + |Select(rs, c, vs[|vs| - 1])|
  }

  function Occurrences(vs: seq<Cell>, v: Cell): nat {
    if vs == [] then 0
    else Occurrences(vs[..|vs| - 1], v) + (if vs[|vs| - 1] == v then 1 else 0)
  }

  lemma SelectSnoc(rs: seq<Wager>, w: Wager, c: Column, v: Cell)
    ensures |Select(rs + [w], c, v)| == |Select(rs, c, v)| + (if ValueAt(w, c) == v then 1 else 0)
  {
    assert (rs + [w])[..|rs|] == rs;
  }

  /** Adding a record adds one to the size of the group of its value, once
      for each time that value is listed. */
  lemma {:induction false} GroupSizesSnoc(rs: seq<Wager>, w: Wager, c: Column, vs: seq<Cell>)
    ensures GroupSizes(rs + [w], c, vs) == GroupSizes(rs, c, vs) + Occurrences(vs, ValueAt(w, c))
  {
    if vs != [] {
      GroupSizesSnoc(rs, w, c, vs[..|vs| - 1]);
      SelectSnoc(rs, w, c, vs[|vs| - 1]);
    }
  }

  lemma {:induction false} OccurrencesOfDistinct(vs: seq<Cell>, v: Cell)
    requires Distinct(vs)
    ensures Occurrences(vs, v) == if v in vs then 1 else 0
  {
    if vs != [] {
      var init, last := vs[..|vs| - 1], vs[|vs| - 1];
      OccurrencesOfDistinct(init, v);
      assert vs == init + [last];
      assert last !in init;
    }
  }

  /** The groups of a duplicate-free list of values that covers the column
      partition the records. */
  lemma {:induction false} GroupsPartition(rs: seq<Wager>, c: Column, vs: seq<Cell>)
    requires Distinct(vs)
    requires forall k :: 0 <= k < |rs| ==> ValueAt(rs[k], c) in vs
    ensures GroupSizes(rs, c, vs) == |rs|
  {
    if rs == [] {
      EmptyGroups(c, vs);
    } else {
      var n := |rs| - 1;
      var init, w := rs[..n], rs[n];
      assert rs == init + [w];
      GroupsPartition(init, c, vs);
      GroupSizesSnoc(init, w, c, vs);
      OccurrencesOfDistinct(vs, ValueAt(w, c));
    }
  }

  lemma {:induction false} EmptyGroups(c: Column, vs: seq<Cell>)
    ensures GroupSizes([], c, vs) == 0
  {
    if vs != [] {
      EmptyGroups(c, vs[..|vs| - 1]);
    }
  }

  /** A value that occurs in the column has a non-empty group. */
  lemma {:induction false} OccurringValueHasGroup(rs: seq<Wager>, c: Column, k: nat)
    requires k < |rs|
    ensures |Select(rs, c, ValueAt(rs[k], c))| > 0
  {
    var n := |rs| - 1;
    if k < n {
      OccurringValueHasGroup(rs[..n], c, k);
    }
  }

  /** Every group of the values `vs` reaches the threshold. */
  ghost predicate AllLarge(rs: seq<Wager>, c: Column, vs: seq<Cell>) {
    forall i :: 0 <= i < |vs| ==> |Select(rs, c, vs[i])| >= MIN_SEGMENT
  }

  /** Every group of the values `vs` is non-empty. */
  ghost predicate AllOccur(rs: seq<Wager>, c: Column, vs: seq<Cell>) {
    forall i :: 0 <= i < |vs| ==> |Select(rs, c, vs[i])| > 0
  }

  lemma AllLargeSnoc(rs: seq<Wager>, c: Column, vs: seq<Cell>)
    requires vs != []
    ensures AllLarge(rs, c, vs)
      <==> AllLarge(rs, c, vs[..|vs| - 1]) && |Select(rs, c, vs[|vs| - 1])| >= MIN_SEGMENT
  {
    var n := |vs| - 1;
    assert forall i :: 0 <= i < n ==> vs[..n][i] == vs[i];
  }

  /** Dropping small groups only loses entries, and loses none exactly when
      no candidate group (each non-empty) is small. */
  lemma {:induction false} RowsEntriesBound(rs: seq<Wager>, c: Column, vs: seq<Cell>)
    requires AllOccur(rs, c, vs)
    ensures Entries(RowsFor(rs, c, vs)) <= GroupSizes(rs, c, vs)
    ensures Entries(RowsFor(rs, c, vs)) == GroupSizes(rs, c, vs) <==> AllLarge(rs, c, vs)
  {
    if vs != [] {
      var n := |vs| - 1;
      var init, last := vs[..n], vs[n];
      assert forall i :: 0 <= i < n ==> init[i] == vs[i];
      assert AllOccur(rs, c, init);
      RowsEntriesBound(rs, c, init);
      var before := RowsFor(rs, c, init);
      var extra := RowFor(rs, c, last);
      assert RowsFor(rs, c, vs) == before + extra;
      EntriesConcat(before, extra);
      var g := |Select(rs, c, last)|;
      assert g > 0;
      assert GroupSizes(rs, c, vs) == GroupSizes(rs, c, init) + g;
      assert Entries(RowsFor(rs, c, vs)) == Entries(before) + (if g >= MIN_SEGMENT then g else 0);
      AllLargeSnoc(rs, c, vs);
    }
  }

  lemma EntriesConcat(rows: seq<Row>, extra: seq<Row>)
    requires |extra| <= 1
    ensures Entries(rows + extra) == Entries(rows) + (if extra == [] then 0 else extra[0].entries)
  {
    if extra == [] {
      assert rows + extra == rows;
    } else {
      assert (rows + extra)[..|rows|] == rows;
    }
  }

  /** The distinct values cover the column, and each has a non-empty group. */
  lemma UniqueValuesOccur(rs: seq<Wager>, c: Column)
    ensures forall k :: 0 <= k < |rs| ==> ValueAt(rs[k], c) in Unique(Keys(rs, c))
    ensures AllOccur(rs, c, Unique(Keys(rs, c)))
  {
    var ks := Keys(rs, c);
    var vs := Unique(ks);
    forall k | 0 <= k < |rs| ensures ValueAt(rs[k], c) in vs {
      assert ks[k] in ks;
    }
    forall i | 0 <= i < |vs| ensures |Select(rs, c, vs[i])| > 0 {
      assert vs[i] in ks;
      var k :| 0 <= k < |rs| && ks[k] == vs[i];
      OccurringValueHasGroup(rs, c, k);
    }
  }

  /** Every distinct value's group is large exactly when every record's group is. */
  lemma AllLargeIffEveryRecordInLargeGroup(rs: seq<Wager>, c: Column)
    ensures AllLarge(rs, c, Unique(Keys(rs, c)))
      <==> forall k :: 0 <= k < |rs| ==> |Select(rs, c, ValueAt(rs[k], c))| >= MIN_SEGMENT
  {
    var ks := Keys(rs, c);
    var vs := Unique(ks);
    if AllLarge(rs, c, vs) {
      forall k | 0 <= k < |rs| ensures |Select(rs, c, ValueAt(rs[k], c))| >= MIN_SEGMENT {
        assert ks[k] in vs;
        var i :| 0 <= i < |vs| && vs[i] == ks[k];
      }
    }
    if forall k :: 0 <= k < |rs| ==> |Select(rs, c, ValueAt(rs[k], c))| >= MIN_SEGMENT {
      forall i | 0 <= i < |vs| ensures |Select(rs, c, vs[i])| >= MIN_SEGMENT {
        assert vs[i] in ks;
        var k :| 0 <= k < |rs| && ks[k] == vs[i];
      }
    }
  }

  /** The rows never count more wagers than there are, and count all of
      them exactly when every value's group reaches the threshold. */
  lemma SegmentsCountAtMostAll(rs: seq<Wager>, c: Column)
    ensures Entries(Segments(rs, c)) <= |rs|
    ensures Entries(Segments(rs, c)) == |rs|
      <==> forall k :: 0 <= k < |rs| ==> |Select(rs, c, ValueAt(rs[k], c))| >= MIN_SEGMENT
  {
    var vs := Unique(Keys(rs, c));
    UniqueValuesOccur(rs, c);
    GroupsPartition(rs, c, vs);
    RowsEntriesBound(rs, c, vs);
    AllLargeIffEveryRecordInLargeGroup(rs, c);
  }
}
