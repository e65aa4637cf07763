/** Compact range lists: a strictly increasing run of integers in which three or more
    consecutive entries are kept as one pair (landscape/lib/sequenceranges.py). */
module SequenceRanges {
  import opened Common

  /** One entry of a range list: an integer, or a `(start, end)` tuple. */
  datatype Item = Single(n: int) | Range(start: int, end: int) {
    function Lo(): int {
      if Single? then n else start
    }

    function Hi(): int {
      if Single? then n else end
    }
  }

  datatype Error =
    | Unordered(item: int, stop: int)
    | Duplicate(item: int)
    | RangeError(start: int, end: int)

  datatype Result<+T> = Ok(value: T) | Err(error: Error)

  // ---------------------------------------------------------------------------------
  // What a range list means
  // ---------------------------------------------------------------------------------

  /** The integer set a range list stands for. */
  ghost predicate In(rs: seq<Item>, x: int) {
    exists i :: 0 <= i < |rs| && rs[i].Lo() <= x <= rs[i].Hi()
  }

  ghost predicate Sorted(rs: seq<Item>) {
    && (forall i :: 0 <= i < |rs| ==> rs[i].Lo() <= rs[i].Hi())
    && (forall i, j :: 0 <= i < j < |rs| ==> rs[i].Hi() < rs[j].Lo())
  }

  /** `y` continues the run that `x` ends. */
  ghost predicate Touch(x: Item, y: Item) {
    x.Hi() + 1 == y.Lo()
  }

  /** Entry `k` keeps to the notation: a pair spans three or more, only single entries touch,
      and never three in a row. */
  ghost predicate Good(rs: seq<Item>, k: nat)
    requires k < |rs|
  {
    && (rs[k].Range? ==> rs[k].start + 2 <= rs[k].end)
    && (k + 1 < |rs| && Touch(rs[k], rs[k + 1]) ==>
          && rs[k].Single? && rs[k + 1].Single?
          && (k + 2 < |rs| ==> !Touch(rs[k + 1], rs[k + 2])))
  }

  /** Sorted, every maximal run of three or more is one pair, shorter runs are single items. */
  ghost predicate Canonical(rs: seq<Item>) {
    Sorted(rs) && forall k {:trigger Good(rs, k)} :: 0 <= k < |rs| ==> Good(rs, k)
  }

  /** In a canonical list a pair stands for at least three integers and single entries do not stand
      for three in a row; entries ascend, and a pair touches no neighbour. */
  lemma CanonicalMeaning(rs: seq<Item>, k: nat)
    requires Canonical(rs) && k < |rs|
    ensures rs[k].Range? ==> rs[k].end - rs[k].start + 1 >= 3
    ensures k + 1 < |rs| ==> rs[k].Hi() < rs[k + 1].Lo()
    ensures k + 1 < |rs| && (rs[k].Range? || rs[k + 1].Range?) ==> rs[k].Hi() + 1 < rs[k + 1].Lo()
    ensures k + 2 < |rs| && rs[k].Single? && rs[k + 1].Single? && rs[k + 2].Single? ==>
              !(rs[k + 1].n == rs[k].n + 1 && rs[k + 2].n == rs[k].n + 2)
  {
    assert Good(rs, k) && (k + 1 < |rs| ==> Good(rs, k + 1));
  }

  ghost predicate SameSet(a: seq<Item>, b: seq<Item>) {
    forall x :: In(a, x) <==> In(b, x)
  }

  ghost predicate StrictlyIncreasing(s: seq<int>) {
    forall i, j :: 0 <= i < j < |s| ==> s[i] < s[j]
  }

  lemma SliceCanonical(rs: seq<Item>, i: nat, j: nat)
    requires Canonical(rs) && i <= j <= |rs|
    ensures Canonical(rs[i..j])
  {
    var r := rs[i..j];
    forall k | 0 <= k < |r| ensures Good(r, k) {
      assert Good(rs, i + k);
    }
  }

  lemma ConcatSorted(a: seq<Item>, b: seq<Item>)
    requires Sorted(a) && Sorted(b)
    requires a != [] && b != [] ==> a[|a| - 1].Hi() < b[0].Lo()
    ensures Sorted(a + b)
  {
    forall i, j | 0 <= i < |a| && 0 <= j < |b| ensures a[i].Hi() < b[j].Lo() {
      assert a[i].Hi() <= a[|a| - 1].Hi();
      assert b[0].Lo() <= b[j].Lo();
    }
  }

  /** Two canonical lists that do not touch make one. */
  lemma ConcatCanonical(a: seq<Item>, b: seq<Item>)
    requires Canonical(a) && Canonical(b)
    requires a != [] && b != [] ==> a[|a| - 1].Hi() + 1 < b[0].Lo()
    ensures Canonical(a + b)
  {
    ConcatSorted(a, b);
    var r := a + b;
    forall k | 0 <= k < |r| ensures Good(r, k) {
      if k < |a| {
        assert Good(a, k);
      } else {
        assert Good(b, k - |a|);
      }
    }
  }

  /** The next entry starts no later than any element beyond entry `k`. */
  lemma NextLo(rs: seq<Item>, k: nat, y: int)
    requires Sorted(rs) && k < |rs|
    ensures In(rs, y) && y > rs[k].Hi() ==> k + 1 < |rs| && rs[k + 1].Lo() <= y
  {
    if In(rs, y) && y > rs[k].Hi() {
      var i :| 0 <= i < |rs| && rs[i].Lo() <= y <= rs[i].Hi();
      assert k + 1 < i ==> rs[k + 1].Hi() < rs[i].Lo();
    }
  }

  lemma LowestIsFirst(rs: seq<Item>)
    requires Sorted(rs)
    ensures rs != [] ==> In(rs, rs[0].Lo())
    ensures forall x :: In(rs, x) ==> rs[0].Lo() <= x
  {
    assert rs != [] ==> rs[0].Lo() <= rs[0].Lo() <= rs[0].Hi();
  }

  /** The first entry is a pair exactly when the lowest three elements are consecutive. */
  lemma FirstIsPair(rs: seq<Item>)
    requires Canonical(rs) && rs != []
    ensures rs[0].Range? <==> In(rs, rs[0].Lo() + 1) && In(rs, rs[0].Lo() + 2)
  {
    var x := rs[0].Lo();
    assert Good(rs, 0);
    if rs[0].Range? {
      assert rs[0].Lo() <= x + 1 <= rs[0].Hi() && rs[0].Lo() <= x + 2 <= rs[0].Hi();
    } else {
      NextLo(rs, 0, x + 1);
      if |rs| > 1 {
        NextLo(rs, 1, x + 2);
        assert Good(rs, 1);
      }
    }
  }

  /** The first pair ends where its run ends. */
  lemma FirstPairEnd(rs: seq<Item>)
    requires Canonical(rs) && rs != []
    ensures forall x :: rs[0].Lo() <= x <= rs[0].Hi() ==> In(rs, x)
    ensures rs[0].Range? ==> !In(rs, rs[0].Hi() + 1)
  {
    NextLo(rs, 0, rs[0].Hi() + 1);
    assert Good(rs, 0);
  }

  lemma FirstItemUnique(a: seq<Item>, b: seq<Item>)
    requires Canonical(a) && Canonical(b) && SameSet(a, b) && a != [] && b != []
    ensures a[0] == b[0]
  {
    LowestIsFirst(a);
    LowestIsFirst(b);
    FirstIsPair(a);
    FirstIsPair(b);
    FirstPairEnd(a);
    FirstPairEnd(b);
  }

  lemma TailMembers(rs: seq<Item>)
    requires Sorted(rs) && rs != []
    ensures forall x :: In(rs[1..], x) <==> In(rs, x) && x > rs[0].Hi()
  {
    var tail := rs[1..];
    forall x ensures In(tail, x) <==> In(rs, x) && x > rs[0].Hi() {
      if In(rs, x) && x > rs[0].Hi() {
        var i :| 0 <= i < |rs| && rs[i].Lo() <= x <= rs[i].Hi();
        assert tail[i - 1] == rs[i];
      }
      if In(tail, x) {
        var i :| 0 <= i < |tail| && tail[i].Lo() <= x <= tail[i].Hi();
        assert tail[i] == rs[i + 1];
      }
    }
  }

  /** A set of integers has at most one canonical range list. */
  lemma {:induction false} CanonicalUnique(a: seq<Item>, b: seq<Item>)
    requires Canonical(a) && Canonical(b) && SameSet(a, b)
    ensures a == b
    decreases |a|
  {
    LowestIsFirst(a);
    LowestIsFirst(b);
    if a != [] && b != [] {
      FirstItemUnique(a, b);
      SliceCanonical(a, 1, |a|);
      SliceCanonical(b, 1, |b|);
      TailMembers(a);
      TailMembers(b);
      assert a[1..|a|] == a[1..] && b[1..|b|] == b[1..];
      CanonicalUnique(a[1..], b[1..]);
      assert a == [a[0]] + a[1..] && b == [b[0]] + b[1..];
    }
  }

  // ---------------------------------------------------------------------------------
  // Sequences and ranges
  // ---------------------------------------------------------------------------------

  /** The integers `lo, lo + 1, ..., hi`. */
  function Interval(lo: int, hi: int): (s: seq<int>)
    ensures |s| == if lo <= hi then hi - lo + 1 else 0
    ensures forall i :: 0 <= i < |s| ==> s[i] == lo + i
  {
    if lo <= hi then seq(hi - lo + 1, i requires 0 <= i => lo + i) else []
  }

  function Expand(rs: seq<Item>): seq<int> {
    if rs == [] then [] else Expand(rs[..|rs| - 1]) + Interval(rs[|rs| - 1].Lo(), rs[|rs| - 1].Hi())
  }

  lemma {:induction false} ExpandMembers(rs: seq<Item>, x: int)
    ensures x in Expand(rs) <==> In(rs, x)
  {
    if rs != [] {
      var init, last := rs[..|rs| - 1], rs[|rs| - 1];
      ExpandMembers(init, x);
      assert last.Lo() <= x <= last.Hi() ==> Interval(last.Lo(), last.Hi())[x - last.Lo()] == x;
      if In(rs, x) && !(last.Lo() <= x <= last.Hi()) {
        var i :| 0 <= i < |rs| && rs[i].Lo() <= x <= rs[i].Hi();
        assert init[i] == rs[i];
      }
      if In(init, x) {
        var i :| 0 <= i < |init| && init[i].Lo() <= x <= init[i].Hi();
        assert init[i] == rs[i];
      }
    }
  }

  lemma {:induction false} ExpandIncreasing(rs: seq<Item>)
    requires Sorted(rs)
    ensures StrictlyIncreasing(Expand(rs))
    ensures rs != [] ==> Expand(rs) != [] && Expand(rs)[|Expand(rs)| - 1] == rs[|rs| - 1].Hi()
  {
    if rs != [] {
      var init := rs[..|rs| - 1];
      ExpandIncreasing(init);
      var last, e := rs[|rs| - 1], Expand(init);
      assert init != [] ==> init[|init| - 1] == rs[|rs| - 2];
      assert forall i :: 0 <= i < |e| ==> e[i] < last.Lo();
    }
  }

  lemma {:induction false} ExpandAppend(a: seq<Item>, b: seq<Item>)
    ensures Expand(a + b) == Expand(a) + Expand(b)
    decreases |b|
  {
    if b == [] {
      assert a + b == a;
    } else {
      var init, last := b[..|b| - 1], b[|b| - 1];
      var ab := a + b;
      ExpandAppend(a, init);
      assert ab[..|ab| - 1] == a + init && ab[|ab| - 1] == last;
      Regroup(Expand(a), Expand(init), Interval(last.Lo(), last.Hi()));
    }
  }

  lemma SameExpansionSameSet(a: seq<Item>, b: seq<Item>)
    requires Expand(a) == Expand(b)
    ensures SameSet(a, b)
  {
    forall x ensures In(a, x) <==> In(b, x) {
      ExpandMembers(a, x);
      ExpandMembers(b, x);
    }
  }

  /** Canonical lists and strictly increasing sequences determine each other. */
  lemma ExpandInjective(a: seq<Item>, b: seq<Item>)
    requires Canonical(a) && Canonical(b)
    ensures Expand(a) == Expand(b) <==> a == b
  {
    if Expand(a) == Expand(b) {
      SameExpansionSameSet(a, b);
      CanonicalUnique(a, b);
    }
  }

  /** The entries emitted for the finished run `lo..hi`. */
  function RunItems(lo: int, hi: int): seq<Item>
    requires lo <= hi
  {
    if lo == hi then [Single(lo)]
    else if hi == lo + 1 then [Single(lo), Single(hi)]
    else [Range(lo, hi)]
  }

  lemma RunItemsExpand(lo: int, hi: int)
    requires lo <= hi
    ensures Expand(RunItems(lo, hi)) == Interval(lo, hi)
  {
    var items := RunItems(lo, hi);
    if |items| == 1 {
      assert items[..0] == [];
      assert Expand([]) == [];
    } else {
      assert items[..1] == [Single(lo)];
      assert items[..1][..0] == [];
      assert Expand(items[..1]) == Interval(lo, lo);
    }
  }

  /** Emitting a finished run that does not touch the entries already emitted. */
  lemma Emit(out: seq<Item>, lo: int, hi: int)
    requires Canonical(out) && lo <= hi
    requires out != [] ==> out[|out| - 1].Hi() + 1 < lo
    ensures Canonical(out + RunItems(lo, hi))
    ensures Expand(out + RunItems(lo, hi)) == Expand(out) + Interval(lo, hi)
    ensures (out + RunItems(lo, hi))[|out + RunItems(lo, hi)| - 1].Hi() == hi
  {
    ConcatCanonical(out, RunItems(lo, hi));
    RunItemsExpand(lo, hi);
    ExpandAppend(out, RunItems(lo, hi));
  }

  lemma TakeNext(s: seq<int>, n: nat)
    requires n < |s|
    ensures s[..n + 1] == s[..n] + [s[n]]
  {
  }

  lemma UnitInterval(x: int)
    ensures Interval(x, x) == [x]
  {
  }

  lemma GrowInterval(a: seq<int>, lo: int, hi: int)
    requires lo <= hi + 1
    ensures a + Interval(lo, hi + 1) == (a + Interval(lo, hi)) + [hi + 1]
  {
    assert Interval(lo, hi + 1) == Interval(lo, hi) + [hi + 1];
  }

  lemma GrowIncreasing(s: seq<int>, x: int)
    requires StrictlyIncreasing(s) && (s != [] ==> s[|s| - 1] < x)
    ensures StrictlyIncreasing(s + [x])
  {
  }

  /** Why `item` may not follow `previous`. */
  function OutOfOrder(previous: int, item: int): Error {
    if item < previous then Unordered(item, previous) else Duplicate(item)
  }

  /** `error` reports item `i`, the first one that does not exceed its predecessor. */
  ghost predicate FirstViolation(s: seq<int>, i: int, error: Error) {
    && 1 <= i < |s|
    && StrictlyIncreasing(s[..i])
    && s[i] <= s[i - 1]
    && error == (if s[i] == s[i - 1] then Duplicate(s[i]) else Unordered(s[i], s[i - 1]))
  }

  lemma Violated(s: seq<int>, i: nat)
    requires 1 <= i < |s| && StrictlyIncreasing(s[..i]) && s[i] <= s[i - 1]
    ensures FirstViolation(s, i, OutOfOrder(s[i - 1], s[i]))
  {
  }

  /** The state of the enumeration after the items `done`: `out` has been emitted and the
      run `lo..hi` is still open. */
  ghost predicate Progress(done: seq<int>, out: seq<Item>, lo: int, hi: int) {
    && StrictlyIncreasing(done)
    && done != [] && done[|done| - 1] == hi
    && Canonical(out) && lo <= hi
    && (out != [] ==> out[|out| - 1].Hi() + 1 < lo)
    && done == Expand(out) + Interval(lo, hi)
  }

  lemma ExtendRun(done: seq<int>, out: seq<Item>, lo: int, hi: int)
    requires Progress(done, out, lo, hi)
    ensures Progress(done + [hi + 1], out, lo, hi + 1)
  {
    GrowInterval(Expand(out), lo, hi);
    GrowIncreasing(done, hi + 1);
  }

  lemma StartRun(done: seq<int>, out: seq<Item>, lo: int, hi: int, item: int)
    requires Progress(done, out, lo, hi) && hi + 1 < item
    ensures Progress(done + [item], out + RunItems(lo, hi), item, item)
  {
    Emit(out, lo, hi);
    GrowIncreasing(done, item);
    UnitInterval(item);
  }

  /** `sequence_to_ranges`: the ranges of a strictly increasing sequence, or an error naming
      the first item that is out of order. */
  method SequenceToRanges(sequence: seq<int>) returns (r: Result<seq<Item>>)
    ensures r.Ok? <==> StrictlyIncreasing(sequence)
    ensures r.Ok? ==> Canonical(r.value) && Expand(r.value) == sequence
    ensures r.Err? ==> exists i :: FirstViolation(sequence, i, r.error)
  {
    hide FirstViolation, OutOfOrder;
    if |sequence| == 0 {
      return Ok([]);
    }
    var rangeStart, rangeStop := sequence[0], sequence[0];
    var out: seq<Item> := [];
    var next := 1;
    ghost var done := [sequence[0]];
    UnitInterval(sequence[0]);
    while next < |sequence|
      invariant 1 <= next <= |sequence| && done == sequence[..next]
      invariant Progress(done, out, rangeStart, rangeStop)
    {
      var item := sequence[next];
      TakeNext(sequence, next);
      if item == rangeStop + 1 {
        ExtendRun(done, out, rangeStart, rangeStop);
        rangeStop := rangeStop + 1;
        done := done + [item];
        assert Progress(done, out, rangeStart, rangeStop);
      } else {
        if item <= rangeStop {
          assert rangeStop == done[next - 1] == sequence[next - 1];
          Violated(sequence, next);
          return Err(OutOfOrder(rangeStop, item));
        }
        StartRun(done, out, rangeStart, rangeStop, item);
        out := out + RunItems(rangeStart, rangeStop);
        rangeStart, rangeStop := item, item;
        done := done + [item];
        assert Progress(done, out, rangeStart, rangeStop);
      }
      next := next + 1;
    }
    assert done == sequence;
    Emit(out, rangeStart, rangeStop);
    r := Ok(out + RunItems(rangeStart, rangeStop));
  }

  /** The pair at `i` is reversed and no entry before it is. */
  ghost predicate FirstReversed(ranges: seq<Item>, i: nat, error: Error) {
    && i < |ranges| && error.RangeError? && error.end < error.start
    && ranges[i] == Range(error.start, error.end)
    && forall j :: 0 <= j < i ==> ranges[j].Lo() <= ranges[j].Hi()
  }

  /** `ranges_to_sequence`: enumerates any list whose pairs are not reversed. */
  method RangesToSequence(ranges: seq<Item>) returns (r: Result<seq<int>>)
    ensures r.Ok? <==> forall i :: 0 <= i < |ranges| ==> ranges[i].Lo() <= ranges[i].Hi()
    ensures r.Ok? ==> r.value == Expand(ranges)
    ensures r.Err? ==> exists i :: FirstReversed(ranges, i, r.error)
  {
    var out := [];
    for k := 0 to |ranges|
      invariant forall i :: 0 <= i < k ==> ranges[i].Lo() <= ranges[i].Hi()
      invariant out == Expand(ranges[..k])
    {
      assert ranges[..k + 1][..k] == ranges[..k];
      match ranges[k]
      case Range(start, end) =>
        if start > end {
          assert FirstReversed(ranges, k, RangeError(start, end));
          return Err(RangeError(start, end));
        }
        out := out + Interval(start, end);
      case Single(n) =>
        assert Interval(n, n) == [n];
        out := out + [n];
    }
    assert ranges[..|ranges|] == ranges;
    r := Ok(out);
  }

  // ---------------------------------------------------------------------------------
  // Searching, inserting, deleting
  // ---------------------------------------------------------------------------------

  /** `find_ranges_index`: the first entry that does not lie wholly below `item`. */
  method FindRangesIndex(ranges: seq<Item>, item: int) returns (lo: nat)
    requires Sorted(ranges)
    ensures lo <= |ranges|
    ensures forall i :: 0 <= i < lo ==> ranges[i].Hi() < item
    ensures forall i :: lo <= i < |ranges| ==> item <= ranges[i].Hi()
  {
    lo := 0;
    var hi := |ranges|;
    while lo < hi
      invariant 0 <= lo <= hi <= |ranges|
      invariant forall i :: 0 <= i < lo ==> ranges[i].Hi() < item
      invariant forall i :: hi <= i < |ranges| ==> item <= ranges[i].Hi()
    {
      var mid := (lo + hi) / 2;
      var test := ranges[mid].Hi();
      if item > test {
        lo := mid + 1;
      } else {
        hi := mid;
      }
    }
  }

  /** `SequenceRanges.__contains__`. */
  method Contains(ranges: seq<Item>, item: int) returns (b: bool)
    requires Sorted(ranges)
    ensures b <==> In(ranges, item)
  {
    var index := FindRangesIndex(ranges, item);
    if index < |ranges| {
      var test := ranges[index];
      return test.Lo() <= item <= test.Hi();
    }
    return false;
  }

  ghost predicate Added(before: seq<Item>, item: int, after: seq<Item>) {
    Canonical(after) && forall x :: In(after, x) <==> In(before, x) || x == item
  }

  ghost predicate Removed(before: seq<Item>, item: int, after: seq<Item>) {
    Canonical(after) && forall x :: In(after, x) <==> In(before, x) && x != item
  }

  /** Membership in a list put together from three pieces. */
  lemma InConcat(a: seq<Item>, b: seq<Item>, c: seq<Item>, x: int)
    ensures In(a + b + c, x) <==> In(a, x) || In(b, x) || In(c, x)
  {
    var s := a + b + c;
    if In(a, x) {
      var i :| 0 <= i < |a| && a[i].Lo() <= x <= a[i].Hi();
      assert s[i] == a[i];
    }
    if In(b, x) {
      var i :| 0 <= i < |b| && b[i].Lo() <= x <= b[i].Hi();
      assert s[|a| + i] == b[i];
    }
    if In(c, x) {
      var i :| 0 <= i < |c| && c[i].Lo() <= x <= c[i].Hi();
      assert s[|a| + |b| + i] == c[i];
    }
    if In(s, x) {
      var i :| 0 <= i < |s| && s[i].Lo() <= x <= s[i].Hi();
      if i < |a| {
        assert a[i] == s[i];
      } else if i < |a| + |b| {
        assert b[i - |a|] == s[i];
      } else {
        assert c[i - |a| - |b|] == s[i];
      }
    }
  }

  /** Membership around a cut at `i` and `j`. */
  lemma CutIn(rs: seq<Item>, i: nat, j: nat, x: int)
    requires i <= j <= |rs|
    ensures In(rs, x) <==> In(rs[..i], x) || In(rs[i..j], x) || In(rs[j..], x)
  {
    assert rs == rs[..i] + rs[i..j] + rs[j..];
    InConcat(rs[..i], rs[i..j], rs[j..], x);
  }

  /** Replacing entries `i..j` by a canonical list that touches neither side. */
  lemma SpliceCanonical(rs: seq<Item>, i: nat, j: nat, mid: seq<Item>)
    requires Canonical(rs) && i <= j <= |rs| && Canonical(mid)
    requires mid != [] && i > 0 ==> rs[i - 1].Hi() + 1 < mid[0].Lo()
    requires mid != [] && j < |rs| ==> mid[|mid| - 1].Hi() + 1 < rs[j].Lo()
    requires mid == [] && 0 < i && j < |rs| ==> rs[i - 1].Hi() + 1 < rs[j].Lo()
    ensures Canonical(rs[..i] + mid + rs[j..])
  {
    SliceCanonical(rs, 0, i);
    SliceCanonical(rs, j, |rs|);
    assert rs[0..i] == rs[..i] && rs[j..|rs|] == rs[j..];
    ConcatCanonical(rs[..i], mid);
    ConcatCanonical(rs[..i] + mid, rs[j..]);
  }

  /** Entry `i` is the only place where `item` can be, or has to go. */
  ghost predicate Position(rs: seq<Item>, item: int, i: nat) {
    && i <= |rs|
    && (forall k :: 0 <= k < i ==> rs[k].Hi() < item)
    && (forall k :: i <= k < |rs| ==> item <= rs[k].Hi())
  }

  lemma AbsentAt(rs: seq<Item>, item: int, i: nat)
    requires Sorted(rs) && Position(rs, item, i)
    ensures In(rs, item) <==> i < |rs| && rs[i].Lo() <= item
  {
  }

  /** `add_to_ranges`: inserts `item`, merging it with the runs it touches. */
  method AddToRanges(ranges: seq<Item>, item: int) returns (r: seq<Item>)
    requires Canonical(ranges)
    ensures Added(ranges, item, r)
  {
    r := ranges;
    var index := FindRangesIndex(ranges, item);
    var indexStart, indexStop := index, index;
    var rangeStart, rangeStop := item, item;

    AbsentAt(ranges, item, index);
    if index < |ranges| {
      var test := ranges[index];
      if test.Lo() <= item <= test.Hi() {
        return;
      }
    }

    while indexStart > 0
      invariant 0 <= indexStart <= index
      invariant rangeStart <= item
      invariant indexStart > 0 ==> ranges[indexStart - 1].Hi() < rangeStart
      invariant Spans(ranges, indexStart, index, rangeStart, item - 1)
    {
      var test := ranges[indexStart - 1];
      if test.Hi() != rangeStart - 1 {
        break;
      }
      ExtendLeft(ranges, indexStart, index, rangeStart, item - 1);
      rangeStart := test.Lo();
      indexStart := indexStart - 1;
    }

    while indexStop < |ranges|
      invariant index <= indexStop <= |ranges|
      invariant item <= rangeStop
      invariant indexStop < |ranges| ==> rangeStop < ranges[indexStop].Lo()
      invariant Spans(ranges, index, indexStop, item + 1, rangeStop)
    {
      var test := ranges[indexStop];
      if test.Lo() != rangeStop + 1 {
        break;
      }
      ExtendRight(ranges, index, indexStop, item + 1, rangeStop);
      rangeStop := test.Hi();
      indexStop := indexStop + 1;
    }

    RunAround(ranges, indexStart, index, indexStop, rangeStart, item, rangeStop);
    if rangeStop - rangeStart < 2 {
      InsertSingle(ranges, index, item);
      r := ranges[..index] + [Single(item)] + ranges[index..];
    } else {
      ReplaceRun(ranges, indexStart, indexStop, rangeStart, item, rangeStop);
      r := ranges[..indexStart] + [Range(rangeStart, rangeStop)] + ranges[indexStop..];
    }
  }

  /** Within `a..b` only the entries `i..j` count. */
  lemma Between(rs: seq<Item>, i: nat, j: nat, a: int, b: int)
    requires Sorted(rs) && i <= j <= |rs|
    requires i > 0 ==> rs[i - 1].Hi() < a
    requires j < |rs| ==> b < rs[j].Lo()
    ensures forall x :: a <= x <= b ==> (In(rs, x) <==> In(rs[i..j], x))
  {
    forall x | a <= x <= b ensures In(rs, x) <==> In(rs[i..j], x) {
      CutIn(rs, i, j, x);
      assert !In(rs[..i], x);
      assert !In(rs[j..], x);
    }
  }

  /** The entries merged on both sides and `item` form one whole run. */
  lemma RunAround(rs: seq<Item>, i: nat, k: nat, j: nat, start: int, item: int, stop: int)
    requires Sorted(rs) && i <= k <= j <= |rs| && start <= item <= stop
    requires i > 0 ==> rs[i - 1].Hi() < start - 1
    requires j < |rs| ==> stop + 1 < rs[j].Lo()
    requires Spans(rs, i, k, start, item - 1) && Spans(rs, k, j, item + 1, stop)
    ensures forall x :: In(rs[i..j], x) <==> start <= x <= stop && x != item
    ensures forall x :: start - 1 <= x <= stop + 1 ==> (In(rs, x) <==> start <= x <= stop && x != item)
  {
    Between(rs, i, j, start - 1, stop + 1);
    forall x ensures In(rs[i..j], x) <==> start <= x <= stop && x != item {
      assert rs[i..j] == rs[i..k] + rs[k..j] + [];
      InConcat(rs[i..k], rs[k..j], [], x);
    }
  }

  /** An element that completes no run of three stays a single entry. */
  lemma InsertSingle(rs: seq<Item>, k: nat, item: int)
    requires Canonical(rs) && Position(rs, item, k) && !In(rs, item)
    requires !(In(rs, item - 2) && In(rs, item - 1))
    requires !(In(rs, item - 1) && In(rs, item + 1))
    requires !(In(rs, item + 1) && In(rs, item + 2))
    ensures Added(rs, item, rs[..k] + [Single(item)] + rs[k..])
  {
    var one := [Single(item)];
    var r := rs[..k] + one + rs[k..];
    AbsentAt(rs, item, k);
    forall x ensures In(r, x) <==> In(rs, x) || x == item {
      CutIn(rs, k, k, x);
      InConcat(rs[..k], one, rs[k..], x);
      assert one[0].Lo() == one[0].Hi() == item;
    }
    SingleGaps(rs, k, item);
  }

  lemma WholeSlices(rs: seq<Item>, k: nat)
    requires k <= |rs|
    ensures rs[0..k] == rs[..k] && rs[k..|rs|] == rs[k..]
  {
  }

  lemma SingleGaps(rs: seq<Item>, k: nat, item: int)
    requires Canonical(rs) && Position(rs, item, k) && !In(rs, item)
    requires !(In(rs, item - 2) && In(rs, item - 1))
    requires !(In(rs, item - 1) && In(rs, item + 1))
    requires !(In(rs, item + 1) && In(rs, item + 2))
    ensures Canonical(rs[..k] + [Single(item)] + rs[k..])
  {
    var pre, post := rs[..k], rs[k..];
    SliceCanonical(rs, 0, k);
    SliceCanonical(rs, k, |rs|);
    WholeSlices(rs, k);
    AbsentAt(rs, item, k);
    if k > 0 {
      LeftOfSingle(rs, k, item);
    }
    if k < |rs| {
      RightOfSingle(rs, k, item);
    }
    JoinSingle(pre, item, post);
  }

  /** An element between two canonical lists, touching at most one of them. */
  lemma JoinSingle(pre: seq<Item>, item: int, post: seq<Item>)
    requires Canonical(pre) && Canonical(post)
    requires pre != [] ==> pre[|pre| - 1].Hi() < item
    requires post != [] ==> item < post[0].Lo()
    requires pre != [] && pre[|pre| - 1].Hi() == item - 1 ==>
               pre[|pre| - 1].Single? && (|pre| > 1 ==> !Touch(pre[|pre| - 2], pre[|pre| - 1]))
    requires post != [] && post[0].Lo() == item + 1 ==> post[0].Single? && (|post| > 1 ==> !Touch(post[0], post[1]))
    requires pre != [] && pre[|pre| - 1].Hi() == item - 1 ==> post == [] || item + 1 < post[0].Lo()
    ensures Canonical(pre + [Single(item)] + post)
  {
    var one := [Single(item)];
    if pre != [] && pre[|pre| - 1].Hi() == item - 1 {
      AppendSingle(pre, item);
      ConcatCanonical(pre + one, post);
    } else {
      if post != [] && post[0].Lo() == item + 1 {
        PrependSingle(post, item);
      } else {
        ConcatCanonical(one, post);
      }
      ConcatCanonical(pre, one + post);
      assert pre + one + post == pre + (one + post);
    }
  }

  lemma AppendSingle(a: seq<Item>, item: int)
    requires Canonical(a) && a != [] && a[|a| - 1] == Single(item - 1)
    requires |a| > 1 ==> !Touch(a[|a| - 2], a[|a| - 1])
    ensures Canonical(a + [Single(item)])
  {
    var r := a + [Single(item)];
    ConcatSorted(a, [Single(item)]);
    forall k | 0 <= k < |a| ensures Good(r, k) {
      assert Good(a, k);
    }
  }

  lemma PrependSingle(a: seq<Item>, item: int)
    requires Canonical(a) && a != [] && a[0] == Single(item + 1)
    requires |a| > 1 ==> !Touch(a[0], a[1])
    ensures Canonical([Single(item)] + a)
  {
    var r := [Single(item)] + a;
    ConcatSorted([Single(item)], a);
    forall k | 1 <= k < |r| ensures Good(r, k) {
      assert Good(a, k - 1);
    }
  }

  /** What can touch an absent element from the left: one entry, a single one. */
  lemma LeftOfSingle(rs: seq<Item>, k: nat, item: int)
    requires Canonical(rs) && Position(rs, item, k) && k > 0 && !In(rs, item)
    ensures rs[k - 1].Hi() == item - 1 <==> In(rs, item - 1)
    ensures rs[k - 1].Hi() == item - 1 && !In(rs, item - 2) ==> 
              rs[k - 1].Single? && (k > 1 ==> !Touch(rs[k - 2], rs[k - 1]))
  {
    NextLo(rs, k - 1, item - 1);
    AbsentAt(rs, item, k);
    assert Good(rs, k - 1);
    assert rs[k - 1].Lo() <= rs[k - 1].Hi() <= rs[k - 1].Hi();
    assert rs[k - 1].Range? ==> rs[k - 1].Lo() <= rs[k - 1].Hi() - 1 <= rs[k - 1].Hi();
    if k > 1 {
      assert Good(rs, k - 2);
      assert rs[k - 2].Lo() <= rs[k - 2].Hi() <= rs[k - 2].Hi();
    }
  }

  /** What can touch an absent element from the right: one entry, a single one. */
  lemma RightOfSingle(rs: seq<Item>, k: nat, item: int)
    requires Canonical(rs) && Position(rs, item, k) && k < |rs| && !In(rs, item)
    ensures rs[k].Lo() == item + 1 <==> In(rs, item + 1)
    ensures rs[k].Lo() == item + 1 && !In(rs, item + 2) ==>
              rs[k].Single? && (k + 1 < |rs| ==> !Touch(rs[k], rs[k + 1]))
  {
    AbsentAt(rs, item, k);
    assert Good(rs, k);
    assert rs[k].Lo() <= rs[k].Lo() <= rs[k].Hi();
    assert rs[k].Range? ==> rs[k].Lo() <= rs[k].Lo() + 1 <= rs[k].Hi();
    if k + 1 < |rs| {
      assert rs[k + 1].Lo() <= rs[k + 1].Lo() <= rs[k + 1].Hi();
    }
  }

  /** A run of three or more replaces the entries it swallows. */
  lemma ReplaceRun(rs: seq<Item>, i: nat, j: nat, start: int, item: int, stop: int)
    requires Canonical(rs) && i <= j <= |rs| && start <= item <= stop && start + 2 <= stop
    requires i > 0 ==> rs[i - 1].Hi() < start - 1
    requires j < |rs| ==> stop + 1 < rs[j].Lo()
    requires forall x :: In(rs[i..j], x) <==> start <= x <= stop && x != item
    ensures Added(rs, item, rs[..i] + [Range(start, stop)] + rs[j..])
  {
    var one := [Range(start, stop)];
    SpliceCanonical(rs, i, j, one);
    forall x ensures In(rs[..i] + one + rs[j..], x) <==> In(rs, x) || x == item {
      CutIn(rs, i, j, x);
      InConcat(rs[..i], one, rs[j..], x);
      assert In(one, x) <==> start <= x <= stop by {
        assert start <= x <= stop ==> one[0].Lo() <= x <= one[0].Hi();
      }
    }
  }

  /** Entries `i..j` together hold exactly the elements `a..b`. */
  ghost predicate Spans(rs: seq<Item>, i: nat, j: nat, a: int, b: int)
    requires i <= j <= |rs|
  {
    forall x :: In(rs[i..j], x) <==> a <= x <= b
  }

  lemma ExtendLeft(rs: seq<Item>, i: nat, j: nat, a: int, b: int)
    requires 0 < i <= j <= |rs| && Spans(rs, i, j, a, b) && a <= b + 1
    requires rs[i - 1].Lo() <= rs[i - 1].Hi() == a - 1
    ensures Spans(rs, i - 1, j, rs[i - 1].Lo(), b)
  {
    var r := rs[i - 1..j];
    forall x ensures In(r, x) <==> rs[i - 1].Lo() <= x <= b {
      assert rs[i - 1..j] == [rs[i - 1]] + rs[i..j] + [];
      InConcat([rs[i - 1]], rs[i..j], [], x);
      assert rs[i - 1].Lo() <= x <= rs[i - 1].Hi() ==> [rs[i - 1]][0].Lo() <= x <= [rs[i - 1]][0].Hi();
    }
  }

  lemma ExtendRight(rs: seq<Item>, i: nat, j: nat, a: int, b: int)
    requires i <= j < |rs| && Spans(rs, i, j, a, b) && a <= b + 1
    requires b + 1 == rs[j].Lo() <= rs[j].Hi()
    ensures Spans(rs, i, j + 1, a, rs[j].Hi())
  {
    var r := rs[i..j + 1];
    forall x ensures In(r, x) <==> a <= x <= rs[j].Hi() {
      assert rs[i..j + 1] == rs[i..j] + [rs[j]] + [];
      InConcat(rs[i..j], [rs[j]], [], x);
      assert rs[j].Lo() <= x <= rs[j].Hi() ==> [rs[j]][0].Lo() <= x <= [rs[j]][0].Hi();
    }
  }

  /** `range(lo, hi + 1)` as single entries. */
  function Singles(lo: int, hi: int): seq<Item> {
    seq(if lo <= hi then hi - lo + 1 else 0, i => Single(lo + i))
  }

  /** What is left of a run on one side of a removed element. */
  function Remainder(lo: int, hi: int): seq<Item> {
    if lo <= hi then RunItems(lo, hi) else []
  }

  /** `remove_from_ranges`: deletes `item`, splitting the pair that contains it. */
  method RemoveFromRanges(ranges: seq<Item>, item: int) returns (r: seq<Item>)
    requires Canonical(ranges)
    ensures Removed(ranges, item, r)
  {
    r := ranges;
    var index := FindRangesIndex(ranges, item);
    AbsentAt(ranges, item, index);
    if index < |ranges| {
      match ranges[index]
      case Range(rangeStart, rangeStop) =>
        if item >= rangeStart {
          if rangeStop < item + 3 {
            r := r[..index] + Singles(item + 1, rangeStop) + r[index + 1..];
          } else {
            r := r[..index] + [Range(item + 1, rangeStop)] + r[index + 1..];
          }
          assert r == ranges[..index] + Remainder(item + 1, rangeStop) + ranges[index + 1..];
          ghost var half := r;
          if rangeStart > item - 3 {
            if rangeStart != item {
              r := r[..index] + Singles(rangeStart, item - 1) + r[index..];
            }
          } else {
            r := r[..index] + [Range(rangeStart, item - 1)] + r[index..];
          }
          assert r == half[..index] + Remainder(rangeStart, item - 1) + half[index..];
          SpliceTwice(ranges, index, Remainder(rangeStart, item - 1), Remainder(item + 1, rangeStop));
          SplitRun(ranges, index, item);
        }
      case Single(n) =>
        if item == n {
          DropSingle(ranges, index);
          r := ranges[..index] + ranges[index + 1..];
          assert r == ranges[..index] + [] + ranges[index + 1..];
        }
    }
  }

  lemma SpliceTwice(rs: seq<Item>, i: nat, left: seq<Item>, right: seq<Item>)
    requires i < |rs|
    ensures var half := rs[..i] + right + rs[i + 1..];
            half[..i] + left + half[i..] == rs[..i] + (left + right) + rs[i + 1..]
  {
    var half := rs[..i] + right + rs[i + 1..];
    assert half[..i] == rs[..i];
    assert half[i..] == right + rs[i + 1..];
  }

  lemma RemainderMembers(lo: int, hi: int, x: int)
    ensures In(Remainder(lo, hi), x) <==> lo <= x <= hi
  {
    if lo <= hi {
      RunItemsExpand(lo, hi);
      ExpandMembers(RunItems(lo, hi), x);
      assert lo <= x <= hi ==> Interval(lo, hi)[x - lo] == x;
    }
  }

  lemma SplitRun(rs: seq<Item>, i: nat, item: int)
    requires Canonical(rs) && i < |rs| && rs[i].Range? && rs[i].start <= item <= rs[i].end
    ensures Removed(rs, item, rs[..i] + (Remainder(rs[i].start, item - 1) + Remainder(item + 1, rs[i].end))
                              + rs[i + 1..])
  {
    var left, right := Remainder(rs[i].start, item - 1), Remainder(item + 1, rs[i].end);
    assert i > 0 ==> Good(rs, i - 1);
    assert Good(rs, i);
    RemaindersCanonical(rs[i].start, rs[i].end, item);
    SpliceCanonical(rs, i, i + 1, left + right);
    forall x ensures In(rs[..i] + (left + right) + rs[i + 1..], x) <==> In(rs, x) && x != item {
      InConcat(rs[..i], left + right, rs[i + 1..], x);
      BothRemainders(rs[i].start, rs[i].end, item, x);
      OneEntry(rs, i, x);
    }
  }

  lemma RemainderCanonical(lo: int, hi: int)
    ensures var r := Remainder(lo, hi);
            Canonical(r) && (r != [] <==> lo <= hi) && (r != [] ==> r[0].Lo() == lo && r[|r| - 1].Hi() == hi)
  {
  }

  lemma RemaindersCanonical(lo: int, hi: int, item: int)
    requires lo <= item <= hi && lo + 2 <= hi
    ensures var r := Remainder(lo, item - 1) + Remainder(item + 1, hi);
            Canonical(r) && r != [] && lo <= r[0].Lo() && r[|r| - 1].Hi() <= hi
  {
    RemainderCanonical(lo, item - 1);
    RemainderCanonical(item + 1, hi);
    ConcatCanonical(Remainder(lo, item - 1), Remainder(item + 1, hi));
  }

  lemma BothRemainders(lo: int, hi: int, item: int, x: int)
    requires lo <= item <= hi
    ensures In(Remainder(lo, item - 1) + Remainder(item + 1, hi), x) <==> lo <= x <= hi && x != item
  {
    var left, right := Remainder(lo, item - 1), Remainder(item + 1, hi);
    InConcat(left, right, [], x);
    assert left + right + [] == left + right;
    RemainderMembers(lo, item - 1, x);
    RemainderMembers(item + 1, hi, x);
  }

  /** Entry `i` holds exactly the elements no other entry holds. */
  lemma OneEntry(rs: seq<Item>, i: nat, x: int)
    requires Sorted(rs) && i < |rs|
    ensures In(rs, x) <==> In(rs[..i], x) || In(rs[i + 1..], x) || rs[i].Lo() <= x <= rs[i].Hi()
    ensures rs[i].Lo() <= x <= rs[i].Hi() ==> !In(rs[..i], x) && !In(rs[i + 1..], x)
  {
    CutIn(rs, i, i + 1, x);
    assert rs[i..i + 1] == [rs[i]];
    assert rs[i].Lo() <= x <= rs[i].Hi() ==> [rs[i]][0].Lo() <= x <= [rs[i]][0].Hi();
  }

  lemma DropSingle(rs: seq<Item>, i: nat)
    requires Canonical(rs) && i < |rs| && rs[i].Single?
    ensures Removed(rs, rs[i].n, rs[..i] + [] + rs[i + 1..])
  {
    SpliceCanonical(rs, i, i + 1, []);
    forall x ensures In(rs[..i] + [] + rs[i + 1..], x) <==> In(rs, x) && x != rs[i].n {
      InConcat(rs[..i], [], rs[i + 1..], x);
      OneEntry(rs, i, x);
    }
  }

  /** Adding a new item and removing it again restores the identical list. */
  lemma AddThenRemove(before: seq<Item>, item: int, added: seq<Item>, after: seq<Item>)
    requires Canonical(before) && !In(before, item)
    requires Added(before, item, added) && Removed(added, item, after)
    ensures after == before
  {
    CanonicalUnique(after, before);
  }

  /** The order in which items are added does not matter. */
  lemma AddsCommute(before: seq<Item>, x: int, y: int, ax: seq<Item>, axy: seq<Item>,
                    ay: seq<Item>, ayx: seq<Item>)
    requires Added(before, x, ax) && Added(ax, y, axy)
    requires Added(before, y, ay) && Added(ay, x, ayx)
    ensures axy == ayx
  {
    CanonicalUnique(axy, ayx);
  }

  /** The high-level interface: a set of integers kept as a canonical range list. */
  class SequenceRanges {
    var ranges: seq<Item>

    ghost predicate Valid()
      reads this
    {
      Canonical(ranges)
    }

    constructor ()
      ensures Valid() && ranges == []
    {
      ranges := [];
    }

    constructor FromRanges(rs: seq<Item>)
      ensures ranges == rs
    {
      ranges := rs;
    }

    /** Replaces the contents by those of `sequence`; a bad sequence leaves them alone. */
    method FromSequence(sequence: seq<int>) returns (error: Result<()>)
      modifies this
      ensures error.Ok? <==> StrictlyIncreasing(sequence)
      ensures error.Ok? ==> Valid() && Expand(ranges) == sequence
      ensures error.Err? ==> ranges == old(ranges)
      ensures error.Err? ==> exists i :: FirstViolation(sequence, i, error.error)
    {
      var r := SequenceToRanges(sequence);
      match r
      case Ok(rs) =>
        ranges := rs;
        error := Ok(());
      case Err(e) =>
        error := Err(e);
    }

    method ToSequence() returns (s: seq<int>)
      requires Valid()
      ensures StrictlyIncreasing(s) && Canonical(ranges) && Expand(ranges) == s
      ensures forall x :: x in s <==> In(ranges, x)
    {
      var r := RangesToSequence(ranges);
      s := r.value;
      ExpandIncreasing(ranges);
      forall x ensures x in s <==> In(ranges, x) {
        ExpandMembers(ranges, x);
      }
    }

    method Has(item: int) returns (b: bool)
      requires Valid()
      ensures b <==> In(ranges, item)
    {
      b := Contains(ranges, item);
    }

    method Add(item: int)
      requires Valid()
      modifies this
      ensures Valid() && Added(old(ranges), item, ranges)
    {
      ranges := AddToRanges(ranges, item);
    }

    method Remove(item: int)
      requires Valid()
      modifies this
      ensures Valid() && Removed(old(ranges), item, ranges)
    {
      ranges := RemoveFromRanges(ranges, item);
    }
  }
}
