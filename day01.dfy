/**
 * 2024 day 1: two columns of integers. Part 1 pairs the columns after
 * sorting each and sums the distances of the pairs; part 2 weighs every
 * left value by how often it occurs on the right.
 */
module AocDay01 {
  import opened Wrappers
  import opened KotlinText

  // ---------------------------------------------------------------------------
  // Reading the two columns

  const Separator: string := "   "

  /** `toInt` fails on some piece, or `it[1]` is out of bounds. */
  datatype LineError = NumberFormat(line: string) | MissingColumn(line: string)

  datatype Columns = Columns(left: seq<int>, right: seq<int>)

  /** `map { it.toInt() }` over the pieces of a line. */
  function ParseAll(pieces: seq<string>): (r: Option<seq<int>>)
    ensures r.Some? ==> |r.value| == |pieces| && forall i :: 0 <= i < |pieces| ==> ParseInt32(pieces[i]) == Some(r.value[i])
    ensures r.None? <==> exists i :: 0 <= i < |pieces| && ParseInt32(pieces[i]).None?
  {
    if |pieces| == 0 then Some([])
    else
      match ParseInt32(pieces[0])
      case None => None
      case Some(n) =>
        match ParseAll(pieces[1..])
        case None => None
        case Some(ns) => Some([n] + ns)
  }

  /**
   * One line: every piece must be an `Int` (the number format error comes
   * first), then the first two pieces are the left and the right value; any
   * further pieces are ignored.
   */
  function ParseLine(line: string): (r: Result<(int, int), LineError>)
    ensures var pieces := Split(line, Separator);
      && (r.Ok? <==> |pieces| >= 2 && forall i :: 0 <= i < |pieces| ==> ParseInt32(pieces[i]).Some?)
      && (r.Ok? ==> ParseInt32(pieces[0]) == Some(r.value.0) && ParseInt32(pieces[1]) == Some(r.value.1))
      && (r.Err? ==> (r.error == NumberFormat(line) <==> exists i :: 0 <= i < |pieces| && ParseInt32(pieces[i]).None?))
      && (r.Err? ==> r.error == NumberFormat(line) || r.error == MissingColumn(line))
  {
    match ParseAll(Split(line, Separator))
    case None => Err(NumberFormat(line))
    case Some(ns) => if |ns| < 2 then Err(MissingColumn(line)) else Ok((ns[0], ns[1]))
  }

  /** A line written as two `Int`s three spaces apart is read back as those two values. */
  lemma LineRoundTrip(a: int, b: int)
    requires INT_MIN <= a <= INT_MAX && INT_MIN <= b <= INT_MAX
    ensures ParseLine(ShowInt(a) + Separator + ShowInt(b)) == Ok((a, b))
  {
    ShowIntChars(a);
    ShowIntChars(b);
    var parts := [ShowInt(a), ShowInt(b)];
    assert Join(parts, Separator) == ShowInt(a) + Separator + ShowInt(b);
    SplitJoinDisjoint(parts, Separator);
    ParseShowInt(a);
    ParseShowInt(b);
  }

  /** The two columns of the input, or the error of its first bad line. */
  function ReadColumns(lines: seq<string>): (r: Result<Columns, LineError>)
    ensures r.Ok? ==>
      && |r.value.left| == |lines| && |r.value.right| == |lines|
      && forall i :: 0 <= i < |lines| ==> ParseLine(lines[i]) == Ok((r.value.left[i], r.value.right[i]))
    ensures r.Err? ==>
      exists i :: && 0 <= i < |lines| && ParseLine(lines[i]) == Err(r.error)
                  && forall j :: 0 <= j < i ==> ParseLine(lines[j]).Ok?
  {
    if |lines| == 0 then Ok(Columns([], []))
    else
      match ParseLine(lines[0])
      case Err(e) => Err(e)
      case Ok(pair) =>
        match ReadColumns(lines[1..])
        case Err(e) =>
          FirstErrorShifts(lines, e);
          Err(e)
        case Ok(cs) => Ok(Columns([pair.0] + cs.left, [pair.1] + cs.right))
  }

  /** The first bad line of `lines[1..]` is the first bad line of `lines` when `lines[0]` is good. */
  lemma FirstErrorShifts(lines: seq<string>, e: LineError)
    requires |lines| > 0 && ParseLine(lines[0]).Ok?
    requires exists i :: && 0 <= i < |lines[1..]| && ParseLine(lines[1..][i]) == Err(e)
                         && forall j :: 0 <= j < i ==> ParseLine(lines[1..][j]).Ok?
    ensures exists i :: && 0 <= i < |lines| && ParseLine(lines[i]) == Err(e)
                        && forall j :: 0 <= j < i ==> ParseLine(lines[j]).Ok?
  {
    var k :| && 0 <= k < |lines[1..]| && ParseLine(lines[1..][k]) == Err(e)
             && forall j :: 0 <= j < k ==> ParseLine(lines[1..][j]).Ok?;
    assert ParseLine(lines[k + 1]) == Err(e);
    forall j | 0 <= j < k + 1 ensures ParseLine(lines[j]).Ok? {
      if j > 0 {
        assert lines[j] == lines[1..][j - 1];
      }
    }
  }

  // ---------------------------------------------------------------------------
  // The sorted collector

  predicate Sorted(s: seq<int>) {
    forall i, j :: 0 <= i < j < |s| ==> s[i] <= s[j]
  }

  /**
   * `List.binarySearch`: an index holding `x`, or `-(ip) - 1` where `ip` is
   * the insertion point that keeps the list sorted.
   */
  method BinarySearch(a: seq<int>, x: int) returns (r: int)
    requires Sorted(a)
    ensures 0 <= r ==> r < |a| && a[r] == x
    ensures r < 0 ==> -r - 1 <= |a|
    ensures r < 0 ==> forall i :: 0 <= i < |a| ==> (a[i] < x <==> i < -r - 1)
    ensures r < 0 ==> x !in a
  {
    var low, high := 0, |a| - 1;
    while low <= high
      invariant 0 <= low <= high + 1 <= |a|
      invariant forall i :: 0 <= i < low ==> a[i] < x
      invariant forall i :: high < i < |a| ==> a[i] > x
    {
      var mid := (low + high) / 2;
      if a[mid] < x {
        low := mid + 1;
      } else if a[mid] > x {
        high := mid - 1;
      } else {
        return mid;
      }
    }
    return -(low + 1);
  }

  /** `SortedFlowCollector`: keeps the values received so far in ascending order. */
  class SortedCollector {
    var state: seq<int>

    ghost predicate Valid()
      reads this
    {
      Sorted(state)
    }

    constructor ()
      ensures Valid() && state == []
    {
      state := [];
    }

    /** Insert `value` at the index `binarySearch` reports. */
    method Emit(value: int)
      requires Valid()
      modifies this
      ensures Valid()
      ensures multiset(state) == multiset(old(state)) + multiset{value}
      ensures state == Insert(value, old(state))
    {
      var index := BinarySearch(state, value);
      var at := if index < 0 then -index - 1 else index;
      InsertAt(state, at, value);
      InsertAtIsInsert(state, at, value);
      state := state[..at] + [value] + state[at..];
    }
  }

  /** Placing `v` between the values below it and those above keeps a list sorted. */
  lemma InsertAt(s: seq<int>, at: nat, v: int)
    requires Sorted(s) && at <= |s|
    requires forall i :: 0 <= i < at ==> s[i] <= v
    requires forall i :: at <= i < |s| ==> v <= s[i]
    ensures Sorted(s[..at] + [v] + s[at..])
    ensures multiset(s[..at] + [v] + s[at..]) == multiset(s) + multiset{v}
  {
    var t := s[..at] + [v] + s[at..];
    assert forall i :: 0 <= i < |t| ==> t[i] == (if i < at then s[i] else if i == at then v else s[i - 1]);
    assert s == s[..at] + s[at..];
  }

  /**
   * Wherever among equal values the new one goes, the list is the same:
   * placing `v` between the values below it and those above is `Insert`.
   */
  lemma {:induction false} InsertAtIsInsert(s: seq<int>, at: nat, v: int)
    requires Sorted(s) && at <= |s|
    requires forall i :: 0 <= i < at ==> s[i] <= v
    requires forall i :: at <= i < |s| ==> v <= s[i]
    decreases at
    ensures s[..at] + [v] + s[at..] == Insert(v, s)
  {
    if |s| == 0 || v <= s[0] {
      InsertAmongEquals(s, at, v);
    } else {
      var u := s[1..];
      SortedTail(s);
      InsertAtIsInsert(u, at - 1, v);
      assert s[..at] + [v] + s[at..] == [s[0]] + (u[..at - 1] + [v] + u[at - 1..]);
    }
  }

  lemma SortedTail(s: seq<int>)
    requires Sorted(s) && |s| > 0
    ensures Sorted(s[1..])
  {
    var u := s[1..];
    forall i, j | 0 <= i < j < |u| ensures u[i] <= u[j] {
      assert u[i] == s[i + 1] && u[j] == s[j + 1];
    }
  }

  /** When `v` is at most the head, the values before `at` all equal `v`. */
  lemma InsertAmongEquals(s: seq<int>, at: nat, v: int)
    requires Sorted(s) && at <= |s| && (|s| == 0 || v <= s[0])
    requires forall i :: 0 <= i < at ==> s[i] <= v
    ensures s[..at] + [v] + s[at..] == [v] + s
  {
    var t := s[..at] + [v] + s[at..];
    forall k | 0 <= k < at ensures s[k] == v {
      assert s[0] <= s[k];
    }
    assert forall k :: 0 <= k < |t| ==> t[k] == ([v] + s)[k];
  }

  /** Insertion into a sorted list (the reference for `Emit`). */
  function Insert(x: int, s: seq<int>): seq<int> {
    if |s| == 0 || x <= s[0] then [x] + s else [s[0]] + Insert(x, s[1..])
  }

  /** The ascending arrangement of a column. */
  function SortSpec(s: seq<int>): seq<int> {
    if |s| == 0 then [] else Insert(s[0], SortSpec(s[1..]))
  }

  lemma {:induction false} InsertPermutes(x: int, s: seq<int>)
    ensures multiset(Insert(x, s)) == multiset(s) + multiset{x}
  {
    if |s| > 0 && x > s[0] {
      InsertPermutes(x, s[1..]);
      assert s == [s[0]] + s[1..];
    }
  }

  lemma {:induction false} InsertSorted(x: int, s: seq<int>)
    requires Sorted(s)
    ensures Sorted(Insert(x, s))
    ensures |Insert(x, s)| > 0 && (Insert(x, s)[0] == x || (|s| > 0 && Insert(x, s)[0] == s[0]))
  {
    if |s| > 0 && x > s[0] {
      InsertSorted(x, s[1..]);
      var t := Insert(x, s[1..]);
      assert s[0] <= t[0];
      assert forall i :: 0 <= i < |t| ==> t[0] <= t[i];
      assert Insert(x, s) == [s[0]] + t;
    }
  }

  lemma {:induction false} SortSpecSorted(s: seq<int>)
    ensures Sorted(SortSpec(s))
    ensures multiset(SortSpec(s)) == multiset(s)
  {
    if |s| > 0 {
      SortSpecSorted(s[1..]);
      InsertSorted(s[0], SortSpec(s[1..]));
      InsertPermutes(s[0], SortSpec(s[1..]));
      assert s == [s[0]] + s[1..];
    }
  }

  /**
   * Sortedness stated pair by pair of neighbours: the one-step form that the
   * induction in `AscendingUnique` recurses on. `SortedAscending` derives it from `Sorted`.
   */
  ghost predicate Ascending(s: seq<int>)
    decreases |s|
  {
    |s| < 2 || (s[0] <= s[1] && Ascending(s[1..]))
  }

  lemma {:induction false} SortedAscending(s: seq<int>)
    requires Sorted(s)
    decreases |s|
    ensures Ascending(s)
  {
    if |s| >= 2 {
      assert Sorted(s[1..]) by {
        forall i, j | 0 <= i < j < |s[1..]| ensures s[1..][i] <= s[1..][j] {
          assert s[1..][i] == s[i + 1] && s[1..][j] == s[j + 1];
        }
      }
      SortedAscending(s[1..]);
    }
  }

  /** The head of an ascending list is its least value. */
  lemma {:induction false} AscendingHead(s: seq<int>, x: int)
    requires Ascending(s) && x in multiset(s)
    decreases |s|
    ensures s[0] <= x
  {
    assert s == [s[0]] + s[1..];
    if x != s[0] {
      assert x in multiset(s[1..]);
      AscendingHead(s[1..], x);
    }
  }

  lemma {:induction false} AscendingUnique(a: seq<int>, b: seq<int>)
    requires Ascending(a) && Ascending(b) && multiset(a) == multiset(b)
    decreases |a|
    ensures a == b
  {
    assert |b| == |multiset(b)| == |multiset(a)| == |a|;
    if |a| > 0 {
      var h := a[0];
      assert h in multiset(b) && b[0] in multiset(a);
      AscendingHead(a, b[0]);
      AscendingHead(b, h);
      assert h == b[0];
      assert a == [h] + a[1..] && b == [h] + b[1..];
      assert multiset(a[1..]) == multiset(a) - multiset{h} == multiset(b[1..]);
      AscendingUnique(a[1..], b[1..]);
    }
  }

  /** A sorted arrangement of a multiset is unique. */
  lemma SortedUnique(a: seq<int>, b: seq<int>)
    requires Sorted(a) && Sorted(b) && multiset(a) == multiset(b)
    ensures a == b
  {
    SortedAscending(a);
    SortedAscending(b);
    AscendingUnique(a, b);
  }

  /** Collecting a column through `SortedCollector` yields its ascending arrangement. */
  method CollectSorted(values: seq<int>) returns (sorted: seq<int>)
    ensures sorted == SortSpec(values)
  {
    sorted := Collect(values);
    SortedArrangement(sorted, values);
  }

  /** Emits every value, in order, into a fresh `SortedCollector` and reads its state. */
  method Collect(values: seq<int>) returns (sorted: seq<int>)
    ensures Sorted(sorted) && multiset(sorted) == multiset(values)
  {
    var collector := new SortedCollector();
    var i := 0;
    while i < |values|
      invariant 0 <= i <= |values|
      invariant collector.Valid()
      invariant multiset(collector.state) == multiset(values[..i])
    {
      assert values[..i + 1] == values[..i] + [values[i]];
      collector.Emit(values[i]);
      i := i + 1;
    }
    assert values[..i] == values;
    sorted := collector.state;
  }

  /** Any sorted arrangement of the values of `s` is `SortSpec(s)`. */
  lemma SortedArrangement(a: seq<int>, s: seq<int>)
    requires Sorted(a) && multiset(a) == multiset(s)
    ensures a == SortSpec(s)
  {
    SortSpecSorted(s);
    SortedUnique(a, SortSpec(s));
  }

  // ---------------------------------------------------------------------------
  // Part 1

  /** Kotlin's `abs`. The day solutions do not import `Benchmark`, whose `Dist` serves its rounding proofs. */
  function Abs(x: int): nat {
    if x < 0 then -x else x
  }

  /** `zip { l, r -> abs(l - r) }.sum()`: pairs up to the shorter list. */
  function Distance(l: seq<int>, r: seq<int>): int {
    if |l| == 0 || |r| == 0 then 0 else Abs(l[0] - r[0]) + Distance(l[1..], r[1..])
  }

  /** `part1` */
  method Part1(lines: seq<string>) returns (r: Result<int, LineError>)
    ensures ReadColumns(lines).Err? ==> r == Err(ReadColumns(lines).error)
    ensures ReadColumns(lines).Ok? ==>
      r == Ok(Distance(SortSpec(ReadColumns(lines).value.left), SortSpec(ReadColumns(lines).value.right)))
  {
    var columns := ReadColumns(lines);
    if columns.Err? {
      return Err(columns.error);
    }
    var left := CollectSorted(columns.value.left);
    var right := CollectSorted(columns.value.right);
    return Ok(Distance(left, right));
  }

  /** The answer does not depend on the order in which the values arrive. */
  lemma Part1OrderIndependent(l1: seq<int>, r1: seq<int>, l2: seq<int>, r2: seq<int>)
    requires multiset(l1) == multiset(l2) && multiset(r1) == multiset(r2)
    ensures Distance(SortSpec(l1), SortSpec(r1)) == Distance(SortSpec(l2), SortSpec(r2))
  {
    SortSpecSorted(l1);
    SortSpecSorted(l2);
    SortSpecSorted(r1);
    SortSpecSorted(r2);
    SortedUnique(SortSpec(l1), SortSpec(l2));
    SortedUnique(SortSpec(r1), SortSpec(r2));
  }

  lemma {:induction false} DistanceZero(l: seq<int>, r: seq<int>)
    requires |l| == |r|
    ensures Distance(l, r) >= 0
    ensures Distance(l, r) == 0 <==> l == r
  {
    if |l| > 0 {
      DistanceZero(l[1..], r[1..]);
      assert l == [l[0]] + l[1..] && r == [r[0]] + r[1..];
    }
  }

  /** Equally long columns are at distance zero exactly when they hold the same values. */
  lemma Part1ZeroIffSameValues(l: seq<int>, r: seq<int>)
    requires |l| == |r|
    ensures Distance(SortSpec(l), SortSpec(r)) == 0 <==> multiset(l) == multiset(r)
  {
    SortSpecSorted(l);
    SortSpecSorted(r);
    assert |SortSpec(l)| == |multiset(l)| == |l|;
    assert |SortSpec(r)| == |multiset(r)| == |r|;
    DistanceZero(SortSpec(l), SortSpec(r));
    if multiset(l) == multiset(r) {
      SortedUnique(SortSpec(l), SortSpec(r));
    }
  }

  // ---------------------------------------------------------------------------
  // The counting collector and part 2

  /** `GroupingCountByCollector`: how often each value has been received. */
  class CountingCollector {
    var state: map<int, int>

    constructor ()
      ensures state == map[]
    {
      state := map[];
    }

    /** `state[value] = state.getOrPut(value) { 0 } + 1` */
    method Emit(value: int)
      modifies this
      ensures value in state && state[value] == (if value in old(state) then old(state)[value] else 0) + 1
      ensures forall k :: k != value ==> (k in state <==> k in old(state))
      ensures forall k :: k != value && k in state ==> state[k] == old(state)[k]
    {
      var count := if value in state then state[value] else 0;
      state := state[value := count + 1];
    }
  }

  /** Counting a column gives, for every value, its number of occurrences. */
  method CollectCounts(values: seq<int>) returns (counts: map<int, int>)
    ensures forall v :: v in counts <==> v in values
    ensures forall v :: v in counts ==> counts[v] == multiset(values)[v]
  {
    var collector := new CountingCollector();
    var i := 0;
    while i < |values|
      invariant 0 <= i <= |values|
      invariant forall v :: v in collector.state <==> v in values[..i]
      invariant forall v :: v in collector.state ==> collector.state[v] == multiset(values[..i])[v]
    {
      collector.Emit(values[i]);
      assert values[..i + 1] == values[..i] + [values[i]];
      i := i + 1;
    }
    assert values[..i] == values;
    counts := collector.state;
  }

  /** Every left value times its number of occurrences on the right, summed. */
  function Similarity(left: seq<int>, right: multiset<int>): int {
    if |left| == 0 then 0
    else Similarity(left[..|left| - 1], right) + left[|left| - 1] * right[left[|left| - 1]]
  }

  lemma SimilarityStep(left: seq<int>, i: nat, right: multiset<int>)
    requires i < |left|
    ensures Similarity(left[..i + 1], right) == Similarity(left[..i], right) + left[i] * right[left[i]]
  {
    assert left[..i + 1][..i] == left[..i];
  }

  /** The loop of `part2`: every left value weighed by its count, a missing count being 0. */
  method WeightedSum(left: seq<int>, counts: map<int, int>, ghost right: multiset<int>) returns (sum: int)
    requires forall v :: v in counts ==> counts[v] == right[v]
    requires forall v :: v !in counts ==> right[v] == 0
    ensures sum == Similarity(left, right)
  {
    sum := 0;
    var i := 0;
    while i < |left|
      invariant 0 <= i <= |left|
      invariant sum == Similarity(left[..i], right)
    {
      var x := left[i];
      var count := if x in counts then counts[x] else 0;
      SimilarityStep(left, i, right);
      sum := sum + x * count;
      i := i + 1;
    }
    assert left[..i] == left;
  }

  /** `part2` */
  method Part2(lines: seq<string>) returns (r: Result<int, LineError>)
    ensures ReadColumns(lines).Err? ==> r == Err(ReadColumns(lines).error)
    ensures ReadColumns(lines).Ok? ==>
      r == Ok(Similarity(ReadColumns(lines).value.left, multiset(ReadColumns(lines).value.right)))
  {
    var columns := ReadColumns(lines);
    if columns.Err? {
      return Err(columns.error);
    }
    var counts := CollectCounts(columns.value.right);
    var sum := WeightedSum(columns.value.left, counts, multiset(columns.value.right));
    return Ok(sum);
  }

  /** Taking one value out of the left column takes out its own term. */
  lemma {:induction false} SimilarityRemove(left: seq<int>, right: multiset<int>, i: nat)
    requires i < |left|
    ensures Similarity(left, right) == Similarity(left[..i] + left[i + 1..], right) + left[i] * right[left[i]]
  {
    var n := |left| - 1;
    if i < n {
      var init := left[..n];
      SimilarityRemove(init, right, i);
      var without := left[..i] + left[i + 1..];
      assert |without| == n;
      assert without[..n - 1] == init[..i] + init[i + 1..];
      assert without[n - 1] == left[n];
    } else {
      assert left[..i] + left[i + 1..] == left[..n];
    }
  }

  /** The answer does not depend on the order of the left column. */
  lemma {:induction false} SimilarityOrderIndependent(l1: seq<int>, l2: seq<int>, right: multiset<int>)
    requires multiset(l1) == multiset(l2)
    decreases |l1|
    ensures Similarity(l1, right) == Similarity(l2, right)
  {
    if |l1| == 0 {
      assert |l2| == |multiset(l2)| == 0;
    } else {
      var n := |l1| - 1;
      var x := l1[n];
      assert l1 == l1[..n] + [x];
      assert x in multiset(l2);
      var i :| 0 <= i < |l2| && l2[i] == x;
      var rest := l2[..i] + l2[i + 1..];
      assert l2 == l2[..i] + [x] + l2[i + 1..];
      assert multiset(l1) == multiset(l1[..n]) + multiset{x};
      assert multiset(l2) == multiset(l2[..i]) + multiset{x} + multiset(l2[i + 1..]);
      assert multiset(rest) == multiset(l2[..i]) + multiset(l2[i + 1..]);
      assert multiset(l1[..n]) == multiset(l1) - multiset{x};
      assert multiset(rest) == multiset(l2) - multiset{x};
      SimilarityOrderIndependent(l1[..n], rest, right);
      SimilarityRemove(l2, right, i);
    }
  }
}
