/** Which mutations the tests tell apart, and which ones they detect whenever they detect another. */
module Subsumption {
  import opened Wrappers
  import opened Journal

  datatype MutationSubsumption = No | Subsumed | Subsumes | Indistinguishable {
    predicate IsSubsumed() {
      Subsumed? || Indistinguishable?
    }

    predicate DoesSubsume() {
      Subsumes? || Indistinguishable?
    }
  }

  function Reverse(s: MutationSubsumption): MutationSubsumption {
    match s
    case Subsumed => Subsumes
    case Subsumes => Subsumed
    case _ => s
  }

  /** Each test's result for a mutation; a test without one counts as not detecting it. */
  type TestResults = seq<Option<Verdict>>

  predicate Detects(result: Option<Verdict>) {
    result.Some? && result.value != Undetected
  }

  function DetectingTests(results: TestResults): set<nat> {
    set i | 0 <= i < |results| && Detects(results[i])
  }

  /** What the tests that detect two mutations say of them. */
  function Compare(tests: set<nat>, others: set<nat>): MutationSubsumption {
    if tests == {} || others == {} then No
    else if tests == others then Indistinguishable
    else if tests > others then Subsumes
    else if tests < others then Subsumed
    else No
  }

  predicate IsDetected(results: TestResults) {
    exists i | 0 <= i < |results| :: Detects(results[i])
  }

  /** Each test that detects the other mutation detects this one. */
  predicate Covers(results: TestResults, others: TestResults)
    requires |results| == |others|
  {
    forall i | 0 <= i < |results| :: Detects(others[i]) ==> Detects(results[i])
  }

  /** Of two mutations that are detected at all, one subsumes the other exactly if its detecting tests cover the other's. */
  predicate Tells(s: MutationSubsumption, results: TestResults, others: TestResults)
    requires |results| == |others|
  {
    && (s.DoesSubsume() <==> IsDetected(results) && IsDetected(others) && Covers(results, others))
    && (s.IsSubsumed() <==> IsDetected(results) && IsDetected(others) && Covers(others, results))
  }

  lemma InDetecting(results: TestResults, i: nat)
    ensures i in DetectingTests(results) <==> i < |results| && Detects(results[i])
  {}

  lemma DetectedMeansSome(results: TestResults)
    ensures IsDetected(results) <==> DetectingTests(results) != {}
  {
    if i :| 0 <= i < |results| && Detects(results[i]) {
      assert i in DetectingTests(results);
    }
  }

  lemma CoversIsSubset(results: TestResults, others: TestResults)
    requires |results| == |others|
    ensures Covers(results, others) <==> DetectingTests(others) <= DetectingTests(results)
  {
    forall i | 0 <= i < |results|
      ensures i in DetectingTests(results) <==> Detects(results[i])
      ensures i in DetectingTests(others) <==> Detects(others[i])
    {
      InDetecting(results, i);
      InDetecting(others, i);
    }
  }

  lemma CompareTells(results: TestResults, others: TestResults)
    requires |results| == |others|
    ensures Tells(Compare(DetectingTests(results), DetectingTests(others)), results, others)
  {
    DetectedMeansSome(results);
    DetectedMeansSome(others);
    CoversIsSubset(results, others);
    CoversIsSubset(others, results);
    hide DetectingTests, Covers, IsDetected;
  }

  lemma CompareReversed(tests: set<nat>, others: set<nat>)
    ensures Compare(others, tests) == Reverse(Compare(tests, others))
  {}

  lemma SubsumptionIsTransitive(a: set<nat>, b: set<nat>, c: set<nat>)
    requires Compare(a, b) == Subsumes && Compare(b, c) == Subsumes
    ensures Compare(a, c) == Subsumes
  {}

  lemma DetectingSnoc(results: TestResults, i: nat)
    requires i < |results|
    ensures DetectingTests(results[..i + 1]) == DetectingTests(results[..i]) + if Detects(results[i]) then {i} else {}
  {}

  /** Sets its flags in one pass over the tests. */
  method ComputeSubsumption(results: TestResults, others: TestResults) returns (s: MutationSubsumption)
    requires |results| == |others|
    ensures s == Compare(DetectingTests(results), DetectingTests(others))
    ensures Tells(s, results, others)
  {
    var indistinguishable, hasDetecting, otherHasDetecting := true, false, false;
    var hasSubsumed, hasSubsuming := false, false;
    for i := 0 to |results|
      invariant var a, b := DetectingTests(results[..i]), DetectingTests(others[..i]);
        && (hasDetecting <==> a != {}) && (otherHasDetecting <==> b != {})
        && (hasSubsuming <==> a - b != {}) && (hasSubsumed <==> b - a != {})
        && (indistinguishable <==> a == b)
    {
      DetectingSnoc(results, i);
      DetectingSnoc(others, i);
      FlagsSnoc(DetectingTests(results[..i]), DetectingTests(others[..i]), i, Detects(results[i]), Detects(others[i]));
      var result := if results[i].Some? then results[i].value else Undetected;
      var other := if others[i].Some? then others[i].value else Undetected;
      if result != Undetected {
        hasDetecting := true;
      }
      if other != Undetected {
        otherHasDetecting := true;
      }
      if other == Undetected && result != Undetected {
        indistinguishable := false;
        hasSubsuming := true;
      } else if result == Undetected && other != Undetected {
        indistinguishable := false;
        hasSubsumed := true;
      }
    }
    assert results[..|results|] == results && others[..|others|] == others;
    FlagsDecide(DetectingTests(results), DetectingTests(others));
    CompareTells(results, others);
    hide Tells, DetectingTests;
    s := if !hasDetecting || !otherHasDetecting then No
         else if indistinguishable then Indistinguishable
         else if hasSubsuming == hasSubsumed then No
         else if hasSubsuming then Subsumes
         else Subsumed;
  }

  lemma FlagsSnoc(a: set<nat>, b: set<nat>, i: nat, inA: bool, inB: bool)
    requires i !in a && i !in b
    ensures var a', b' := a + (if inA then {i} else {}), b + (if inB then {i} else {});
      && (a' == {} <==> a == {} && !inA) && (b' == {} <==> b == {} && !inB)
      && (a' - b' == {} <==> a - b == {} && !(inA && !inB)) && (b' - a' == {} <==> b - a == {} && !(inB && !inA))
      && (a' == b' <==> a == b && inA == inB)
  {
    var a', b' := a + (if inA then {i} else {}), b + (if inB then {i} else {});
    assert a <= a' && b <= b' && (inA ==> i in a') && (inB ==> i in b');
    assert a' - b' == (a - b) + if inA && !inB then {i} else {};
    assert b' - a' == (b - a) + if inB && !inA then {i} else {};
    assert a == a' - {i} && b == b' - {i};
  }

  lemma FlagsDecide(a: set<nat>, b: set<nat>)
    ensures a - b == {} <==> a <= b
    ensures b - a == {} <==> b <= a
  {
    assert forall x <- a :: x !in b ==> x in a - b;
    assert forall x <- b :: x !in a ==> x in b - a;
  }

  // ---------- The matrix ----------

  /** Where the entry of two mutations is; ids start at 1. */
  function Index(n: nat, id: nat, other: nat): int {
    n * (id - 1) + (other - 1)
  }

  lemma IndexIsOwn(n: nat, id: nat, other: nat, id': nat, other': nat)
    requires 1 <= id <= n && 1 <= other <= n && 1 <= id' <= n && 1 <= other' <= n
    ensures 0 <= Index(n, id, other) < n * n
    ensures Index(n, id, other) == Index(n, id', other') <==> id == id' && other == other'
  {
    RowIsInMatrix(n, id);
    if id < id' {
      RowsAreApart(n, id, id');
    } else if id' < id {
      RowsAreApart(n, id', id);
    }
  }

  lemma RowIsInMatrix(n: nat, id: nat)
    requires 1 <= id <= n
    ensures 0 <= n * (id - 1) && n * (id - 1) + n <= n * n
  {
    assert n * (id - 1) + n == n * id && n * id <= n * n;
  }

  lemma RowsAreApart(n: nat, id: nat, later: nat)
    requires 1 <= id < later
    ensures n * (id - 1) + n <= n * (later - 1)
  {
    assert n * (id - 1) + n == n * id && n * id <= n * (later - 1);
  }

  predicate SameLength(results: seq<TestResults>) {
    forall i, j | 0 <= i < |results| && 0 <= j < |results| :: |results[i]| == |results[j]|
  }

  /** The entry of two mutations: what their detecting tests say, and nothing of a mutation and itself. */
  function Expected(results: seq<TestResults>, id: nat, other: nat): MutationSubsumption
    requires 1 <= id <= |results| && 1 <= other <= |results|
  {
    if id == other then No else Compare(DetectingTests(results[id - 1]), DetectingTests(results[other - 1]))
  }

  function EntryOf(inner: seq<MutationSubsumption>, n: nat, id: nat, other: nat): MutationSubsumption
    requires |inner| == n * n && 1 <= id <= n && 1 <= other <= n
  {
    IndexIsOwn(n, id, other, id, other);
    inner[Index(n, id, other)]
  }

  /** The pairs that are filled once the rows before this one are, and this row up to a column. */
  predicate Filled(id: nat, column: nat, i: nat, j: nat) {
    i < id || j < id || (i == id && j < column) || (j == id && i < column)
  }

  predicate FilledIn(inner: seq<MutationSubsumption>, results: seq<TestResults>, id: nat, column: nat)
    requires |inner| == |results| * |results|
  {
    forall i, j | 1 <= i <= |results| && 1 <= j <= |results| ::
      EntryOf(inner, |results|, i, j) == if Filled(id, column, i, j) then Expected(results, i, j) else No
  }

  /** Each entry of two mutations says which of them the tests detect whenever they detect the other. */
  lemma EntryTells(results: seq<TestResults>, id: nat, other: nat)
    requires 1 <= id <= |results| && 1 <= other <= |results| && SameLength(results)
    ensures |results[id - 1]| == |results[other - 1]|
    ensures if id == other then Expected(results, id, other) == No
      else Tells(Expected(results, id, other), results[id - 1], results[other - 1])
  {
    hide Tells, Compare, DetectingTests;
    CompareTells(results[id - 1], results[other - 1]);
  }

  lemma FillPair(inner: seq<MutationSubsumption>, results: seq<TestResults>, id: nat, other: nat, s: MutationSubsumption)
    requires |inner| == |results| * |results| && 1 <= id < other <= |results| && FilledIn(inner, results, id, other)
    requires s == Expected(results, id, other)
    ensures var n := |results|;
      && 0 <= Index(n, id, other) < n * n && 0 <= Index(n, other, id) < n * n
      && FilledIn(inner[Index(n, id, other) := s][Index(n, other, id) := Reverse(s)], results, id, other + 1)
  {
    var n := |results|;
    IndexIsOwn(n, id, other, other, id);
    IndexIsOwn(n, other, id, other, id);
    var filled := inner[Index(n, id, other) := s][Index(n, other, id) := Reverse(s)];
    CompareReversed(DetectingTests(results[id - 1]), DetectingTests(results[other - 1]));
    hide Index, Compare, DetectingTests;
    forall i, j | 1 <= i <= n && 1 <= j <= n
      ensures EntryOf(filled, n, i, j) == if Filled(id, other + 1, i, j) then Expected(results, i, j) else No
    {
      IndexIsOwn(n, i, j, id, other);
      IndexIsOwn(n, i, j, other, id);
      assert EntryOf(inner, n, i, j) == if Filled(id, other, i, j) then Expected(results, i, j) else No;
    }
  }

  lemma NextRow(inner: seq<MutationSubsumption>, results: seq<TestResults>, id: nat)
    requires |inner| == |results| * |results| && 1 <= id <= |results|
    requires FilledIn(inner, results, id, |results| + 1)
    ensures FilledIn(inner, results, id + 1, id + 2)
  {
    forall i, j | 1 <= i <= |results| && 1 <= j <= |results|
      ensures EntryOf(inner, |results|, i, j) == if Filled(id + 1, id + 2, i, j) then Expected(results, i, j) else No
    {
      assert EntryOf(inner, |results|, i, j) == if Filled(id, |results| + 1, i, j) then Expected(results, i, j) else No;
    }
  }

  lemma NothingFilled(inner: seq<MutationSubsumption>, results: seq<TestResults>)
    requires |inner| == |results| * |results| && forall k | 0 <= k < |inner| :: inner[k] == No
    ensures FilledIn(inner, results, 1, 2)
  {
    forall i, j | 1 <= i <= |results| && 1 <= j <= |results|
      ensures EntryOf(inner, |results|, i, j) == No
    {
      IndexIsOwn(|results|, i, j, i, j);
      hide Index;
    }
  }

  /** Fills the matrix pair by pair, each with what it says and its mirror with the reverse. */
  method Build(results: seq<TestResults>) returns (inner: array<MutationSubsumption>)
    requires SameLength(results)
    ensures inner.Length == |results| * |results|
    ensures forall i, j | 1 <= i <= |results| && 1 <= j <= |results| ::
      EntryOf(inner[..], |results|, i, j) == Expected(results, i, j)
  {
    hide FilledIn, Index, Compare, DetectingTests;
    var n := |results|;
    inner := new MutationSubsumption[n * n](_ => No);
    NothingFilled(inner[..], results);
    for id := 1 to n + 1
      invariant FilledIn(inner[..], results, id, id + 1)
    {
      for other := id + 1 to n + 1
        invariant FilledIn(inner[..], results, id, other)
      {
        var s := ComputeSubsumption(results[id - 1], results[other - 1]);
        FillPair(inner[..], results, id, other, s);
        var entry, mirror := Index(n, id, other), Index(n, other, id);
        ghost var before := inner[..];
        inner[entry] := s;
        inner[mirror] := Reverse(s);
        assert inner[..] == before[entry := s][mirror := Reverse(s)];
      }
      NextRow(inner[..], results, id);
    }
    AllFilled(inner[..], results);
  }

  lemma AllFilled(inner: seq<MutationSubsumption>, results: seq<TestResults>)
    requires |inner| == |results| * |results| && FilledIn(inner, results, |results| + 1, |results| + 2)
    ensures forall i, j | 1 <= i <= |results| && 1 <= j <= |results| :: EntryOf(inner, |results|, i, j) == Expected(results, i, j)
  {}

  /** A matrix so filled is its own transpose under `reverse`. */
  lemma MatrixIsItsReverse(results: seq<TestResults>, i: nat, j: nat)
    requires 1 <= i <= |results| && 1 <= j <= |results|
    ensures Expected(results, j, i) == Reverse(Expected(results, i, j))
  {
    CompareReversed(DetectingTests(results[i - 1]), DetectingTests(results[j - 1]));
  }

  /** `subsumptions_of`: a mutation's row of the matrix. */
  method SubsumptionsOf(inner: array<MutationSubsumption>, n: nat, id: nat) returns (row: seq<MutationSubsumption>)
    requires inner.Length == n * n && 1 <= id <= n
    ensures |row| == n && forall other | 1 <= other <= n :: row[other - 1] == EntryOf(inner[..], n, id, other)
  {
    RowIsInMatrix(n, id);
    var offset := n * (id - 1);
    row := inner[offset..offset + n];
  }
}
