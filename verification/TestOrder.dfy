/** The order of a batch's tests: they take turns by the mutation that they reach. */
module TestOrder {
  import opened Collections
  import opened Integers
  import opened TestRunner
  import opened VerdictFold

  /** The tests that reach the mutation, in order. */
  function Of(tests: seq<Test>, m: u32): seq<Test> {
    if tests == [] then []
    else
      var last := tests[|tests| - 1];
      Of(tests[..|tests| - 1], m) + if m in last.reaches then [last] else []
  }

  function Position(tests: seq<Test>, m: u32): (k: nat)
    ensures k <= |tests| && (k < |tests| ==> m in tests[k].reaches) && forall i | 0 <= i < k :: m !in tests[i].reaches
  {
    if tests == [] || m in tests[0].reaches then 0 else 1 + Position(tests[1..], m)
  }

  lemma {:induction false} OfAppend(a: seq<Test>, b: seq<Test>, m: u32)
    ensures Of(a + b, m) == Of(a, m) + Of(b, m)
  {
    if b == [] {
      assert a + b == a;
    } else {
      var n := |b| - 1;
      OfAppend(a, b[..n], m);
      assert (a + b)[..|a + b| - 1] == a + b[..n];
    }
  }

  lemma OfOne(test: Test, m: u32)
    ensures Of([test], m) == if m in test.reaches then [test] else []
  {
    assert [test][..0] == [];
  }

  lemma {:induction false} OfNone(tests: seq<Test>, m: u32)
    requires forall i | 0 <= i < |tests| :: m !in tests[i].reaches
    ensures Of(tests, m) == []
  {
    if tests != [] {
      OfNone(tests[..|tests| - 1], m);
    }
  }

  /** Without one of its tests, a mutation keeps the others; the first one is taken from its front. */
  lemma OfWithout(tests: seq<Test>, k: nat, m: u32)
    requires k < |tests|
    ensures m !in tests[k].reaches ==> Of(tests[..k] + tests[k + 1..], m) == Of(tests, m)
    ensures k == Position(tests, m) ==> Of(tests, m) == [tests[k]] + Of(tests[..k] + tests[k + 1..], m)
  {
    var before, test, after := tests[..k], tests[k], tests[k + 1..];
    assert tests == before + [test] + after;
    OfAppend(before + [test], after, m);
    OfAppend(before, [test], m);
    OfAppend(before, after, m);
    OfOne(test, m);
    if k == Position(tests, m) {
      OfNone(before, m);
    }
    hide *;
    assert Of(before, m) + [] == Of(before, m);
    assert [] + [test] == [test] && [] + Of(after, m) == Of(after, m);
  }

  /** Moving a test to the end of the order keeps what each mutation has in both, and in the same order. */
  lemma Moved(ordered: seq<Test>, rest: seq<Test>, k: nat, m: u32)
    requires k < |rest| && (m in rest[k].reaches ==> k == Position(rest, m))
    ensures Of(ordered + [rest[k]], m) + Of(rest[..k] + rest[k + 1..], m) == Of(ordered, m) + Of(rest, m)
    ensures |Of(ordered + [rest[k]], m)| == |Of(ordered, m)| + if m in rest[k].reaches then 1 else 0
    ensures m in rest[k].reaches ==> |Of(rest, m)| > 0
  {
    var test, rest' := rest[k], rest[..k] + rest[k + 1..];
    OfWithout(rest, k, m);
    OfAppend(ordered, [test], m);
    OfOne(test, m);
    hide Of, Position;
    assert Of(ordered, m) + [] == Of(ordered, m);
    Associative(Of(ordered, m), [test], Of(rest', m));
  }

  /** Mutations that still have tests left have had equally many so far, but for one more in the current round. */
  predicate Balanced(ordered: seq<Test>, tests: seq<Test>, mutations: seq<u32>) {
    forall m, m' | m in mutations && m' in mutations && |Of(ordered, m)| < |Of(tests, m)| && |Of(ordered, m')| < |Of(tests, m')| ::
      |Of(ordered, m)| <= |Of(ordered, m')| + 1
  }

  predicate AllBalanced(ordered: seq<Test>, tests: seq<Test>, mutations: seq<u32>) {
    forall k | 0 <= k <= |ordered| :: Balanced(ordered[..k], tests, mutations)
  }

  /** What was ordered and what remains of a mutation's tests make up all of them, in order. */
  predicate Together(ordered: seq<Test>, rest: seq<Test>, tests: seq<Test>, m: u32) {
    Of(ordered, m) + Of(rest, m) == Of(tests, m)
  }

  /** After some rounds, and the turns of so many mutations in one more. */
  ghost predicate After(ordered: seq<Test>, rest: seq<Test>, tests: seq<Test>, mutations: seq<u32>, rounds: nat, turns: nat) {
    && turns <= |mutations|
    && forall i | 0 <= i < |mutations| ::
         && Together(ordered, rest, tests, mutations[i])
         && |Of(ordered, mutations[i])| == Min(if i < turns then rounds + 1 else rounds, |Of(tests, mutations[i])|)
  }

  lemma AfterIsBalanced(ordered: seq<Test>, rest: seq<Test>, tests: seq<Test>, mutations: seq<u32>, rounds: nat, turns: nat)
    requires After(ordered, rest, tests, mutations, rounds, turns)
    ensures Balanced(ordered, tests, mutations)
  {
    forall m, m' | m in mutations && m' in mutations && |Of(ordered, m)| < |Of(tests, m)| && |Of(ordered, m')| < |Of(tests, m')|
      ensures |Of(ordered, m)| <= |Of(ordered, m')| + 1
    {
      var i :| 0 <= i < |mutations| && mutations[i] == m;
      var j :| 0 <= j < |mutations| && mutations[j] == m';
    }
  }

  lemma TurnTaken(ordered: seq<Test>, rest: seq<Test>, tests: seq<Test>, mutations: seq<u32>, rounds: nat, turn: nat, k: nat)
    requires Distinct(mutations) && ReachOneEach(rest, mutations)
    requires After(ordered, rest, tests, mutations, rounds, turn) && turn < |mutations|
    requires k == Position(rest, mutations[turn]) < |rest|
    ensures After(ordered + [rest[k]], rest[..k] + rest[k + 1..], tests, mutations, rounds, turn + 1)
  {
    hide Of, Position, ReachOneEach, Distinct, Together;
    var ordered', rest' := ordered + [rest[k]], rest[..k] + rest[k + 1..];
    forall i | 0 <= i < |mutations|
      ensures Together(ordered', rest', tests, mutations[i])
      ensures |Of(ordered', mutations[i])| == Min(if i < turn + 1 then rounds + 1 else rounds, |Of(tests, mutations[i])|)
    {
      ReachesOnly(rest, k, mutations, turn, i);
      MovedTogether(ordered, rest, tests, k, mutations[i]);
    }
  }

  lemma MovedTogether(ordered: seq<Test>, rest: seq<Test>, tests: seq<Test>, k: nat, m: u32)
    requires k < |rest| && (m in rest[k].reaches ==> k == Position(rest, m)) && Together(ordered, rest, tests, m)
    ensures Together(ordered + [rest[k]], rest[..k] + rest[k + 1..], tests, m)
    ensures |Of(ordered + [rest[k]], m)| == |Of(ordered, m)| + if m in rest[k].reaches then 1 else 0
    ensures m in rest[k].reaches ==> |Of(ordered, m)| < |Of(tests, m)|
  {
    Moved(ordered, rest, k, m);
  }

  lemma ReachesOnly(rest: seq<Test>, k: nat, mutations: seq<u32>, turn: nat, i: nat)
    requires ReachOneEach(rest, mutations) && Distinct(mutations) && k < |rest|
    requires turn < |mutations| && i < |mutations| && mutations[turn] in rest[k].reaches
    ensures mutations[i] in rest[k].reaches <==> i == turn
  {
    assert mutations[turn] in mutations && mutations[i] in mutations;
  }

  lemma TurnPassed(ordered: seq<Test>, rest: seq<Test>, tests: seq<Test>, mutations: seq<u32>, rounds: nat, turn: nat)
    requires After(ordered, rest, tests, mutations, rounds, turn) && turn < |mutations|
    requires Position(rest, mutations[turn]) == |rest|
    ensures After(ordered, rest, tests, mutations, rounds, turn + 1)
  {
    OfNone(rest, mutations[turn]);
  }

  lemma RoundDone(ordered: seq<Test>, rest: seq<Test>, tests: seq<Test>, mutations: seq<u32>, rounds: nat)
    requires After(ordered, rest, tests, mutations, rounds, |mutations|)
    ensures After(ordered, rest, tests, mutations, rounds + 1, 0)
  {}

  lemma BalancedPush(ordered: seq<Test>, test: Test, tests: seq<Test>, mutations: seq<u32>)
    requires AllBalanced(ordered, tests, mutations) && Balanced(ordered + [test], tests, mutations)
    ensures AllBalanced(ordered + [test], tests, mutations)
  {
    var more := ordered + [test];
    forall k | 0 <= k <= |more|
      ensures Balanced(more[..k], tests, mutations)
    {
      assert more[..k] == if k <= |ordered| then ordered[..k] else more;
    }
  }

  lemma RestReaches(rest: seq<Test>, k: nat, mutations: seq<u32>)
    requires k < |rest| && AllReach(rest, mutations)
    ensures AllReach(rest[..k] + rest[k + 1..], mutations)
    ensures ReachOneEach(rest, mutations) ==> ReachOneEach(rest[..k] + rest[k + 1..], mutations)
    ensures multiset(rest) == multiset(rest[..k] + rest[k + 1..]) + multiset{rest[k]}
  {
    var rest' := rest[..k] + rest[k + 1..];
    assert forall i | 0 <= i < |rest'| :: rest'[i] == rest[if i < k then i else i + 1];
    assert rest == rest[..k] + [rest[k]] + rest[k + 1..];
  }

  /** Everything but the order of the turns, which means nothing when tests reach more than one mutation. */
  ghost predicate Turns(ordered: seq<Test>, rest: seq<Test>, tests: seq<Test>, mutations: seq<u32>, rounds: nat, turn: nat) {
    Distinct(mutations) && ReachOneEach(tests, mutations) ==>
      && ReachOneEach(rest, mutations)
      && After(ordered, rest, tests, mutations, rounds, turn)
      && AllBalanced(ordered, tests, mutations)
  }

  lemma BeforeRounds(tests: seq<Test>, mutations: seq<u32>)
    ensures Turns([], tests, tests, mutations, 0, 0)
  {
    forall i | 0 <= i < |mutations|
      ensures Together([], tests, tests, mutations[i])
    {
      assert [] + Of(tests, mutations[i]) == Of(tests, mutations[i]);
    }
  }

  lemma TurnKeeps(ordered: seq<Test>, rest: seq<Test>, tests: seq<Test>, mutations: seq<u32>, rounds: nat, turn: nat, k: nat)
    requires Turns(ordered, rest, tests, mutations, rounds, turn) && AllReach(rest, mutations)
    requires turn < |mutations| && k == Position(rest, mutations[turn])
    ensures k == |rest| ==> Turns(ordered, rest, tests, mutations, rounds, turn + 1)
    ensures k < |rest| ==> Turns(ordered + [rest[k]], rest[..k] + rest[k + 1..], tests, mutations, rounds, turn + 1)
  {
    hide After, AllBalanced, Balanced;
    if Distinct(mutations) && ReachOneEach(tests, mutations) {
      if k == |rest| {
        TurnPassed(ordered, rest, tests, mutations, rounds, turn);
      } else {
        TurnTaken(ordered, rest, tests, mutations, rounds, turn, k);
        AfterIsBalanced(ordered + [rest[k]], rest[..k] + rest[k + 1..], tests, mutations, rounds, turn + 1);
        BalancedPush(ordered, rest[k], tests, mutations);
        RestReaches(rest, k, mutations);
      }
    }
  }

  lemma Finished(ordered: seq<Test>, tests: seq<Test>, mutations: seq<u32>, rounds: nat)
    requires Turns(ordered, [], tests, mutations, rounds, 0) && Distinct(mutations) && ReachOneEach(tests, mutations)
    ensures AllBalanced(ordered, tests, mutations)
    ensures forall i | 0 <= i < |mutations| :: Of(ordered, mutations[i]) == Of(tests, mutations[i])
  {
    forall i | 0 <= i < |mutations|
      ensures Of(ordered, mutations[i]) == Of(tests, mutations[i])
    {
      assert Together(ordered, [], tests, mutations[i]);
      assert Of(ordered, mutations[i]) + [] == Of(ordered, mutations[i]);
    }
  }

  /**
   * Reorders the tests, and loses none. If each test reaches exactly one mutation, then the tests of each mutation keep
   * their order, and however far the tests have run, the mutations with tests left have had equally many, give or take one.
   */
  method MaximizeMutationParallelism(tests: seq<Test>, mutations: seq<u32>) returns (ordered: seq<Test>)
    requires AllReach(tests, mutations)
    ensures multiset(ordered) == multiset(tests)
    ensures Distinct(mutations) && ReachOneEach(tests, mutations) ==>
      && AllBalanced(ordered, tests, mutations)
      && forall i | 0 <= i < |mutations| :: Of(ordered, mutations[i]) == Of(tests, mutations[i])
  {
    hide After, AllBalanced, Balanced, Of, Turns, ReachOneEach, Position;
    var rest := tests;
    ordered := [];
    ghost var rounds := 0;
    BeforeRounds(tests, mutations);
    while rest != []
      invariant AllReach(rest, mutations) && Turns(ordered, rest, tests, mutations, rounds, 0)
      invariant multiset(ordered) + multiset(rest) == multiset(tests)
      decreases |rest|
    {
      ghost var before := rest;
      for turn := 0 to |mutations|
        invariant AllReach(rest, mutations) && Turns(ordered, rest, tests, mutations, rounds, turn)
        invariant multiset(ordered) + multiset(rest) == multiset(tests)
        invariant |rest| < |before| || (rest == before && forall i | 0 <= i < turn :: mutations[i] !in rest[0].reaches)
      {
        if rest != [] {
          var k := Position(rest, mutations[turn]);
          TurnKeeps(ordered, rest, tests, mutations, rounds, turn, k);
          if k < |rest| {
            RestReaches(rest, k, mutations);
            ordered := ordered + [rest[k]];
            rest := rest[..k] + rest[k + 1..];
          }
        } else {
          TurnKeeps(ordered, rest, tests, mutations, rounds, turn, 0);
        }
      }
      NextRound(ordered, rest, tests, mutations, rounds);
      rounds := rounds + 1;
    }
    if Distinct(mutations) && ReachOneEach(tests, mutations) {
      Finished(ordered, tests, mutations, rounds);
    }
  }

  lemma NextRound(ordered: seq<Test>, rest: seq<Test>, tests: seq<Test>, mutations: seq<u32>, rounds: nat)
    requires Turns(ordered, rest, tests, mutations, rounds, |mutations|)
    ensures Turns(ordered, rest, tests, mutations, rounds + 1, 0)
  {
    if Distinct(mutations) && ReachOneEach(tests, mutations) {
      RoundDone(ordered, rest, tests, mutations, rounds);
    }
  }
}
