/** What the dynamic scheduler starts and collects, as the rounds of a worker's pass over the mutations. */
module ScheduledPass {
  import opened Collections
  import opened Integers
  import opened Scheduler
  import opened Analysis
  import opened AnalysisRun

  type PassRounds = seq<(seq<Mutation>, seq<Mutation>)>

  /** Each mutant of the scheduler has one mutation, under whose id it runs. */
  ghost predicate IsMutationOf(mutationOf: Scheduled -> Mutation) {
    forall x :: mutationOf(x).id == x.mutant.id
  }

  function IdsOfAll(mutants: set<Scheduled>): set<u32> {
    set x <- mutants :: x.mutant.id
  }

  predicate OwnIds(mutants: set<Scheduled>) {
    forall x <- mutants, y <- mutants | x.mutant.id == y.mutant.id :: x == y
  }

  /** One row each for the mutants that start. */
  function StartsOf(newly: seq<Scheduled>, mutationOf: Scheduled -> Mutation): PassRounds {
    seq(|newly|, i requires 0 <= i < |newly| => ([mutationOf(newly[i])], []))
  }

  function MutationsOf(completed: seq<Scheduled>, mutationOf: Scheduled -> Mutation): seq<Mutation> {
    seq(|completed|, i requires 0 <= i < |completed| => mutationOf(completed[i]))
  }

  /** The completed mutants of each round, in the order in which they are found. */
  predicate Orders(orders: seq<seq<Scheduled>>, history: seq<Round>) {
    |orders| == |history| && forall i | 0 <= i < |orders| :: Distinct(orders[i]) && Elements(orders[i]) == history[i].completed
  }

  function RoundsOf(history: seq<Round>, orders: seq<seq<Scheduled>>, mutationOf: Scheduled -> Mutation): PassRounds
    requires |orders| == |history|
  {
    if history == [] then []
    else
      var n := |history| - 1;
      RoundsOf(history[..n], orders[..n], mutationOf) + StartsOf(history[n].started, mutationOf)
      + [([], MutationsOf(orders[n], mutationOf))]
  }

  // ---------- One more round ----------

  /** So far, each mutation completed once, after it started. */
  predicate InOrder(rounds: PassRounds) {
    forall i | 0 <= i < |rounds| ::
      && AnalysisRun.DistinctIds(rounds[i].1)
      && IdsOf(rounds[i].1) <= Begun(rounds[..i + 1])
      && IdsOf(rounds[i].1) !! Done(rounds[..i])
  }

  lemma Snoc(rounds: PassRounds, last: (seq<Mutation>, seq<Mutation>))
    ensures Begun(rounds + [last]) == Begun(rounds) + IdsOf(last.0)
    ensures Done(rounds + [last]) == Done(rounds) + IdsOf(last.1)
  {
    var more := rounds + [last];
    assert forall i | 0 <= i < |rounds| :: more[i] == rounds[i];
    assert more[|rounds|] == last;
  }

  lemma SnocInOrder(rounds: PassRounds, last: (seq<Mutation>, seq<Mutation>))
    requires InOrder(rounds) && AnalysisRun.DistinctIds(last.1)
    requires IdsOf(last.1) <= Begun(rounds) + IdsOf(last.0) && IdsOf(last.1) !! Done(rounds)
    ensures InOrder(rounds + [last])
  {
    Snoc(rounds, last);
    hide Begun, Done, IdsOf, AnalysisRun.DistinctIds;
    var more := rounds + [last];
    forall i | 0 <= i < |more|
      ensures AnalysisRun.DistinctIds(more[i].1) && IdsOf(more[i].1) <= Begun(more[..i + 1]) && IdsOf(more[i].1) !! Done(more[..i])
    {
      if i < |rounds| {
        assert more[..i] == rounds[..i] && more[..i + 1] == rounds[..i + 1];
      } else {
        assert more[..i] == rounds && more[..i + 1] == more;
      }
    }
  }

  lemma OneId(m: Mutation)
    ensures IdsOf([m]) == {m.id}
  {
    assert [m][0] == m;
  }

  lemma OneMoreId(newly: seq<Scheduled>)
    requires newly != []
    ensures var n := |newly| - 1; IdsOfAll(Elements(newly)) == IdsOfAll(Elements(newly[..n])) + {newly[n].mutant.id}
  {
    var n := |newly| - 1;
    assert newly == newly[..n] + [newly[n]];
    assert Elements(newly) == Elements(newly[..n]) + {newly[n]};
  }

  lemma {:induction false} StartsInOrder(rounds: PassRounds, newly: seq<Scheduled>, mutationOf: Scheduled -> Mutation)
    requires InOrder(rounds) && IsMutationOf(mutationOf)
    ensures var more := rounds + StartsOf(newly, mutationOf);
      InOrder(more) && Begun(more) == Begun(rounds) + IdsOfAll(Elements(newly)) && Done(more) == Done(rounds)
  {
    if newly == [] {
      assert rounds + [] == rounds;
    } else {
      var n := |newly| - 1;
      var rest, last := newly[..n], ([mutationOf(newly[n])], []);
      StartsInOrder(rounds, rest, mutationOf);
      assert rounds + StartsOf(newly, mutationOf) == rounds + StartsOf(rest, mutationOf) + [last];
      NoIds();
      OneId(mutationOf(newly[n]));
      OneMoreId(newly);
      hide Begun, Done, IdsOf, InOrder, StartsOf, IdsOfAll;
      Snoc(rounds + StartsOf(rest, mutationOf), last);
      SnocInOrder(rounds + StartsOf(rest, mutationOf), last);
    }
  }

  lemma IdsOfMutations(completed: seq<Scheduled>, mutationOf: Scheduled -> Mutation)
    requires IsMutationOf(mutationOf) && Distinct(completed) && OwnIds(Elements(completed))
    ensures AnalysisRun.DistinctIds(MutationsOf(completed, mutationOf))
    ensures IdsOf(MutationsOf(completed, mutationOf)) == IdsOfAll(Elements(completed))
  {
    var ms := MutationsOf(completed, mutationOf);
    forall i, j | 0 <= i < j < |ms|
      ensures ms[i].id != ms[j].id
    {
      assert completed[i] in Elements(completed) && completed[j] in Elements(completed);
    }
    forall id
      ensures id in IdsOf(ms) <==> id in IdsOfAll(Elements(completed))
    {
      if id in IdsOf(ms) {
        var i :| 0 <= i < |ms| && ms[i].id == id;
        assert completed[i] in Elements(completed);
      }
      if id in IdsOfAll(Elements(completed)) {
        var x :| x in Elements(completed) && x.mutant.id == id;
        var i :| 0 <= i < |completed| && completed[i] == x;
        assert ms[i].id == id;
      }
    }
  }

  lemma IdsApart(mutants: set<Scheduled>, a: set<Scheduled>, b: set<Scheduled>)
    requires OwnIds(mutants) && a <= mutants && b <= mutants && a !! b
    ensures IdsOfAll(a) !! IdsOfAll(b)
  {}

  lemma IdsGrow(a: set<Scheduled>, b: set<Scheduled>)
    ensures IdsOfAll(a + b) == IdsOfAll(a) + IdsOfAll(b) && (a <= b ==> IdsOfAll(a) <= IdsOfAll(b))
  {}

  // ---------- All rounds ----------

  lemma {:induction false} HistoryInOrder(history: seq<Round>, orders: seq<seq<Scheduled>>, mutationOf: Scheduled -> Mutation,
                                          mutants: set<Scheduled>)
    requires OnceEach(history) && Orders(orders, history) && IsMutationOf(mutationOf)
    requires OwnIds(mutants) && StartedIn(history) <= mutants && CompletedIn(history) <= mutants
    ensures var rounds := RoundsOf(history, orders, mutationOf);
      InOrder(rounds) && Begun(rounds) == IdsOfAll(StartedIn(history)) && Done(rounds) == IdsOfAll(CompletedIn(history))
  {
    if history != [] {
      var n := |history| - 1;
      LessHistory(history, orders);
      HistoryInOrder(history[..n], orders[..n], mutationOf, mutants);
      var rounds := RoundsOf(history[..n], orders[..n], mutationOf);
      var last, completed := history[n], orders[n];
      IdsApart(mutants, last.completed, CompletedIn(history[..n]));
      IdsGrow(StartedIn(history[..n]), Elements(last.started));
      IdsGrow(CompletedIn(history[..n]), last.completed);
      IdsGrow(last.completed, StartedIn(history));
      assert OwnIds(Elements(completed));
      IdsOfMutations(completed, mutationOf);
      NoIds();
      hide Begun, Done, IdsOf, InOrder, StartsOf, IdsOfAll, MutationsOf, Elements, Distinct, OwnIds, OnceEach, Orders, AnalysisRun.DistinctIds;
      StartsInOrder(rounds, last.started, mutationOf);
      var begun := rounds + StartsOf(last.started, mutationOf);
      Snoc(begun, ([], MutationsOf(completed, mutationOf)));
      SnocInOrder(begun, ([], MutationsOf(completed, mutationOf)));
    }
  }

  lemma LastRound(history: seq<Round>)
    requires history != []
    ensures var n := |history| - 1;
      && StartedIn(history) == StartedIn(history[..n]) + Elements(history[n].started)
      && CompletedIn(history) == CompletedIn(history[..n]) + history[n].completed
  {}

  lemma LessOnce(history: seq<Round>)
    requires history != [] && OnceEach(history)
    ensures var n := |history| - 1;
      OnceEach(history[..n]) && history[n].completed <= StartedIn(history) && history[n].completed !! CompletedIn(history[..n])
  {
    var n := |history| - 1;
    assert OnceAt(history, n) && history[..n + 1] == history;
    hide OnceAt;
    forall i | 0 <= i < n
      ensures OnceAt(history[..n], i)
    {
      assert OnceAt(history, i);
      OnceBefore(history, n, i);
    }
  }

  lemma LessHistory(history: seq<Round>, orders: seq<seq<Scheduled>>)
    requires history != [] && OnceEach(history) && Orders(orders, history)
    ensures var n := |history| - 1;
      && OnceEach(history[..n]) && Orders(orders[..n], history[..n])
      && Elements(orders[n]) == history[n].completed && Distinct(orders[n])
      && history[n].completed <= StartedIn(history) && history[n].completed !! CompletedIn(history[..n])
      && StartedIn(history) == StartedIn(history[..n]) + Elements(history[n].started)
      && CompletedIn(history) == CompletedIn(history[..n]) + history[n].completed
  {
    hide Distinct, Elements, StartedIn, CompletedIn, OnceEach;
    LastRound(history);
    LessOnce(history);
  }

  /** Once nothing runs and nothing remains, what the scheduler did are the rounds of a whole pass. */
  lemma HistoryIsRounds(history: seq<Round>, orders: seq<seq<Scheduled>>, mutationOf: Scheduled -> Mutation,
                        started: seq<Scheduled>, mutants: set<Scheduled>)
    requires Follows(history, started, {}) && Elements(started) == mutants && OwnIds(mutants)
    requires Orders(orders, history) && IsMutationOf(mutationOf)
    ensures AnalysisRun.Rounds(RoundsOf(history, orders, mutationOf), IdsOfAll(mutants))
  {
    hide OnceEach, Elements, OwnIds, Orders, IsMutationOf, Begun, Done, IdsOf, IdsOfAll, RoundsOf, StartedIn, CompletedIn;
    NothingBetween(StartedIn(history), CompletedIn(history));
    HistoryInOrder(history, orders, mutationOf, mutants);
  }

  lemma NothingBetween(a: set<Scheduled>, b: set<Scheduled>)
    requires a - b == {} && b <= a
    ensures a == b
  {
    assert a == b + (a - b);
  }
}
