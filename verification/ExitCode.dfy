/** The log in which test harnesses record their exit codes, and the worst of the codes in it. */
module ExitCode {
  import opened Collections
  import opened Integers
  import opened Wrappers

  const SUCCESS: i32 := 0
  const USAGE: i32 := 1
  const MISSED: i32 := 2
  const TIMED_OUT: i32 := 3
  const BASELINE_FAILED: i32 := 4
  const PANIC: i32 := 101

  // ---------- The worst code ----------

  const LEAST_TO_MOST_SEVERE: seq<i32> := [SUCCESS, MISSED, TIMED_OUT, BASELINE_FAILED, USAGE, PANIC]

  /** An unknown code is as severe as a panic. */
  function Severity(code: i32): (n: nat)
    ensures n < |LEAST_TO_MOST_SEVERE|
  {
    if code == SUCCESS then 0
    else if code == MISSED then 1
    else if code == TIMED_OUT then 2
    else if code == BASELINE_FAILED then 3
    else if code == USAGE then 4
    else 5
  }

  method Worst(codes: seq<i32>) returns (code: i32)
    ensures code == WorstOf(codes) && Ranks(code, codes)
  {
    var max: Option<nat> := None;
    for i := 0 to |codes|
      invariant max == MaxSeverity(codes[..i])
    {
      assert codes[..i + 1][..i] == codes[..i];
      var severity := Severity(codes[i]);
      max := if max.Some? && max.value > severity then max else Some(severity);
    }
    assert codes[..|codes|] == codes;
    MaxSeverityIsMax(codes);
    WorstRanks(codes);
    code := if max.None? then SUCCESS else LEAST_TO_MOST_SEVERE[max.value];
  }

  function MaxSeverity(codes: seq<i32>): Option<nat> {
    if codes == [] then None
    else
      var before, last := MaxSeverity(codes[..|codes| - 1]), Severity(codes[|codes| - 1]);
      if before.Some? && before.value > last then before else Some(last)
  }

  lemma {:induction false} MaxSeverityIsMax(codes: seq<i32>)
    ensures MaxSeverity(codes).None? <==> codes == []
    ensures MaxSeverity(codes).Some? ==>
      && MaxSeverity(codes).value < |LEAST_TO_MOST_SEVERE|
      && (exists i | 0 <= i < |codes| :: Severity(codes[i]) == MaxSeverity(codes).value)
      && (forall i | 0 <= i < |codes| :: Severity(codes[i]) <= MaxSeverity(codes).value)
  {
    if codes != [] {
      var n := |codes| - 1;
      MaxSeverityIsMax(codes[..n]);
      if MaxSeverity(codes[..n]).Some? && MaxSeverity(codes) == MaxSeverity(codes[..n]) {
        var i :| 0 <= i < n && Severity(codes[..n][i]) == MaxSeverity(codes).value;
        assert Severity(codes[i]) == MaxSeverity(codes).value;
      }
    }
  }

  function WorstOf(codes: seq<i32>): i32 {
    MaxSeverityIsMax(codes);
    var max := MaxSeverity(codes);
    if max.None? then SUCCESS else LEAST_TO_MOST_SEVERE[max.value]
  }

  /** Severities name the codes they are of. */
  lemma SeverityOfWorst(codes: seq<i32>)
    ensures codes == [] ==> Severity(WorstOf(codes)) == 0
    ensures codes != [] ==> MaxSeverity(codes) == Some(Severity(WorstOf(codes)))
  {
    MaxSeverityIsMax(codes);
  }

  /** Only which codes there are matters, not their order or how often each one is there. */
  lemma WorstIgnoresOrder(a: seq<i32>, b: seq<i32>)
    requires forall code :: code in a <==> code in b
    ensures WorstOf(a) == WorstOf(b)
  {
    MaxSeverityIsMax(a);
    MaxSeverityIsMax(b);
    assert (a != [] ==> a[0] in b) && (b != [] ==> b[0] in a);
    if a != [] {
      var i :| 0 <= i < |a| && Severity(a[i]) == MaxSeverity(a).value;
      var j :| 0 <= j < |b| && Severity(b[j]) == MaxSeverity(b).value;
      assert a[i] in b && b[j] in a;
    }
  }

  function Flatten(groups: seq<seq<i32>>): seq<i32> {
    if groups == [] then [] else Flatten(groups[..|groups| - 1]) + groups[|groups| - 1]
  }

  function WorstOfEach(groups: seq<seq<i32>>): seq<i32> {
    seq(|groups|, i requires 0 <= i < |groups| => WorstOf(groups[i]))
  }

  lemma WorstOfTwo(a: seq<i32>, b: seq<i32>)
    ensures WorstOf(a + b) == WorstOf([WorstOf(a), WorstOf(b)])
  {
    MaxSeverityIsMax(a);
    MaxSeverityIsMax(b);
    MaxSeverityIsMax(a + b);
    SeverityOfWorst(a);
    SeverityOfWorst(b);
    var two := [WorstOf(a), WorstOf(b)];
    MaxSeverityIsMax(two);
    assert two[0] == WorstOf(a) && two[1] == WorstOf(b);
    if a + b != [] {
      var i :| 0 <= i < |a + b| && Severity((a + b)[i]) == MaxSeverity(a + b).value;
      assert (a + b)[i] == if i < |a| then a[i] else b[i - |a|];
    }
    if a != [] {
      var i :| 0 <= i < |a| && Severity(a[i]) == MaxSeverity(a).value;
      assert (a + b)[i] == a[i];
    }
    if b != [] {
      var i :| 0 <= i < |b| && Severity(b[i]) == MaxSeverity(b).value;
      assert (a + b)[|a| + i] == b[i];
    }
  }

  lemma WorstOfOne(codes: seq<i32>)
    ensures WorstOf([WorstOf(codes)]) == WorstOf(codes)
  {
    var one := [WorstOf(codes)];
    WorstIsKnown(codes);
    WorstIsKnown(one);
    SeverityOfWorst(one);
    assert one[..0] == [];
    assert MaxSeverity(one) == Some(Severity(WorstOf(codes)));
  }

  lemma WorstIsKnown(codes: seq<i32>)
    ensures LEAST_TO_MOST_SEVERE[Severity(WorstOf(codes))] == WorstOf(codes)
  {
    MaxSeverityIsMax(codes);
  }

  /** Nor does it matter how the codes are grouped before the worst of each group is taken. */
  lemma {:induction false} WorstIgnoresGrouping(groups: seq<seq<i32>>)
    ensures WorstOf(Flatten(groups)) == WorstOf(WorstOfEach(groups))
  {
    if groups == [] {
      assert WorstOfEach(groups) == [];
    } else {
      var n := |groups| - 1;
      WorstIgnoresGrouping(groups[..n]);
      WorstOfTwo(Flatten(groups[..n]), groups[n]);
      assert WorstOfEach(groups) == WorstOfEach(groups[..n]) + [WorstOf(groups[n])];
      WorstOfTwo(WorstOfEach(groups[..n]), [WorstOf(groups[n])]);
      WorstOfOne(groups[n]);
    }
  }

  predicate AreAmong(codes: seq<i32>, known: set<i32>) {
    forall i | 0 <= i < |codes| :: codes[i] in known
  }

  /** Each code is the worst exactly if it is there, and beside it only less severe ones; those without a name are panics. */
  predicate Ranks(worst: i32, codes: seq<i32>) {
    && (worst == SUCCESS <==> AreAmong(codes, {SUCCESS}))
    && (worst == MISSED <==> AreAmong(codes, {SUCCESS, MISSED}) && MISSED in codes)
    && (worst == TIMED_OUT <==> AreAmong(codes, {SUCCESS, MISSED, TIMED_OUT}) && TIMED_OUT in codes)
    && (worst == BASELINE_FAILED <==>
          AreAmong(codes, {SUCCESS, MISSED, TIMED_OUT, BASELINE_FAILED}) && BASELINE_FAILED in codes)
    && (worst == USAGE <==> AreAmong(codes, {SUCCESS, MISSED, TIMED_OUT, BASELINE_FAILED, USAGE}) && USAGE in codes)
    && (worst == PANIC <==> !AreAmong(codes, {SUCCESS, MISSED, TIMED_OUT, BASELINE_FAILED, USAGE}))
  }

  /** The codes up to a severity, and what it takes for the worst code to be of this severity or below it. */
  lemma WorstIsAmong(codes: seq<i32>, n: nat, known: set<i32>)
    requires n < |LEAST_TO_MOST_SEVERE| - 1 && forall code: i32 :: code in known <==> Severity(code) <= n
    ensures AreAmong(codes, known) <==> Severity(WorstOf(codes)) <= n
    ensures AreAmong(codes, known) && LEAST_TO_MOST_SEVERE[n] in codes ==> WorstOf(codes) == LEAST_TO_MOST_SEVERE[n]
    ensures WorstOf(codes) == LEAST_TO_MOST_SEVERE[n] ==> codes == [] || LEAST_TO_MOST_SEVERE[n] in codes
  {
    MaxSeverityIsMax(codes);
    SeverityOfWorst(codes);
    WorstIsKnown(codes);
    hide WorstOf, MaxSeverity;
    if AreAmong(codes, known) && LEAST_TO_MOST_SEVERE[n] in codes {
      var i :| 0 <= i < |codes| && codes[i] == LEAST_TO_MOST_SEVERE[n];
      assert Severity(codes[i]) == n;
    }
    if codes != [] && WorstOf(codes) == LEAST_TO_MOST_SEVERE[n] {
      var i :| 0 <= i < |codes| && Severity(codes[i]) == MaxSeverity(codes).value;
      assert codes[i] == LEAST_TO_MOST_SEVERE[n];
    }
  }

  lemma WorstRanks(codes: seq<i32>)
    ensures Ranks(WorstOf(codes), codes)
  {
    WorstIsKnown(codes);
    WorstIsAmong(codes, 0, {SUCCESS});
    WorstIsAmong(codes, 1, {SUCCESS, MISSED});
    WorstIsAmong(codes, 2, {SUCCESS, MISSED, TIMED_OUT});
    WorstIsAmong(codes, 3, {SUCCESS, MISSED, TIMED_OUT, BASELINE_FAILED});
    WorstIsAmong(codes, 4, {SUCCESS, MISSED, TIMED_OUT, BASELINE_FAILED, USAGE});
    hide WorstOf, AreAmong;
    if codes == [] {
      assert WorstOf(codes) == SUCCESS by {
        WorstOfNone();
      }
    }
  }

  lemma WorstOfNone()
    ensures WorstOf([]) == SUCCESS
  {}

  predicate AnalysisCompleted(code: i32) {
    code == SUCCESS || code == MISSED || code == TIMED_OUT
  }

  /** The analysis completed as a whole exactly if it did in every harness. */
  lemma AllCompleted(codes: seq<i32>)
    ensures AnalysisCompleted(WorstOf(codes)) <==> forall i | 0 <= i < |codes| :: AnalysisCompleted(codes[i])
  {
    MaxSeverityIsMax(codes);
    SeverityOfWorst(codes);
    if codes != [] && !AnalysisCompleted(WorstOf(codes)) {
      var i :| 0 <= i < |codes| && Severity(codes[i]) == MaxSeverity(codes).value;
      assert !AnalysisCompleted(codes[i]);
    }
  }

  // ---------- The log ----------

  datatype Entry = Start(pid: u32) | Exit(pid: u32, code: i32) | Other

  /** A harness by its process, with the code it recorded. */
  type Harnesses = seq<(u32, Option<i32>)>

  /** The last harness of this process that recorded no exit, or their number. */
  function LatestRunning(harnesses: Harnesses, pid: u32): (k: nat)
    ensures k <= |harnesses|
    ensures k < |harnesses| ==> harnesses[k] == (pid, None)
    ensures forall i | 0 <= i < |harnesses| && harnesses[i] == (pid, None) :: k < |harnesses| && i <= k
  {
    if harnesses == [] then 0
    else
      var n := |harnesses| - 1;
      if harnesses[n] == (pid, None) then n
      else
        var k := LatestRunning(harnesses[..n], pid);
        assert forall i | 0 <= i < n :: harnesses[..n][i] == harnesses[i];
        if k == n then n + 1 else k
  }

  function RecordExitOfLatest(harnesses: Harnesses, pid: u32, code: i32): Harnesses {
    var k := LatestRunning(harnesses, pid);
    if k < |harnesses| then harnesses[k := (pid, Some(code))] else harnesses + [(pid, Some(code))]
  }

  function ReadOne(harnesses: Harnesses, line: Entry): Harnesses {
    match line
    case Start(pid) => harnesses + [(pid, None)]
    case Exit(pid, code) => RecordExitOfLatest(harnesses, pid, code)
    case Other => harnesses
  }

  function ReadAll(lines: seq<Entry>): Harnesses {
    if lines == [] then [] else ReadOne(ReadAll(lines[..|lines| - 1]), lines[|lines| - 1])
  }

  function Codes(harnesses: Harnesses): seq<i32> {
    seq(|harnesses|, i requires 0 <= i < |harnesses| => if harnesses[i].1.Some? then harnesses[i].1.value else PANIC)
  }

  // ---------- What the harnesses did ----------

  /** A harness starts with a process id, or the harness of this number, in start order, exits. */
  datatype Happening = Starts(pid: u32) | Exits(harness: nat, code: i32)

  /** A process id is reused only after its earlier holder is gone, so no harness exits once a later one has its id. */
  predicate MayHappen(harnesses: Harnesses, h: Happening) {
    match h
    case Starts(_) => true
    case Exits(k, _) =>
      && k < |harnesses|
      && harnesses[k].1.None?
      && forall j | k < j < |harnesses| :: harnesses[j].0 != harnesses[k].0
  }

  function Happened(harnesses: Harnesses, h: Happening): Harnesses
    requires MayHappen(harnesses, h)
  {
    match h
    case Starts(pid) => harnesses + [(pid, None)]
    case Exits(k, code) => harnesses[k := (harnesses[k].0, Some(code))]
  }

  predicate AllMayHappen(hs: seq<Happening>)
    decreases |hs|, 0
  {
    hs == [] || (AllMayHappen(hs[..|hs| - 1]) && MayHappen(Truth(hs[..|hs| - 1]), hs[|hs| - 1]))
  }

  /** Each harness in start order, with its own process id and exit code. */
  function Truth(hs: seq<Happening>): Harnesses
    requires AllMayHappen(hs)
    decreases |hs|, 1
  {
    if hs == [] then [] else Happened(Truth(hs[..|hs| - 1]), hs[|hs| - 1])
  }

  function Logged(hs: seq<Happening>): seq<Entry>
    requires AllMayHappen(hs)
  {
    if hs == [] then []
    else
      var n := |hs| - 1;
      Logged(hs[..n]) + [match hs[n] case Starts(pid) => Start(pid) case Exits(k, code) => Exit(Truth(hs[..n])[k].0, code)]
  }

  /** Whatever harnesses run side by side, and whichever die without a word, each is read with its own code, or a panic. */
  lemma {:induction false} ReadIsTruth(hs: seq<Happening>)
    requires AllMayHappen(hs)
    ensures ReadAll(Logged(hs)) == Truth(hs)
  {
    if hs != [] {
      var n := |hs| - 1;
      ReadIsTruth(hs[..n]);
      assert Logged(hs)[..|Logged(hs)| - 1] == Logged(hs[..n]);
      if hs[n].Exits? {
        var harnesses, k := Truth(hs[..n]), hs[n].harness;
        assert LatestRunning(harnesses, harnesses[k].0) == k;
      }
    }
  }

  predicate IsStart(h: Happening) {
    h.Starts?
  }

  predicate ExitsAt(hs: seq<Happening>, i: nat, k: nat) {
    i < |hs| && hs[i].Exits? && hs[i].harness == k
  }

  /** There is a code for each harness that started: the one it exited with, or that of a panic if it exited with none. */
  predicate AreCodesOf(codes: seq<i32>, hs: seq<Happening>) {
    && |codes| == Count(hs, IsStart)
    && forall k | 0 <= k < |codes| ::
      && (forall i | 0 <= i < |hs| && ExitsAt(hs, i, k) :: codes[k] == hs[i].code)
      && ((forall i | 0 <= i < |hs| :: !ExitsAt(hs, i, k)) ==> codes[k] == PANIC)
  }

  /** What is true of each harness is what happened to it. */
  predicate IsTrueOf(harnesses: Harnesses, hs: seq<Happening>) {
    && |harnesses| == Count(hs, IsStart)
    && (forall i | 0 <= i < |hs| && hs[i].Exits? ::
          hs[i].harness < |harnesses| && harnesses[hs[i].harness].1 == Some(hs[i].code))
    && forall k | 0 <= k < |harnesses| && harnesses[k].1.Some? :: exists i | 0 <= i < |hs| :: ExitsAt(hs, i, k)
  }

  lemma {:induction false} TruthIsWhatHappened(hs: seq<Happening>)
    requires AllMayHappen(hs)
    ensures IsTrueOf(Truth(hs), hs)
  {
    if hs != [] {
      var n := |hs| - 1;
      TruthIsWhatHappened(hs[..n]);
      assert hs == hs[..n] + [hs[n]];
      CountPush(hs[..n], hs[n], IsStart);
      forall k | 0 <= k < |Truth(hs)| && Truth(hs)[k].1.Some?
        ensures exists i | 0 <= i < |hs| :: ExitsAt(hs, i, k)
      {
        if k < |Truth(hs[..n])| && Truth(hs[..n])[k].1.Some? {
          var i :| 0 <= i < n && ExitsAt(hs[..n], i, k);
          assert ExitsAt(hs, i, k);
        } else {
          assert ExitsAt(hs, n, k);
        }
      }
    }
  }

  /** Read from the log, each harness has its own exit code, and one that recorded none has that of a panic. */
  lemma LogTellsCodes(hs: seq<Happening>)
    requires AllMayHappen(hs)
    ensures AreCodesOf(Codes(ReadAll(Logged(hs))), hs)
  {
    ReadIsTruth(hs);
    TruthIsWhatHappened(hs);
    hide Truth, ReadAll, Logged, Count;
  }
}
