/** Lines of highlighted source: which piece of the HTML stands for which piece of the source line. */
module SyntaxHighlight {
  import opened Collections
  import opened Wrappers
  import opened Markup

  /** A place in the source line, and the same place in the HTML. */
  datatype Loc = Loc(source: nat, mapped: nat)

  /** A breakable segment is source text as it is; an unbreakable one is markup that is kept in one piece. */
  datatype Segment = Segment(start: Loc, end: Loc, breakable: bool)

  type Segments = seq<Segment>

  // ---------- Segments that tile a line ----------

  predicate Holds(seg: Segment, source: string, line: string) {
    && seg.start.source <= seg.end.source <= |source|
    && seg.start.mapped < seg.end.mapped <= |line|
    && var text, html := source[seg.start.source..seg.end.source], line[seg.start.mapped..seg.end.mapped];
       if seg.breakable then html == text && Plain(text) else Shows(html, Escape(text))
  }

  const START := Loc(0, 0)

  /** A segment starts where the one before it ends. */
  predicate Follows(ms: Segments, i: nat, from: Loc)
    requires i < |ms|
  {
    ms[i].start == if i == 0 then from else ms[i - 1].end
  }

  /** The segments lie end to end from one place to another, in the source and in the HTML. */
  predicate Tiled(ms: Segments, from: Loc, to: Loc, source: string, line: string) {
    && (forall i {:trigger Follows(ms, i, from)} | 0 <= i < |ms| :: Follows(ms, i, from))
    && (forall i {:trigger Holds(ms[i], source, line)} | 0 <= i < |ms| :: Holds(ms[i], source, line))
    && to == if ms == [] then from else ms[|ms| - 1].end
  }

  predicate Before(a: Loc, b: Loc) {
    a.source <= b.source && a.mapped <= b.mapped
  }

  lemma HoldsInOrder(seg: Segment, source: string, line: string)
    requires Holds(seg, source, line)
    ensures Before(seg.start, seg.end) && seg.start.mapped < seg.end.mapped
    ensures seg.end.source <= |source| && seg.end.mapped <= |line|
  {}

  lemma TiledHolds(ms: Segments, k: nat, from: Loc, to: Loc, source: string, line: string)
    requires Tiled(ms, from, to, source, line) && k < |ms|
    ensures Holds(ms[k], source, line) && ms[k].start == if k == 0 then from else ms[k - 1].end
    ensures Before(ms[k].start, ms[k].end) && ms[k].start.mapped < ms[k].end.mapped
    ensures k == |ms| - 1 ==> ms[k].end == to
  {
    assert Follows(ms, k, from);
    assert Holds(ms[k], source, line);
    hide Tiled;
    HoldsInOrder(ms[k], source, line);
  }

  lemma {:induction false} TiledOrder(ms: Segments, i: nat, j: nat, from: Loc, to: Loc, source: string, line: string)
    requires Tiled(ms, from, to, source, line) && i < j < |ms|
    ensures Before(ms[i].end, ms[j].start)
    decreases j
  {
    hide Tiled, Holds;
    TiledHolds(ms, j, from, to, source, line);
    if i < j - 1 {
      TiledHolds(ms, j - 1, from, to, source, line);
      TiledOrder(ms, i, j - 1, from, to, source, line);
    }
  }

  lemma TiledAt(ms: Segments, k: nat, from: Loc, to: Loc, source: string, line: string)
    requires Tiled(ms, from, to, source, line) && k < |ms|
    ensures Holds(ms[k], source, line) && Before(from, ms[k].start) && Before(ms[k].end, to)
    ensures Before(ms[k].start, ms[k].end) && ms[k].start.mapped < ms[k].end.mapped
    ensures if k == 0 then ms[k].start == from else ms[k - 1].end == ms[k].start
  {
    hide Tiled, Holds;
    var n := |ms| - 1;
    TiledHolds(ms, 0, from, to, source, line);
    TiledHolds(ms, k, from, to, source, line);
    TiledHolds(ms, n, from, to, source, line);
    if 0 < k {
      TiledOrder(ms, 0, k, from, to, source, line);
    }
    if k < n {
      TiledOrder(ms, k, n, from, to, source, line);
    }
  }

  lemma TiledInit(ms: Segments, from: Loc, to: Loc, source: string, line: string)
    requires Tiled(ms, from, to, source, line) && ms != []
    ensures var n := |ms| - 1;
      Tiled(ms[..n], from, ms[n].start, source, line) && Holds(ms[n], source, line) && ms[n].end == to
  {
    hide Holds;
    var n := |ms| - 1;
    assert Holds(ms[n], source, line) && Follows(ms, n, from);
    forall i | 0 <= i < n
      ensures Follows(ms[..n], i, from) && Holds(ms[..n][i], source, line)
    {
      assert Follows(ms, i, from) && Holds(ms[i], source, line);
    }
  }

  lemma TiledNone(ms: Segments, from: Loc, to: Loc, source: string, line: string)
    requires Tiled(ms, from, to, source, line)
    ensures ms == [] ==> from == to
  {}

  lemma TiledAppend(a: Segments, b: Segments, from: Loc, mid: Loc, to: Loc, source: string, line: string)
    requires Tiled(a, from, mid, source, line) && Tiled(b, mid, to, source, line)
    ensures Tiled(a + b, from, to, source, line)
  {
    hide Holds;
    var ms := a + b;
    forall i | 0 <= i < |ms|
      ensures Follows(ms, i, from) && Holds(ms[i], source, line)
    {
      if i < |a| {
        assert Follows(a, i, from) && Holds(a[i], source, line);
      } else {
        assert Follows(b, i - |a|, mid) && Holds(b[i - |a|], source, line);
      }
    }
  }

  /** Where the k-th segment starts, or where the last one ends. */
  function Boundary(ms: Segments, k: nat, to: Loc): Loc
    requires k <= |ms|
  {
    if k < |ms| then ms[k].start else to
  }

  lemma TiledSplit(ms: Segments, k: nat, from: Loc, to: Loc, source: string, line: string)
    requires k <= |ms| && Tiled(ms, from, to, source, line)
    ensures Tiled(ms[..k], from, Boundary(ms, k, to), source, line)
    ensures Tiled(ms[k..], Boundary(ms, k, to), to, source, line)
  {
    hide Holds;
    if k < |ms| {
      assert Follows(ms, k, from);
    }
    forall i | 0 <= i < k
      ensures Follows(ms[..k], i, from) && Holds(ms[..k][i], source, line)
    {
      assert Follows(ms, i, from) && Holds(ms[i], source, line);
    }
    forall i | 0 <= i < |ms| - k
      ensures Follows(ms[k..], i, Boundary(ms, k, to)) && Holds(ms[k..][i], source, line)
    {
      assert Follows(ms, k + i, from) && Holds(ms[k + i], source, line);
    }
  }

  /** Tags nest in every run of segments, and what it shows is exactly its piece of the source. */
  lemma {:induction false} TiledShows(ms: Segments, from: Loc, to: Loc, source: string, line: string)
    requires Tiled(ms, from, to, source, line)
    requires to.source <= |source| && to.mapped <= |line|
    ensures from.source <= to.source && from.mapped <= to.mapped
    ensures Shows(line[from.mapped..to.mapped], Escape(source[from.source..to.source]))
  {
    TiledNone(ms, from, to, source, line);
    if ms == [] {
      NothingShows();
      assert line[from.mapped..to.mapped] == [] && source[from.source..to.source] == [];
    } else {
      var last := ms[|ms| - 1];
      var mid := last.start;
      TiledInit(ms, from, to, source, line);
      HoldsInOrder(last, source, line);
      TiledShows(ms[..|ms| - 1], from, mid, source, line);
      hide Tiled, Escape, Shows;
      SliceInTwo(line, from.mapped, mid.mapped, to.mapped);
      SliceInTwo(source, from.source, mid.source, to.source);
      var text := source[mid.source..to.source];
      if last.breakable {
        PlainIsItsOwnEscape(text);
        UntaggedShowsItself(text);
      }
      EscapeAppend(source[from.source..mid.source], text);
      ShowsAppend(line[from.mapped..mid.mapped], line[mid.mapped..to.mapped], Escape(source[from.source..mid.source]), Escape(text));
    }
  }

  // ---------- Cutting segments ----------

  lemma CutInOrder(seg: Segment, at: Loc, source: string, line: string)
    requires Holds(seg, source, line) && CanCut(seg, at)
    ensures Before(seg.start, at) && Before(at, seg.end)
    ensures at.mapped == seg.start.mapped ==> at == seg.start
    ensures at.mapped == seg.end.mapped ==> at == seg.end
  {}

  /** A place where the segment may be cut: one of its ends, or any place inside of source text. */
  predicate CanCut(seg: Segment, at: Loc) {
    || at == seg.start
    || at == seg.end
    || (&& seg.breakable && seg.start.source < at.source < seg.end.source
        && at.mapped - seg.start.mapped == at.source - seg.start.source)
  }

  function Front(seg: Segment, at: Loc): Segments {
    if at == seg.start then [] else [seg.(end := at)]
  }

  function Back(seg: Segment, at: Loc): Segments {
    if at == seg.end then [] else [seg.(start := at)]
  }

  lemma CutTiles(seg: Segment, at: Loc, source: string, line: string)
    requires Holds(seg, source, line) && CanCut(seg, at)
    ensures Tiled(Front(seg, at), seg.start, at, source, line) && Tiled(Back(seg, at), at, seg.end, source, line)
  {
    if at != seg.start && at != seg.end {
      var text, html := source[seg.start.source..seg.end.source], line[seg.start.mapped..seg.end.mapped];
      var n := at.source - seg.start.source;
      SlicesOfSlice(source, seg.start.source, at.source, seg.end.source);
      SlicesOfSlice(line, seg.start.mapped, at.mapped, seg.end.mapped);
    }
  }

  lemma BoundaryBefore(ms: Segments, k: nat, to: Loc)
    requires k < |ms|
    ensures Boundary(ms, k, to) == ms[k].start
  {}

  lemma BoundaryBehind(ms: Segments, k: nat, from: Loc, to: Loc, source: string, line: string)
    requires Tiled(ms, from, to, source, line) && k < |ms|
    ensures Boundary(ms, k + 1, to) == ms[k].end
  {
    if k + 1 < |ms| {
      TiledAt(ms, k + 1, from, to, source, line);
    }
  }

  lemma CutTiling(ms: Segments, k: nat, at: Loc, from: Loc, to: Loc, source: string, line: string)
    requires Tiled(ms, from, to, source, line) && k < |ms| && CanCut(ms[k], at)
    ensures Tiled(ms[..k] + Front(ms[k], at), from, at, source, line)
    ensures Tiled(Back(ms[k], at) + ms[k + 1..], at, to, source, line)
  {
    TiledAt(ms, k, from, to, source, line);
    BoundaryBehind(ms, k, from, to, source, line);
    hide Tiled, Follows, Holds, CanCut, Front, Back, Boundary;
    BoundaryBefore(ms, k, to);
    TiledSplit(ms, k, from, to, source, line);
    TiledSplit(ms, k + 1, from, to, source, line);
    CutTiles(ms[k], at, source, line);
    TiledAppend(ms[..k], Front(ms[k], at), from, ms[k].start, at, source, line);
    TiledAppend(Back(ms[k], at), ms[k + 1..], at, ms[k].end, to, source, line);
  }

  // ---------- Segments around an insertion ----------

  function ShiftLoc(at: Loc, gap: nat): Loc {
    at.(mapped := at.mapped + gap)
  }

  function Shift(seg: Segment, gap: nat): Segment {
    seg.(start := ShiftLoc(seg.start, gap), end := ShiftLoc(seg.end, gap))
  }

  function ShiftAll(ms: Segments, gap: nat): Segments {
    seq(|ms|, i requires 0 <= i < |ms| => Shift(ms[i], gap))
  }

  lemma HoldsElsewhere(seg: Segment, to: Loc, source: string, line: string, source': string, line': string)
    requires Holds(seg, source, line) && Before(seg.end, to)
    requires to.mapped <= |line| && to.mapped <= |line'| && line[..to.mapped] == line'[..to.mapped]
    requires to.source <= |source| && to.source <= |source'| && source[..to.source] == source'[..to.source]
    ensures Holds(seg, source', line')
  {
    var a, b, c, d := seg.start.mapped, seg.end.mapped, seg.start.source, seg.end.source;
    SliceOfPrefix(line, to.mapped, a, b);
    SliceOfPrefix(line', to.mapped, a, b);
    SliceOfPrefix(source, to.source, c, d);
    SliceOfPrefix(source', to.source, c, d);
  }

  /** Segments hold in any line, and of any source, that agrees with theirs so far. */
  lemma TiledBefore(ms: Segments, from: Loc, to: Loc, source: string, line: string, source': string, line': string)
    requires Tiled(ms, from, to, source, line)
    requires to.mapped <= |line| && to.mapped <= |line'| && line[..to.mapped] == line'[..to.mapped]
    requires to.source <= |source| && to.source <= |source'| && source[..to.source] == source'[..to.source]
    ensures Tiled(ms, from, to, source', line')
  {
    hide Holds, Follows;
    forall i | 0 <= i < |ms|
      ensures Holds(ms[i], source', line')
    {
      TiledAt(ms, i, from, to, source, line);
      HoldsElsewhere(ms[i], to, source, line, source', line');
    }
  }

  lemma ShiftAllAppend(a: Segments, b: Segments, gap: nat)
    ensures ShiftAll(a + b, gap) == ShiftAll(a, gap) + ShiftAll(b, gap)
  {}

  lemma ShiftedBack(seg: Segment, at: Loc, gap: nat)
    ensures ShiftAll(Back(seg, at), gap) ==
      if at == seg.end then [] else [Segment(ShiftLoc(at, gap), ShiftLoc(seg.end, gap), seg.breakable)]
  {}

  lemma HoldsShifted(seg: Segment, p: nat, source: string, line: string, line': string, gap: nat)
    requires Holds(seg, source, line) && p <= seg.start.mapped
    requires p <= |line| && p + gap <= |line'| && line[p..] == line'[p + gap..]
    ensures Holds(Shift(seg, gap), source, line')
  {
    var a, b := seg.start.mapped, seg.end.mapped;
    SliceOfSuffix(line, p, a, b);
    SliceOfSuffix(line', p + gap, a + gap, b + gap);
  }

  lemma TiledShifted(ms: Segments, from: Loc, to: Loc, source: string, line: string, line': string, gap: nat)
    requires Tiled(ms, from, to, source, line)
    requires from.mapped <= |line| && from.mapped + gap <= |line'| && line[from.mapped..] == line'[from.mapped + gap..]
    ensures Tiled(ShiftAll(ms, gap), ShiftLoc(from, gap), ShiftLoc(to, gap), source, line')
  {
    hide Holds;
    var shifted := ShiftAll(ms, gap);
    forall i | 0 <= i < |ms|
      ensures Follows(shifted, i, ShiftLoc(from, gap)) && Holds(shifted[i], source, line')
    {
      TiledAt(ms, i, from, to, source, line);
      HoldsShifted(ms[i], from.mapped, source, line, line', gap);
    }
  }

  /** The segments up to a place, the last one cut there. */
  function Upto(ms: Segments, at: Loc): Segments {
    if ms == [] then []
    else
      var n := |ms| - 1;
      if ms[n].end.mapped <= at.mapped then ms
      else if ms[n].start.mapped < at.mapped then ms[..n] + [ms[n].(end := at)]
      else Upto(ms[..n], at)
  }

  /** The segments from a place on, the first one cut there. */
  function After(ms: Segments, at: Loc): Segments {
    if ms == [] then []
    else if ms[0].start.mapped >= at.mapped then ms
    else if ms[0].end.mapped > at.mapped then [ms[0].(start := at)] + ms[1..]
    else After(ms[1..], at)
  }

  lemma {:induction false} UptoIs(ms: Segments, k: nat, at: Loc, from: Loc, to: Loc, source: string, line: string)
    requires Tiled(ms, from, to, source, line) && k < |ms| && CanCut(ms[k], at)
    ensures Upto(ms, at) == ms[..k] + Front(ms[k], at)
  {
    hide Tiled, Holds;
    var n := |ms| - 1;
    TiledAt(ms, k, from, to, source, line);
    CutInOrder(ms[k], at, source, line);
    if k < n {
      TiledOrder(ms, k, n, from, to, source, line);
      TiledAt(ms, n, from, to, source, line);
      TiledInit(ms, from, to, source, line);
      UptoIs(ms[..n], k, at, from, ms[n].start, source, line);
      assert ms[..n][..k] == ms[..k];
    } else if k > 0 {
      UptoEnds(ms[..k], at);
      assert ms[..k] + [] == ms[..k];
    } else {
      assert ms[..k] == [];
    }
  }

  lemma UptoEnds(ms: Segments, at: Loc)
    requires ms != [] && ms[|ms| - 1].end.mapped <= at.mapped
    ensures Upto(ms, at) == ms
  {}

  lemma {:induction false} AfterIs(ms: Segments, k: nat, at: Loc, from: Loc, to: Loc, source: string, line: string)
    requires Tiled(ms, from, to, source, line) && k < |ms| && CanCut(ms[k], at)
    ensures After(ms, at) == Back(ms[k], at) + ms[k + 1..]
  {
    hide Tiled, Holds;
    TiledAt(ms, 0, from, to, source, line);
    TiledAt(ms, k, from, to, source, line);
    CutInOrder(ms[k], at, source, line);
    if k > 0 {
      TiledOrder(ms, 0, k, from, to, source, line);
      TiledSplit(ms, 1, from, to, source, line);
      var rest := ms[1..];
      assert rest[k - 1] == ms[k] && rest[k..] == ms[k + 1..];
      AfterIs(rest, k - 1, at, Boundary(ms, 1, to), to, source, line);
      hide CanCut, Back;
      AfterSkips(ms, at);
    } else if |ms| > 1 {
      TiledAt(ms, 1, from, to, source, line);
      AfterStarts(ms[1..], at);
    }
  }

  lemma AfterStarts(ms: Segments, at: Loc)
    requires ms != [] && at.mapped <= ms[0].start.mapped
    ensures After(ms, at) == ms
  {}

  lemma AfterSkips(ms: Segments, at: Loc)
    requires ms != [] && ms[0].start.mapped < ms[0].end.mapped <= at.mapped
    ensures After(ms, at) == After(ms[1..], at)
  {}

  // ---------- Overlays ----------

  /** `position` of an iterator: the first segment of the kind, or their number if there is none. */
  function Position(ms: Segments, p: Segment -> bool): (k: nat)
    ensures k <= |ms| && (k < |ms| ==> p(ms[k])) && forall i | 0 <= i < k :: !p(ms[i])
  {
    if ms == [] || p(ms[0]) then 0 else 1 + Position(ms[1..], p)
  }

  /** Where an overlay starts in the segment of its first character, and ends in that of its last. */
  function StartIn(seg: Segment, offset: nat): Loc
    requires seg.start.source <= offset
  {
    if seg.breakable then Loc(offset, seg.start.mapped + (offset - seg.start.source)) else seg.start
  }

  function EndIn(seg: Segment, offset: nat): Loc
    requires seg.start.source <= offset
  {
    if seg.breakable then Loc(offset, seg.start.mapped + (offset - seg.start.source)) else seg.end
  }

  /** What stands between two places where segments may be cut nests by itself. */
  lemma ShowsBetween(ms: Segments, i: nat, j: nat, from: Loc, to: Loc, end: Loc, source: string, line: string)
    requires Tiled(ms, START, end, source, line) && end == Loc(|source|, |line|)
    requires i < |ms| && j < |ms| && i <= j + 1 && CanCut(ms[i], from) && CanCut(ms[j], to)
    requires Before(from, to) && (i == j + 1 ==> from == to)
    requires Before(to, end)
    ensures Shows(line[from.mapped..to.mapped], Escape(source[from.source..to.source]))
  {
    hide Tiled, Holds, Shows, Escape;
    TiledAt(ms, i, START, end, source, line);
    TiledAt(ms, j, START, end, source, line);
    if from == to {
      NothingShows();
      assert line[from.mapped..to.mapped] == [] && source[from.source..to.source] == [];
    } else {
      CutTiling(ms, j, to, START, end, source, line);
      var upto := ms[..j] + Front(ms[j], to);
      CutTiling(upto, i, from, START, to, source, line);
      TiledShows(Back(upto[i], from) + upto[i + 1..], from, to, source, line);
    }
  }

  lemma NothingShows()
    ensures Shows([], Escape([]))
  {}

  function Wrapped(line: string, from: nat, to: nat, prefix: string, suffix: string): string
    requires from <= to <= |line|
  {
    line[..from] + prefix + line[from..to] + suffix + line[to..]
  }

  /** The line before, around and behind what was wrapped. */
  lemma WrappedParts(line: string, from: nat, to: nat, prefix: string, suffix: string)
    requires from <= to <= |line|
    ensures var gap, line' := |prefix| + |suffix|, Wrapped(line, from, to, prefix, suffix);
      && |line'| == |line| + gap && line'[..from] == line[..from]
      && line'[from..to + gap] == prefix + line[from..to] + suffix && line'[to + gap..] == line[to..]
  {}

  lemma WrapTiles(left: Segments, right: Segments, from: Loc, to: Loc, source: string, line: string, prefix: string, suffix: string)
    requires Before(from, to) && Before(to, Loc(|source|, |line|)) && IsPair(prefix, suffix)
    requires Tiled(left, START, from, source, line) && Tiled(right, to, Loc(|source|, |line|), source, line)
    requires Shows(line[from.mapped..to.mapped], Escape(source[from.source..to.source]))
    ensures var gap, line' := |prefix| + |suffix|, Wrapped(line, from.mapped, to.mapped, prefix, suffix);
      Tiled(left + [Segment(from, ShiftLoc(to, gap), false)] + ShiftAll(right, gap), START, Loc(|source|, |line'|), source, line')
  {
    hide Tiled, Holds, Shows, Escape, Wrapped;
    var gap, line' := |prefix| + |suffix|, Wrapped(line, from.mapped, to.mapped, prefix, suffix);
    var end := ShiftLoc(to, gap);
    WrappedParts(line, from.mapped, to.mapped, prefix, suffix);
    TiledBefore(left, START, from, source, line, source, line');
    WrappedShows(prefix, line[from.mapped..to.mapped], suffix, Escape(source[from.source..to.source]));
    TiledAlone(Segment(from, end, false), source, line');
    TiledShifted(right, to, Loc(|source|, |line|), source, line, line', gap);
    TiledAppend(left, [Segment(from, end, false)], START, from, end, source, line');
    TiledAppend(left + [Segment(from, end, false)], ShiftAll(right, gap), START, end, Loc(|source|, |line'|), source, line');
  }

  /** What putting tags around a place comes to: cut there, the segments tile the new line, and it breaks none that it must not. */
  lemma OverlayTiles(
      ms: Segments, i: nat, j: nat, from: Loc, to: Loc, source: string, line: string, prefix: string, suffix: string)
    requires Tiled(ms, START, Loc(|source|, |line|), source, line) && IsPair(prefix, suffix)
    requires i < |ms| && j < |ms| && i <= j + 1 && CanCut(ms[i], from) && CanCut(ms[j], to)
    requires Before(from, to) && (i == j + 1 ==> from == to) && Before(to, Loc(|source|, |line|))
    ensures IsClear(ms, from) && IsClear(ms, to)
    ensures Shows(line[from.mapped..to.mapped], Escape(source[from.source..to.source]))
    ensures Upto(ms, from) == ms[..i] + Front(ms[i], from) && After(ms, to) == Back(ms[j], to) + ms[j + 1..]
    ensures var gap, line' := |prefix| + |suffix|, Wrapped(line, from.mapped, to.mapped, prefix, suffix);
      Tiled(
        Upto(ms, from) + [Segment(from, ShiftLoc(to, gap), false)] + ShiftAll(After(ms, to), gap),
        START, Loc(|source|, |line'|), source, line')
  {
    hide Tiled, Holds, CanCut, Upto, After, Front, Back, ShiftAll, IsPair, IsClear, Wrapped, Shows, Escape;
    var all := Loc(|source|, |line|);
    CutIsClear(ms, i, from, START, all, source, line);
    CutIsClear(ms, j, to, START, all, source, line);
    CutTiling(ms, i, from, START, all, source, line);
    CutTiling(ms, j, to, START, all, source, line);
    UptoIs(ms, i, from, START, all, source, line);
    AfterIs(ms, j, to, START, all, source, line);
    ShowsBetween(ms, i, j, from, to, all, source, line);
    WrapTiles(Upto(ms, from), After(ms, to), from, to, source, line, prefix, suffix);
  }

  lemma TiledAlone(seg: Segment, source: string, line: string)
    requires Holds(seg, source, line)
    ensures Tiled([seg], seg.start, seg.end, source, line)
  {
    assert [seg][0] == seg;
  }

  /** What finding the two segments of an overlay says about them. */
  lemma Located(ms: Segments, i: nat, j: nat, start: nat, end: nat, source: string, line: string)
    requires Tiled(ms, START, Loc(|source|, |line|), source, line) && start <= end
    requires i < |ms| && start < ms[i].end.source && forall k | 0 <= k < i :: ms[k].end.source <= start
    requires j < |ms| && end <= ms[j].end.source && forall k | 0 <= k < j :: ms[k].end.source < end
    ensures ms[i].start.source <= start && CanCut(ms[i], StartIn(ms[i], start))
    ensures ms[j].start.source <= end && CanCut(ms[j], EndIn(ms[j], end))
    ensures Before(StartIn(ms[i], start), Loc(|source|, |line|)) && Before(EndIn(ms[j], end), Loc(|source|, |line|))
    ensures ms[i].breakable ==> SameLength(ms[i])
    ensures ms[j].breakable ==> SameLength(ms[j])
  {
    hide Tiled, Holds;
    TiledAt(ms, i, START, Loc(|source|, |line|), source, line);
    TiledAt(ms, j, START, Loc(|source|, |line|), source, line);
    BreakableLength(ms[i], source, line);
    BreakableLength(ms[j], source, line);
  }

  /** Every segment ends in the line, and the last one ends it. */
  lemma Ends(ms: Segments, source: string, line: string)
    requires Tiled(ms, START, Loc(|source|, |line|), source, line)
    ensures if ms == [] then source == [] else ms[|ms| - 1].end.source == |source|
    ensures forall k | 0 <= k < |ms| :: ms[k].end.source <= |source|
  {
    forall k | 0 <= k < |ms|
      ensures ms[k].end.source <= |source|
    {
      TiledAt(ms, k, START, Loc(|source|, |line|), source, line);
    }
  }

  predicate SameLength(seg: Segment) {
    seg.end.source - seg.start.source == seg.end.mapped - seg.start.mapped
  }

  lemma BreakableLength(seg: Segment, source: string, line: string)
    requires Holds(seg, source, line)
    ensures seg.breakable ==> SameLength(seg)
  {}

  /** The segments of a range lie in order, or one after the other if the range is empty and lies between them. */
  lemma LocatedInOrder(ms: Segments, i: nat, j: nat, start: nat, end: nat, source: string, line: string)
    requires Tiled(ms, START, Loc(|source|, |line|), source, line) && start <= end
    requires i < |ms| && start < ms[i].end.source && forall k | 0 <= k < i :: ms[k].end.source <= start
    requires j < |ms| && end <= ms[j].end.source && forall k | 0 <= k < j :: ms[k].end.source < end
    requires i <= j + 1
    ensures ms[i].start.source <= start && ms[j].start.source <= end
    ensures Before(StartIn(ms[i], start), EndIn(ms[j], end))
    ensures i == j + 1 ==> StartIn(ms[i], start) == EndIn(ms[j], end)
  {
    hide Tiled, Holds, EmptyAt;
    var all := Loc(|source|, |line|);
    Located(ms, i, j, start, end, source, line);
    TiledAt(ms, i, START, all, source, line);
    TiledAt(ms, j, START, all, source, line);
    if i < j {
      TiledOrder(ms, i, j, START, all, source, line);
    }
  }

  /** Otherwise there is a segment of no text where the range is. */
  lemma OutOfOrder(ms: Segments, i: nat, j: nat, start: nat, end: nat, source: string, line: string)
    requires Tiled(ms, START, Loc(|source|, |line|), source, line) && start <= end
    requires i < |ms| && start < ms[i].end.source && forall k | 0 <= k < i :: ms[k].end.source <= start
    requires j < |ms| && end <= ms[j].end.source && forall k | 0 <= k < j :: ms[k].end.source < end
    ensures i <= j + 1 <==> !(start == end && EmptyAt(ms, start))
  {
    hide Tiled, Holds;
    var all := Loc(|source|, |line|);
    if i > j + 1 {
      TiledAt(ms, i - 1, START, all, source, line);
      if i - 2 > j {
        TiledOrder(ms, j, i - 2, START, all, source, line);
        TiledAt(ms, i - 2, START, all, source, line);
      }
      assert ms[i - 1].start.source == start == ms[i - 1].end.source;
    }
    if k :| 0 < k < |ms| && start == end && ms[k].start.source == start == ms[k].end.source {
      TiledAt(ms, k, START, all, source, line);
      if i < k {
        TiledOrder(ms, i, k, START, all, source, line);
      }
    }
  }

  /** The places closest to the asked range that no unbreakable segment lies across. */
  predicate Encloses(ms: Segments, start: nat, end: nat, from: Loc, to: Loc) {
    && from.source <= start && end <= to.source
    && (from.source < start ==> exists k | 0 <= k < |ms| ::
          !ms[k].breakable && ms[k].start == from && start < ms[k].end.source)
    && (end < to.source ==> exists k | 0 <= k < |ms| ::
          !ms[k].breakable && (ms[k].start.source < end || end == 0) && ms[k].end == to)
  }

  lemma LocatedEncloses(ms: Segments, i: nat, j: nat, start: nat, end: nat, source: string, line: string)
    requires Tiled(ms, START, Loc(|source|, |line|), source, line) && start <= end
    requires i < |ms| && start < ms[i].end.source && forall k | 0 <= k < i :: ms[k].end.source <= start
    requires j < |ms| && end <= ms[j].end.source && forall k | 0 <= k < j :: ms[k].end.source < end
    ensures ms[i].start.source <= start && ms[j].start.source <= end
    ensures Encloses(ms, start, end, StartIn(ms[i], start), EndIn(ms[j], end))
  {
    hide Tiled, Holds;
    Located(ms, i, j, start, end, source, line);
    TiledAt(ms, j, START, Loc(|source|, |line|), source, line);
  }

  /** A place that lies inside of no unbreakable segment: */
  predicate IsClear(ms: Segments, at: Loc) {
    forall k | 0 <= k < |ms| && !ms[k].breakable :: ms[k].end.mapped <= at.mapped || at.mapped <= ms[k].start.mapped
  }

  /** one where a segment is cut. */
  lemma CutIsClear(ms: Segments, i: nat, at: Loc, from: Loc, to: Loc, source: string, line: string)
    requires Tiled(ms, from, to, source, line) && i < |ms| && CanCut(ms[i], at)
    ensures IsClear(ms, at)
  {
    hide Tiled, Holds;
    TiledAt(ms, i, from, to, source, line);
    CutInOrder(ms[i], at, source, line);
    forall k | 0 <= k < |ms| && !ms[k].breakable
      ensures ms[k].end.mapped <= at.mapped || at.mapped <= ms[k].start.mapped
    {
      if k < i {
        TiledOrder(ms, k, i, from, to, source, line);
      } else if i < k {
        TiledOrder(ms, i, k, from, to, source, line);
      }
    }
  }

  /** A segment of no source text at this place, other than the first segment. */
  predicate EmptyAt(ms: Segments, offset: nat) {
    exists k | 0 < k < |ms| :: ms[k].start.source == offset == ms[k].end.source
  }

  /** The opening tag of a highlight. */
  function OpenSpan(class': string): string {
    "<span class=\"" + class' + "\">"
  }

  const CLOSE_SPAN := "</span>"

  lemma SpanIsPair(class': string)
    requires '>' !in class'
    ensures IsPair(OpenSpan(class'), CLOSE_SPAN)
  {
    var open := OpenSpan(class');
    var n := |open| - 1;
    assert open[..n] == "<span class=\"" + class' + "\"";
    TagEndIs(open, n);
    assert open[1..n] == "span" + (" class=\"" + class' + "\"");
    SpanIsName(" class=\"" + class' + "\"");
  }

  lemma SpanIsName(rest: string)
    requires rest != [] && rest[0] == ' '
    ensures Name("span" + rest) == "span"
  {
    var tag := "span" + rest;
    assert tag[4..] == rest && Name(rest) == "";
    assert tag[3..] == "n" + rest && Name(tag[3..]) == "n" by {
      assert tag[3..][1..] == rest;
    }
    assert Name(tag[2..]) == "an" by {
      assert tag[2..][1..] == tag[3..];
    }
    assert Name(tag[1..]) == "pan" by {
      assert tag[1..][1..] == tag[2..];
    }
  }

  /** Each special character is a segment of its own, and the text between two of them is one segment. */
  predicate CutAtEscapes(ms: Segments, first: nat) {
    && (forall k | first <= k < |ms| :: ms[k].breakable || ms[k].end.source == ms[k].start.source + 1)
    && (forall k | first < k < |ms| :: !(ms[k - 1].breakable && ms[k].breakable))
  }

  lemma PartsInBounds(a: string, b: string)
    ensures (a + b)[..|a|] == a[..|a|] && (a + b)[|a|..|a + b|] == b
  {}

  /** The tiling with one more segment, of text and HTML just added. */
  lemma TiledPush(ms: Segments, text: string, html: string, breakable: bool, source: string, line: string)
    requires Tiled(ms, START, Loc(|source|, |line|), source, line) && html != []
    requires if breakable then html == text && Plain(text) else Shows(html, Escape(text))
    ensures var from, to := Loc(|source|, |line|), Loc(|source + text|, |line + html|);
      Tiled(ms + [Segment(from, to, breakable)], START, to, source + text, line + html)
  {
    hide Tiled, Shows, Escape;
    var from, to := Loc(|source|, |line|), Loc(|source + text|, |line + html|);
    PartsInBounds(line, html);
    PartsInBounds(source, text);
    TiledBefore(ms, START, from, source, line, source + text, line + html);
    TiledAlone(Segment(from, to, breakable), source + text, line + html);
    TiledAppend(ms, [Segment(from, to, breakable)], START, from, to, source + text, line + html);
  }

  lemma NothingYet(snippet: string, ms: Segments)
    ensures Escape(snippet[..0]) == [] && Plain(snippet[0..0]) && CutAtEscapes(ms, |ms|)
  {}

  lemma PlainRun(snippet: string, p: nat, i: nat)
    requires p <= i < |snippet| && Plain(snippet[p..i])
    ensures !IsSpecial(snippet[i]) ==> Plain(snippet[p..i + 1])
    ensures Plain(snippet[i + 1..i + 1])
  {
    assert snippet[p..i + 1] == snippet[p..i] + [snippet[i]];
  }

  lemma CutAtEnd(before: Segments, after: Segments, first: nat)
    requires first <= |before| <= |after| <= |before| + 1 && before <= after && CutAtEscapes(before, first)
    requires |after| > |before| ==> after[|before|].breakable
    requires |before| > first ==> !before[|before| - 1].breakable
    ensures CutAtEscapes(after, first)
  {}

  lemma EscapeOne(c: char)
    ensures Escape([c]) == EscapeChar(c) != [] && Shows(EscapeChar(c), Escape([c]))
  {
    assert [c][1..] == [];
    EscapeShowsItself([c]);
  }

  lemma EscapeRun(snippet: string, p: nat, i: nat)
    requires p <= i < |snippet| && Plain(snippet[p..i])
    ensures Escape(snippet[..i + 1]) == Escape(snippet[..p]) + snippet[p..i] + EscapeChar(snippet[i])
  {
    hide Escape, EscapeChar;
    PlainIsItsOwnEscape(snippet[p..i]);
    assert snippet[..i] == snippet[..p] + snippet[p..i];
    EscapeAppend(snippet[..p], snippet[p..i]);
    assert snippet[..i + 1] == snippet[..i] + [snippet[i]];
    EscapeAppend(snippet[..i], [snippet[i]]);
    EscapeOne(snippet[i]);
  }

  /** What a run and the special character behind it add to the line and its source. */
  lemma RunJoins(source: string, line: string, snippet: string, p: nat, i: nat)
    requires p <= i < |snippet| && Plain(snippet[p..i])
    ensures source + snippet[..p] + snippet[p..i] + [snippet[i]] == source + snippet[..i + 1]
    ensures line + Escape(snippet[..p]) + snippet[p..i] + EscapeChar(snippet[i]) == line + Escape(snippet[..i + 1])
  {
    EscapeRun(snippet, p, i);
    hide *;
    assert snippet[..i + 1] == snippet[..p] + snippet[p..i] + [snippet[i]];
    JoinRest(source, snippet[..p], snippet[p..i], [snippet[i]]);
    Associative(snippet[..p], snippet[p..i], [snippet[i]]);
    JoinRest(line, Escape(snippet[..p]), snippet[p..i], EscapeChar(snippet[i]));
  }

  lemma EscapeTail(snippet: string, p: nat)
    requires p <= |snippet| && Plain(snippet[p..|snippet|])
    ensures Plain(snippet[p..])
    ensures Escape(snippet) == Escape(snippet[..p]) + snippet[p..]
  {
    hide Escape, Plain;
    TwoParts(snippet, p);
    PlainIsItsOwnEscape(snippet[p..]);
    EscapeAppend(snippet[..p], snippet[p..]);
  }

  lemma TwoParts(snippet: string, p: nat)
    requires p <= |snippet|
    ensures snippet[p..] == snippet[p..|snippet|] && snippet == snippet[..p] + snippet[p..]
  {}

  class MappedLine {
    var line: string
    var mappings: Segments
    /** The source line that this line stands for. */
    ghost var source: string

    ghost predicate Valid()
      reads this
    {
      Tiled(mappings, START, Loc(|source|, |line|), source, line)
    }

    constructor ()
      ensures Valid() && source == [] && line == [] && mappings == []
    {
      line, mappings, source := [], [], [];
    }

    /** Shows the line's source text, and nothing else, with tags that nest. */
    lemma ShowsItsSource()
      requires Valid()
      ensures Shows(line, Escape(source)) && Displayed(line) == Some(source)
    {
      TiledShows(mappings, START, Loc(|source|, |line|), source, line);
      assert line[0..|line|] == line && source[0..|source|] == source;
      DisplayedIsSource(line, source);
    }

    /** Pushes what was copied since the last escape as one segment, if it is any text at all. */
    method PushText(from: Loc, text: string)
      requires Valid() && from == Loc(|source|, |line|) && Plain(text)
      modifies this
      ensures Valid() && source == old(source) + text && line == old(line) + text
      ensures mappings == old(mappings) + if text == [] then [] else [Segment(from, Loc(|source|, |line|), true)]
    {
      hide Tiled, Plain;
      if text != [] {
        TiledPush(mappings, text, text, true, source, line);
        mappings := mappings + [Segment(from, Loc(from.source + |text|, |line| + |text|), true)];
      }
      assert text == [] ==> line + text == line && source + text == source;
      line, source := line + text, source + text;
    }

    /** Pushes the text before a special character, then its escape. */
    method PushEscape(lastStart: Loc, text: string, c: char, ghost first: nat)
      requires Valid() && lastStart == Loc(|source|, |line|) && Plain(text) && IsSpecial(c)
      requires CutAtEscapes(mappings, first) && first <= |mappings|
      requires |mappings| > first ==> !mappings[|mappings| - 1].breakable
      modifies this
      ensures Valid() && source == old(source) + text + [c] && line == old(line) + text + EscapeChar(c)
      ensures old(mappings) < mappings && !mappings[|mappings| - 1].breakable
      ensures CutAtEscapes(mappings, first)
    {
      hide Tiled, Shows, Escape, Plain, EscapeChar;
      PushText(lastStart, text);
      EscapeOne(c);
      PushMarkup(Loc(lastStart.source + |text|, |line|), [c], EscapeChar(c), 1);
    }

    method PushMarkup(from: Loc, ghost text: string, html: string, length: nat)
      requires Valid() && from == Loc(|source|, |line|) && html != [] && Shows(html, Escape(text)) && length == |text|
      modifies this
      ensures Valid() && source == old(source) + text && line == old(line) + html
      ensures mappings == old(mappings) + [Segment(from, Loc(|source|, |line|), false)]
    {
      hide Tiled, Shows, Escape;
      TiledPush(mappings, text, html, false, source, line);
      mappings := mappings + [Segment(from, Loc(from.source + length, |line| + |html|), false)];
      line, source := line + html, source + text;
    }

    /** Adds text outside of a highlight, each special character escaped and kept in one piece. */
    method PushEscaped(snippet: string, startLoc: Loc)
      requires Valid() && startLoc == Loc(|source|, |line|)
      modifies this
      ensures Valid() && source == old(source) + snippet && line == old(line) + Escape(snippet)
      ensures old(mappings) <= mappings && CutAtEscapes(mappings, |old(mappings)|)
    {
      hide Tiled, Escape, Shows, Plain, CutAtEscapes;
      var lastStart, p := startLoc, 0;
      NothingYet(snippet, mappings);
      for i := 0 to |snippet|
        invariant Valid() && lastStart == Loc(|source|, |line|)
        invariant p == lastStart.source - startLoc.source && p <= i && Plain(snippet[p..i])
        invariant source == old(source) + snippet[..p] && line == old(line) + Escape(snippet[..p])
        invariant old(mappings) <= mappings && CutAtEscapes(mappings, |old(mappings)|)
        invariant |mappings| > |old(mappings)| ==> !mappings[|mappings| - 1].breakable
      {
        var c := snippet[i];
        PlainRun(snippet, p, i);
        if IsSpecial(c) {
          RunJoins(old(source), old(line), snippet, p, i);
          PushEscape(lastStart, snippet[p..i], c, |old(mappings)|);
          p := i + 1;
          lastStart := Loc(startLoc.source + p, |line|);
        }
      }
      EscapeTail(snippet, p);
      ghost var before := mappings;
      PushText(lastStart, snippet[p..]);
      CutAtEnd(before, mappings, |old(mappings)|);
    }

    /** Adds highlighted text as one piece, tags and all. */
    method PushHighlighted(snippet: string, class': string, startLoc: Loc)
      requires Valid() && startLoc == Loc(|source|, |line|) && '>' !in class'
      modifies this
      ensures Valid() && source == old(source) + snippet
      ensures line == old(line) + OpenSpan(class') + Escape(snippet) + CLOSE_SPAN
      ensures mappings == old(mappings) + [Segment(startLoc, Loc(|source|, |line|), false)]
    {
      hide Tiled, Escape, Shows, IsPair;
      SpanIsPair(class');
      EscapeShowsItself(snippet);
      WrappedShows(OpenSpan(class'), Escape(snippet), CLOSE_SPAN, Escape(snippet));
      PushMarkup(startLoc, snippet, OpenSpan(class') + Escape(snippet) + CLOSE_SPAN, |snippet|);
    }

    /** Moves the segments from this one on. */
    method ShiftTail(tail: nat, gap: nat)
      requires tail <= |mappings|
      modifies this`mappings
      ensures mappings == old(mappings)[..tail] + ShiftAll(old(mappings)[tail..], gap)
    {
      for i := tail to |mappings|
        invariant |mappings| == |old(mappings)|
        invariant forall k | tail <= k < i :: mappings[k] == Shift(old(mappings)[k], gap)
        invariant forall k | 0 <= k < |mappings| && !(tail <= k < i) :: mappings[k] == old(mappings)[k]
      {
        mappings := mappings[i := Shift(mappings[i], gap)];
      }
    }

    /** The replacement segment, and what is left of the segments it breaks apart. */
    method Splice(i: nat, j: nat, from: Loc, to: Loc, gap: nat)
      requires i < |mappings| && j < |mappings| && i <= j + 1
      requires from != mappings[i].end || !mappings[i].breakable
      requires from.source == mappings[i].start.source <==> from == mappings[i].start
      requires to.source == mappings[j].end.source <==> to == mappings[j].end
      requires from != mappings[i].start ==> mappings[i].breakable
      requires to != mappings[j].end ==> mappings[j].breakable
      modifies this`mappings
      ensures mappings == old(mappings[..i] + Front(mappings[i], from)) + [Segment(from, ShiftLoc(to, gap), false)]
        + ShiftAll(old(Back(mappings[j], to) + mappings[j + 1..]), gap)
    {
      hide ShiftAll, Back, ShiftLoc;
      var startSegment, endSegment := mappings[i], mappings[j];
      var replacement := Segment(from, ShiftLoc(to, gap), false);
      ghost var before, rest := mappings[..i], mappings[j + 1..];
      ghost var front, back := Front(startSegment, from), ShiftAll(Back(endSegment, to), gap);
      mappings := mappings[..i] + [replacement] + mappings[j + 1..];
      ShiftedBack(endSegment, to, gap);
      var tail := i + 1;
      if to.source != endSegment.end.source {
        tail := tail + 1;
        Parts(before + [replacement], rest);
        mappings := mappings[..i + 1] + [Segment(replacement.end, ShiftLoc(endSegment.end, gap), true)] + mappings[i + 1..];
      } else {
        assert before + [replacement] + [] == before + [replacement];
      }
      assert mappings == before + [replacement] + back + rest;
      Associative(before, [replacement], back);
      Associative(before, [replacement] + back, rest);
      if from.source != startSegment.start.source {
        tail := tail + 1;
        Parts(before, [replacement] + back + rest);
        mappings := mappings[..i] + [Segment(startSegment.start, from, true)] + mappings[i..];
      } else {
        assert before + [] == before;
      }
      assert mappings == before + front + ([replacement] + back + rest);
      Associative(before + front, [replacement] + back, rest);
      Associative(before + front, [replacement], back);
      Parts(before + front + [replacement] + back, rest);
      ShiftTail(tail, gap);
      ShiftAllAppend(Back(endSegment, to), rest, gap);
      Associative(before + front + [replacement], back, ShiftAll(rest, gap));
    }

    method InsertTags(start: nat, end: nat, prefix: string, suffix: string)
      requires start <= end <= |line|
      modifies this`line
      ensures line == Wrapped(old(line), start, end, prefix, suffix)
    {
      line := line[..end] + suffix + line[end..];
      line := line[..start] + prefix + line[start..];
    }

    /**
     * Puts the tags around this range of the source line, or around a larger one that breaks no unbreakable segment.
     * It panics if the line has no such range, or if the range is empty and an overlay of nothing lies there already.
     */
    method InsertUnbreakableSegment(start: nat, end: nat, prefix: string, suffix: string)
      returns (ok: bool, ghost from: Loc, ghost to: Loc)
      requires Valid() && start <= end && IsPair(prefix, suffix)
      modifies this`line, this`mappings
      ensures Valid()
      ensures ok <==> start < |source| && end <= |source| && !(start == end && EmptyAt(old(mappings), start))
      ensures !ok ==> line == old(line) && mappings == old(mappings)
      ensures ok ==> Encloses(old(mappings), start, end, from, to)
      ensures ok ==> IsClear(old(mappings), from) && IsClear(old(mappings), to)
      ensures ok ==> from.mapped <= to.mapped <= |old(line)| && from.source <= to.source <= |source|
      ensures ok ==> Shows(old(line)[from.mapped..to.mapped], Escape(source[from.source..to.source]))
      ensures ok ==> line == Wrapped(old(line), from.mapped, to.mapped, prefix, suffix)
      ensures ok ==> var gap := |prefix| + |suffix|;
        mappings == Upto(old(mappings), from) + [Segment(from, ShiftLoc(to, gap), false)] + ShiftAll(After(old(mappings), to), gap)
    {
      hide Tiled, Holds, CanCut, Position, Upto, After, Front, Back, ShiftAll, EmptyAt, IsPair, Encloses, IsClear, Wrapped, Shows, Escape;
      from, to := START, START;
      var i := Position(mappings, (seg: Segment) => seg.end.source > start);
      var j := Position(mappings, (seg: Segment) => seg.end.source >= end);
      Ends(mappings, source, line);
      if i == |mappings| || j == |mappings| {
        return false, from, to;
      }
      OutOfOrder(mappings, i, j, start, end, source, line);
      if i > j + 1 {
        return false, from, to;
      }
      Located(mappings, i, j, start, end, source, line);
      LocatedInOrder(mappings, i, j, start, end, source, line);
      LocatedEncloses(mappings, i, j, start, end, source, line);
      var startLoc, endLoc := StartIn(mappings[i], start), EndIn(mappings[j], end);
      from, to := startLoc, endLoc;
      OverlayTiles(mappings, i, j, from, to, source, line, prefix, suffix);
      InsertTags(startLoc.mapped, endLoc.mapped, prefix, suffix);
      Splice(i, j, startLoc, endLoc, |prefix| + |suffix|);
      ok := true;
    }
  }

  /** What an overlay in the middle of one breakable segment leaves before it. */
  lemma MiddleOf(plain: Segment, at: Loc, rest: Segments, to: Loc, source: string, line: string)
    requires plain == Segment(START, Loc(2, 2), true) && at.source == 1
    requires rest != [] && rest[0].start == at && Tiled(Upto([plain], at) + rest, START, to, source, line)
    ensures Upto([plain], at) == [Segment(START, at, true)]
  {
    hide Tiled, Holds;
    assert [plain][..0] == [] && [] + [plain.(end := at)] == [plain.(end := at)];
    var before := Upto([plain], at);
    TiledAt(before + rest, |before|, START, to, source, line);
  }

  /** Reached from a plain line: an overlay of nothing is accepted, and the same overlay once more is not. */
  method OverlayNothingTwice() returns (first: bool, second: bool)
    ensures first && !second
  {
    hide Tiled, Shows, Escape, IsPair, Wrapped, ShiftAll, After, Upto, OpenSpan;
    var m := new MappedLine();
    m.PushText(START, "ab");
    var plain := Segment(START, Loc(2, 2), true);
    assert [] + [plain] == [plain] == m.mappings;
    SpanIsPair("hi-call");
    ghost var from, to;
    first, from, to := m.InsertUnbreakableSegment(1, 1, OpenSpan("hi-call"), CLOSE_SPAN);
    ghost var gap := |OpenSpan("hi-call")| + |CLOSE_SPAN|;
    ghost var rest := [Segment(from, ShiftLoc(to, gap), false)] + ShiftAll(After([plain], to), gap);
    assert m.mappings == Upto([plain], from) + rest;
    MiddleOf(plain, from, rest, Loc(|m.source|, |m.line|), m.source, m.line);
    assert m.mappings[1] == rest[0] && m.mappings[1].start.source == 1 == m.mappings[1].end.source;
    second, from, to := m.InsertUnbreakableSegment(1, 1, OpenSpan("hi-call"), CLOSE_SPAN);
  }
}
