/** Lines of a trace snippet, in which a definition and the calls in it are each marked with a span of its class. */
module SnippetLines {
  import opened Collections
  import opened Wrappers
  import opened Markup
  import opened SyntaxHighlight

  /** A line of HTML with its segments. */
  datatype View = View(line: string, mappings: Segments)

  predicate IsViewOf(v: View, source: string) {
    Tiled(v.mappings, START, Loc(|source|, |v.line|), source, v.line)
  }

  /** A range of the source line, and the class of the span that marks it. */
  datatype Region = Region(start: nat, end: nat, class': string)

  predicate InLine(r: Region, source: string) {
    r.start < r.end <= |source|
  }

  function Regions(def: Option<(nat, nat)>, calls: seq<(nat, nat)>): seq<Region> {
    (if def.Some? then [Region(def.value.0, def.value.1, "hi-def")] else [])
    + seq(|calls|, i requires 0 <= i < |calls| => Region(calls[i].0, calls[i].1, "hi-call"))
  }

  // ---------- One overlay after another ----------

  ghost predicate OverlaidAt(v: View, v': View, source: string, r: Region, from: Loc, to: Loc) {
    && Encloses(v.mappings, r.start, r.end, from, to)
    && IsClear(v.mappings, from) && IsClear(v.mappings, to)
    && from.mapped <= to.mapped <= |v.line| && from.source <= to.source <= |source|
    && Shows(v.line[from.mapped..to.mapped], Escape(source[from.source..to.source]))
    && v'.line == Wrapped(v.line, from.mapped, to.mapped, OpenSpan(r.class'), CLOSE_SPAN)
    && var gap := |OpenSpan(r.class')| + |CLOSE_SPAN|;
       v'.mappings == Upto(v.mappings, from) + [Segment(from, ShiftLoc(to, gap), false)] + ShiftAll(After(v.mappings, to), gap)
  }

  ghost predicate Overlaid(v: View, v': View, source: string, r: Region) {
    exists from, to :: OverlaidAt(v, v', source, r, from, to)
  }

  predicate Refused(v: View, source: string, r: Region) {
    |source| <= r.start || |source| < r.end || (r.start == r.end && EmptyAt(v.mappings, r.start))
  }

  /** The line as it was, and after each region that was marked. */
  ghost predicate AreOverlaid(views: seq<View>, source: string, regions: seq<Region>) {
    && 0 < |views| <= |regions| + 1
    && (forall i | 0 <= i < |views| :: IsViewOf(views[i], source))
    && (forall i | 0 <= i < |views| - 1 :: Overlaid(views[i], views[i + 1], source, regions[i]))
  }

  // ---------- What a line marks ----------

  /** What stands here has this text in front of it. */
  predicate Precedes(html: string, text: string) {
    Scan(html, []).Some? && Scan(html, []).value.text == Escape(text)
  }

  /** A span of the class has just this piece of the source in it. */
  predicate IsSpan(line: string, source: string, class': string, at: nat, end: nat, x: nat, y: nat) {
    && at + |OpenSpan(class')| <= end && end + |CLOSE_SPAN| <= |line|
    && line[at..at + |OpenSpan(class')|] == OpenSpan(class')
    && line[end..end + |CLOSE_SPAN|] == CLOSE_SPAN
    && x <= y <= |source|
    && Shows(line[at + |OpenSpan(class')|..end], Escape(source[x..y]))
    && Precedes(line[..at], source[..x])
  }

  predicate Covers(r: Region, x: nat, y: nat) {
    x <= r.start && r.end <= y
  }

  /** The text of the region stands in a span of its class. */
  ghost predicate IsMarked(line: string, source: string, r: Region) {
    exists at: nat, end: nat, x: nat, y: nat :: IsSpan(line, source, r.class', at, end, x, y) && Covers(r, x, y)
  }

  /** Some unbreakable segment has all of this piece of the HTML. */
  predicate IsHeld(ms: Segments, a: nat, b: nat) {
    exists seg <- ms :: !seg.breakable && seg.start.mapped <= a && b <= seg.end.mapped
  }

  /** A mark that no overlay breaks. */
  ghost predicate HasMark(v: View, source: string, r: Region) {
    exists at: nat, end: nat, x: nat, y: nat ::
      IsSpan(v.line, source, r.class', at, end, x, y) && Covers(r, x, y) && IsHeld(v.mappings, at, end + |CLOSE_SPAN|)
  }

  // ---------- Marks stay ----------

  lemma SliceMoves(line: string, line': string, lo: nat, hi: nat, d: nat, a: nat, b: nat)
    requires lo <= a <= b <= hi <= |line| && hi + d <= |line'| && line[lo..hi] == line'[lo + d..hi + d]
    ensures line[a..b] == line'[a + d..b + d]
  {
    SlicesOfRange(line, lo, hi, a, b);
    SlicesOfRange(line', lo + d, hi + d, a + d, b + d);
  }

  lemma SlicesOfRange(line: string, lo: nat, hi: nat, a: nat, b: nat)
    requires lo <= a <= b <= hi <= |line|
    ensures line[lo..hi][a - lo..b - lo] == line[a..b]
  {
    var piece := line[lo..hi][a - lo..b - lo];
    assert forall i | 0 <= i < |piece| :: piece[i] == line[a + i];
  }

  /** A span whose piece of the line is found elsewhere in another line, with the same text in front of it. */
  lemma SpanMoves(
      line: string, line': string, source: string, class': string, at: nat, end: nat, x: nat, y: nat,
      lo: nat, hi: nat, d: nat)
    requires IsSpan(line, source, class', at, end, x, y)
    requires lo <= at && end + |CLOSE_SPAN| <= hi <= |line| && hi + d <= |line'| && line[lo..hi] == line'[lo + d..hi + d]
    requires Precedes(line'[..at + d], source[..x])
    ensures IsSpan(line', source, class', at + d, end + d, x, y)
  {
    hide OpenSpan, Shows, Escape, Precedes;
    var inner := at + |OpenSpan(class')|;
    SliceMoves(line, line', lo, hi, d, at, inner);
    SliceMoves(line, line', lo, hi, d, inner, end);
    SliceMoves(line, line', lo, hi, d, end, end + |CLOSE_SPAN|);
  }

  /** Where the HTML shows the same in front, what comes behind reads the same, */
  lemma SameBehind(u: string, w: string, v: string, text: string)
    requires Shows(u, text) && Shows(w, text)
    ensures Scan(u + v, []) == Scan(w + v, [])
  {
    ScanThen(u, v, []);
    ScanThen(w, v, []);
  }

  /** and an opening tag in between adds no text. */
  lemma SameInside(u: string, v: string, prefix: string, suffix: string, text: string)
    requires Shows(u, text) && IsPair(prefix, suffix) && Scan(u + v, []).Some?
    ensures Scan(u + (prefix + v), []).Some?
    ensures Scan(u + (prefix + v), []).value.text == Scan(u + v, []).value.text
  {
    ScanThen(u, v, []);
    ScanOpened(prefix, suffix, v);
    ScanThen(u, prefix + v, []);
  }

  /** What a line shows in front of an overlay, and up to the end of what it wraps, before and after it. */
  lemma OverlayLines(v: View, v': View, source: string, r: Region, from: Loc, to: Loc)
    requires IsViewOf(v, source) && IsViewOf(v', source) && OverlaidAt(v, v', source, r, from, to) && '>' !in r.class'
    ensures from.mapped <= to.mapped <= |v.line| && from.source <= to.source <= |source| && Covers(r, from.source, to.source)
    ensures v'.line == Wrapped(v.line, from.mapped, to.mapped, OpenSpan(r.class'), CLOSE_SPAN)
    ensures Shows(v.line[from.mapped..to.mapped], Escape(source[from.source..to.source]))
    ensures var gap := |OpenSpan(r.class')| + |CLOSE_SPAN|;
      && |v'.line| == |v.line| + gap
      && Shows(v.line[..from.mapped], Escape(source[..from.source]))
      && Shows(v.line[..to.mapped], Escape(source[..to.source]))
      && Shows(v'.line[..to.mapped + gap], Escape(source[..to.source]))
  {
    hide Tiled, Shows, Escape, Upto, After, ShiftAll, IsClear, Wrapped;
    var gap := |OpenSpan(r.class')| + |CLOSE_SPAN|;
    var n, all := |Upto(v.mappings, from)|, Loc(|source|, |v'.line|);
    WrappedParts(v.line, from.mapped, to.mapped, OpenSpan(r.class'), CLOSE_SPAN);
    assert v'.mappings[n] == Segment(from, ShiftLoc(to, gap), false);
    ShowsUpTo(v'.mappings, n, all, source, v'.line);
    ShowsUpTo(v'.mappings, n + 1, all, source, v'.line);
    BoundaryBefore(v'.mappings, n, all);
    BoundaryBehind(v'.mappings, n, START, all, source, v'.line);
    assert v.line[..from.mapped] == v'.line[..from.mapped];
    ShowsJoined(v.line, from.mapped, to.mapped, source, from.source, to.source);
  }

  lemma ShowsUpTo(ms: Segments, k: nat, all: Loc, source: string, line: string)
    requires Tiled(ms, START, all, source, line) && all == Loc(|source|, |line|) && k <= |ms|
    ensures var at := Boundary(ms, k, all);
      && at.mapped <= |line| && at.source <= |source|
      && Shows(line[..at.mapped], Escape(source[..at.source]))
  {
    hide Tiled, Shows, Escape;
    var at := Boundary(ms, k, all);
    if k < |ms| {
      TiledAt(ms, k, START, all, source, line);
    }
    TiledSplit(ms, k, START, all, source, line);
    TiledShows(ms[..k], START, at, source, line);
    assert line[0..at.mapped] == line[..at.mapped] && source[0..at.source] == source[..at.source];
  }

  lemma ShowsJoined(line: string, a: nat, b: nat, source: string, x: nat, y: nat)
    requires a <= b <= |line| && x <= y <= |source|
    requires Shows(line[..a], Escape(source[..x])) && Shows(line[a..b], Escape(source[x..y]))
    ensures Shows(line[..b], Escape(source[..y]))
  {
    hide Shows, Escape;
    ShowsAppend(line[..a], line[a..b], Escape(source[..x]), Escape(source[x..y]));
    EscapeAppend(source[..x], source[x..y]);
    assert line[..b] == line[..a] + line[a..b] && source[..y] == source[..x] + source[x..y];
  }

  lemma ShowsPrecedes(html: string, text: string)
    requires Shows(html, Escape(text))
    ensures Precedes(html, text)
  {}

  /** The tags of an overlay are a span. */
  lemma NewSpan(line: string, line': string, source: string, class': string, from: nat, to: nat, x: nat, y: nat)
    requires from <= to <= |line| && line' == Wrapped(line, from, to, OpenSpan(class'), CLOSE_SPAN)
    requires x <= y <= |source| && Shows(line[from..to], Escape(source[x..y])) && Shows(line[..from], Escape(source[..x]))
    ensures IsSpan(line', source, class', from, to + |OpenSpan(class')|, x, y)
  {
    hide Wrapped, OpenSpan, Shows, Escape, Precedes;
    TagsAround(line, line', from, to, OpenSpan(class'), CLOSE_SPAN);
    ShowsPrecedes(line[..from], source[..x]);
  }

  /** An overlay marks its region. */
  lemma OverlayMarks(v: View, v': View, source: string, r: Region, from: Loc, to: Loc)
    requires IsViewOf(v, source) && IsViewOf(v', source) && OverlaidAt(v, v', source, r, from, to) && '>' !in r.class'
    ensures HasMark(v', source, r)
  {
    OverlayLines(v, v', source, r, from, to);
    hide IsViewOf, IsHeld, IsSpan, OpenSpan, Wrapped;
    var open := OpenSpan(r.class');
    NewSegmentHolds(v, v', source, r, from, to, from.mapped, to.mapped + |open| + |CLOSE_SPAN|);
    hide OverlaidAt;
    NewSpan(v.line, v'.line, source, r.class', from.mapped, to.mapped, from.source, to.source);
    assert HasMark(v', source, r);
  }

  lemma TagsAround(line: string, line': string, from: nat, to: nat, prefix: string, suffix: string)
    requires from <= to <= |line| && line' == Wrapped(line, from, to, prefix, suffix)
    ensures |line'| == |line| + |prefix| + |suffix| && line'[..from] == line[..from]
    ensures line'[from..from + |prefix|] == prefix && line'[from + |prefix|..to + |prefix|] == line[from..to]
    ensures line'[to + |prefix|..to + |prefix| + |suffix|] == suffix
  {}

  lemma NewSegmentHolds(v: View, v': View, source: string, r: Region, from: Loc, to: Loc, a: nat, b: nat)
    requires OverlaidAt(v, v', source, r, from, to)
    requires from.mapped <= a && b <= to.mapped + |OpenSpan(r.class')| + |CLOSE_SPAN|
    ensures IsHeld(v'.mappings, a, b)
  {
    hide Upto, After, ShiftAll, IsClear, Escape, Shows, OpenSpan, Encloses;
    var gap := |OpenSpan(r.class')| + |CLOSE_SPAN|;
    assert Segment(from, ShiftLoc(to, gap), false) in v'.mappings;
  }

  lemma {:induction false} UptoHas(ms: Segments, at: Loc, k: nat)
    requires k < |ms| && ms[k].end.mapped <= at.mapped
    ensures ms[k] in Upto(ms, at)
  {
    var n := |ms| - 1;
    if ms[n].end.mapped > at.mapped {
      assert ms[k] == ms[..n][k];
      if ms[n].start.mapped >= at.mapped {
        UptoHas(ms[..n], at, k);
      }
    }
  }

  lemma {:induction false} AfterHas(ms: Segments, at: Loc, k: nat)
    requires k < |ms| && at.mapped <= ms[k].start.mapped
    ensures ms[k] in After(ms, at)
  {
    if ms[0].start.mapped < at.mapped {
      assert ms[k] == ms[1..][k - 1];
      if ms[0].end.mapped <= at.mapped {
        AfterHas(ms[1..], at, k - 1);
      }
    }
  }

  lemma ShiftAllHas(ms: Segments, seg: Segment, gap: nat)
    requires seg in ms
    ensures Shift(seg, gap) in ShiftAll(ms, gap)
  {
    var i :| 0 <= i < |ms| && ms[i] == seg;
    assert ShiftAll(ms, gap)[i] == Shift(seg, gap);
  }

  /** A span in front of an overlay stays where it is, */
  lemma SpanInFront(
      line: string, line': string, source: string, class': string, from: nat, at: nat, end: nat, x: nat, y: nat)
    requires IsSpan(line, source, class', at, end, x, y) && end + |CLOSE_SPAN| <= from
    requires from <= |line| && from <= |line'| && line[..from] == line'[..from]
    ensures IsSpan(line', source, class', at, end, x, y)
  {
    hide OpenSpan, Shows, Escape, Precedes;
    assert line[..from] == line[0..from] && line'[..from] == line'[0..from];
    SliceMoves(line, line', 0, from, 0, 0, at);
    assert line[..at] == line[0..at] && line'[..at] == line'[0..at];
    SpanMoves(line, line', source, class', at, end, x, y, 0, from, 0);
  }

  /** one behind it moves on, */
  lemma SpanBehind(
      line: string, line': string, source: string, class': string, to: nat, gap: nat, text: string,
      at: nat, end: nat, x: nat, y: nat)
    requires IsSpan(line, source, class', at, end, x, y) && to <= at
    requires to <= |line| && |line'| == |line| + gap && line[to..] == line'[to + gap..]
    requires Shows(line[..to], text) && Shows(line'[..to + gap], text)
    ensures IsSpan(line', source, class', at + gap, end + gap, x, y)
  {
    hide OpenSpan, Shows, Escape, Scan;
    var n := |line|;
    assert line[to..] == line[to..n] && line'[to + gap..] == line'[to + gap..n + gap];
    SliceMoves(line, line', to, n, gap, to, at);
    SameBehind(line[..to], line'[..to + gap], line[to..at], text);
    assert line[..at] == line[..to] + line[to..at];
    assert line'[..at + gap] == line'[..to + gap] + line[to..at];
    SpanMoves(line, line', source, class', at, end, x, y, to, n, gap);
  }

  /** and one inside of it gets one more tag around it. */
  lemma SpanWithin(
      line: string, line': string, source: string, class': string, from: nat, to: nat, prefix: string, suffix: string,
      text: string, at: nat, end: nat, x: nat, y: nat)
    requires IsSpan(line, source, class', at, end, x, y) && from <= at && end + |CLOSE_SPAN| <= to <= |line|
    requires to + |prefix| <= |line'| && line'[..from] == line[..from] && line'[from..from + |prefix|] == prefix
    requires line'[from + |prefix|..to + |prefix|] == line[from..to]
    requires Shows(line[..from], text) && IsPair(prefix, suffix)
    ensures IsSpan(line', source, class', at + |prefix|, end + |prefix|, x, y)
  {
    hide OpenSpan, Shows, Escape, Scan, IsPair;
    var d := |prefix|;
    SliceMoves(line, line', from, to, d, from, at);
    var u, w := line[..from], line[from..at];
    assert line[..at] == u + w;
    FrontOf(line', from, d, at + d);
    Associative(u, prefix, w);
    SameInside(u, w, prefix, suffix, text);
    SpanMoves(line, line', source, class', at, end, x, y, from, to, d);
  }

  lemma FrontOf(line: string, from: nat, d: nat, to: nat)
    requires from + d <= to <= |line|
    ensures line[..to] == line[..from] + line[from..from + d] + line[from + d..to]
  {}

  /** The segment that holds a mark is still there. */
  lemma HeldInFront(v: View, v': View, source: string, r: Region, from: Loc, to: Loc, k: nat, a: nat, b: nat)
    requires OverlaidAt(v, v', source, r, from, to) && k < |v.mappings| && !v.mappings[k].breakable
    requires v.mappings[k].start.mapped <= a && b <= v.mappings[k].end.mapped <= from.mapped
    ensures IsHeld(v'.mappings, a, b)
  {
    UptoHas(v.mappings, from, k);
    hide Upto, After, ShiftAll, IsClear, Escape, Shows, OpenSpan, Encloses;
    assert v.mappings[k] in v'.mappings;
  }

  lemma HeldBehind(v: View, v': View, source: string, r: Region, from: Loc, to: Loc, k: nat, a: nat, b: nat)
    requires OverlaidAt(v, v', source, r, from, to) && k < |v.mappings| && !v.mappings[k].breakable
    requires to.mapped <= v.mappings[k].start.mapped <= a && b <= v.mappings[k].end.mapped
    ensures var gap := |OpenSpan(r.class')| + |CLOSE_SPAN|; IsHeld(v'.mappings, a + gap, b + gap)
  {
    var gap := |OpenSpan(r.class')| + |CLOSE_SPAN|;
    AfterHas(v.mappings, to, k);
    ShiftAllHas(After(v.mappings, to), v.mappings[k], gap);
    hide Upto, After, ShiftAll, IsClear, Escape, Shows, OpenSpan, Encloses;
    assert Shift(v.mappings[k], gap) in v'.mappings;
  }

  /** No overlay breaks a mark. */
  lemma MarkStays(v: View, v': View, source: string, r: Region, earlier: Region)
    requires IsViewOf(v, source) && IsViewOf(v', source) && Overlaid(v, v', source, r) && '>' !in r.class'
    requires HasMark(v, source, earlier)
    ensures HasMark(v', source, earlier)
  {
    hide IsSpan, IsViewOf, Shows, Escape, OpenSpan, IsPair, OverlaidAt, Covers;
    var from, to :| OverlaidAt(v, v', source, r, from, to);
    var at: nat, end: nat, x: nat, y: nat :|
      IsSpan(v.line, source, earlier.class', at, end, x, y) && Covers(earlier, x, y)
      && IsHeld(v.mappings, at, end + |CLOSE_SPAN|);
    var k := Holder(v.mappings, at, end + |CLOSE_SPAN|);
    hide IsHeld;
    OverlayLines(v, v', source, r, from, to);
    ClearSides(v, v', source, r, from, to, k);
    var open := OpenSpan(r.class');
    WrappedParts(v.line, from.mapped, to.mapped, open, CLOSE_SPAN);
    TagsAround(v.line, v'.line, from.mapped, to.mapped, open, CLOSE_SPAN);
    hide Wrapped;
    if v.mappings[k].end.mapped <= from.mapped {
      HeldInFront(v, v', source, r, from, to, k, at, end + |CLOSE_SPAN|);
      SpanInFront(v.line, v'.line, source, earlier.class', from.mapped, at, end, x, y);
    } else if to.mapped <= v.mappings[k].start.mapped {
      var gap := |open| + |CLOSE_SPAN|;
      HeldBehind(v, v', source, r, from, to, k, at, end + |CLOSE_SPAN|);
      SpanBehind(v.line, v'.line, source, earlier.class', to.mapped, gap, Escape(source[..to.source]), at, end, x, y);
      assert HasMark(v', source, earlier);
    } else {
      SpanIsPair(r.class');
      NewSegmentHolds(v, v', source, r, from, to, at + |open|, end + |open| + |CLOSE_SPAN|);
      SpanWithin(
        v.line, v'.line, source, earlier.class', from.mapped, to.mapped, open, CLOSE_SPAN, Escape(source[..from.source]),
        at, end, x, y);
    }
  }

  /** An unbreakable segment lies on one side of an overlay, or inside of it. */
  lemma ClearSides(v: View, v': View, source: string, r: Region, from: Loc, to: Loc, k: nat)
    requires OverlaidAt(v, v', source, r, from, to) && k < |v.mappings| && !v.mappings[k].breakable
    ensures var seg := v.mappings[k];
      || seg.end.mapped <= from.mapped
      || to.mapped <= seg.start.mapped
      || (from.mapped <= seg.start.mapped && seg.end.mapped <= to.mapped)
  {}

  lemma Holder(ms: Segments, a: nat, b: nat) returns (k: nat)
    requires IsHeld(ms, a, b)
    ensures k < |ms| && !ms[k].breakable && ms[k].start.mapped <= a && b <= ms[k].end.mapped
  {
    var seg :| seg in ms && !seg.breakable && seg.start.mapped <= a && b <= seg.end.mapped;
    k :| 0 <= k < |ms| && ms[k] == seg;
  }

  lemma LastIsMarked(v: View, v': View, source: string, r: Region)
    requires IsViewOf(v, source) && IsViewOf(v', source) && Overlaid(v, v', source, r) && '>' !in r.class'
    ensures HasMark(v', source, r)
  {
    hide OverlaidAt, HasMark, IsViewOf;
    var from, to :| OverlaidAt(v, v', source, r, from, to);
    OverlayMarks(v, v', source, r, from, to);
  }

  /** After all overlays, each region is marked. */
  lemma {:induction false} EachIsMarked(views: seq<View>, source: string, regions: seq<Region>, i: nat)
    requires AreOverlaid(views, source, regions) && i < |views| - 1
    requires forall r <- regions :: '>' !in r.class'
    ensures HasMark(views[|views| - 1], source, regions[i])
  {
    hide IsViewOf, Overlaid, HasMark;
    var n := |views| - 2;
    assert Overlaid(views[n], views[n + 1], source, regions[n]);
    if i == n {
      LastIsMarked(views[n], views[n + 1], source, regions[n]);
    } else {
      EachIsMarked(views[..n + 1], source, regions, i);
      MarkStays(views[n], views[n + 1], source, regions[n], regions[i]);
    }
  }

  // ---------- Marking a line ----------

  function ViewOf(m: MappedLine): View
    reads m
  {
    View(m.line, m.mappings)
  }

  /** Marks one region, or panics. */
  method MarkRegion(m: MappedLine, r: Region) returns (ok: bool)
    requires m.Valid() && r.start <= r.end && '>' !in r.class'
    modifies m`line, m`mappings
    ensures m.Valid() && (ok <==> !Refused(old(ViewOf(m)), m.source, r))
    ensures if ok then Overlaid(old(ViewOf(m)), ViewOf(m), m.source, r) else ViewOf(m) == old(ViewOf(m))
  {
    hide MappedLine.Valid, EmptyAt, IsPair, Encloses, IsClear, Shows, Escape, Wrapped, Upto, After, ShiftAll, OpenSpan;
    SpanIsPair(r.class');
    ghost var from, to;
    ok, from, to := m.InsertUnbreakableSegment(r.start, r.end, OpenSpan(r.class'), CLOSE_SPAN);
    if ok {
      assert OverlaidAt(old(ViewOf(m)), ViewOf(m), m.source, r, from, to);
    }
  }

  lemma OneMoreOverlaid(views: seq<View>, v': View, source: string, regions: seq<Region>)
    requires AreOverlaid(views, source, regions) && |views| <= |regions| && IsViewOf(v', source)
    requires Overlaid(views[|views| - 1], v', source, regions[|views| - 1])
    ensures AreOverlaid(views + [v'], source, regions)
  {
    hide IsViewOf, Overlaid;
    var more := views + [v'];
    assert forall i | 0 <= i < |views| :: more[i] == views[i];
  }

  /** The class of each region is one word. */
  lemma RegionsAre(def: Option<(nat, nat)>, calls: seq<(nat, nat)>)
    ensures var regions, n := Regions(def, calls), if def.Some? then 1 else 0;
      && |regions| == n + |calls|
      && (def.Some? ==> regions[0] == Region(def.value.0, def.value.1, "hi-def"))
      && (forall i | 0 <= i < |calls| :: regions[n + i] == Region(calls[i].0, calls[i].1, "hi-call"))
    ensures forall r <- Regions(def, calls) :: '>' !in r.class'
  {}

  predicate AreOrdered(def: Option<(nat, nat)>, calls: seq<(nat, nat)>) {
    (def.Some? ==> def.value.0 <= def.value.1) && forall i | 0 <= i < |calls| :: calls[i].0 <= calls[i].1
  }

  /**
   * Marks the definition of a line, then its calls in order, each where it stands, and stops at the first that panics.
   * In the end each region stands in a span of its class, and the line still shows its source text and nothing else.
   */
  method MarkRegions(m: MappedLine, def: Option<(nat, nat)>, calls: seq<(nat, nat)>)
    returns (ok: bool, ghost views: seq<View>)
    requires m.Valid() && AreOrdered(def, calls)
    modifies m`line, m`mappings
    ensures m.Valid() && Displayed(m.line) == Some(m.source)
    ensures AreOverlaid(views, m.source, Regions(def, calls))
    ensures views[0] == old(ViewOf(m)) && views[|views| - 1] == ViewOf(m)
    ensures ok <==> |views| == |Regions(def, calls)| + 1
    ensures !ok ==> Refused(ViewOf(m), m.source, Regions(def, calls)[|views| - 1])
    ensures ok ==> forall r <- Regions(def, calls) :: IsMarked(m.line, m.source, r)
    ensures (forall r <- Regions(def, calls) :: InLine(r, m.source)) ==> ok
  {
    hide Overlaid, EmptyAt, Displayed, Shows, Escape, IsMarked, Regions;
    RegionsAre(def, calls);
    ghost var regions := Regions(def, calls);
    ok := true;
    views := [ViewOf(m)];
    if def.Some? {
      ok := MarkRegion(m, Region(def.value.0, def.value.1, "hi-def"));
      if ok {
        OneMoreOverlaid(views, ViewOf(m), m.source, regions);
        views := views + [ViewOf(m)];
      }
    }
    for i := 0 to |calls|
      invariant m.Valid() && AreOverlaid(views, m.source, regions)
      invariant views[0] == old(ViewOf(m)) && views[|views| - 1] == ViewOf(m)
      invariant if ok then |views| == |regions| - |calls| + i + 1
        else |views| <= |regions| && Refused(ViewOf(m), m.source, regions[|views| - 1])
    {
      if ok {
        ok := MarkRegion(m, Region(calls[i].0, calls[i].1, "hi-call"));
        if ok {
          OneMoreOverlaid(views, ViewOf(m), m.source, regions);
          views := views + [ViewOf(m)];
        }
      }
    }
    m.ShowsItsSource();
    if ok {
      AllAreMarked(views, m.source, regions);
    } else {
      assert regions[|views| - 1] in regions;
    }
  }

  lemma AllAreMarked(views: seq<View>, source: string, regions: seq<Region>)
    requires AreOverlaid(views, source, regions) && |views| == |regions| + 1 && forall r <- regions :: '>' !in r.class'
    ensures forall r <- regions :: IsMarked(views[|views| - 1].line, source, r)
  {
    hide AreOverlaid, IsMarked;
    forall i | 0 <= i < |regions|
      ensures IsMarked(views[|regions|].line, source, regions[i])
    {
      EachIsMarked(views, source, regions, i);
      MarkIsMarked(views[|regions|], source, regions[i]);
    }
  }

  lemma MarkIsMarked(v: View, source: string, r: Region)
    requires HasMark(v, source, r)
    ensures IsMarked(v.line, source, r)
  {
    hide IsSpan, IsHeld;
    var at: nat, end: nat, x: nat, y: nat :|
      IsSpan(v.line, source, r.class', at, end, x, y) && Covers(r, x, y) && IsHeld(v.mappings, at, end + |CLOSE_SPAN|);
  }
}
