/**
 * Where the changes of an edit script lie when only a region of the base was rewritten.
 *
 * `Rewritten` says that a side is the base with `base[start..end]` replaced by `side[start..stop]`. The walk
 * through the table then pairs the lines in front of the region, walks through the region as if it were
 * alone, and `Past` is where its last pair leaves it. From there on `Strays` says whether the first line behind
 * the region is paired too early, which is exactly when some change reaches past the region.
 */
module LineRegion {
  import opened LineDiff

  /** The side is the base with `base[start..end]` replaced by `side[start..stop]`. */
  ghost predicate Rewritten<T>(base: seq<T>, side: seq<T>, start: nat, end: nat, stop: nat) {
    && start <= end <= |base| && start <= stop <= |side|
    && base[..start] == side[..start] && base[end..] == side[stop..]
  }

  /** One past the last pair, or the cursors when there is none. */
  function Past(pairs: seq<Match>, row: nat, column: nat): (nat, nat) {
    if pairs == [] then (row, column) else Past(pairs[1..], pairs[0].row + 1, pairs[0].column + 1)
  }

  /** The first line behind the region occurs among the lines of the region the walk still has to pass. */
  ghost predicate Strays<T>(base: seq<T>, inner: seq<T>, middle: seq<T>, end: nat)
    requires end < |base|
  {
    var pairs := Traceback(inner, middle, 0, 0);
    PastInRange(inner, middle);
    var (k, l) := Past(pairs, 0, 0);
    base[end] in (if l < |middle| then middle[l..] else inner[k..])
  }

  lemma {:induction false} PastMatching<T>(pairs: seq<Match>, base: seq<T>, side: seq<T>, row: nat, column: nat)
    requires row <= |base| && column <= |side| && IsMatching(pairs, base, side, row, column)
    ensures var (k, l) := Past(pairs, row, column); row <= k <= |base| && column <= l <= |side|
  {
    if pairs != [] {
      PastMatching(pairs[1..], base, side, pairs[0].row + 1, pairs[0].column + 1);
    }
  }

  lemma {:induction false} PastInRange<T>(inner: seq<T>, middle: seq<T>)
    ensures var (k, l) := Past(Traceback(inner, middle, 0, 0), 0, 0); k <= |inner| && l <= |middle|
  {
    TracebackIsOptimal(inner, middle, 0, 0);
    PastMatching(Traceback(inner, middle, 0, 0), inner, middle, 0, 0);
  }

  // ---------------------------------------------------------------------------------------------
  // The table of two texts with the same end

  lemma {:induction false} SubsequenceOfItself<T>(s: seq<T>)
    ensures IsSubsequence(s, s)
  {
    if s != [] {
      SubsequenceOfItself(s[1..]);
    }
  }

  /** A common end adds its own length to every cell. */
  lemma {:induction false} LcsSharedEnd<T>(a: seq<T>, b: seq<T>, s: seq<T>)
    ensures Lcs(a + s, b + s) == Lcs(a, b) + |s|
    decreases |a| + |b|
  {
    if a == [] || b == [] {
      SubsequenceOfItself(s);
      assert (a + s)[|a|..] == s && (b + s)[|b|..] == s;
      SubsequenceOfSuffix(s, a + s, 0, |a|);
      SubsequenceOfSuffix(s, b + s, 0, |b|);
      assert (a + s)[0..] == a + s && (b + s)[0..] == b + s;
      LcsIsLongest(s, a + s, b + s);
      assert a == [] ==> a + s == s;
      assert b == [] ==> b + s == s;
    } else {
      assert (a + s)[1..] == a[1..] + s && (b + s)[1..] == b[1..] + s;
      if a[0] == b[0] {
        LcsSharedEnd(a[1..], b[1..], s);
      } else {
        LcsSharedEnd(a[1..], b, s);
        LcsSharedEnd(a, b[1..], s);
      }
    }
  }

  lemma {:induction false} RegionRest<T>(
      base: seq<T>, start: nat, end: nat, row: nat)
    requires start + row <= end <= |base|
    ensures base[start + row..] == base[start..end][row..] + base[end..]
  {
    var inner := base[start..end];
    forall i | 0 <= i < |base| - start - row
      ensures base[start + row..][i] == (inner[row..] + base[end..])[i]
    {
      if i < |inner| - row {
        assert inner[row..][i] == inner[row + i];
      }
    }
  }

  /** A cell inside the region, in terms of the region alone. */
  lemma {:induction false} RegionCell<T>(
      base: seq<T>, side: seq<T>, start: nat, end: nat, stop: nat, row: nat, column: nat)
    requires Rewritten(base, side, start, end, stop)
    requires start + row <= end && start + column <= stop
    ensures Lcs(base[start + row..], side[start + column..])
         == Lcs(base[start..end][row..], side[start..stop][column..]) + |base| - end
  {
    RegionRest(base, start, end, row);
    RegionRest(side, start, stop, column);
    LcsSharedEnd(base[start..end][row..], side[start..stop][column..], base[end..]);
  }

  // ---------------------------------------------------------------------------------------------
  // The walk

  /** Pairs of a region at their place in the whole. */
  ghost function Moved(pairs: seq<Match>, d: nat): seq<Match> {
    if pairs == [] then [] else [Match(pairs[0].row + d, pairs[0].column + d)] + Moved(pairs[1..], d)
  }

  /** A step of the walk inside the region goes the way it goes in the region alone. */
  lemma {:induction false} RegionStep<T>(
      base: seq<T>, side: seq<T>, start: nat, end: nat, stop: nat, row: nat, column: nat)
    requires Rewritten(base, side, start, end, stop)
    requires start + row < end && start + column < stop
    ensures var next := Next(base[start..end], side[start..stop], row, column);
      Next(base, side, start + row, start + column) == (start + next.0, start + next.1)
  {
    hide Lcs;
    RegionCell(base, side, start, end, stop, row + 1, column);
    RegionCell(base, side, start, end, stop, row, column + 1);
  }

  /** The walk of the region from a cell, its place in the whole, and the cell past its last pair. */
  ghost predicate GoesThrough<T>(
      pairs: seq<Match>, base: seq<T>, side: seq<T>, start: nat, row: nat, column: nat)
    requires start + row <= |base| && start + column <= |side|
  {
    var (k, l) := Past(pairs, row, column);
    && start + k <= |base| && start + l <= |side|
    && Traceback(base, side, start + row, start + column)
      == Moved(pairs, start) + Traceback(base, side, start + k, start + l)
  }

  /** The walk from a cell of the region: the walk of the region alone, then on from its last pair. */
  lemma {:induction false} WalkThroughRegion<T>(
      base: seq<T>, side: seq<T>, start: nat, end: nat, stop: nat, inner: seq<T>, middle: seq<T>, row: nat, column: nat)
    requires Rewritten(base, side, start, end, stop)
    requires inner == base[start..end] && middle == side[start..stop]
    requires row <= |inner| && column <= |middle|
    ensures GoesThrough(Traceback(inner, middle, row, column), base, side, start, row, column)
    decreases |inner| - row + |middle| - column
  {
    hide Lcs, GoesThrough, Rewritten, Traceback;
    var pairs := Traceback(inner, middle, row, column);
    RegionInRange(base, side, start, end, stop, inner, middle);
    if row == |inner| || column == |middle| {
      WalkEnds(inner, middle, row, column);
      NoPair(base, side, start, row, column);
    } else if inner[row] == middle[column] {
      var rest := PairFirst(inner, middle, row, column);
      WalkThroughRegion(base, side, start, end, stop, inner, middle, row + 1, column + 1);
      FirstPair(rest, pairs, base, side, start, row, column);
    } else if pairs == [] {
      NoPair(base, side, start, row, column);
    } else {
      var next := Next(inner, middle, row, column);
      WalkStep(inner, middle, row, column);
      WalkThroughRegion(base, side, start, end, stop, inner, middle, next.0, next.1);
      RegionSkip(pairs, base, side, start, end, stop, inner, middle, row, column);
    }
  }

  /** The step over a line that is not paired. */
  lemma {:induction false} RegionSkip<T>(pairs: seq<Match>, base: seq<T>, side: seq<T>, start: nat, end: nat, stop: nat,
      inner: seq<T>, middle: seq<T>, row: nat, column: nat)
    requires Rewritten(base, side, start, end, stop)
    requires inner == base[start..end] && middle == side[start..stop]
    requires row < |inner| && column < |middle| && inner[row] != middle[column] && pairs != []
    requires var next := Next(inner, middle, row, column); GoesThrough(pairs, base, side, start, next.0, next.1)
    ensures GoesThrough(pairs, base, side, start, row, column)
  {
    hide Lcs, GoesThrough, Rewritten, Traceback;
    var next := Next(inner, middle, row, column);
    RegionInRange(base, side, start, end, stop, inner, middle);
    RegionStep(base, side, start, end, stop, row, column);
    WalkStep(base, side, start + row, start + column);
    SkipLine(pairs, base, side, start, row, column, next.0, next.1);
  }

  lemma {:induction false} RegionInRange<T>(
      base: seq<T>, side: seq<T>, start: nat, end: nat, stop: nat, inner: seq<T>, middle: seq<T>)
    requires Rewritten(base, side, start, end, stop)
    requires inner == base[start..end] && middle == side[start..stop]
    ensures start + |inner| == end <= |base| && start + |middle| == stop <= |side|
    ensures forall i :: 0 <= i < |inner| ==> inner[i] == base[start + i]
    ensures forall i :: 0 <= i < |middle| ==> middle[i] == side[start + i]
  {
  }

  lemma {:induction false} NoPair<T>(base: seq<T>, side: seq<T>, start: nat, row: nat, column: nat)
    requires start + row <= |base| && start + column <= |side|
    ensures GoesThrough([], base, side, start, row, column)
  {
    var walk := Traceback(base, side, start + row, start + column);
    assert [] + walk == walk;
  }

  lemma {:induction false} FirstPair<T>(
      rest: seq<Match>, pairs: seq<Match>, base: seq<T>, side: seq<T>, start: nat, row: nat, column: nat)
    requires start + row < |base| && start + column < |side| && base[start + row] == side[start + column]
    requires pairs == [Match(row, column)] + rest
    requires GoesThrough(rest, base, side, start, row + 1, column + 1)
    ensures GoesThrough(pairs, base, side, start, row, column)
  {
    hide Lcs, Traceback;
    var _ := PairFirst(base, side, start + row, start + column);
    assert pairs[1..] == rest;
    var (k, l) := Past(rest, row + 1, column + 1);
    var first, moved, after := [Match(start + row, start + column)], Moved(rest, start),
        Traceback(base, side, start + k, start + l);
    assert first + moved + after == first + (moved + after);
  }

  lemma {:induction false} SkipLine<T>(pairs: seq<Match>, base: seq<T>, side: seq<T>, start: nat,
      row: nat, column: nat, row': nat, column': nat)
    requires start + row <= start + row' <= |base| && start + column <= start + column' <= |side|
    requires pairs != [] && GoesThrough(pairs, base, side, start, row', column')
    requires Traceback(base, side, start + row, start + column) == Traceback(base, side, start + row', start + column')
    ensures GoesThrough(pairs, base, side, start, row, column)
  {
  }

  // ---------------------------------------------------------------------------------------------
  // Behind the last pair of the region

  ghost predicate Unshared<T>(a: seq<T>, b: seq<T>) {
    forall i, j :: 0 <= i < |a| && 0 <= j < |b| ==> a[i] != b[j]
  }

  lemma {:induction false} UnsharedIffNothingCommon<T>(a: seq<T>, b: seq<T>)
    ensures Unshared(a, b) <==> Lcs(a, b) == 0
  {
    var s := LcsWitness(a, b);
    if Unshared(a, b) && s != [] {
      SubsequenceHead(s, a);
      SubsequenceHead(s, b);
    }
    forall i, j | 0 <= i < |a| && 0 <= j < |b| && a[i] == b[j]
      ensures Lcs(a, b) > 0
    {
      SharedLineIsCommon(a[i], a);
      SharedLineIsCommon(a[i], b);
      LcsIsLongest([a[i]], a, b);
    }
  }

  lemma {:induction false} SubsequenceHead<T>(s: seq<T>, a: seq<T>)
    requires s != [] && IsSubsequence(s, a)
    ensures s[0] in a
    decreases |a|
  {
    if s[0] != a[0] {
      SubsequenceHead(s, a[1..]);
    }
  }

  /** Where the rest of the region shares no line, a cell counts just the lines behind the region. */
  lemma {:induction false} UnsharedCell<T>(base: seq<T>, side: seq<T>, end: nat, stop: nat, row: nat, column: nat)
    requires row <= end <= |base| && column <= stop <= |side| && base[end..] == side[stop..]
    requires Unshared(base[row..end], side[column..stop])
    ensures Lcs(base[row..], side[column..]) == |base| - end
  {
    UnsharedIffNothingCommon(base[row..end], side[column..stop]);
    LcsSharedEnd(base[row..end], side[column..stop], base[end..]);
    SliceSplit(base, row, end);
    SliceSplit(side, column, stop);
  }

  /** Ties go to the rows: while lines of the side's region are left, the walk drops the base lines first. */
  lemma {:induction false} RowsFirst<T>(base: seq<T>, side: seq<T>, end: nat, stop: nat, row: nat, column: nat)
    requires row <= end <= |base| && column < stop <= |side| && base[end..] == side[stop..]
    requires Unshared(base[row..end], side[column..stop])
    ensures Traceback(base, side, row, column) == Traceback(base, side, end, column)
    decreases end - row
  {
    if row < end {
      assert base[row] == base[row..end][0] && side[column] == side[column..stop][0];
      UnsharedTail(base, side, end, stop, row, column, row + 1, column);
      UnsharedTail(base, side, end, stop, row, column, row, column + 1);
      UnsharedCell(base, side, end, stop, row + 1, column);
      UnsharedCell(base, side, end, stop, row, column + 1);
      WalkStep(base, side, row, column);
      RowsFirst(base, side, end, stop, row + 1, column);
    }
  }

  lemma {:induction false} UnsharedTail<T>(
      base: seq<T>, side: seq<T>, end: nat, stop: nat, row: nat, column: nat, row': nat, column': nat)
    requires row <= row' <= end <= |base| && column <= column' <= stop <= |side|
    requires Unshared(base[row..end], side[column..stop])
    ensures Unshared(base[row'..end], side[column'..stop])
  {
    forall i, j | 0 <= i < end - row' && 0 <= j < stop - column'
      ensures base[row'..end][i] != side[column'..stop][j]
    {
      assert base[row'..end][i] == base[row..end][row' - row + i];
      assert side[column'..stop][j] == side[column..stop][column' - column + j];
    }
  }

  lemma {:induction false} HeadOfSlice<T>(a: seq<T>, i: nat, j: nat)
    requires i < j <= |a|
    ensures a[i..j] == [a[i]] + a[i + 1..j]
  {
  }

  /** Then the side's lines are dropped, up to the first that equals the line behind the region. */
  lemma {:induction false} ColumnsThen<T>(base: seq<T>, side: seq<T>, end: nat, stop: nat, column: nat)
    requires end < |base| && column <= stop <= |side| && base[end..] == side[stop..]
    ensures var walk := Traceback(base, side, end, column);
      if base[end] in side[column..stop] then walk != [] && walk[0].row == end && walk[0].column < stop
      else walk == Traceback(base, side, end, stop)
    decreases stop - column
  {
    hide Lcs;
    if column < stop {
      HeadOfSlice(side, column, stop);
      if base[end] != side[column] {
        UnsharedCell(base, side, end, stop, end, column + 1);
        WalkStep(base, side, end, column);
        ColumnsThen(base, side, end, stop, column + 1);
      }
    }
  }

  /** When no line of the side's region is left, base lines are dropped up to such a line. */
  lemma {:induction false} RowsThen<T>(base: seq<T>, side: seq<T>, end: nat, stop: nat, row: nat)
    requires row <= end < |base| && stop <= |side| && base[end..] == side[stop..]
    ensures var walk := Traceback(base, side, row, stop);
      if base[end] in base[row..end] then walk != [] && walk[0].row < end && walk[0].column == stop
      else walk == Traceback(base, side, end, stop)
    decreases end - row
  {
    hide Lcs;
    assert base[end] == base[end..][0] == side[stop..][0] == side[stop];
    if row < end {
      HeadOfSlice(base, row, end);
      if base[row] != side[stop] {
        UnsharedCell(base, side, end, stop, row + 1, stop);
        WalkStep(base, side, row, stop);
        RowsThen(base, side, end, stop, row + 1);
      }
    }
  }

  /** The line behind the region occurs among what is left of the region. */
  ghost predicate StraysFrom<T>(base: seq<T>, side: seq<T>, end: nat, stop: nat, row: nat, column: nat)
    requires row <= end < |base| && column <= stop <= |side|
  {
    base[end] in if column < stop then side[column..stop] else base[row..end]
  }

  /** From the last pair of the region the walk meets the line behind it in its place, or one too early. */
  lemma {:induction false} WalkBehindRegion<T>(base: seq<T>, side: seq<T>, end: nat, stop: nat, row: nat, column: nat)
    requires row <= end < |base| && column <= stop <= |side| && base[end..] == side[stop..]
    requires Unshared(base[row..end], side[column..stop])
    ensures var walk := Traceback(base, side, row, column);
      if StraysFrom(base, side, end, stop, row, column) then
        && walk != [] && walk[0].row <= end && walk[0].column <= stop
        && (walk[0].row == end) != (walk[0].column == stop)
      else walk == Traceback(base, side, end, stop)
  {
    if column < stop {
      RowsFirst(base, side, end, stop, row, column);
      ColumnsThen(base, side, end, stop, column);
    } else {
      RowsThen(base, side, end, stop, row);
    }
  }

  // ---------------------------------------------------------------------------------------------
  // The script

  ghost predicate EndBy<T>(changes: seq<Change<T>>, end: int) {
    forall c :: c in changes ==> c.end <= end
  }

  /** Texts that agree from the cursors on need no change. */
  lemma {:induction false} SameRest<T>(base: seq<T>, side: seq<T>, row: nat, column: nat)
    requires row <= |base| && column <= |side| && base[row..] == side[column..]
    ensures IsMatching(Traceback(base, side, row, column), base, side, row, column)
    ensures ScriptFrom(Traceback(base, side, row, column), base, side, row, column) == []
    decreases |base| - row
  {
    TracebackIsOptimal(base, side, row, column);
    if row < |base| {
      assert base[row] == base[row..][0] == side[column..][0] == side[column];
      assert base[row + 1..] == base[row..][1..] == side[column..][1..] == side[column + 1..];
      SameRest(base, side, row + 1, column + 1);
      assert Traceback(base, side, row, column)[1..] == Traceback(base, side, row + 1, column + 1);
    }
  }

  /** Lines kept in front of the region leave no change. */
  lemma {:induction false} SameFront<T>(base: seq<T>, side: seq<T>, start: nat, row: nat)
    requires row <= start <= |base| && start <= |side| && base[..start] == side[..start]
    ensures IsMatching(Traceback(base, side, row, row), base, side, row, row)
    ensures IsMatching(Traceback(base, side, start, start), base, side, start, start)
    ensures ScriptFrom(Traceback(base, side, row, row), base, side, row, row)
         == ScriptFrom(Traceback(base, side, start, start), base, side, start, start)
    decreases start - row
  {
    TracebackIsOptimal(base, side, row, row);
    if row < start {
      assert base[row] == base[..start][row] == side[..start][row] == side[row];
      SameFront(base, side, start, row + 1);
      assert Traceback(base, side, row, row)[1..] == Traceback(base, side, row + 1, row + 1);
    }
  }

  lemma {:induction false} GapEnds<T>(
      script: seq<Change<T>>, gap: seq<Change<T>>, tail: seq<Change<T>>, b: int, end: int)
    requires script == gap + tail && b <= end
    requires forall c :: c in gap ==> c.end == b
    ensures EndBy(script, end) <==> EndBy(tail, end)
  {
    assert forall c :: c in script <==> c in gap || c in tail;
  }

  /** Gaps in front of pairs of the region end inside it. */
  lemma {:induction false} GapsOfRegion<T>(pairs: seq<Match>, rest: seq<Match>, all: seq<Match>, base: seq<T>,
      side: seq<T>, start: nat, inner: seq<T>, middle: seq<T>, row: nat, column: nat)
    requires row <= |inner| && column <= |middle| && start + |inner| <= |base| && start + |middle| <= |side|
    requires IsMatching(pairs, inner, middle, row, column)
    requires all == Moved(pairs, start) + rest && IsMatching(all, base, side, start + row, start + column)
    ensures var (k, l) := Past(pairs, row, column);
      && k <= |inner| && l <= |middle| && IsMatching(rest, base, side, start + k, start + l)
      && var whole := ScriptFrom(all, base, side, start + row, start + column);
      && var behind := ScriptFrom(rest, base, side, start + k, start + l);
      && (EndBy(whole, start + |inner|) <==> EndBy(behind, start + |inner|))
  {
    hide ScriptFrom, EndBy;
    PastMatching(pairs, inner, middle, row, column);
    if pairs == [] {
      assert all == rest;
    } else {
      var b, s := pairs[0].row, pairs[0].column;
      MovedCons(pairs, rest, all, start);
      GapsOfRegion(pairs[1..], rest, all[1..], base, side, start, inner, middle, b + 1, s + 1);
      FirstGapEnds(all, base, side, start + row, start + column, start + |inner|);
    }
  }

  /** A gap in front of a pair at or before `end` says nothing about reaching past `end`. */
  lemma {:induction false} FirstGapEnds<T>(
      all: seq<Match>, base: seq<T>, side: seq<T>, row: nat, column: nat, end: nat)
    requires row <= |base| && column <= |side| && all != [] && IsMatching(all, base, side, row, column)
    requires all[0].row <= end
    ensures EndBy(ScriptFrom(all, base, side, row, column), end)
      <==> EndBy(ScriptFrom(all[1..], base, side, all[0].row + 1, all[0].column + 1), end)
  {
    var b, s := all[0].row, all[0].column;
    var gap, tail := Gap(side, row, column, b, s), ScriptFrom(all[1..], base, side, b + 1, s + 1);
    GapEnds(gap + tail, gap, tail, b, end);
  }

  lemma {:induction false} MovedCons(pairs: seq<Match>, rest: seq<Match>, all: seq<Match>, start: nat)
    requires pairs != [] && all == Moved(pairs, start) + rest
    ensures all[0] == Match(pairs[0].row + start, pairs[0].column + start)
    ensures all[1..] == Moved(pairs[1..], start) + rest
  {
  }

  lemma {:induction false} InOrderEnds<T>(changes: seq<Change<T>>, cursor: int, length: int)
    requires InOrder(changes, cursor, length)
    ensures EndBy(changes, length)
  {
    if changes != [] {
      InOrderEnds(changes[1..], changes[0].end, length);
      InOrderBound(changes[1..], changes[0].end, length);
    }
  }

  /** A script that leaves the lines from `end` on alone yields at least these lines. */
  lemma {:induction false} KeptLength<T>(changes: seq<Change<T>>, base: seq<T>, cursor: int, end: int)
    requires 0 <= cursor <= end <= |base| && InOrder(changes, cursor, |base|) && EndBy(changes, end)
    ensures |ApplyFrom(changes, base, cursor)| >= |base| - end
  {
    if changes != [] {
      assert changes[0] in changes;
      InOrderBound(changes[1..], changes[0].end, |base|);
      KeptLength(changes[1..], base, changes[0].end, end);
    }
  }

  /** Once one line behind the region is paired out of place, some change reaches past the region. */
  lemma {:induction false} MustReachPast<T>(
      script: seq<Change<T>>, base: seq<T>, side: seq<T>, end: nat, stop: nat, row: nat, column: nat)
    requires end <= |base| && stop <= |side| && |base| - end == |side| - stop
    requires 0 < row <= |base| && 0 < column <= |side|
    requires (row == end + 1 && column <= stop) || (row <= end && column == stop + 1)
    requires ExactFrom(script, base, side, row, column) && SeparatedFrom(script, row)
    ensures !EndBy(script, end)
  {
    if row <= end {
      if EndBy(script, end) {
        KeptLength(script, base, row, end);
      }
    } else if script != [] {
      assert script[0] in script && row <= script[0].start <= script[0].end;
    }
  }

  /** Whether the script from the last pair of the region on reaches past the region. */
  lemma {:induction false} ReachesPastIff<T>(
      walk: seq<Match>, base: seq<T>, side: seq<T>, end: nat, stop: nat, row: nat, column: nat)
    requires row <= end <= |base| && column <= stop <= |side| && base[end..] == side[stop..]
    requires Unshared(base[row..end], side[column..stop])
    requires walk == Traceback(base, side, row, column) && IsMatching(walk, base, side, row, column)
    ensures EndBy(ScriptFrom(walk, base, side, row, column), end)
      <==> end == |base| || !StraysFrom(base, side, end, stop, row, column)
  {
    hide Lcs, Traceback, EndBy, IsMatching;
    if end == |base| {
      ScriptFromExact(walk, base, side, row, column);
      InOrderEnds(ScriptFrom(walk, base, side, row, column), row, |base|);
    } else {
      WalkBehindRegion(base, side, end, stop, row, column);
      if StraysFrom(base, side, end, stop, row, column) {
        StrayScript(walk, base, side, end, stop, row, column);
      } else {
        SettledScript(walk, base, side, end, stop, row, column);
      }
    }
  }

  lemma {:induction false} StrayScript<T>(
      walk: seq<Match>, base: seq<T>, side: seq<T>, end: nat, stop: nat, row: nat, column: nat)
    requires row <= end < |base| && column <= stop <= |side| && base[end..] == side[stop..]
    requires walk != [] && IsMatching(walk, base, side, row, column)
    requires walk[0].row <= end && walk[0].column <= stop && (walk[0].row == end) != (walk[0].column == stop)
    ensures !EndBy(ScriptFrom(walk, base, side, row, column), end)
  {
    hide EndBy, ExactFrom, SeparatedFrom, ScriptFrom;
    var b, s := walk[0].row, walk[0].column;
    FirstGapEnds(walk, base, side, row, column, end);
    ScriptFromExact(walk[1..], base, side, b + 1, s + 1);
    ScriptFromSeparated(walk[1..], base, side, b + 1, s + 1);
    MustReachPast(ScriptFrom(walk[1..], base, side, b + 1, s + 1), base, side, end, stop, b + 1, s + 1);
  }

  lemma {:induction false} SettledScript<T>(
      walk: seq<Match>, base: seq<T>, side: seq<T>, end: nat, stop: nat, row: nat, column: nat)
    requires row <= end < |base| && column <= stop <= |side| && base[end..] == side[stop..]
    requires walk == Traceback(base, side, end, stop) && IsMatching(walk, base, side, row, column)
    ensures EndBy(ScriptFrom(walk, base, side, row, column), end)
  {
    assert base[end] == base[end..][0] == side[stop..][0] == side[stop];
    assert base[end + 1..] == base[end..][1..] == side[stop..][1..] == side[stop + 1..];
    assert walk[1..] == Traceback(base, side, end + 1, stop + 1);
    SameRest(base, side, end + 1, stop + 1);
    FirstGapEnds(walk, base, side, row, column, end);
  }

  /** Only the region and what lies behind it matters for the script. */
  lemma {:induction false} ScriptFromRegion<T>(base: seq<T>, side: seq<T>, start: nat, end: nat, stop: nat)
    requires Rewritten(base, side, start, end, stop)
    ensures IsMatching(Traceback(base, side, start, start), base, side, start, start)
    ensures Script(base, side) == ScriptFrom(Traceback(base, side, start, start), base, side, start, start)
    ensures forall c :: c in Script(base, side) ==> start <= c.start
  {
    hide Lcs, Traceback;
    SameFront(base, side, start, 0);
    ScriptFromSeparated(Traceback(base, side, start, start), base, side, start, start);
  }

  /** The cell behind the last pair of the region, and what is left of the region there. */
  lemma {:induction false} LeftOver<T>(
      base: seq<T>, side: seq<T>, start: nat, end: nat, stop: nat, inner: seq<T>, middle: seq<T>)
    returns (k: nat, l: nat)
    requires Rewritten(base, side, start, end, stop)
    requires inner == base[start..end] && middle == side[start..stop]
    ensures (k, l) == Past(Traceback(inner, middle, 0, 0), 0, 0) && start + k <= end && start + l <= stop
    ensures inner[k..] == base[start + k..end] && middle[l..] == side[start + l..stop]
    ensures Unshared(base[start + k..end], side[start + l..stop])
    ensures end < |base| ==>
      (Strays(base, inner, middle, end) <==> StraysFrom(base, side, end, stop, start + k, start + l))
  {
    hide Lcs, Traceback;
    var pairs := Traceback(inner, middle, 0, 0);
    TracebackIsOptimal(inner, middle, 0, 0);
    PastMatching(pairs, inner, middle, 0, 0);
    k, l := Past(pairs, 0, 0).0, Past(pairs, 0, 0).1;
    NothingCommonPast(pairs, inner, middle, 0, 0);
    UnsharedIffNothingCommon(inner[k..], middle[l..]);
    assert inner[k..] == base[start + k..end] && middle[l..] == side[start + l..stop];
  }

  /**
   * The changes that rewrite a region start in it or behind it, and they stay in it exactly when the first line
   * behind the region does not occur among the region's lines left over by its last pair: the side's, or the
   * base's when the side has none left.
   */
  lemma {:induction false} RegionKeptIff<T>(base: seq<T>, side: seq<T>, start: nat, end: nat, stop: nat)
    requires Rewritten(base, side, start, end, stop)
    ensures forall c :: c in Script(base, side) ==> start <= c.start
    ensures EndBy(Script(base, side), end)
      <==> end == |base| || !Strays(base, base[start..end], side[start..stop], end)
  {
    hide Lcs, Traceback, EndBy, ScriptFrom, Script, Unshared, IsMatching, Strays, StraysFrom;
    var inner, middle := base[start..end], side[start..stop];
    var k, l := LeftOver(base, side, start, end, stop, inner, middle);
    var pairs, walk := Traceback(inner, middle, 0, 0), Traceback(base, side, start, start);
    var rest := Traceback(base, side, start + k, start + l);
    ScriptFromRegion(base, side, start, end, stop);
    WalkThroughRegion(base, side, start, end, stop, inner, middle, 0, 0);
    TracebackIsOptimal(inner, middle, 0, 0);
    GapsOfRegion(pairs, rest, walk, base, side, start, inner, middle, 0, 0);
    ReachesPastIff(rest, base, side, end, stop, start + k, start + l);
  }

  /** Behind the last pair of a longest matching nothing is left in common. */
  lemma {:induction false} NothingCommonPast<T>(
      pairs: seq<Match>, base: seq<T>, side: seq<T>, row: nat, column: nat)
    requires row <= |base| && column <= |side| && IsMatching(pairs, base, side, row, column)
    requires |pairs| == Lcs(base[row..], side[column..])
    ensures var (k, l) := Past(pairs, row, column);
      k <= |base| && l <= |side| && Lcs(base[k..], side[l..]) == 0
  {
    if pairs != [] {
      RestIsOptimal(pairs, base, side, row, column);
      NothingCommonPast(pairs[1..], base, side, pairs[0].row + 1, pairs[0].column + 1);
    }
  }
}
