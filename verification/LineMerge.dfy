/**
 * Combining the edit scripts of two sides, and why the splice of the combination is right.
 *
 * `Before` orders changes that can be combined; a `Chain` is a script in that order. `Interleave` is
 * the combined script, and the diamond lemmas say that splicing it amounts to performing one side's
 * changes and then the other side's remaining changes, moved by the lengths already gained or lost.
 */
module LineMerge {
  import opened Wrappers
  import opened LineDiff

  /** `overlaps`: an insertion clashes with a range it touches, ranges clash when they intersect. */
  predicate Overlaps<T>(left: Change<T>, right: Change<T>) {
    if left.start == left.end && right.start == right.end then left.start == right.start
    else if left.start == left.end then right.start <= left.start <= right.end
    else if right.start == right.end then left.start <= right.start <= left.end
    else left.start < right.end && right.start < left.end
  }

  /** Two different changes of the two scripts overlap. */
  ghost predicate Conflict<T>(left: seq<Change<T>>, right: seq<Change<T>>) {
    exists l, r :: l in left && r in right && l != r && Overlaps(l, r)
  }

  /** `l` lies wholly in front of `r`, with a kept line between them if either is an insertion. */
  ghost predicate Before<T>(l: Change<T>, r: Change<T>) {
    && l.end <= r.start && l.start < r.start
    && (l.start == l.end || r.start == r.end ==> l.end < r.start)
  }

  /** Proper changes in order, none touching the next where that would be ambiguous. */
  ghost predicate Chain<T>(changes: seq<Change<T>>) {
    && (forall c :: c in changes ==> Proper(c))
    && (forall i, j :: 0 <= i < j < |changes| ==> Before(changes[i], changes[j]))
  }

  /** For proper changes, not overlapping means that one is before the other. */
  lemma {:induction false} ApartIffOrdered<T>(l: Change<T>, r: Change<T>)
    requires Proper(l) && Proper(r)
    ensures !Overlaps(l, r) <==> Before(l, r) || Before(r, l)
    ensures Overlaps(l, r) <==> Overlaps(r, l)
  {
  }

  lemma {:induction false} SeparatedIsChain<T>(changes: seq<Change<T>>)
    requires Separated(changes)
    ensures Chain(changes)
  {
    assert forall i :: 0 <= i < |changes| ==> changes[i] in changes;
  }

  /** Two chains with the same changes are the same chain. */
  lemma {:induction false} ChainUnique<T>(a: seq<Change<T>>, b: seq<Change<T>>)
    requires Chain(a) && Chain(b)
    requires forall c :: c in a <==> c in b
    ensures a == b
  {
    assert forall i :: 0 <= i < |a| ==> a[i] in a;
    assert forall i :: 0 <= i < |b| ==> b[i] in b;
    if a != [] && b != [] {
      assert a[0] == b[0];
      forall c
        ensures c in a[1..] <==> c in b[1..]
      {
        assert c in a[1..] ==> c in a && c != a[0];
        assert c in b[1..] ==> c in b && c != b[0];
        assert c in a && c != a[0] ==> c in a[1..];
        assert c in b && c != b[0] ==> c in b[1..];
      }
      ChainUnique(a[1..], b[1..]);
      assert a == [a[0]] + a[1..] && b == [b[0]] + b[1..];
    }
  }

  /** The combined script: both scripts in order, a shared change once. */
  ghost function Interleave<T>(left: seq<Change<T>>, right: seq<Change<T>>): seq<Change<T>>
    decreases |left| + |right|
  {
    if left == [] then right
    else if right == [] then left
    else if left[0] == right[0] then [left[0]] + Interleave(left[1..], right[1..])
    else if left[0].start < right[0].start then [left[0]] + Interleave(left[1..], right)
    else [right[0]] + Interleave(left, right[1..])
  }

  lemma {:induction false} InterleaveMembers<T>(left: seq<Change<T>>, right: seq<Change<T>>, c: Change<T>)
    ensures c in Interleave(left, right) <==> c in left || c in right
    decreases |left| + |right|
  {
    if left != [] && right != [] {
      assert c in left <==> c == left[0] || c in left[1..];
      assert c in right <==> c == right[0] || c in right[1..];
      if left[0] == right[0] {
        InterleaveMembers(left[1..], right[1..], c);
      } else if left[0].start < right[0].start {
        InterleaveMembers(left[1..], right, c);
      } else {
        InterleaveMembers(left, right[1..], c);
      }
    }
  }

  /** The head that `Interleave` takes first is before everything else. */
  lemma {:induction false} HeadIsFirst<T>(head: seq<Change<T>>, other: seq<Change<T>>, c: Change<T>)
    requires Chain(head) && Chain(other) && !Conflict(head, other) && !Conflict(other, head)
    requires head != [] && (other == [] || head[0] == other[0] || head[0].start < other[0].start)
    requires c in head[1..] || (c in other && c != head[0])
    ensures Before(head[0], c)
  {
    if c in other && c != head[0] {
      ApartIffOrdered(head[0], c);
      assert !Overlaps(head[0], c);
      assert other[0].start <= c.start;
    }
  }

  lemma {:induction false} ConflictSymmetric<T>(left: seq<Change<T>>, right: seq<Change<T>>)
    requires Chain(left) && Chain(right)
    ensures Conflict(left, right) <==> Conflict(right, left)
  {
    forall l, r | l in left && r in right
      ensures Overlaps(l, r) <==> Overlaps(r, l)
    {
      ApartIffOrdered(l, r);
    }
  }

  lemma {:induction false} ChainCons<T>(c: Change<T>, rest: seq<Change<T>>)
    requires Proper(c) && Chain(rest)
    requires forall d :: d in rest ==> Before(c, d)
    ensures Chain([c] + rest)
  {
  }

  lemma {:induction false} InterleaveIsChain<T>(left: seq<Change<T>>, right: seq<Change<T>>)
    requires Chain(left) && Chain(right) && !Conflict(left, right)
    ensures Chain(Interleave(left, right))
    decreases |left| + |right|
  {
    if left != [] && right != [] {
      ConflictSymmetric(left, right);
      var head := if left[0] == right[0] || left[0].start < right[0].start then left[0] else right[0];
      var left' := if head == left[0] then left[1..] else left;
      var right' := if head == right[0] then right[1..] else right;
      assert left[0] != right[0] ==> !Overlaps(left[0], right[0]);
      ApartIffOrdered(left[0], right[0]);
      forall c | c in Interleave(left', right')
        ensures Before(head, c)
      {
        InterleaveMembers(left', right', c);
        if head == left[0] {
          HeadIsFirst(left, right, c);
        } else {
          HeadIsFirst(right, left, c);
        }
      }
      InterleaveIsChain(left', right');
      ChainCons(head, Interleave(left', right'));
    }
  }

  /** The order of the two sides does not matter. */
  lemma {:induction false} InterleaveSymmetric<T>(left: seq<Change<T>>, right: seq<Change<T>>)
    requires Chain(left) && Chain(right) && !Conflict(left, right)
    ensures Interleave(left, right) == Interleave(right, left)
  {
    ConflictSymmetric(left, right);
    InterleaveIsChain(left, right);
    InterleaveIsChain(right, left);
    forall c
      ensures c in Interleave(left, right) <==> c in Interleave(right, left)
    {
      InterleaveMembers(left, right, c);
      InterleaveMembers(right, left, c);
    }
    ChainUnique(Interleave(left, right), Interleave(right, left));
  }

  // ---------------------------------------------------------------------------------------------
  // The code

  predicate KeyLeq<T>(a: Change<T>, b: Change<T>) {
    a.start < b.start || (a.start == b.start && a.end <= b.end)
  }

  function InsertByKey<T>(c: Change<T>, sorted: seq<Change<T>>): seq<Change<T>> {
    if sorted == [] || KeyLeq(c, sorted[0]) then [c] + sorted
    else [sorted[0]] + InsertByKey(c, sorted[1..])
  }

  /** `sort_by_key` on `(start, end)`: a stable sort. */
  function SortByKey<T>(changes: seq<Change<T>>): seq<Change<T>> {
    if changes == [] then [] else InsertByKey(changes[0], SortByKey(changes[1..]))
  }

  lemma {:induction false} InsertMembers<T>(c: Change<T>, sorted: seq<Change<T>>, d: Change<T>)
    ensures d in InsertByKey(c, sorted) <==> d == c || d in sorted
  {
    if sorted != [] && !KeyLeq(c, sorted[0]) {
      InsertMembers(c, sorted[1..], d);
      assert d in sorted <==> d == sorted[0] || d in sorted[1..];
    }
  }

  lemma {:induction false} InsertKeepsChain<T>(c: Change<T>, sorted: seq<Change<T>>)
    requires Chain(sorted) && Proper(c)
    requires forall d :: d in sorted ==> !Overlaps(c, d)
    ensures Chain(InsertByKey(c, sorted))
  {
    forall d | d in sorted
      ensures Before(c, d) || Before(d, c)
    {
      ApartIffOrdered(c, d);
    }
    if sorted == [] || KeyLeq(c, sorted[0]) {
      ChainCons(c, sorted);
    } else {
      assert forall d :: d in sorted[1..] ==> d in sorted;
      InsertKeepsChain(c, sorted[1..]);
      forall d | d in InsertByKey(c, sorted[1..])
        ensures Before(sorted[0], d)
      {
        InsertMembers(c, sorted[1..], d);
      }
      ChainCons(sorted[0], InsertByKey(c, sorted[1..]));
    }
  }

  /** No two positions hold overlapping changes. */
  ghost predicate PairwiseApart<T>(changes: seq<Change<T>>) {
    && (forall c :: c in changes ==> Proper(c))
    && (forall i, j :: 0 <= i < j < |changes| ==> !Overlaps(changes[i], changes[j]))
  }

  lemma {:induction false} SortMembers<T>(changes: seq<Change<T>>, c: Change<T>)
    ensures c in SortByKey(changes) <==> c in changes
  {
    if changes != [] {
      SortMembers(changes[1..], c);
      InsertMembers(changes[0], SortByKey(changes[1..]), c);
      assert c in changes <==> c == changes[0] || c in changes[1..];
    }
  }

  lemma {:induction false} SortMakesChain<T>(changes: seq<Change<T>>)
    requires PairwiseApart(changes)
    ensures Chain(SortByKey(changes))
  {
    if changes != [] {
      SortMakesChain(changes[1..]);
      forall d | d in SortByKey(changes[1..])
        ensures !Overlaps(changes[0], d)
      {
        SortMembers(changes[1..], d);
      }
      InsertKeepsChain(changes[0], SortByKey(changes[1..]));
    }
  }

  lemma {:induction false} ChainApart<T>(changes: seq<Change<T>>)
    requires Chain(changes)
    ensures PairwiseApart(changes)
  {
    forall i, j | 0 <= i < j < |changes|
      ensures !Overlaps(changes[i], changes[j])
    {
      ApartIffOrdered(changes[i], changes[j]);
    }
  }

  lemma {:induction false} EarlierApart<T>(changes: seq<Change<T>>, k: nat)
    requires Chain(changes) && k < |changes|
    ensures forall c :: c in changes[..k] ==> c != changes[k] && !Overlaps(c, changes[k])
  {
    forall c | c in changes[..k]
      ensures c != changes[k] && !Overlaps(c, changes[k])
    {
      assert Before(c, changes[k]);
      ApartIffOrdered(c, changes[k]);
    }
  }

  lemma {:induction false} MemberApart<T>(changes: seq<Change<T>>, c: Change<T>)
    requires Chain(changes) && c in changes
    ensures forall d :: d in changes && d != c ==> !Overlaps(d, c)
  {
    forall d | d in changes && d != c
      ensures !Overlaps(d, c)
    {
      assert Before(d, c) || Before(c, d);
      ApartIffOrdered(d, c);
    }
  }

  /** What the loop knows after handling the first `k` changes of the right script. */
  ghost predicate CombinedSoFar<T(!new)>(combined: seq<Change<T>>, left: seq<Change<T>>, right: seq<Change<T>>, k: nat)
    requires k <= |right|
  {
    && PairwiseApart(combined)
    && (forall c :: c in combined <==> c in left || c in right[..k])
    && !Conflict(left, right[..k])
  }

  /** One step of the loop: keep, refuse or push. */
  lemma {:induction false} CombineStep<T(!new)>(combined: seq<Change<T>>, left: seq<Change<T>>, right: seq<Change<T>>,
      k: nat)
    requires Chain(left) && Chain(right) && k < |right|
    requires CombinedSoFar(combined, left, right, k)
    ensures right[k] in combined ==> CombinedSoFar(combined, left, right, k + 1)
    ensures right[k] !in combined && (exists c :: c in combined && Overlaps(c, right[k])) ==> Conflict(left, right)
    ensures right[k] !in combined && !(exists c :: c in combined && Overlaps(c, right[k])) ==>
      CombinedSoFar(combined + [right[k]], left, right, k + 1)
  {
    var candidate := right[k];
    assert right[..k + 1] == right[..k] + [candidate];
    EarlierApart(right, k);
    if candidate in combined {
      MemberApart(left, candidate);
    } else if c :| c in combined && Overlaps(c, candidate) {
      assert c in left && candidate in right;
    } else {
      assert forall c :: c in left ==> c in combined;
    }
  }

  /** `combine_changes`: refuses exactly on a conflict, otherwise merges the two scripts in order. */
  method CombineChanges<T(==,!new)>(left: seq<Change<T>>, right: seq<Change<T>>) returns (r: Option<seq<Change<T>>>)
    requires Chain(left) && Chain(right)
    ensures r.None? <==> Conflict(left, right)
    ensures r.Some? ==> r.value == Interleave(left, right)
  {
    var combined := left;
    ChainApart(left);
    for k := 0 to |right|
      invariant CombinedSoFar(combined, left, right, k)
    {
      CombineStep(combined, left, right, k);
      if right[k] in combined {
        continue;
      }
      if exists change :: change in combined && Overlaps(change, right[k]) {
        return None;
      }
      combined := combined + [right[k]];
    }
    assert right[..|right|] == right;
    SortMakesChain(combined);
    CombinedIsInterleave(left, right, combined);
    return Some(SortByKey(combined));
  }

  lemma {:induction false} CombinedIsInterleave<T>(left: seq<Change<T>>, right: seq<Change<T>>,
      combined: seq<Change<T>>)
    requires Chain(left) && Chain(right) && !Conflict(left, right) && Chain(SortByKey(combined))
    requires forall c :: c in combined <==> c in left || c in right
    ensures SortByKey(combined) == Interleave(left, right)
  {
    InterleaveIsChain(left, right);
    forall c
      ensures c in Interleave(left, right) <==> c in SortByKey(combined)
    {
      InterleaveMembers(left, right, c);
      SortMembers(combined, c);
    }
    ChainUnique(SortByKey(combined), Interleave(left, right));
  }

  // ---------------------------------------------------------------------------------------------
  // The diamond

  /** How many lines a change adds. */
  function Delta<T>(c: Change<T>): int {
    |c.replacement| - (c.end - c.start)
  }

  /** How far the changes in front of `position` move it. */
  ghost function Offset<T>(changes: seq<Change<T>>, position: int): int {
    if changes == [] then 0
    else (if changes[0].start < position then Delta(changes[0]) else 0) + Offset(changes[1..], position)
  }

  function Shift<T>(c: Change<T>, moved: int): Change<T> {
    Change(c.start + moved, c.end + moved, c.replacement)
  }

  /** The changes not shared with `done`, moved by `moved` and by the changes of `done` in front of them. */
  ghost function RebaseBy<T>(changes: seq<Change<T>>, done: seq<Change<T>>, moved: int): seq<Change<T>> {
    if changes == [] then []
    else if changes[0] in done then RebaseBy(changes[1..], done, moved)
    else [Shift(changes[0], moved + Offset(done, changes[0].start))] + RebaseBy(changes[1..], done, moved)
  }

  ghost function Rebase<T>(changes: seq<Change<T>>, done: seq<Change<T>>): seq<Change<T>> {
    RebaseBy(changes, done, 0)
  }

  /** Once the first change of `done` lies in front of all the rest, it is only a constant shift. */
  lemma {:induction false} RebaseAdvance<T>(changes: seq<Change<T>>, done: seq<Change<T>>, moved: int)
    requires done != []
    requires forall c :: c in changes ==> done[0].start < c.start
    ensures RebaseBy(changes, done, moved) == RebaseBy(changes, done[1..], moved + Delta(done[0]))
  {
    if changes != [] {
      RebaseAdvance(changes[1..], done, moved);
      assert changes[0] in done <==> changes[0] == done[0] || changes[0] in done[1..];
      assert Offset(done, changes[0].start) == Delta(done[0]) + Offset(done[1..], changes[0].start);
    }
  }

  lemma {:induction false} OffsetZero<T>(changes: seq<Change<T>>, position: int)
    requires forall c :: c in changes ==> position <= c.start
    ensures Offset(changes, position) == 0
  {
    if changes != [] {
      OffsetZero(changes[1..], position);
    }
  }

  lemma {:induction false} ChainTail<T>(changes: seq<Change<T>>)
    requires Chain(changes) && changes != []
    ensures Chain(changes[1..])
    ensures forall c :: c in changes[1..] ==> Before(changes[0], c)
  {
  }

  lemma {:induction false} ConflictOfTails<T>(left: seq<Change<T>>, right: seq<Change<T>>)
    requires !Conflict(left, right)
    ensures left != [] ==> !Conflict(left[1..], right)
    ensures right != [] ==> !Conflict(left, right[1..])
    ensures left != [] && right != [] ==> !Conflict(left[1..], right[1..])
  {
  }

  /** Both paths around the square, from a point where `side` still has the rest of `left` ahead. */
  ghost predicate DiamondFrom<T>(
      left: seq<Change<T>>, right: seq<Change<T>>, base: seq<T>, cursor: int, side: seq<T>, moved: int)
    requires 0 <= cursor && 0 <= cursor + moved
  {
    && InOrder(Interleave(left, right), cursor, |base|)
    && InOrder(RebaseBy(right, left, moved), cursor + moved, |side|)
    && ApplyFrom(RebaseBy(right, left, moved), side, cursor + moved) == ApplyFrom(Interleave(left, right), base, cursor)
  }

  /** What is known of `side`: from `cursor` on it reads as the base with the rest of `left` applied. */
  ghost predicate SideAhead<T>(left: seq<Change<T>>, base: seq<T>, cursor: int, side: seq<T>, moved: int) {
    && 0 <= cursor && 0 <= cursor + moved <= |side|
    && InOrder(left, cursor, |base|)
    && side[cursor + moved..] == ApplyFrom(left, base, cursor)
  }

  /** Passing one change of `left` moves both cursors past it. */
  lemma {:induction false} PassLeft<T>(left: seq<Change<T>>, base: seq<T>, cursor: int, side: seq<T>, moved: int)
    requires left != [] && SideAhead(left, base, cursor, side, moved) && left[0].end <= |base|
    ensures var l := left[0]; var moved' := moved + Delta(l);
      && SideAhead(left[1..], base, l.end, side, moved')
      && side[cursor + moved..l.end + moved'] == base[cursor..l.start] + l.replacement
  {
    var l := left[0];
    var kept, rest := base[cursor..l.start] + l.replacement, ApplyFrom(left[1..], base, l.end);
    assert side[cursor + moved..] == kept + rest;
    assert side[cursor + moved..][|kept|..] == rest;
    assert side[cursor + moved..][..|kept|] == kept;
  }

  lemma {:induction false} DiamondPassLeft<T>(
      left: seq<Change<T>>, right: seq<Change<T>>, rest: seq<Change<T>>, right': seq<Change<T>>,
      base: seq<T>, cursor: int, side: seq<T>, moved: int, moved': int)
    requires left != [] && rest == left[1..] && moved' == moved + Delta(left[0])
    requires SideAhead(left, base, cursor, side, moved) && left[0].end <= |base|
    requires Interleave(left, right) == [left[0]] + Interleave(rest, right')
    requires RebaseBy(right, left, moved) == RebaseBy(right', rest, moved')
    requires 0 <= left[0].end + moved'
    requires DiamondFrom(rest, right', base, left[0].end, side, moved')
    ensures DiamondFrom(left, right, base, cursor, side, moved)
  {
    hide Interleave, RebaseBy, ApplyFrom;
    var l := left[0];
    PassLeft(left, base, cursor, side, moved);
    KeepPrefix(RebaseBy(right, left, moved), side, cursor + moved, l.end + moved');
    ApplyCons(Interleave(left, right), l, Interleave(rest, right'), base, cursor);
    var kept, tail := base[cursor..l.start], ApplyFrom(Interleave(rest, right'), base, l.end);
    assert kept + l.replacement + tail == kept + (l.replacement + tail);
  }

  /** The base lines in front of a change of `right` are kept by `side` too. */
  lemma {:induction false} PassKept<T>(
      left: seq<Change<T>>, r: Change<T>, base: seq<T>, cursor: int, side: seq<T>, moved: int)
    requires SideAhead(left, base, cursor, side, moved)
    requires cursor <= r.start <= r.end <= |base|
    requires left != [] ==> r.end <= left[0].start
    ensures SideAhead(left, base, r.end, side, moved)
    ensures side[cursor + moved..r.start + moved] == base[cursor..r.start]
  {
    KeepPrefix(left, base, cursor, r.end);
    SliceJoin(base, cursor, r.start, r.end);
    var rest := ApplyFrom(left, base, r.end);
    assert side[cursor + moved..] == base[cursor..r.end] + rest;
    assert side[cursor + moved..][r.end - cursor..] == rest;
    assert side[cursor + moved..][..r.start - cursor] == base[cursor..r.start];
  }

  /** Taking one change of `right` first: the kept lines in front of it are the same on both paths. */
  lemma {:induction false} DiamondTakeRight<T>(
      left: seq<Change<T>>, right: seq<Change<T>>, rest: seq<Change<T>>,
      base: seq<T>, cursor: int, side: seq<T>, moved: int)
    requires right != [] && rest == right[1..] && SideAhead(left, base, cursor, side, moved)
    requires cursor <= right[0].start <= right[0].end <= |base|
    requires left != [] ==> right[0].end <= left[0].start
    requires Interleave(left, right) == [right[0]] + Interleave(left, rest)
    requires RebaseBy(right, left, moved) == [Shift(right[0], moved)] + RebaseBy(rest, left, moved)
    requires 0 <= right[0].end + moved && DiamondFrom(left, rest, base, right[0].end, side, moved)
    ensures DiamondFrom(left, right, base, cursor, side, moved)
  {
    hide Interleave, RebaseBy, InOrder;
    var r := right[0];
    var merged, rebased := Interleave(left, right), RebaseBy(right, left, moved);
    PassKept(left, r, base, cursor, side, moved);
    ApplyCons(merged, r, Interleave(left, rest), base, cursor);
    ApplyCons(rebased, Shift(r, moved), RebaseBy(rest, left, moved), side, cursor + moved);
  }

  /** What changes when `left` is in front: one shift is settled, and a shared change is done. */
  lemma {:induction false} LeftInFront<T>(
      left: seq<Change<T>>, right: seq<Change<T>>, rest: seq<Change<T>>, right': seq<Change<T>>, moved: int,
      length: int)
    requires Chain(left) && Chain(right) && !Conflict(left, right) && left != [] && right != []
    requires left[0] == right[0] || left[0].start < right[0].start
    requires rest == left[1..] && right' == if left[0] == right[0] then right[1..] else right
    requires InOrder(right, right[0].start, length)
    ensures Interleave(left, right) == [left[0]] + Interleave(rest, right')
    ensures RebaseBy(right, left, moved) == RebaseBy(right', rest, moved + Delta(left[0]))
    ensures Chain(rest) && Chain(right') && !Conflict(rest, right')
    ensures InOrder(right', left[0].end, length)
  {
    ConflictOfTails(left, right);
    ChainTail(left);
    ChainTail(right);
    if left[0] != right[0] {
      ApartIffOrdered(left[0], right[0]);
      assert !Overlaps(left[0], right[0]);
      assert forall c :: c in right ==> c == right[0] || c in right[1..];
    }
    assert forall c :: c in right' ==> left[0].start < c.start;
    RebaseAdvance(right', left, moved);
  }

  /** What changes when `right` is in front: nothing of `left` moves it. */
  lemma {:induction false} RightInFront<T>(left: seq<Change<T>>, right: seq<Change<T>>, moved: int)
    requires Chain(left) && Chain(right) && !Conflict(left, right) && right != []
    requires left != [] ==> left[0] != right[0] && right[0].start <= left[0].start
    ensures Interleave(left, right) == [right[0]] + Interleave(left, right[1..])
    ensures RebaseBy(right, left, moved) == [Shift(right[0], moved)] + RebaseBy(right[1..], left, moved)
    ensures Chain(right[1..]) && !Conflict(left, right[1..])
    ensures left != [] ==> right[0].end <= left[0].start
  {
    ConflictOfTails(left, right);
    ChainTail(right);
    if left != [] {
      ChainTail(left);
      ApartIffOrdered(left[0], right[0]);
      assert !Overlaps(left[0], right[0]);
      assert forall c :: c in left ==> c == left[0] || c in left[1..];
    } else {
      assert [right[0]] + right[1..] == right;
    }
    OffsetZero(left, right[0].start);
  }

  lemma {:induction false} DiamondStep<T>(
      left: seq<Change<T>>, right: seq<Change<T>>, base: seq<T>, cursor: int, side: seq<T>, moved: int)
    requires Chain(left) && Chain(right) && !Conflict(left, right)
    requires InOrder(right, cursor, |base|)
    requires SideAhead(left, base, cursor, side, moved)
    ensures DiamondFrom(left, right, base, cursor, side, moved)
    decreases |left| + |right|, 1
  {
    if right == [] {
      assert Interleave(left, right) == left;
    } else if left != [] && (left[0] == right[0] || left[0].start < right[0].start) {
      DiamondLeft(left, right, base, cursor, side, moved);
    } else {
      DiamondRight(left, right, base, cursor, side, moved);
    }
  }

  lemma {:induction false} DiamondLeft<T>(
      left: seq<Change<T>>, right: seq<Change<T>>, base: seq<T>, cursor: int, side: seq<T>, moved: int)
    requires Chain(left) && Chain(right) && !Conflict(left, right)
    requires left != [] && right != [] && (left[0] == right[0] || left[0].start < right[0].start)
    requires InOrder(right, cursor, |base|)
    requires SideAhead(left, base, cursor, side, moved)
    ensures DiamondFrom(left, right, base, cursor, side, moved)
    decreases |left| + |right|, 0
  {
    var rest, right' := left[1..], if left[0] == right[0] then right[1..] else right;
    var end, moved' := left[0].end, moved + Delta(left[0]);
    LeftInFront(left, right, rest, right', moved, |base|);
    InOrderBound(rest, end, |base|);
    PassLeft(left, base, cursor, side, moved);
    DiamondStep(rest, right', base, end, side, moved');
    DiamondPassLeft(left, right, rest, right', base, cursor, side, moved, moved');
  }

  lemma {:induction false} DiamondRight<T>(
      left: seq<Change<T>>, right: seq<Change<T>>, base: seq<T>, cursor: int, side: seq<T>, moved: int)
    requires Chain(left) && Chain(right) && !Conflict(left, right)
    requires right != [] && (left != [] ==> left[0] != right[0] && right[0].start <= left[0].start)
    requires InOrder(right, cursor, |base|)
    requires SideAhead(left, base, cursor, side, moved)
    ensures DiamondFrom(left, right, base, cursor, side, moved)
    decreases |left| + |right|, 0
  {
    var rest := right[1..];
    RightInFront(left, right, moved);
    InOrderBound(rest, right[0].end, |base|);
    PassKept(left, right[0], base, cursor, side, moved);
    DiamondStep(left, rest, base, right[0].end, side, moved);
    DiamondTakeRight(left, right, rest, base, cursor, side, moved);
  }

  /**
   * The diamond: splicing the combined script into the base gives what the other side's own changes,
   * rebased, make of this side. So every change of both sides survives and nothing else happens.
   */
  lemma {:induction false} Diamond<T>(left: seq<Change<T>>, right: seq<Change<T>>, base: seq<T>)
    requires Chain(left) && Chain(right) && !Conflict(left, right)
    requires InOrder(left, 0, |base|) && InOrder(right, 0, |base|)
    ensures InOrder(Interleave(left, right), 0, |base|)
    ensures InOrder(Rebase(right, left), 0, |Apply(left, base)|)
    ensures InOrder(Rebase(left, right), 0, |Apply(right, base)|)
    ensures Apply(Interleave(left, right), base) == Apply(Rebase(right, left), Apply(left, base))
    ensures Apply(Interleave(left, right), base) == Apply(Rebase(left, right), Apply(right, base))
  {
    var l, r := Apply(left, base), Apply(right, base);
    assert l[0..] == l && r[0..] == r;
    DiamondStep(left, right, base, 0, l, 0);
    ConflictSymmetric(left, right);
    DiamondStep(right, left, base, 0, r, 0);
    InterleaveSymmetric(left, right);
  }
}
