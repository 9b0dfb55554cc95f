/**
 * Edit scripts from a longest-common-subsequence table.
 *
 * `Lcs` and `IsSubsequence` say what the table means; `Changes` is the table-filling, tracing and
 * script-building code, proved to compute `Script`; the lemmas say what `Script` is good for.
 */
module LineDiff {
  import opened Bytes
  import opened Wrappers

  /** A base line kept as a line of the side. */
  datatype Match = Match(row: nat, column: nat)

  /** Replace `base[start..end]` by `replacement`; `InOrder` keeps the positions in range. */
  datatype Change<T> = Change(start: int, end: int, replacement: seq<T>)

  // ---------------------------------------------------------------------------------------------
  // Longest common subsequences

  ghost predicate IsSubsequence<T>(s: seq<T>, a: seq<T>) {
    s == [] || (a != [] && ((s[0] == a[0] && IsSubsequence(s[1..], a[1..])) || IsSubsequence(s, a[1..])))
  }

  ghost function Lcs<T>(a: seq<T>, b: seq<T>): (n: nat)
    ensures n <= |a| && n <= |b|
    decreases |a| + |b|
  {
    if a == [] || b == [] then 0
    else if a[0] == b[0] then 1 + Lcs(a[1..], b[1..])
    else var down, right := Lcs(a[1..], b), Lcs(a, b[1..]); if down >= right then down else right
  }

  lemma {:induction false} TailIsSubsequence<T>(s: seq<T>, a: seq<T>)
    requires s != [] && IsSubsequence(s, a)
    ensures IsSubsequence(s[1..], a)
    decreases |a|
  {
    if s[0] == a[0] && IsSubsequence(s[1..], a[1..]) {
      if s[1..] != [] && a[1..] != [] {
        assert a != [];
      }
    } else {
      TailIsSubsequence(s, a[1..]);
    }
  }

  /** No common subsequence is longer than `Lcs`. */
  lemma {:induction false} LcsIsLongest<T>(s: seq<T>, a: seq<T>, b: seq<T>)
    requires IsSubsequence(s, a) && IsSubsequence(s, b)
    ensures |s| <= Lcs(a, b)
    decreases |a| + |b|
  {
    if s == [] {
    } else if a[0] == b[0] {
      if s[0] == a[0] {
        SkipHead(s, a);
        SkipHead(s, b);
        LcsIsLongest(s[1..], a[1..], b[1..]);
      } else {
        LcsIsLongest(s, a[1..], b[1..]);
      }
    } else if s[0] == a[0] {
      LcsIsLongest(s, a, b[1..]);
    } else {
      LcsIsLongest(s, a[1..], b);
    }
  }

  /** Whichever way a head is matched, the tail fits into the tail. */
  lemma {:induction false} SkipHead<T>(s: seq<T>, a: seq<T>)
    requires s != [] && a != [] && IsSubsequence(s, a)
    ensures IsSubsequence(s[1..], a[1..])
  {
    if !(s[0] == a[0] && IsSubsequence(s[1..], a[1..])) {
      TailIsSubsequence(s, a[1..]);
    }
  }

  // ---------------------------------------------------------------------------------------------
  // The traceback

  /** The matches the greedy walk collects from cell `(row, column)`. */
  ghost function Traceback<T>(base: seq<T>, side: seq<T>, row: nat, column: nat): seq<Match>
    requires row <= |base| && column <= |side|
    decreases |base| - row + |side| - column
  {
    if row == |base| || column == |side| then []
    else if base[row] == side[column] then [Match(row, column)] + Traceback(base, side, row + 1, column + 1)
    else if Lcs(base[row + 1..], side[column..]) >= Lcs(base[row..], side[column + 1..]) then
      Traceback(base, side, row + 1, column)
    else Traceback(base, side, row, column + 1)
  }

  /** The larger neighbour below the cell, or right of it. */
  ghost function Next<T>(base: seq<T>, side: seq<T>, row: nat, column: nat): (nat, nat)
    requires row < |base| && column < |side|
  {
    if Lcs(base[row + 1..], side[column..]) >= Lcs(base[row..], side[column + 1..]) then (row + 1, column)
    else (row, column + 1)
  }

  /** Where the lines differ the walk goes to the larger neighbour. */
  lemma {:induction false} WalkStep<T>(base: seq<T>, side: seq<T>, row: nat, column: nat)
    requires row < |base| && column < |side| && base[row] != side[column]
    ensures var next := Next(base, side, row, column);
      Traceback(base, side, row, column) == Traceback(base, side, next.0, next.1)
  {
    hide Lcs;
  }

  /** Strictly increasing pairs of equal lines at or after the cursors. */
  ghost predicate IsMatching<T>(pairs: seq<Match>, base: seq<T>, side: seq<T>, row: nat, column: nat) {
    pairs == [] ||
    (&& row <= pairs[0].row < |base| && column <= pairs[0].column < |side|
     && base[pairs[0].row] == side[pairs[0].column]
     && IsMatching(pairs[1..], base, side, pairs[0].row + 1, pairs[0].column + 1))
  }

  lemma {:induction false} MatchingFromEarlier<T>(
      pairs: seq<Match>, base: seq<T>, side: seq<T>, row: nat, column: nat, row': nat, column': nat)
    requires IsMatching(pairs, base, side, row', column')
    requires row <= row' && column <= column'
    ensures IsMatching(pairs, base, side, row, column)
  {
  }

  /** The greedy walk collects a matching with exactly as many pairs as the longest one. */
  lemma {:induction false} TracebackIsOptimal<T>(base: seq<T>, side: seq<T>, row: nat, column: nat)
    requires row <= |base| && column <= |side|
    ensures IsMatching(Traceback(base, side, row, column), base, side, row, column)
    ensures |Traceback(base, side, row, column)| == Lcs(base[row..], side[column..])
    decreases |base| - row + |side| - column
  {
    if row < |base| && column < |side| {
      assert base[row..][1..] == base[row + 1..] && side[column..][1..] == side[column + 1..];
      if base[row] == side[column] {
        TracebackIsOptimal(base, side, row + 1, column + 1);
      } else if Lcs(base[row + 1..], side[column..]) >= Lcs(base[row..], side[column + 1..]) {
        TracebackIsOptimal(base, side, row + 1, column);
        MatchingFromEarlier(Traceback(base, side, row + 1, column), base, side, row, column, row + 1, column);
      } else {
        TracebackIsOptimal(base, side, row, column + 1);
        MatchingFromEarlier(Traceback(base, side, row, column + 1), base, side, row, column, row, column + 1);
      }
    }
  }

  /** The lines a matching pairs up, in order. */
  ghost function MatchedLines<T>(pairs: seq<Match>, base: seq<T>, side: seq<T>, row: nat, column: nat): seq<T>
    requires IsMatching(pairs, base, side, row, column)
  {
    if pairs == [] then []
    else [base[pairs[0].row]] + MatchedLines(pairs[1..], base, side, pairs[0].row + 1, pairs[0].column + 1)
  }

  lemma {:induction false} SubsequenceOfSuffix<T>(s: seq<T>, a: seq<T>, i: nat, j: nat)
    requires i <= j <= |a| && IsSubsequence(s, a[j..])
    ensures IsSubsequence(s, a[i..])
    decreases j - i
  {
    if i < j {
      SubsequenceOfSuffix(s, a, i + 1, j);
      assert a[i..][1..] == a[i + 1..];
    }
  }

  /** Paired lines form a common subsequence. */
  lemma {:induction false} MatchedLinesAreCommon<T>(pairs: seq<Match>, base: seq<T>, side: seq<T>, row: nat,
      column: nat)
    requires row <= |base| && column <= |side| && IsMatching(pairs, base, side, row, column)
    ensures var s := MatchedLines(pairs, base, side, row, column);
      |s| == |pairs| && IsSubsequence(s, base[row..]) && IsSubsequence(s, side[column..])
  {
    if pairs != [] {
      var b, s := pairs[0].row, pairs[0].column;
      MatchedLinesAreCommon(pairs[1..], base, side, b + 1, s + 1);
      assert base[b..][1..] == base[b + 1..] && side[s..][1..] == side[s + 1..];
      var lines := MatchedLines(pairs, base, side, row, column);
      assert lines[1..] == MatchedLines(pairs[1..], base, side, b + 1, s + 1);
      assert IsSubsequence(lines, base[b..]) && IsSubsequence(lines, side[s..]);
      SubsequenceOfSuffix(lines, base, row, b);
      SubsequenceOfSuffix(lines, side, column, s);
    }
  }

  /** `Lcs` is attained: some common subsequence has that length. */
  lemma {:induction false} LcsWitness<T>(a: seq<T>, b: seq<T>) returns (s: seq<T>)
    ensures IsSubsequence(s, a) && IsSubsequence(s, b) && |s| == Lcs(a, b)
  {
    TracebackIsOptimal(a, b, 0, 0);
    MatchedLinesAreCommon(Traceback(a, b, 0, 0), a, b, 0, 0);
    s := MatchedLines(Traceback(a, b, 0, 0), a, b, 0, 0);
    assert a[0..] == a && b[0..] == b;
  }

  lemma {:induction false} ConcatIsSubsequence<T>(s: seq<T>, a: seq<T>, s': seq<T>, a': seq<T>)
    requires IsSubsequence(s, a) && IsSubsequence(s', a')
    ensures IsSubsequence(s + s', a + a')
    decreases |a|
  {
    if s == [] {
      assert s + s' == s' && (a + a')[|a|..] == a' && (a + a')[0..] == a + a';
      SubsequenceOfSuffix(s', a + a', 0, |a|);
    } else {
      assert (a + a')[1..] == a[1..] + a';
      if s[0] == a[0] && IsSubsequence(s[1..], a[1..]) {
        ConcatIsSubsequence(s[1..], a[1..], s', a');
        assert (s + s')[1..] == s[1..] + s';
      } else {
        ConcatIsSubsequence(s, a[1..], s', a');
      }
    }
  }

  /** Common subsequences of consecutive pieces add up. */
  lemma {:induction false} LcsSuperadditive<T>(a: seq<T>, b: seq<T>, a': seq<T>, b': seq<T>)
    ensures Lcs(a + a', b + b') >= Lcs(a, b) + Lcs(a', b')
  {
    var s := LcsWitness(a, b);
    var s' := LcsWitness(a', b');
    ConcatIsSubsequence(s, a, s', a');
    ConcatIsSubsequence(s, b, s', b');
    LcsIsLongest(s + s', a + a', b + b');
  }

  // ---------------------------------------------------------------------------------------------
  // From matches to an edit script

  /** The change for the unmatched lines between the cursors and the match `(b, s)`, if any. */
  function Gap<T>(side: seq<T>, row: nat, column: nat, b: nat, s: nat): seq<Change<T>>
    requires column <= s <= |side|
  {
    if row != b || column != s then [Change(row, b, side[column..s])] else []
  }

  /** The changes between consecutive matches, from the cursors to the pair of ends. */
  ghost function ScriptFrom<T>(pairs: seq<Match>, base: seq<T>, side: seq<T>, row: nat, column: nat): seq<Change<T>>
    requires IsMatching(pairs, base, side, row, column)
    requires column <= |side|
  {
    if pairs == [] then Gap(side, row, column, |base|, |side|)
    else
      Gap(side, row, column, pairs[0].row, pairs[0].column) +
      ScriptFrom(pairs[1..], base, side, pairs[0].row + 1, pairs[0].column + 1)
  }

  /** What `changes` computes: the edit script from `base` to `side`. */
  ghost function Script<T>(base: seq<T>, side: seq<T>): seq<Change<T>> {
    TracebackIsOptimal(base, side, 0, 0);
    ScriptFrom(Traceback(base, side, 0, 0), base, side, 0, 0)
  }

  /** Changes lie in order at or after `cursor` within `length` lines, so no slice runs backwards. */
  ghost predicate InOrder<T>(changes: seq<Change<T>>, cursor: int, length: int) {
    if changes == [] then cursor <= length
    else cursor <= changes[0].start <= changes[0].end && InOrder(changes[1..], changes[0].end, length)
  }

  /** The splice: kept base lines between the replacements. */
  ghost function ApplyFrom<T>(changes: seq<Change<T>>, base: seq<T>, cursor: int): seq<T>
    requires 0 <= cursor && InOrder(changes, cursor, |base|)
  {
    if changes == [] then base[cursor..]
    else
      InOrderBound(changes[1..], changes[0].end, |base|);
      base[cursor..changes[0].start] + (changes[0].replacement + ApplyFrom(changes[1..], base, changes[0].end))
  }

  lemma {:induction false} InOrderBound<T>(changes: seq<Change<T>>, cursor: int, length: int)
    requires InOrder(changes, cursor, length)
    ensures cursor <= length
  {
    if changes != [] {
      InOrderBound(changes[1..], changes[0].end, length);
    }
  }

  ghost function Apply<T>(changes: seq<Change<T>>, base: seq<T>): seq<T>
    requires InOrder(changes, 0, |base|)
  {
    ApplyFrom(changes, base, 0)
  }

  /** Every change does something. */
  ghost predicate Proper<T>(c: Change<T>) {
    c.start <= c.end && (c.start < c.end || c.replacement != [])
  }

  /** Proper changes with at least one kept base line between neighbours. */
  ghost predicate Separated<T>(changes: seq<Change<T>>) {
    && (forall c :: c in changes ==> Proper(c))
    && (forall i, j :: 0 <= i < j < |changes| ==> changes[i].end < changes[j].start)
  }

  /** The script turns the base from `row` on into the side from `column` on. */
  ghost predicate ExactFrom<T>(script: seq<Change<T>>, base: seq<T>, side: seq<T>, row: nat, column: nat)
    requires column <= |side|
  {
    InOrder(script, row, |base|) && ApplyFrom(script, base, row) == side[column..]
  }

  lemma {:induction false} ScriptFromExact<T>(pairs: seq<Match>, base: seq<T>, side: seq<T>, row: nat, column: nat)
    requires row <= |base| && column <= |side|
    requires IsMatching(pairs, base, side, row, column)
    ensures ExactFrom(ScriptFrom(pairs, base, side, row, column), base, side, row, column)
  {
    hide ExactFrom;
    var script := ScriptFrom(pairs, base, side, row, column);
    if pairs == [] {
      LastGap(script, base, side, row, column);
    } else {
      var b, s, rest := pairs[0].row, pairs[0].column, pairs[1..];
      var tail := ScriptFrom(rest, base, side, b + 1, s + 1);
      ScriptFromExact(rest, base, side, b + 1, s + 1);
      GapThenMatch(script, tail, base, side, row, column, b, s);
    }
  }

  lemma {:induction false} LastGap<T>(script: seq<Change<T>>, base: seq<T>, side: seq<T>, row: nat, column: nat)
    requires row <= |base| && column <= |side|
    requires script == Gap(side, row, column, |base|, |side|)
    ensures ExactFrom(script, base, side, row, column)
  {
    if row != |base| || column != |side| {
      assert script[1..] == [];
    }
  }

  /** One gap followed by one matched line, in front of an exact script for the rest. */
  lemma {:induction false} GapThenMatch<T>(
      script: seq<Change<T>>, rest: seq<Change<T>>, base: seq<T>, side: seq<T>, row: nat, column: nat, b: nat, s: nat)
    requires row <= b < |base| && column <= s < |side| && base[b] == side[s]
    requires ExactFrom(rest, base, side, b + 1, s + 1)
    requires script == Gap(side, row, column, b, s) + rest
    ensures ExactFrom(script, base, side, row, column)
  {
    KeepPrefix(rest, base, b, b + 1);
    assert ApplyFrom(rest, base, b) == side[s..] by {
      assert base[b..b + 1] == [side[s]];
      assert side[s..] == [side[s]] + side[s + 1..];
    }
    SliceSplit(side, column, s);
    if row != b || column != s {
      assert script[0] == Change(row, b, side[column..s]) && script[1..] == rest;
      assert base[row..row] == [];
    } else {
      assert script == rest;
    }
  }

  lemma {:induction false} ScriptFromSeparated<T>(pairs: seq<Match>, base: seq<T>, side: seq<T>, row: nat, column: nat)
    requires row <= |base| && column <= |side|
    requires IsMatching(pairs, base, side, row, column)
    ensures SeparatedFrom(ScriptFrom(pairs, base, side, row, column), row)
  {
    if pairs == [] {
      SeparatedCons(Gap(side, row, column, |base|, |side|), Gap(side, row, column, |base|, |side|), [], row, |base|);
    } else {
      var b, s, rest := pairs[0].row, pairs[0].column, pairs[1..];
      ScriptFromSeparated(rest, base, side, b + 1, s + 1);
      var script, tail := ScriptFrom(pairs, base, side, row, column), ScriptFrom(rest, base, side, b + 1, s + 1);
      SeparatedCons(script, Gap(side, row, column, b, s), tail, row, b);
    }
  }

  ghost predicate SeparatedFrom<T>(changes: seq<Change<T>>, row: int) {
    Separated(changes) && forall c :: c in changes ==> row <= c.start
  }

  lemma {:induction false} SeparatedCons<T>(
      script: seq<Change<T>>, gap: seq<Change<T>>, rest: seq<Change<T>>, row: nat, b: nat)
    requires row <= b && |gap| <= 1 && script == gap + rest
    requires gap != [] ==> gap[0].start == row && gap[0].end == b && Proper(gap[0])
    requires SeparatedFrom(rest, b + 1)
    ensures SeparatedFrom(script, row)
  {
  }

  /** Starting the splice earlier only keeps more base lines in front. */
  lemma {:induction false} KeepPrefix<T>(changes: seq<Change<T>>, base: seq<T>, cursor: int, cursor': int)
    requires 0 <= cursor <= cursor' && InOrder(changes, cursor', |base|)
    ensures InOrder(changes, cursor, |base|)
    ensures cursor' <= |base|
    ensures ApplyFrom(changes, base, cursor) == base[cursor..cursor'] + ApplyFrom(changes, base, cursor')
  {
    InOrderBound(changes, cursor', |base|);
    if changes == [] {
      SliceSplit(base, cursor, cursor');
    } else {
      InOrderBound(changes[1..], changes[0].end, |base|);
      SliceJoin(base, cursor, cursor', changes[0].start);
      var tail := changes[0].replacement + ApplyFrom(changes[1..], base, changes[0].end);
      assert ApplyFrom(changes, base, cursor) == base[cursor..changes[0].start] + tail;
      assert ApplyFrom(changes, base, cursor') == base[cursor'..changes[0].start] + tail;
    }
  }

  /** The splice of a script whose first change is known. */
  lemma {:induction false} ApplyCons<T>(script: seq<Change<T>>, c: Change<T>, tail: seq<Change<T>>, base: seq<T>,
      cursor: int)
    requires script == [c] + tail
    requires 0 <= cursor <= c.start <= c.end <= |base| && InOrder(tail, c.end, |base|)
    ensures InOrder(script, cursor, |base|)
    ensures ApplyFrom(script, base, cursor) == base[cursor..c.start] + (c.replacement + ApplyFrom(tail, base, c.end))
  {
    assert script[0] == c && script[1..] == tail;
  }

  lemma {:induction false} SliceSplit<T>(s: seq<T>, i: int, j: int)
    requires 0 <= i <= j <= |s|
    ensures s[i..j] + s[j..] == s[i..]
  {
  }

  lemma {:induction false} SliceJoin<T>(s: seq<T>, i: int, j: int, k: int)
    requires 0 <= i <= j <= k <= |s|
    ensures s[i..j] + s[j..k] == s[i..k]
  {
  }

  /** Edit scripts are exact: applying the script of a side to the base yields that side. */
  lemma {:induction false} ScriptExact<T>(base: seq<T>, side: seq<T>)
    ensures InOrder(Script(base, side), 0, |base|)
    ensures Apply(Script(base, side), base) == side
    ensures Separated(Script(base, side))
  {
    TracebackIsOptimal(base, side, 0, 0);
    ScriptFromExact(Traceback(base, side, 0, 0), base, side, 0, 0);
    ScriptFromSeparated(Traceback(base, side, 0, 0), base, side, 0, 0);
    assert side[0..] == side;
  }

  /** The replacement shares no line with the base lines it replaces. */
  ghost predicate Minimal<T>(c: Change<T>, base: seq<T>)
    requires 0 <= c.start <= c.end <= |base|
  {
    forall line :: line in c.replacement ==> line !in base[c.start..c.end]
  }

  lemma {:induction false} SharedLineIsCommon<T>(line: T, a: seq<T>)
    requires line in a
    ensures IsSubsequence([line], a)
    decreases |a|
  {
    if a[0] == line {
      assert [line][1..] == [];
    } else {
      SharedLineIsCommon(line, a[1..]);
    }
  }

  /** Between two neighbouring pairs of a longest matching nothing more can be matched. */
  lemma {:induction false} GapIsMinimal<T>(base: seq<T>, side: seq<T>, row: nat, column: nat, b: nat, s: nat)
    requires row <= b <= |base| && column <= s <= |side|
    requires Lcs(base[row..], side[column..]) <= Lcs(base[b..], side[s..])
    ensures forall c :: c in Gap(side, row, column, b, s) ==> Minimal(c, base)
  {
    var a, r := base[row..b], side[column..s];
    LcsOfSuffix(base, side, row, column, b, s);
    forall line | line in a && line in r
      ensures false
    {
      SharedLineIsCommon(line, a);
      SharedLineIsCommon(line, r);
      LcsIsLongest([line], a, r);
    }
  }

  /** Taking the first pair of a longest matching off leaves a longest matching. */
  lemma {:induction false} RestIsOptimal<T>(pairs: seq<Match>, base: seq<T>, side: seq<T>, row: nat, column: nat)
    requires row <= |base| && column <= |side|
    requires pairs != [] && IsMatching(pairs, base, side, row, column)
    requires |pairs| == Lcs(base[row..], side[column..])
    ensures var b, s := pairs[0].row, pairs[0].column;
      && |pairs| - 1 == Lcs(base[b + 1..], side[s + 1..])
      && |pairs| == Lcs(base[b..], side[s..])
  {
    hide Lcs, IsSubsequence;
    var b, s := pairs[0].row, pairs[0].column;
    MatchedLinesAreCommon(pairs[1..], base, side, b + 1, s + 1);
    LcsIsLongest(MatchedLines(pairs[1..], base, side, b + 1, s + 1), base[b + 1..], side[s + 1..]);
    LcsOfSuffix(base, side, row, column, b, s);
    LcsOfMatch(base, side, b, s);
  }

  lemma {:induction false} LcsOfMatch<T>(base: seq<T>, side: seq<T>, b: nat, s: nat)
    requires b < |base| && s < |side| && base[b] == side[s]
    ensures Lcs(base[b..], side[s..]) == 1 + Lcs(base[b + 1..], side[s + 1..])
  {
    assert base[b..][1..] == base[b + 1..];
    assert side[s..][1..] == side[s + 1..];
  }

  lemma {:induction false} LcsOfSuffix<T>(base: seq<T>, side: seq<T>, row: nat, column: nat, b: nat, s: nat)
    requires row <= b <= |base| && column <= s <= |side|
    ensures Lcs(base[row..], side[column..]) >= Lcs(base[row..b], side[column..s]) + Lcs(base[b..], side[s..])
  {
    LcsSuperadditive(base[row..b], side[column..s], base[b..], side[s..]);
    assert base[row..b] + base[b..] == base[row..];
    assert side[column..s] + side[s..] == side[column..];
  }

  lemma {:induction false} ScriptFromMinimal<T>(pairs: seq<Match>, base: seq<T>, side: seq<T>, row: nat, column: nat)
    requires row <= |base| && column <= |side|
    requires IsMatching(pairs, base, side, row, column)
    requires |pairs| == Lcs(base[row..], side[column..])
    ensures forall c :: c in ScriptFrom(pairs, base, side, row, column) ==>
      0 <= c.start <= c.end <= |base| && Minimal(c, base)
  {
    hide Lcs, Minimal;
    if pairs == [] {
      GapIsMinimal(base, side, row, column, |base|, |side|);
    } else {
      var b, s := pairs[0].row, pairs[0].column;
      RestIsOptimal(pairs, base, side, row, column);
      GapIsMinimal(base, side, row, column, b, s);
      ScriptFromMinimal(pairs[1..], base, side, b + 1, s + 1);
    }
  }

  /** No change deletes a line that it also inserts: the script keeps as much as can be kept. */
  lemma {:induction false} ScriptMinimal<T>(base: seq<T>, side: seq<T>)
    ensures forall c :: c in Script(base, side) ==> 0 <= c.start <= c.end <= |base| && Minimal(c, base)
  {
    TracebackIsOptimal(base, side, 0, 0);
    ScriptFromMinimal(Traceback(base, side, 0, 0), base, side, 0, 0);
  }

  /** A script is empty exactly when there is nothing to change. */
  lemma {:induction false} ScriptEmptyIffEqual<T>(base: seq<T>, side: seq<T>)
    ensures Script(base, side) == [] <==> base == side
  {
    ScriptExact(base, side);
    TracebackIsOptimal(base, side, 0, 0);
    if Script(base, side) == [] {
      assert base[0..] == base;
    }
    if base == side {
      DiagonalScript(base, 0);
    }
  }

  lemma {:induction false} DiagonalScript<T>(base: seq<T>, row: nat)
    requires row <= |base|
    ensures IsMatching(Traceback(base, base, row, row), base, base, row, row)
    ensures ScriptFrom(Traceback(base, base, row, row), base, base, row, row) == []
    decreases |base| - row
  {
    TracebackIsOptimal(base, base, row, row);
    if row < |base| {
      DiagonalScript(base, row + 1);
      assert Traceback(base, base, row, row)[1..] == Traceback(base, base, row + 1, row + 1);
    }
  }

  // ---------------------------------------------------------------------------------------------
  // The code

  /** Position of a cell in the flat table. */
  function At(row: nat, column: nat, columns: nat): nat {
    row * columns + column
  }

  lemma {:induction false} AtSeparate(row: nat, column: nat, row': nat, column': nat, columns: nat)
    requires column < columns && column' < columns
    requires row != row' || column != column'
    ensures At(row, column, columns) != At(row', column', columns)
  {
    if row < row' {
      assert row' * columns >= (row + 1) * columns;
    } else if row' < row {
      assert row * columns >= (row' + 1) * columns;
    }
  }

  lemma {:induction false} AtInRange(row: nat, column: nat, rows: nat, columns: nat)
    requires row < rows && column < columns
    ensures At(row, column, columns) < rows * columns
  {
    assert (row + 1) * columns <= rows * columns;
  }

  /** The cell holds the Lcs of the two suffixes it stands for. */
  ghost predicate CellExact<T>(lengths: seq<u32>, base: seq<T>, side: seq<T>, row: nat, column: nat)
    requires row <= |base| && column <= |side|
  {
    var i := At(row, column, |side| + 1);
    i < |lengths| && lengths[i] as int == Lcs(base[row..], side[column..])
  }

  /** The cells below `row`, in the last column, or in `row` from `column` on are exact. */
  ghost predicate Filled<T>(lengths: seq<u32>, base: seq<T>, side: seq<T>, row: int, column: int) {
    && |lengths| == (|base| + 1) * (|side| + 1)
    && forall r: nat, c: nat | r <= |base| && c <= |side| && (r > row || c == |side| || (r == row && c >= column)) ::
         CellExact(lengths, base, side, r, c)
  }

  lemma {:induction false} FilledInitially<T>(lengths: seq<u32>, base: seq<T>, side: seq<T>)
    requires |lengths| == (|base| + 1) * (|side| + 1)
    requires forall i :: 0 <= i < |lengths| ==> lengths[i] == 0
    ensures forall r: nat, c: nat | r <= |base| && c <= |side| && (r == |base| || c == |side|) ::
      CellExact(lengths, base, side, r, c)
    ensures Filled(lengths, base, side, |base|, 0)
  {
    forall r: nat, c: nat | r <= |base| && c <= |side| && (r == |base| || c == |side|)
      ensures CellExact(lengths, base, side, r, c)
    {
      AtInRange(r, c, |base| + 1, |side| + 1);
    }
  }

  /** Writing one exact cell leaves every other cell exact. */
  lemma {:induction false} FilledStep<T>(lengths: seq<u32>, base: seq<T>, side: seq<T>, row: nat, column: nat,
      cell: u32)
    requires row < |base| && column < |side|
    requires Filled(lengths, base, side, row, column + 1)
    requires cell as int == Lcs(base[row..], side[column..])
    ensures At(row, column, |side| + 1) < |lengths|
    ensures Filled(lengths[At(row, column, |side| + 1) := cell], base, side, row, column)
  {
    AtInRange(row, column, |base| + 1, |side| + 1);
    var after := lengths[At(row, column, |side| + 1) := cell];
    forall r: nat, c: nat | r <= |base| && c <= |side| && (r > row || c == |side| || (r == row && c >= column))
      ensures CellExact(after, base, side, r, c)
    {
      if r != row || c != column {
        assert CellExact(lengths, base, side, r, c);
        AtSeparate(r, c, row, column, |side| + 1);
      }
    }
  }

  /** The value the loop writes: one more than the diagonal, or the larger neighbour. */
  lemma {:induction false} CellValue<T>(lengths: seq<u32>, base: seq<T>, side: seq<T>, row: nat, column: nat)
    requires row < |base| && column < |side|
    requires Filled(lengths, base, side, row, column + 1)
    ensures CellExact(lengths, base, side, row + 1, column)
    ensures CellExact(lengths, base, side, row, column + 1)
    ensures CellExact(lengths, base, side, row + 1, column + 1)
    ensures Lcs(base[row..], side[column..]) ==
      if base[row] == side[column] then 1 + Lcs(base[row + 1..], side[column + 1..])
      else if Lcs(base[row + 1..], side[column..]) >= Lcs(base[row..], side[column + 1..])
      then Lcs(base[row + 1..], side[column..]) else Lcs(base[row..], side[column + 1..])
  {
    assert base[row..][1..] == base[row + 1..] && side[column..][1..] == side[column + 1..];
  }

  /**
   * `changes`: the table, the greedy walk and the script. It refuses only for the cell budget; the
   * line bound of the caller keeps every 32-bit cell exact.
   */
  method Changes<T(==)>(base: seq<T>, side: seq<T>, maxCells: u64) returns (r: Option<seq<Change<T>>>)
    requires |base| <= 0xFFFF_FFFF
    ensures r == if (|base| + 1) * (|side| + 1) > maxCells as int then None else Some(Script(base, side))
  {
    var rows, columns := |base| + 1, |side| + 1;
    if rows * columns > maxCells as int {
      return None;
    }
    var lengths := new u32[rows * columns](_ => 0);
    FilledInitially(lengths[..], base, side);
    FillTable(lengths, base, side);
    var matches := Walk(lengths, base, side);
    TracebackIsOptimal(base, side, 0, 0);
    var changes := BuildScript(matches, base, side);
    r := Some(changes);
  }

  method FillTable<T(==)>(lengths: array<u32>, base: seq<T>, side: seq<T>)
    requires |base| <= 0xFFFF_FFFF
    requires Filled(lengths[..], base, side, |base|, 0)
    modifies lengths
    ensures Filled(lengths[..], base, side, 0, 0)
  {
    var columns := |side| + 1;
    var row := |base|;
    while row > 0
      invariant 0 <= row <= |base|
      invariant Filled(lengths[..], base, side, row, 0)
    {
      row := row - 1;
      var column := |side|;
      while column > 0
        invariant 0 <= column <= |side|
        invariant Filled(lengths[..], base, side, row, column)
      {
        column := column - 1;
        CellValue(lengths[..], base, side, row, column);
        var down, right := lengths[At(row + 1, column, columns)], lengths[At(row, column + 1, columns)];
        var cell := if base[row] == side[column] then lengths[At(row + 1, column + 1, columns)] + 1
                    else if down >= right then down else right;
        FilledStep(lengths[..], base, side, row, column, cell);
        ghost var after := lengths[..][At(row, column, columns) := cell];
        lengths[At(row, column, columns)] := cell;
        assert lengths[..] == after;
      }
    }
  }

  /** The greedy walk over the finished table. */
  method Walk<T(==)>(lengths: array<u32>, base: seq<T>, side: seq<T>) returns (matches: seq<Match>)
    requires Filled(lengths[..], base, side, 0, 0)
    ensures matches == Traceback(base, side, 0, 0)
  {
    hide Filled, Traceback, Lcs;
    var columns := |side| + 1;
    matches := [];
    var row, column := 0, 0;
    ghost var rest := Traceback(base, side, 0, 0);
    ghost var whole := rest;
    while row < |base| && column < |side|
      invariant 0 <= row <= |base| && 0 <= column <= |side|
      invariant rest == Traceback(base, side, row, column) && matches + rest == whole
      decreases |base| - row + |side| - column
    {
      FilledNeighbours(lengths[..], base, side, row, column);
      if base[row] == side[column] {
        rest := PairFirst(base, side, row, column);
        MovePair(matches, Match(row, column), rest);
        matches := matches + [Match(row, column)];
        row, column := row + 1, column + 1;
      } else {
        WalkStep(base, side, row, column);
        if lengths[At(row + 1, column, columns)] >= lengths[At(row, column + 1, columns)] {
          row := row + 1;
        } else {
          column := column + 1;
        }
      }
    }
    WalkEnds(base, side, row, column);
  }

  /** The two cells the walk compares. */
  lemma {:induction false} FilledNeighbours<T>(lengths: seq<u32>, base: seq<T>, side: seq<T>, row: nat, column: nat)
    requires Filled(lengths, base, side, 0, 0) && row < |base| && column < |side|
    ensures var down, right := At(row + 1, column, |side| + 1), At(row, column + 1, |side| + 1);
      && down < |lengths| && right < |lengths|
      && lengths[down] as int == Lcs(base[row + 1..], side[column..])
      && lengths[right] as int == Lcs(base[row..], side[column + 1..])
  {
    assert CellExact(lengths, base, side, row + 1, column) && CellExact(lengths, base, side, row, column + 1);
  }

  lemma {:induction false} PairFirst<T>(base: seq<T>, side: seq<T>, row: nat, column: nat) returns (rest: seq<Match>)
    requires row < |base| && column < |side| && base[row] == side[column]
    ensures rest == Traceback(base, side, row + 1, column + 1)
    ensures Traceback(base, side, row, column) == [Match(row, column)] + rest
  {
    rest := Traceback(base, side, row + 1, column + 1);
  }

  lemma {:induction false} WalkEnds<T>(base: seq<T>, side: seq<T>, row: nat, column: nat)
    requires row <= |base| && column <= |side| && (row == |base| || column == |side|)
    ensures Traceback(base, side, row, column) == []
  {
  }

  lemma {:induction false} MovePair(built: seq<Match>, first: Match, rest: seq<Match>)
    ensures built + ([first] + rest) == built + [first] + rest
  {
  }

  function Min(a: nat, b: nat): nat {
    if a <= b then a else b
  }

  /** What is still to be built from the cursors on, before the last pair or after it. */
  ghost predicate Pending<T>(pending: seq<Change<T>>, rest: seq<Match>, base: seq<T>, side: seq<T>, row: nat,
      column: nat)
    requires column <= |side|
  {
    IsMatching(rest, base, side, row, column) && pending == ScriptFrom(rest, base, side, row, column)
  }

  /** The gap in front of the next pair comes first, then what is pending behind that pair. */
  lemma {:induction false} NextPair<T>(
      pending: seq<Change<T>>, rest: seq<Match>, base: seq<T>, side: seq<T>, row: nat, column: nat)
    returns (tail: seq<Change<T>>)
    requires row <= |base| && column <= |side| && rest != [] && Pending(pending, rest, base, side, row, column)
    ensures var b, s := rest[0].row, rest[0].column;
      && row <= b < |base| && column <= s < |side|
      && pending == Gap(side, row, column, b, s) + tail && Pending(tail, rest[1..], base, side, b + 1, s + 1)
  {
    tail := ScriptFrom(rest[1..], base, side, rest[0].row + 1, rest[0].column + 1);
  }

  /** One change per gap, over the matches and the closing pair of ends. */
  method BuildScript<T(==)>(matches: seq<Match>, base: seq<T>, side: seq<T>) returns (changes: seq<Change<T>>)
    requires IsMatching(matches, base, side, 0, 0)
    ensures changes == ScriptFrom(matches, base, side, 0, 0)
  {
    hide Pending, ScriptFrom, IsMatching;
    changes := [];
    var row, column := 0, 0;
    var all := matches + [Match(|base|, |side|)];
    ghost var rest := matches;
    ghost var whole := ScriptFrom(matches, base, side, 0, 0);
    ghost var pending := whole;
    PendingFirst(matches, base, side);
    for k := 0 to |all|
      invariant 0 <= row <= |base| && 0 <= column <= |side|
      invariant changes + pending == whole
      invariant if k == |all| then pending == []
        else rest == matches[k..] && Pending(pending, rest, base, side, row, column)
    {
      var b, s := all[k].row, all[k].column;
      ghost var tail: seq<Change<T>> := [];
      if rest == [] {
        PendingLast(pending, base, side, row, column);
      } else {
        assert all[k] == matches[k] == rest[0];
        tail := NextPair(pending, rest, base, side, row, column);
      }
      MoveGap(changes, pending, Gap(side, row, column, b, s), tail);
      if row != b || column != s {
        changes := changes + [Change(row, b, side[column..s])];
      }
      row, column := Min(b + 1, |base|), Min(s + 1, |side|);
      rest, pending := if rest != [] then rest[1..] else [], tail;
    }
  }

  lemma {:induction false} PendingFirst<T>(matches: seq<Match>, base: seq<T>, side: seq<T>)
    requires IsMatching(matches, base, side, 0, 0)
    ensures matches == matches[0..] && Pending(ScriptFrom(matches, base, side, 0, 0), matches, base, side, 0, 0)
  {
  }

  lemma {:induction false} PendingLast<T>(pending: seq<Change<T>>, base: seq<T>, side: seq<T>, row: nat, column: nat)
    requires column <= |side| && Pending(pending, [], base, side, row, column)
    ensures pending == Gap(side, row, column, |base|, |side|) + []
  {
  }

  lemma {:induction false} MoveGap<T>(
      built: seq<Change<T>>, pending: seq<Change<T>>, gap: seq<Change<T>>, tail: seq<Change<T>>)
    requires pending == gap + tail && |gap| <= 1
    ensures (if gap == [] then built else built + [gap[0]]) + tail == built + pending
  {
  }
}
