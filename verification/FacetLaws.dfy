/** What the facet law promises: symmetry, well-formed text, no lost edits, agreement of the shortcuts. */
module FacetLaws {
  import opened Bytes
  import opened Wrappers
  import opened Lines
  import opened LineDiff
  import opened LineMerge
  import opened LineRegion
  import opened Facet

  // ---------------------------------------------------------------------------------------------
  // Symmetry

  lemma {:induction false} MergedLinesSymmetric(base: seq<Line>, observed: seq<Line>, intended: seq<Line>)
    ensures Conflict(Script(base, observed), Script(base, intended))
      <==> Conflict(Script(base, intended), Script(base, observed))
    ensures !Conflict(Script(base, observed), Script(base, intended)) ==>
      MergedLines(base, observed, intended) == MergedLines(base, intended, observed)
  {
    var o, i := Script(base, observed), Script(base, intended);
    ScriptsCombine(base, observed, intended);
    ScriptsCombine(base, intended, observed);
    ConflictSymmetric(o, i);
    if !Conflict(o, i) {
      InterleaveSymmetric(o, i);
    }
  }

  /** Swapping the observed and the intended image changes neither the outcome nor a conflict's reason. */
  lemma {:induction false} LinewiseSymmetric(base: Image, observed: Image, intended: Image, maxLines: u32,
      maxCells: u64)
    requires Valid(base) && Valid(observed) && Valid(intended)
    ensures LinewiseOutcome(base, observed, intended, maxLines, maxCells)
         == LinewiseOutcome(base, intended, observed, maxLines, maxCells)
  {
    if base.bytes.Some? && observed.bytes.Some? && intended.bytes.Some? {
      MergedLinesSymmetric(
        SplitLines(base.bytes.value), SplitLines(observed.bytes.value), SplitLines(intended.bytes.value));
    }
  }

  // ---------------------------------------------------------------------------------------------
  // Well-formed text

  /**
   * A change whose replacement ends without a newline reaches the end of the base, and a change that
   * inserts at the end of the base follows a terminated line.
   */
  ghost predicate EndSafe(c: Change<Line>, base: seq<Line>) {
    && (forall k :: 0 <= k < |c.replacement| ==> Terminated(c.replacement[k]) || Unterminated(c.replacement[k]))
    && (forall k :: 0 <= k < |c.replacement| && !Terminated(c.replacement[k]) ==>
          k == |c.replacement| - 1 && c.end == |base|)
    && (c.start == |base| > 0 ==> Terminated(base[|base| - 1]))
  }

  lemma {:induction false} GapIsEndSafe(base: seq<Line>, side: seq<Line>, row: nat, column: nat, b: nat, s: nat)
    requires WellFormed(base) && WellFormed(side)
    requires row <= b <= |base| && column <= s <= |side|
    requires s == |side| ==> b == |base|
    requires row == 0 || (column > 0 && base[row - 1] == side[column - 1])
    ensures forall c :: c in Gap(side, row, column, b, s) ==> EndSafe(c, base)
  {
    var replacement := side[column..s];
    assert forall k :: 0 <= k < |replacement| ==> replacement[k] == side[column + k];
    if row == |base| > 0 && column < |side| {
      assert Terminated(side[column - 1]);
    }
  }

  lemma {:induction false} ScriptFromEndSafe(pairs: seq<Match>, base: seq<Line>, side: seq<Line>, row: nat, column: nat)
    requires WellFormed(base) && WellFormed(side)
    requires row <= |base| && column <= |side| && IsMatching(pairs, base, side, row, column)
    requires row == 0 || (column > 0 && base[row - 1] == side[column - 1])
    ensures forall c :: c in ScriptFrom(pairs, base, side, row, column) ==> EndSafe(c, base)
  {
    if pairs == [] {
      GapIsEndSafe(base, side, row, column, |base|, |side|);
    } else {
      GapIsEndSafe(base, side, row, column, pairs[0].row, pairs[0].column);
      ScriptFromEndSafe(pairs[1..], base, side, pairs[0].row + 1, pairs[0].column + 1);
    }
  }

  lemma {:induction false} ScriptEndSafe(base: seq<Line>, side: seq<Line>)
    requires WellFormed(base) && WellFormed(side)
    ensures forall c :: c in Script(base, side) ==> EndSafe(c, base)
  {
    TracebackIsOptimal(base, side, 0, 0);
    ScriptFromEndSafe(Traceback(base, side, 0, 0), base, side, 0, 0);
  }

  ghost predicate AllTerminated(lines: seq<Line>) {
    forall i :: 0 <= i < |lines| ==> Terminated(lines[i])
  }

  lemma {:induction false} WellFormedConcat(a: seq<Line>, b: seq<Line>)
    requires WellFormed(a) && WellFormed(b)
    requires b == [] || AllTerminated(a)
    ensures WellFormed(a + b)
  {
  }

  lemma {:induction false} SpliceWellFormed(changes: seq<Change<Line>>, base: seq<Line>, cursor: int)
    requires WellFormed(base) && Chain(changes)
    requires 0 <= cursor && InOrder(changes, cursor, |base|)
    requires forall c :: c in changes ==> EndSafe(c, base)
    ensures WellFormed(ApplyFrom(changes, base, cursor))
  {
    InOrderBound(changes, cursor, |base|);
    if changes != [] {
      var c, rest := changes[0], changes[1..];
      InOrderBound(rest, c.end, |base|);
      SpliceWellFormed(rest, base, c.end);
      var tail := ApplyFrom(rest, base, c.end);
      assert c in changes;
      assert EndSafe(c, base) && Proper(c);
      if rest != [] {
        InOrderBound(rest[1..], rest[0].end, |base|);
        assert Before(changes[0], changes[1]) && Proper(rest[0]);
        assert c.end < |base|;
      }
      assert c.end == |base| ==> tail == [];
      WellFormedConcat(c.replacement, tail);
      assert c.start < |base| || c.replacement != [];
      WellFormedConcat(base[cursor..c.start], c.replacement + tail);
    }
  }

  /** Merged lines are what re-splitting the merged bytes gives, so no line end is invented or lost. */
  lemma {:induction false} MergedResplits(base: seq<byte>, observed: seq<byte>, intended: seq<byte>)
    requires !Conflict(Script(SplitLines(base), SplitLines(observed)), Script(SplitLines(base), SplitLines(intended)))
    ensures var merged := MergedLines(SplitLines(base), SplitLines(observed), SplitLines(intended));
      WellFormed(merged) && SplitLines(Concat(merged)) == merged
  {
    var b, o, i := SplitLines(base), SplitLines(observed), SplitLines(intended);
    SplitLinesWellFormed(base);
    SplitLinesWellFormed(observed);
    SplitLinesWellFormed(intended);
    ScriptsCombine(b, o, i);
    ScriptEndSafe(b, o);
    ScriptEndSafe(b, i);
    var combined := Interleave(Script(b, o), Script(b, i));
    InterleaveIsChain(Script(b, o), Script(b, i));
    forall c | c in combined
      ensures EndSafe(c, b)
    {
      InterleaveMembers(Script(b, o), Script(b, i), c);
    }
    SpliceWellFormed(combined, b, 0);
    ConcatResplits(MergedLines(b, o, i));
  }

  lemma {:induction false} SpliceLines(changes: seq<Change<Line>>, base: seq<Line>, cursor: int, line: Line)
    requires 0 <= cursor && InOrder(changes, cursor, |base|)
    requires line in ApplyFrom(changes, base, cursor)
    ensures line in base || exists c :: c in changes && line in c.replacement
  {
    InOrderBound(changes, cursor, |base|);
    if changes != [] {
      var c, rest := changes[0], changes[1..];
      InOrderBound(rest, c.end, |base|);
      if line in c.replacement {
        assert c in changes;
      } else if line in ApplyFrom(rest, base, c.end) {
        SpliceLines(rest, base, c.end, line);
      }
    }
  }

  lemma {:induction false} ScriptLines(pairs: seq<Match>, base: seq<Line>, side: seq<Line>, row: nat, column: nat)
    requires column <= |side| && IsMatching(pairs, base, side, row, column)
    ensures forall c, line :: c in ScriptFrom(pairs, base, side, row, column) && line in c.replacement ==> line in side
  {
    if pairs != [] {
      ScriptLines(pairs[1..], base, side, pairs[0].row + 1, pairs[0].column + 1);
    }
  }

  /** Every merged line is a line of one of the three images; in particular merged text is valid UTF-8. */
  lemma {:induction false} MergedLinesKnown(base: seq<Line>, observed: seq<Line>, intended: seq<Line>, line: Line)
    requires !Conflict(Script(base, observed), Script(base, intended))
    requires line in MergedLines(base, observed, intended)
    ensures line in base || line in observed || line in intended
  {
    var o, i := Script(base, observed), Script(base, intended);
    ScriptsCombine(base, observed, intended);
    SpliceLines(Interleave(o, i), base, 0, line);
    if line !in base {
      var c :| c in Interleave(o, i) && line in c.replacement;
      InterleaveMembers(o, i, c);
      TracebackIsOptimal(base, observed, 0, 0);
      TracebackIsOptimal(base, intended, 0, 0);
      ScriptLines(Traceback(base, observed, 0, 0), base, observed, 0, 0);
      ScriptLines(Traceback(base, intended, 0, 0), base, intended, 0, 0);
    }
  }

  lemma {:induction false} MergedIsText(base: seq<byte>, observed: seq<byte>, intended: seq<byte>)
    requires Utf8(base) && Utf8(observed) && Utf8(intended)
    requires !Conflict(Script(SplitLines(base), SplitLines(observed)), Script(SplitLines(base), SplitLines(intended)))
    ensures Utf8(Concat(MergedLines(SplitLines(base), SplitLines(observed), SplitLines(intended))))
  {
    var b, o, i := SplitLines(base), SplitLines(observed), SplitLines(intended);
    SplitLinesUtf8(base);
    SplitLinesUtf8(observed);
    SplitLinesUtf8(intended);
    forall line | line in MergedLines(b, o, i)
      ensures Utf8(line)
    {
      MergedLinesKnown(b, o, i, line);
    }
    ConcatUtf8(MergedLines(b, o, i));
  }

  // ---------------------------------------------------------------------------------------------
  // No lost edits, and agreement with the shortcuts

  /** A merged image is the observed image with the intended changes redone on it, and the other way round. */
  lemma {:induction false} MergeIsRebase(base: seq<Line>, observed: seq<Line>, intended: seq<Line>)
    requires !Conflict(Script(base, observed), Script(base, intended))
    ensures var o, i := Script(base, observed), Script(base, intended);
      && InOrder(Rebase(i, o), 0, |observed|) && InOrder(Rebase(o, i), 0, |intended|)
      && MergedLines(base, observed, intended) == Apply(Rebase(i, o), observed)
      && MergedLines(base, observed, intended) == Apply(Rebase(o, i), intended)
  {
    var o, i := Script(base, observed), Script(base, intended);
    ScriptsCombine(base, observed, intended);
    ScriptExact(base, observed);
    ScriptExact(base, intended);
    Diamond(o, i, base);
  }

  /** A merge in which only one side changed anything gives that side. */
  lemma {:induction false} OneSidedMerge(base: seq<Line>, side: seq<Line>)
    ensures !Conflict(Script(base, base), Script(base, side))
    ensures MergedLines(base, base, side) == side
  {
    ScriptEmptyIffEqual(base, base);
    ScriptExact(base, side);
    ScriptsCombine(base, base, side);
    assert Interleave(Script(base, base), Script(base, side)) == Script(base, side);
  }

  /** A merge in which both sides made the same changes gives them once. */
  lemma {:induction false} AgreeingMerge(base: seq<Line>, side: seq<Line>)
    ensures !Conflict(Script(base, side), Script(base, side))
    ensures MergedLines(base, side, side) == side
  {
    var s := Script(base, side);
    ScriptExact(base, side);
    SeparatedIsChain(s);
    forall l, r | l in s && r in s && l != r
      ensures !Overlaps(l, r)
    {
      MemberApart(s, r);
    }
    InterleaveIsChain(s, s);
    forall c
      ensures c in Interleave(s, s) <==> c in s
    {
      InterleaveMembers(s, s, c);
    }
    ChainUnique(Interleave(s, s), s);
  }

  /** The three text images pass the presence, text and size checks of the linewise merge. */
  ghost predicate WithinBounds(base: Image, observed: Image, intended: Image, maxLines: u32, maxCells: u64) {
    && base.bytes.Some? && observed.bytes.Some? && intended.bytes.Some?
    && Utf8(base.bytes.value) && Utf8(observed.bytes.value) && Utf8(intended.bytes.value)
    && var b, o, i := SplitLines(base.bytes.value), SplitLines(observed.bytes.value), SplitLines(intended.bytes.value);
    && |b| <= maxLines as int && |o| <= maxLines as int && |i| <= maxLines as int
    && FitsCells(b, o, maxCells) && FitsCells(b, i, maxCells)
  }

  /** The shortcuts of the facet law answer what the full merge would answer. */
  lemma {:induction false} ShortcutsAgree(base: Image, side: Image, maxLines: u32, maxCells: u64)
    requires Valid(base) && Valid(side)
    ensures WithinBounds(base, base, side, maxLines, maxCells) ==>
      LinewiseOutcome(base, base, side, maxLines, maxCells) == Merged(side)
    ensures WithinBounds(base, side, side, maxLines, maxCells) ==>
      LinewiseOutcome(base, side, side, maxLines, maxCells) == Merged(side)
    ensures WithinBounds(base, side, base, maxLines, maxCells) ==>
      LinewiseOutcome(base, side, base, maxLines, maxCells) == Merged(side)
  {
    if base.bytes.Some? && side.bytes.Some? {
      var b, s := SplitLines(base.bytes.value), SplitLines(side.bytes.value);
      SplitLinesExact(side.bytes.value);
      OneSidedMerge(b, s);
      AgreeingMerge(b, s);
      LinewiseSymmetric(base, side, base, maxLines, maxCells);
    }
  }

  /**
   * A merge succeeds exactly when the images are text within the bounds, at most one side moved the
   * mode, and no two different changes overlap; the postimage is then valid text with that mode.
   */
  lemma {:induction false} MergedIff(base: Image, observed: Image, intended: Image, maxLines: u32, maxCells: u64)
    requires Valid(base) && Valid(observed) && Valid(intended)
    ensures var r := LinewiseOutcome(base, observed, intended, maxLines, maxCells);
      && (r.Merged? <==>
            (&& WithinBounds(base, observed, intended, maxLines, maxCells)
             && (observed.mode == intended.mode || observed.mode == base.mode || intended.mode == base.mode)
             && !Conflict(Script(SplitLines(base.bytes.value), SplitLines(observed.bytes.value)),
                          Script(SplitLines(base.bytes.value), SplitLines(intended.bytes.value)))))
      && (r.Merged? ==>
            (&& Valid(r.postimage) && r.postimage.bytes.Some? && Utf8(r.postimage.bytes.value)
             && r.postimage.mode in {observed.mode, intended.mode}
             && (observed.mode != base.mode ==> r.postimage.mode == observed.mode)
             && (intended.mode != base.mode ==> r.postimage.mode == intended.mode)))
  {
    var r := LinewiseOutcome(base, observed, intended, maxLines, maxCells);
    if r.Merged? {
      MergedIsText(base.bytes.value, observed.bytes.value, intended.bytes.value);
    }
  }

  /** Nothing is merged for the first reason that applies, in this order. */
  lemma {:induction false} ReasonIff(base: Image, observed: Image, intended: Image, maxLines: u32, maxCells: u64)
    requires Valid(base) && Valid(observed) && Valid(intended)
    ensures var r := LinewiseOutcome(base, observed, intended, maxLines, maxCells);
      var present := base.bytes.Some? && observed.bytes.Some? && intended.bytes.Some?;
      var agreed := observed.mode == intended.mode || observed.mode == base.mode || intended.mode == base.mode;
      && (r == Conflicting(Presence) <==> !present)
      && (r == Conflicting(Mode) <==> present && !agreed)
      && (present && agreed ==>
            var text := Utf8(base.bytes.value) && Utf8(observed.bytes.value) && Utf8(intended.bytes.value);
            var bounded := WithinBounds(base, observed, intended, maxLines, maxCells);
            && (r == Conflicting(NonText) <==> !text)
            && (r == Conflicting(WorkBound) <==> text && !bounded)
            && (r == Conflicting(Overlap) <==> bounded && !r.Merged?))
      && (r.Conflicting? ==> r.reason != BothChanged) && (r.Merged? || r.Conflicting?)
  {
  }

  // ---------------------------------------------------------------------------------------------
  // The facet law

  /** The image that is left standing: what was observed, or the postimage; none after a conflict. */
  ghost function Standing(outcome: Outcome, observed: Image): Option<Image> {
    match outcome
    case AlreadyTrue => Some(observed)
    case Unchanged(retained) => Some(retained)
    case Applied(postimage) => Some(postimage)
    case Merged(postimage) => Some(postimage)
    case Conflicting(_) => None
  }

  /** What it takes for an image: bytes and permission bits together, and no bits beyond `rwxrwxrwx`. */
  lemma {:induction false} ValidIff(image: Image)
    ensures Valid(image) <==>
      (image == Image(None, None) || (image.bytes.Some? && image.mode.Some? && image.mode.value < 8 * 8 * 8))
    ensures Validate(image) == Err(InvalidImage) <==> image.bytes.Some? != image.mode.Some?
  {
  }

  /** The lines are the base lines with `base[start..end]` replaced by something. */
  ghost predicate RangeReplaced(base: seq<Line>, lines: seq<Line>, start: nat, end: nat) {
    start <= end <= |base| && exists middle: seq<Line> :: lines == base[..start] + middle + base[end..]
  }

  /** The intended image is text of the same mode: the base lines with the lines of the range replaced. */
  ghost predicate Replaces(base: Image, intended: Image, start: nat, end: nat) {
    && base.bytes.Some? && intended.bytes.Some? && base.mode == intended.mode
    && Utf8(base.bytes.value) && Utf8(intended.bytes.value)
    && RangeReplaced(SplitLines(base.bytes.value), SplitLines(intended.bytes.value), start, end)
  }

  /** The change stays in the region. */
  ghost predicate InRegion(region: Region, base: Image, intended: Image) {
    region.LineRange? ==> Replaces(base, intended, region.start as nat, region.end as nat)
  }

  lemma {:induction false} KeepsIffReplaced(base: seq<Line>, lines: seq<Line>, start: nat, end: nat)
    ensures KeepsOutside(base, lines, start, end) <==> RangeReplaced(base, lines, start, end)
  {
    if start <= end <= |base| {
      KeepsOutsideIffReplaced(base, lines, start, end);
    }
  }

  /** The region check passes exactly the changes that stay in the region, and refuses the others as out of it. */
  lemma {:induction false} RegionCheckIff(region: Region, base: Image, intended: Image)
    ensures VerifyIntendedRegion(region, base, intended)
      == if InRegion(region, base, intended) then Ok(()) else Err(OutOfRegion)
  {
    hide SplitLines, Utf8, KeepsOutside, RangeReplaced;
    if region.LineRange? && base.bytes.Some? && intended.bytes.Some? {
      var lines, others := SplitLines(base.bytes.value), SplitLines(intended.bytes.value);
      KeepsIffReplaced(lines, others, region.start as nat, region.end as nat);
    }
  }

  /** Three valid images of the facet whose intended change stays in the region. */
  ghost predicate Admissible(spec: Spec, base: RoleImage, observed: RoleImage, intended: RoleImage) {
    && base.facet == spec.id && observed.facet == spec.id && intended.facet == spec.id
    && InRegion(spec.region, base.image, intended.image)
    && Valid(base.image) && Valid(observed.image) && Valid(intended.image)
  }

  /** Exactly the admissible images are answered, and what else is given is refused for its first fault. */
  lemma {:induction false} FacetAnswersIff(spec: Spec, base: RoleImage, observed: RoleImage, intended: RoleImage)
    ensures var r := FacetOutcome(spec, base, observed, intended);
      && (r.Ok? <==> Admissible(spec, base, observed, intended))
      && (r == Err(WrongFacet) <==> !(base.facet == observed.facet == intended.facet == spec.id))
      && (r == Err(OutOfRegion) <==>
            base.facet == observed.facet == intended.facet == spec.id
            && !InRegion(spec.region, base.image, intended.image))
      && (r.Ok? && Standing(r.value, observed.image).Some? ==> Valid(Standing(r.value, observed.image).value))
  {
    var r := FacetOutcome(spec, base, observed, intended);
    RegionCheckIff(spec.region, base.image, intended.image);
    if r.Ok? && spec.merge.Linewise? {
      MergedIff(base.image, observed.image, intended.image, spec.merge.maxLines, spec.merge.maxCells);
    }
  }

  /** Under a line range whatever is answered keeps the base's lines around the range in the intended image. */
  lemma {:induction false} AnsweredKeepsOutside(
      spec: Spec, base: RoleImage, observed: RoleImage, intended: RoleImage, start: nat, end: nat)
    requires spec.region.LineRange? && start == spec.region.start as nat && end == spec.region.end as nat
    requires FacetOutcome(spec, base, observed, intended).Ok?
    ensures Replaces(base.image, intended.image, start, end)
  {
    FacetAnswersIff(spec, base, observed, intended);
  }

  /** Which of the shortcuts answers: the first that fits, in this order. */
  lemma {:induction false} FacetTransitions(spec: Spec, base: RoleImage, observed: RoleImage, intended: RoleImage)
    requires Admissible(spec, base, observed, intended)
    ensures var r := FacetOutcome(spec, base, observed, intended).value;
      && (r.Unchanged? <==> intended.image == base.image)
      && (r.AlreadyTrue? <==> intended.image != base.image && observed.image == intended.image)
      && (r.Applied? <==>
            intended.image != base.image && observed.image != intended.image && observed.image == base.image)
      && (r.Unchanged? ==> r.retained == observed.image) && (r.Applied? ==> r.postimage == intended.image)
      && (observed.image !in {base.image, intended.image} && intended.image != base.image ==>
            match spec.merge
            case Exact => r == Conflicting(BothChanged)
            case Linewise(maxLines, maxCells) =>
              r == LinewiseOutcome(base.image, observed.image, intended.image, maxLines, maxCells))
  {
    RegionCheckIff(spec.region, base.image, intended.image);
  }

  /** The shortcuts leave the image standing that the linewise merge of all three images leaves. */
  lemma {:induction false} FacetIsLinewise(spec: Spec, base: RoleImage, observed: RoleImage, intended: RoleImage)
    requires Admissible(spec, base, observed, intended) && spec.merge.Linewise?
    requires WithinBounds(base.image, observed.image, intended.image, spec.merge.maxLines, spec.merge.maxCells)
    ensures var r := FacetOutcome(spec, base, observed, intended);
      var merge := LinewiseOutcome(
        base.image, observed.image, intended.image, spec.merge.maxLines, spec.merge.maxCells);
      && r.Ok? && Standing(r.value, observed.image) == Standing(merge, observed.image)
      && (r.value.Conflicting? ==> r.value == merge)
  {
    hide LinewiseOutcome, WithinBounds, VerifyIntendedRegion, InRegion;
    RegionCheckIff(spec.region, base.image, intended.image);
    ShortcutsAgree(base.image, observed.image, spec.merge.maxLines, spec.merge.maxCells);
    ShortcutsAgree(base.image, intended.image, spec.merge.maxLines, spec.merge.maxCells);
  }

  /** Under the exact policy an image is left standing exactly when at most one side changed anything. */
  lemma {:induction false} FacetExact(spec: Spec, base: RoleImage, observed: RoleImage, intended: RoleImage)
    requires Admissible(spec, base, observed, intended) && spec.merge.Exact?
    ensures var standing := Standing(FacetOutcome(spec, base, observed, intended).value, observed.image);
      && (standing.Some? <==> observed.image == intended.image || base.image in {observed.image, intended.image})
      && (base.image == intended.image ==> standing == Some(observed.image))
      && (base.image == observed.image ==> standing == Some(intended.image))
  {
    FacetAnswersIff(spec, base, observed, intended);
  }

  /**
   * It does not matter which side was observed and which intended: the same image is left standing, or the same
   * reason is given, whatever the policy and its bounds.
   */
  lemma {:induction false} FacetExchange(spec: Spec, base: RoleImage, observed: RoleImage, intended: RoleImage)
    requires Admissible(spec, base, observed, intended) && Admissible(spec, base, intended, observed)
    ensures var r, s := FacetOutcome(spec, base, observed, intended), FacetOutcome(spec, base, intended, observed);
      && r.Ok? && s.Ok?
      && Standing(r.value, observed.image) == Standing(s.value, intended.image)
      && (r.value.Conflicting? || s.value.Conflicting? ==> r == s)
  {
    hide VerifyIntendedRegion, InRegion;
    RegionCheckIff(spec.region, base.image, intended.image);
    RegionCheckIff(spec.region, base.image, observed.image);
    if spec.merge.Linewise? {
      LinewiseSymmetric(base.image, observed.image, intended.image, spec.merge.maxLines, spec.merge.maxCells);
    }
  }

  // ---------------------------------------------------------------------------------------------
  // Whether the intended changes stay in the region

  /**
   * Changes of an intended image that passes the region check never start in front of the region, and they end in
   * it exactly when the region reaches the end of the base or the first line behind it does not stray into what
   * the region's last kept line leaves over.
   */
  lemma {:induction false} ChangesKeepRegionIff(base: seq<Line>, intended: seq<Line>, start: nat, end: nat)
    requires KeepsOutside(base, intended, start, end)
    ensures forall c :: c in Script(base, intended) ==> start <= c.start
    ensures (forall c :: c in Script(base, intended) ==> c.end <= end)
      <==> end == |base| || !Strays(base, base[start..end], intended[start..|intended| - (|base| - end)], end)
  {
    RegionKeptIff(base, intended, start, end, |intended| - (|base| - end));
  }

  /**
   * The changes of an intended image that passes the region check may lie outside the region: dropping
   * the first of two equal lines is seen as dropping the second.
   */
  lemma {:induction false} ChangesLeaveRegion(x: Line)
    ensures KeepsOutside([x, x], [x], 0, 1)
    ensures Script([x, x], [x]) == [Change(1, 2, [])]
    ensures Strays([x, x], [x], [], 1)
  {
    var base, side := [x, x], [x];
    assert base[1..] == side[0..] == [x];
    var pairs := Traceback(base, side, 0, 0);
    assert Traceback(base, side, 1, 1) == [];
    assert pairs == [Match(0, 0)];
    TracebackIsOptimal(base, side, 0, 0);
    assert pairs[1..] == [];
    assert side[1..1] == [];
    assert ScriptFrom(pairs[1..], base, side, 1, 1) == [Change(1, 2, [])];
    assert Script(base, side) == Gap(side, 0, 0, 0, 0) + [Change(1, 2, [])];
  }
}
