/**
 * The facet law: classifying an observed image against a transition, and the bounded linewise merge.
 *
 * `LinewiseOutcome` and `FacetOutcome` say which outcome every input has; `MergeLinewise` and
 * `MergeFacet` are the code that computes them.
 */
module Facet {
  import opened Bytes
  import opened Wrappers
  import opened Lines
  import opened LineDiff
  import opened LineMerge

  /** Whole-file presence, bytes and permission bits. */
  datatype Image = Image(bytes: Option<seq<byte>>, mode: Option<u32>)

  datatype Region = ExactPath | LineRange(start: u32, end: u32)

  datatype MergePolicy = Exact | Linewise(maxLines: u32, maxCells: u64)

  datatype Spec = Spec(id: nat, region: Region, merge: MergePolicy)

  /** An image checked for one facet; base, observed and intended images are such pairs. */
  datatype RoleImage = RoleImage(facet: nat, image: Image)

  datatype Transition = Retained | AtBase | AtIntended | Foreign

  datatype Reason = BothChanged | Presence | Mode | NonText | WorkBound | Overlap

  datatype Outcome =
    | AlreadyTrue
    | Unchanged(retained: Image)
    | Applied(postimage: Image)
    | Merged(postimage: Image)
    | Conflicting(reason: Reason)

  datatype Error = InvalidImage | InvalidMode | OutOfRegion | WrongFacet

  function Validate(image: Image): Result<(), Error> {
    if image.bytes.Some? != image.mode.Some? then Err(InvalidImage)
    else if image.mode.Some? && image.mode.value > 0x1FF then Err(InvalidMode)
    else Ok(())
  }

  predicate Valid(image: Image) {
    Validate(image).Ok?
  }

  function ClassifyTransition(base: Image, intended: Image, observed: Image): Result<Transition, Error> {
    if !Valid(base) then Err(Validate(base).error)
    else if !Valid(intended) then Err(Validate(intended).error)
    else if !Valid(observed) then Err(Validate(observed).error)
    else if base == intended then Ok(Retained)
    else if observed == intended then Ok(AtIntended)
    else if observed == base then Ok(AtBase)
    else Ok(Foreign)
  }

  // ---------------------------------------------------------------------------------------------
  // The region check

  /** `verify_intended_region` on text lines: base lines outside the range reappear around the rest. */
  predicate KeepsOutside(base: seq<Line>, intended: seq<Line>, start: nat, end: nat) {
    && end <= |base| && start <= end
    && |intended| >= start + (|base| - end)
    && intended[..start] == base[..start]
    && intended[|intended| - (|base| - end)..] == base[end..]
  }

  function VerifyIntendedRegion(region: Region, base: Image, intended: Image): Result<(), Error> {
    if region.ExactPath? then Ok(())
    else if base.bytes.None? || intended.bytes.None? || base.mode != intended.mode then Err(OutOfRegion)
    else if !Utf8(base.bytes.value) || !Utf8(intended.bytes.value) then Err(OutOfRegion)
    else if KeepsOutside(
      SplitLines(base.bytes.value), SplitLines(intended.bytes.value), region.start as nat, region.end as nat)
    then Ok(()) else Err(OutOfRegion)
  }

  /** The check passes exactly when the intended lines are the base with the range replaced. */
  lemma {:induction false} KeepsOutsideIffReplaced(base: seq<Line>, intended: seq<Line>, start: nat, end: nat)
    requires start <= end <= |base|
    ensures KeepsOutside(base, intended, start, end)
      <==> exists middle: seq<Line> :: intended == base[..start] + middle + base[end..]
  {
    if KeepsOutside(base, intended, start, end) {
      var middle := intended[start..|intended| - (|base| - end)];
      assert intended == base[..start] + middle + base[end..];
    }
    if middle: seq<Line> :| intended == base[..start] + middle + base[end..] {
      assert intended[..start] == base[..start];
      assert intended[|intended| - (|base| - end)..] == base[end..];
    }
  }

  // ---------------------------------------------------------------------------------------------
  // The linewise merge

  function MergeMode(base: u32, observed: u32, intended: u32): Option<u32> {
    if observed == intended then Some(observed)
    else if observed == base then Some(intended)
    else if intended == base then Some(observed)
    else None
  }

  /** The change table for the two sequences fits the cell budget. */
  predicate FitsCells<T>(base: seq<T>, side: seq<T>, maxCells: u64) {
    (|base| + 1) * (|side| + 1) <= maxCells as int
  }

  ghost function LinewiseOutcome(base: Image, observed: Image, intended: Image, maxLines: u32, maxCells: u64): Outcome
    requires Valid(base) && Valid(observed) && Valid(intended)
  {
    if base.bytes.None? || observed.bytes.None? || intended.bytes.None? then Conflicting(Presence)
    else
      var mode := MergeMode(base.mode.value, observed.mode.value, intended.mode.value);
      if mode.None? then Conflicting(Mode)
      else if !Utf8(base.bytes.value) || !Utf8(observed.bytes.value) || !Utf8(intended.bytes.value) then
        Conflicting(NonText)
      else LinesOutcome(SplitLines(base.bytes.value), SplitLines(observed.bytes.value),
                        SplitLines(intended.bytes.value), mode.value, maxLines, maxCells)
  }

  ghost function LinesOutcome(
      base: seq<Line>, observed: seq<Line>, intended: seq<Line>, mode: u32, maxLines: u32, maxCells: u64): Outcome
  {
    if |base| > maxLines as int || |observed| > maxLines as int || |intended| > maxLines as int then
      Conflicting(WorkBound)
    else if !FitsCells(base, observed, maxCells) || !FitsCells(base, intended, maxCells) then
      Conflicting(WorkBound)
    else if Conflict(Script(base, observed), Script(base, intended)) then Conflicting(Overlap)
    else Merged(Image(Some(Concat(MergedLines(base, observed, intended))), Some(mode)))
  }

  /** The spliced lines of a merge without conflict. */
  ghost function MergedLines(base: seq<Line>, observed: seq<Line>, intended: seq<Line>): seq<Line>
    requires !Conflict(Script(base, observed), Script(base, intended))
  {
    ScriptsCombine(base, observed, intended);
    Apply(Interleave(Script(base, observed), Script(base, intended)), base)
  }

  lemma {:induction false} ScriptsCombine(base: seq<Line>, observed: seq<Line>, intended: seq<Line>)
    ensures var o, i := Script(base, observed), Script(base, intended);
      && Chain(o) && Chain(i) && InOrder(o, 0, |base|) && InOrder(i, 0, |base|)
      && (!Conflict(o, i) ==> InOrder(Interleave(o, i), 0, |base|))
  {
    ScriptExact(base, observed);
    ScriptExact(base, intended);
    SeparatedIsChain(Script(base, observed));
    SeparatedIsChain(Script(base, intended));
    if !Conflict(Script(base, observed), Script(base, intended)) {
      Diamond(Script(base, observed), Script(base, intended), base);
    }
  }

  /** The splice loop of `merge_linewise`. */
  method Splice(changes: seq<Change<Line>>, base: seq<Line>) returns (merged: seq<Line>)
    requires InOrder(changes, 0, |base|)
    ensures merged == Apply(changes, base)
  {
    merged := [];
    var cursor := 0;
    ghost var rest := changes;
    for k := 0 to |changes|
      invariant rest == changes[k..]
      invariant 0 <= cursor && InOrder(rest, cursor, |base|)
      invariant merged + ApplyFrom(rest, base, cursor) == Apply(changes, base)
    {
      var change := changes[k];
      InOrderBound(rest[1..], change.end, |base|);
      ghost var tail := ApplyFrom(rest[1..], base, change.end);
      assert rest[0] == change;
      assert merged + base[cursor..change.start] + change.replacement + tail
          == merged + (base[cursor..change.start] + (change.replacement + tail));
      merged := merged + base[cursor..change.start];
      merged := merged + change.replacement;
      cursor := change.end;
      rest := rest[1..];
    }
    InOrderBound(rest, cursor, |base|);
    merged := merged + base[cursor..];
  }

  method MergeLinewise(base: Image, observed: Image, intended: Image, maxLines: u32, maxCells: u64)
    returns (r: Outcome)
    requires Valid(base) && Valid(observed) && Valid(intended)
    ensures r == LinewiseOutcome(base, observed, intended, maxLines, maxCells)
  {
    hide Script, Conflict, Interleave, SplitLines, Utf8, Chain, InOrder;
    if base.bytes.None? || observed.bytes.None? || intended.bytes.None? {
      return Conflicting(Presence);
    }
    var mode := MergeMode(base.mode.value, observed.mode.value, intended.mode.value);
    if mode.None? {
      return Conflicting(Mode);
    }
    if !Utf8(base.bytes.value) || !Utf8(observed.bytes.value) || !Utf8(intended.bytes.value) {
      return Conflicting(NonText);
    }
    var baseLines, observedLines := SplitLines(base.bytes.value), SplitLines(observed.bytes.value);
    var intendedLines := SplitLines(intended.bytes.value);
    if |baseLines| > maxLines as int || |observedLines| > maxLines as int || |intendedLines| > maxLines as int {
      return Conflicting(WorkBound);
    }
    var observedChanges := Changes(baseLines, observedLines, maxCells);
    if observedChanges.None? {
      return Conflicting(WorkBound);
    }
    var intendedChanges := Changes(baseLines, intendedLines, maxCells);
    if intendedChanges.None? {
      return Conflicting(WorkBound);
    }
    ScriptsCombine(baseLines, observedLines, intendedLines);
    var changes := CombineChanges(observedChanges.value, intendedChanges.value);
    if changes.None? {
      return Conflicting(Overlap);
    }
    var merged := Splice(changes.value, baseLines);
    r := Merged(Image(Some(Concat(merged)), mode));
  }

  // ---------------------------------------------------------------------------------------------
  // The facet law

  ghost function FacetOutcome(spec: Spec, base: RoleImage, observed: RoleImage, intended: RoleImage)
    : Result<Outcome, Error>
  {
    if base.facet != spec.id || observed.facet != spec.id || intended.facet != spec.id then Err(WrongFacet)
    else
      var region := VerifyIntendedRegion(spec.region, base.image, intended.image);
      if region.Err? then Err(region.error)
      else
        match ClassifyTransition(base.image, intended.image, observed.image)
        case Err(error) => Err(error)
        case Ok(AtIntended) => Ok(AlreadyTrue)
        case Ok(Retained) => Ok(Unchanged(observed.image))
        case Ok(AtBase) => Ok(Applied(intended.image))
        case Ok(Foreign) =>
          match spec.merge
          case Exact => Ok(Conflicting(BothChanged))
          case Linewise(maxLines, maxCells) =>
            Ok(LinewiseOutcome(base.image, observed.image, intended.image, maxLines, maxCells))
  }

  method MergeFacet(spec: Spec, base: RoleImage, observed: RoleImage, intended: RoleImage)
    returns (r: Result<Outcome, Error>)
    ensures r == FacetOutcome(spec, base, observed, intended)
  {
    if base.facet != spec.id || observed.facet != spec.id || intended.facet != spec.id {
      return Err(WrongFacet);
    }
    var region := VerifyIntendedRegion(spec.region, base.image, intended.image);
    if region.Err? {
      return Err(region.error);
    }
    match ClassifyTransition(base.image, intended.image, observed.image)
    case Err(error) => return Err(error);
    case Ok(AtIntended) => return Ok(AlreadyTrue);
    case Ok(Retained) => return Ok(Unchanged(observed.image));
    case Ok(AtBase) => return Ok(Applied(intended.image));
    case Ok(Foreign) =>
      match spec.merge
      case Exact => return Ok(Conflicting(BothChanged));
      case Linewise(maxLines, maxCells) =>
        var outcome := MergeLinewise(base.image, observed.image, intended.image, maxLines, maxCells);
        return Ok(outcome);
  }
}
