/**
 * A lazily forced list: views at offsets into one shared buffer whose consumed prefix is reclaimed.
 *
 * The driver yields elements or failures. A failure is handed to whoever asked and is not kept; an
 * iterator goes on after it, a cursor over another list has then lost its place.
 */
module LazyList {
  import opened Wrappers

  const USIZE_MAX: nat := 0xFFFF_FFFF_FFFF_FFFF

  datatype Comparison = Less | Equal | Greater

  function Compare(a: nat, b: nat): Comparison {
    if a < b then Less else if a == b then Equal else Greater
  }

  /** The elements that a driver still delivers; `None` is a failure. */
  ghost function Delivered<T>(pending: seq<Option<T>>, resumes: bool): seq<T> {
    if pending == [] then []
    else if pending[0].Some? then [pending[0].value] + Delivered(pending[1..], resumes)
    else if resumes then Delivered(pending[1..], resumes)
    else []
  }

  ghost predicate Infallible<T>(pending: seq<Option<T>>) {
    forall i :: 0 <= i < |pending| ==> pending[i].Some?
  }

  ghost function Values<T>(pending: seq<Option<T>>): seq<T>
    requires Infallible(pending)
  {
    seq(|pending|, i requires 0 <= i < |pending| => pending[i].value)
  }

  /** What comes before a failure is delivered; what comes after it only if the driver keeps its place. */
  lemma {:induction false} DeliveredAround<T>(front: seq<Option<T>>, back: seq<Option<T>>, resumes: bool)
    requires Infallible(front)
    ensures Delivered(front + [None] + back, resumes) == Values(front) + if resumes then Delivered(back, true) else []
  {
    var whole := front + [None] + back;
    if front == [] {
      assert whole[1..] == back;
    } else {
      assert whole[1..] == front[1..] + [None] + back;
      DeliveredAround(front[1..], back, resumes);
      assert Values(front) == [front[0].value] + Values(front[1..]);
    }
  }

  /** A driver without failures delivers all it has. */
  lemma {:induction false} DeliveredAll<T>(pending: seq<Option<T>>, resumes: bool)
    requires Infallible(pending)
    ensures Delivered(pending, resumes) == Values(pending)
  {
    if pending != [] {
      DeliveredAll(pending[1..], resumes);
      assert Values(pending) == [pending[0].value] + Values(pending[1..]);
    }
  }

  lemma {:induction false} Pushed<T>(elements: seq<T>, base: nat, buffer: seq<T>, v: T, rest: seq<T>)
    requires base + |buffer| <= |elements| && buffer == elements[base..base + |buffer|]
    requires elements[base + |buffer|..] == [v] + rest
    ensures base + |buffer| + 1 <= |elements|
    ensures buffer + [v] == elements[base..base + |buffer| + 1] && rest == elements[base + |buffer| + 1..]
  {
    var filled := base + |buffer|;
    assert elements[filled..][0] == v && elements[filled..][1..] == rest;
  }

  lemma {:induction false} Exchanged(others: multiset<nat>, tail: nat)
    ensures others + multiset{tail} + multiset{tail + 1} - multiset{tail} == others + multiset{tail + 1}
  {
  }

  lemma {:induction false} AddedAndDropped(views: multiset<nat>, tail: nat)
    ensures views + multiset{tail} - multiset{tail} == views
  {
  }

  class IterState<T(!new)> {
    /** What the driver has not been asked for yet. */
    var pending: seq<Option<T>>
    const resumes: bool
    /** Forced elements that are still held, the first at absolute offset `base`. */
    var buffer: seq<T>
    var base: nat
    /** How many live views there are at each offset. */
    var live: map<nat, nat>
    var done: bool
    /** Everything the list delivers, from the start, and the offsets of the live views. */
    ghost var elements: seq<T>
    ghost var views: multiset<nat>

    ghost predicate Valid()
      reads this
    {
      Buffered() && Counted() && Spaced() && Anchored()
    }

    /** The buffer and what is pending together are the elements from `base` on. */
    ghost predicate Buffered()
      reads this
    {
      && |elements| <= USIZE_MAX && base + |buffer| <= |elements|
      && buffer == elements[base..base + |buffer|]
      && Delivered(pending, resumes) == elements[base + |buffer|..]
      && (done ==> pending == [])
    }

    /** The census counts the views. */
    ghost predicate Counted()
      reads this
    {
      && (forall s :: s in live <==> s in views)
      && (forall s :: s in live ==> live[s] == views[s])
    }

    ghost predicate Spaced()
      reads this
    {
      forall s :: s in views ==> base <= s <= base + |buffer|
    }

    /** The buffer starts at the first view; without views it is empty. */
    ghost predicate Anchored()
      reads this
    {
      if views == multiset{} then buffer == [] else base in views
    }

    /** `LazyIterList::new`: one view at offset zero. */
    constructor (source: seq<Option<T>>, resumes: bool)
      requires |Delivered(source, resumes)| <= USIZE_MAX
      ensures Valid() && elements == Delivered(source, resumes) && views == multiset{0}
      ensures Infallible(source) ==> elements == Values(source)
      ensures pending == source && this.resumes == resumes && buffer == []
    {
      this.pending, this.resumes, this.buffer, this.base, this.done := source, resumes, [], 0, false;
      this.live := map[0 := 1];
      this.elements, this.views := Delivered(source, resumes), multiset{0};
      if Infallible(source) {
        DeliveredAll(source, resumes);
      }
    }

    /** `prepend`: a first element in front of a cursor over another list, and one view. */
    constructor Prepend(first: T, tail: seq<Option<T>>)
      requires |Delivered(tail, false)| < USIZE_MAX
      ensures Valid() && elements == [first] + Delivered(tail, false) && views == multiset{0}
      ensures Infallible(tail) ==> elements == [first] + Values(tail)
      ensures pending == tail && !resumes && buffer == [first]
    {
      this.pending, this.resumes, this.buffer, this.base, this.done := tail, false, [first], 0, false;
      this.live := map[0 := 1];
      this.elements, this.views := [first] + Delivered(tail, false), multiset{0};
      if Infallible(tail) {
        DeliveredAll(tail, false);
      }
    }

    function Filled(): nat
      reads this
    {
      base + |buffer|
    }

    /** Forcing changes only the end of the buffer and what is pending. */
    twostate predicate OnlyForced()
      reads this
    {
      && Valid() && elements == old(elements) && views == old(views) && base == old(base) && live == old(live)
      && old(buffer) <= buffer && |pending| <= |old(pending)| && (Infallible(old(pending)) ==> Infallible(pending))
    }

    /** One call of the driver: an element, the end, or a failure. */
    method Pull() returns (r: Result<bool, ()>)
      requires Valid() && views != multiset{} && !done
      modifies `pending, `buffer, `done
      ensures OnlyForced()
      ensures r.Ok? && r.value ==> Filled() == old(Filled()) + 1 && |pending| == |old(pending)| - 1
      ensures r.Ok? && !r.value ==> done && pending == old(pending) == [] && Filled() == old(Filled())
      ensures r.Err? ==> !Infallible(old(pending)) && |pending| < |old(pending)| && Filled() == old(Filled())
    {
      if pending == [] {
        done := true;
        return Ok(false);
      }
      if pending[0].None? {
        pending := if resumes then pending[1..] else [];
        return Err(());
      }
      Push(pending[0].value, pending[1..]);
      return Ok(true);
    }

    method Push(v: T, others: seq<Option<T>>)
      requires Valid() && views != multiset{} && !done && pending == [Some(v)] + others
      modifies `pending, `buffer
      ensures OnlyForced() && Filled() == old(Filled()) + 1 && pending == others
    {
      Pushed(elements, base, buffer, v, Delivered(others, resumes));
      assert pending[1..] == others;
      pending := others;
      buffer := buffer + [v];
    }

    /** `fill_to`: each element is taken from the driver once, and none beyond what is needed. */
    method FillTo(need: nat) returns (r: Result<nat, ()>)
      requires Valid() && views != multiset{}
      modifies `pending, `buffer, `done
      ensures OnlyForced()
      ensures Filled() <= old(Filled()) || Filled() <= need
      ensures r.Ok? ==> r.value == Filled() && (Filled() >= need || Filled() == |elements|)
      ensures r.Err? ==> Filled() < need && |pending| < |old(pending)|
      ensures Infallible(old(pending)) ==> r.Ok? && |old(pending)| - |pending| == Filled() - old(Filled())
    {
      while Filled() < need && !done
        invariant OnlyForced()
        invariant Filled() <= old(Filled()) || Filled() <= need
        invariant Infallible(old(pending)) ==> |old(pending)| - |pending| == Filled() - old(Filled())
        decreases |pending|, !done
      {
        var pulled := Pull();
        if pulled.Err? {
          return Err(());
        }
      }
      return Ok(Filled());
    }

    /** `register` */
    method Register(start: nat)
      requires Valid() && views != multiset{} && base <= start <= Filled()
      modifies this`live, this`views
      ensures Valid() && views == old(views) + multiset{start}
    {
      live := live[start := (if start in live then live[start] else 0) + 1];
      views := views + multiset{start};
    }

    /** `unregister`: the view goes, and so does the buffer in front of the first view left. */
    method Unregister(start: nat)
      requires Valid() && start in views
      modifies this`live, this`views, this`base, this`buffer
      ensures Valid() && views == old(views) - multiset{start}
      ensures Filled() == old(Filled())
    {
      Forget(start);
      Reclaim();
    }

    method Forget(start: nat)
      requires Counted() && Spaced() && start in views
      modifies this`live, this`views
      ensures Counted() && Spaced() && views == old(views) - multiset{start}
    {
      views := views - multiset{start};
      if live[start] == 1 {
        live := live - {start};
      } else {
        live := live[start := live[start] - 1];
      }
    }

    method Reclaim()
      requires Buffered() && Counted() && Spaced()
      modifies this`base, this`buffer
      ensures Valid() && Filled() == old(Filled())
    {
      var floor := Floor();
      var dropped := if floor - base < |buffer| then floor - base else |buffer|;
      if dropped > 0 {
        buffer := buffer[dropped..];
        base := base + dropped;
      }
    }

    /** The smallest offset of a live view, or everything forced. */
    method Floor() returns (floor: nat)
      requires forall s :: s in live ==> base <= s <= Filled()
      ensures base <= floor <= Filled()
      ensures if live == map[] then floor == Filled() else floor in live && forall s :: s in live ==> floor <= s
    {
      floor := Filled();
      var keys := live.Keys;
      ghost var seen: set<nat> := {};
      while keys != {}
        invariant keys + seen == live.Keys && base <= floor <= Filled()
        invariant if seen == {} then floor == Filled() else floor in seen || floor == Filled()
        invariant forall s :: s in seen ==> floor <= s
        decreases |keys|
      {
        var s :| s in keys;
        floor := if s < floor then s else floor;
        keys, seen := keys - {s}, seen + {s};
      }
    }

    // -------------------------------------------------------------------------------------------
    // Views

    method IsEmpty(start: nat) returns (r: Result<bool, ()>)
      requires Valid() && start in views
      modifies `pending, `buffer, `done
      ensures OnlyForced() && (Infallible(old(pending)) ==> r.Ok?)
      ensures r.Ok? ==> (r.value <==> start >= |elements|) && (!r.value ==> start < Filled())
      ensures Filled() <= old(Filled()) || Filled() <= start + 1
    {
      var have := FillTo(start + 1);
      return if have.Ok? then Ok(have.value <= start) else Err(());
    }

    /** `car`: the element at the view's offset. */
    method Car(start: nat) returns (r: Result<Option<T>, ()>)
      requires Valid() && start in views
      modifies `pending, `buffer, `done
      ensures OnlyForced() && (Infallible(old(pending)) ==> r.Ok?)
      ensures r.Ok? ==> r.value == if start < |elements| then Some(elements[start]) else None
      ensures Filled() <= old(Filled()) || Filled() <= start + 1
    {
      var have := FillTo(start + 1);
      if have.Err? {
        return Err(());
      }
      if have.value <= start {
        return Ok(None);
      }
      return Ok(Some(buffer[start - base]));
    }

    /** `cdr`: a further view one past this one. */
    method Cdr(start: nat) returns (r: Result<Option<nat>, ()>)
      requires Valid() && start in views
      modifies this
      ensures Valid() && elements == old(elements) && (Infallible(old(pending)) ==> r.Ok? && Infallible(pending))
      ensures r.Ok? ==> r.value == if start < |elements| then Some(start + 1) else None
      ensures Filled() <= old(Filled()) || Filled() <= start + 1
      ensures views == if r.Ok? && r.value.Some? then old(views) + multiset{start + 1} else old(views)
    {
      var empty := IsEmpty(start);
      if empty.Err? {
        return Err(());
      }
      if empty.value {
        return Ok(None);
      }
      Register(start + 1);
      return Ok(Some(start + 1));
    }

    /** `clone` */
    method Clone(start: nat)
      requires Valid() && start in views
      modifies this
      ensures Valid() && elements == old(elements) && pending == old(pending) && buffer == old(buffer)
      ensures views == old(views) + multiset{start}
    {
      Register(start);
    }

    /** `drop` */
    method Drop(start: nat)
      requires Valid() && start in views
      modifies this
      ensures Valid() && elements == old(elements) && pending == old(pending)
      ensures views == old(views) - multiset{start} && Filled() == old(Filled())
    {
      Unregister(start);
    }

    /** `len_cmp`: exact, and forcing no more than one element past what it compares with. */
    method LenCmp(start: nat, n: nat) returns (r: Result<Comparison, ()>)
      requires Valid() && start in views && n <= USIZE_MAX
      modifies `pending, `buffer, `done
      ensures OnlyForced() && (Infallible(old(pending)) ==> r.Ok?)
      ensures r.Ok? ==>
        && (r.value == Less <==> |elements| - start < n)
        && (r.value == Equal <==> |elements| - start == n)
        && (r.value == Greater <==> |elements| - start > n)
      ensures Filled() <= old(Filled()) || Filled() <= start + n + 1
    {
      var need := if start + n + 1 <= USIZE_MAX then start + n + 1 else USIZE_MAX;
      var have := FillTo(need);
      if have.Err? {
        return Err(());
      }
      var remaining := have.value - start;
      return Ok(if remaining > n then Greater else Compare(remaining, n));
    }

    /** The turn of the loop in `get`: the element under the tail view and a view past it. */
    method Turn(tail: nat, ghost others: multiset<nat>) returns (r: Result<Option<(T, nat)>, ()>)
      requires Valid() && views == others + multiset{tail}
      modifies this
      ensures Valid() && elements == old(elements) && (Infallible(old(pending)) ==> r.Ok? && Infallible(pending))
      ensures r.Ok? ==> r.value == if tail < |elements| then Some((elements[tail], tail + 1)) else None
      ensures Filled() <= old(Filled()) || Filled() <= tail + 1
      ensures views == if r.Ok? && r.value.Some? then others + multiset{tail + 1} else others
    {
      AddedAndDropped(others, tail);
      var empty := IsEmpty(tail);
      if empty.Err? || empty.value {
        Drop(tail);
        return if empty.Ok? then Ok(None) else Err(());
      }
      var car := Car(tail);
      if car.Err? {
        Drop(tail);
        return Err(());
      }
      var cdr := Cdr(tail);
      Drop(tail);
      Exchanged(others, tail);
      return if cdr.Ok? then Ok(Some((car.value.value, tail + 1))) else Err(());
    }

    /** `get`: the element `index` places on, leaving no view behind. */
    method Get(start: nat, index: nat) returns (r: Result<Option<T>, ()>)
      requires Valid() && start in views
      modifies this
      ensures Valid() && elements == old(elements) && views == old(views)
      ensures Infallible(old(pending)) ==> r.Ok?
      ensures r.Ok? ==> r.value == if start + index < |elements| then Some(elements[start + index]) else None
      ensures Filled() <= old(Filled()) || Filled() <= start + index + 1
    {
      hide Valid;
      ghost var before := views;
      var head := Car(start);
      if head.Err? {
        return Err(());
      }
      var second := Cdr(start);
      if second.Err? {
        return Err(());
      }
      if head.value.None? {
        return Ok(None);
      }
      r := Walk(head.value.value, start + 1, index, before);
    }

    /** The loop of `get`, holding one view past the element it looks at. */
    method Walk(first: T, next: nat, index: nat, ghost others: multiset<nat>) returns (r: Result<Option<T>, ()>)
      requires Valid() && views == others + multiset{next} && 0 < next <= |elements| && first == elements[next - 1]
      modifies this
      ensures Valid() && elements == old(elements) && views == others
      ensures Infallible(old(pending)) ==> r.Ok?
      ensures r.Ok? ==> r.value == if next - 1 + index < |elements| then Some(elements[next - 1 + index]) else None
      ensures Filled() <= old(Filled()) || Filled() <= next + index
    {
      hide Valid;
      var value, tail, i := first, next, index;
      while i > 0
        invariant Valid() && elements == old(elements) && views == others + multiset{tail}
        invariant Infallible(old(pending)) ==> Infallible(pending)
        invariant 0 < tail <= |elements| && value == elements[tail - 1] && tail + i == next + index
        invariant Filled() <= old(Filled()) || Filled() <= tail
      {
        i := i - 1;
        var turn := Turn(tail, others);
        if turn.Err? {
          return Err(());
        }
        if turn.value.None? {
          assert next - 1 + index >= |elements|;
          return Ok(None);
        }
        value, tail := turn.value.value.0, turn.value.value.1;
      }
      AddedAndDropped(others, tail);
      Drop(tail);
      assert tail - 1 == next - 1 + index;
      return Ok(Some(value));
    }
  }
}
