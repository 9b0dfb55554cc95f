/**
 * Entries kept by their sequence number, whatever order they came in.
 *
 * The reader puts entries into a map and verifies its values in key order, so what it accepts depends only on which
 * entries there are: they must be those of one journal chain.
 */
module ChainOrder {
  import opened Wrappers
  import opened Keys
  import opened JournalTypes
  import opened JournalLaws

  /** The entries have sequence numbers of their own, none of them taken. */
  ghost predicate FreshSequences(taken: set<nat>, entries: seq<Entry>) {
    && (forall i :: 0 <= i < |entries| ==> entries[i].sequence !in taken)
    && (forall i, j :: 0 <= i < j < |entries| ==> entries[i].sequence != entries[j].sequence)
  }

  /** The map before, and every entry under its sequence number. */
  ghost predicate Placed(before: map<nat, Entry>, entries: seq<Entry>, after: map<nat, Entry>) {
    && (forall n :: n in after <==> n in before || exists e :: e in entries && e.sequence == n)
    && (forall n :: n in before ==> n in after && after[n] == before[n])
    && (forall e :: e in entries ==> e.sequence in after && after[e.sequence] == e)
  }

  lemma {:induction false} PlacedNone(before: map<nat, Entry>)
    ensures FreshSequences(before.Keys, []) && Placed(before, [], before)
  {
  }

  lemma {:induction false} FreshSuffix(prefix: seq<Entry>, entries: seq<Entry>)
    requires IsChain(prefix) && FreshSequences({}, prefix + entries)
    ensures FreshSequences(EntryMap(prefix).Keys, entries)
  {
    var whole := prefix + entries;
    assert forall n :: 0 <= n < |prefix| ==> whole[n] == prefix[n] && whole[n].sequence == n;
    forall i | 0 <= i < |entries|
      ensures entries[i].sequence !in EntryMap(prefix)
    {
      assert whole[|prefix| + i] == entries[i];
    }
    forall i, j | 0 <= i < j < |entries|
      ensures entries[i].sequence != entries[j].sequence
    {
      assert whole[|prefix| + i] == entries[i] && whole[|prefix| + j] == entries[j];
    }
  }

  /** The same entries, each as often. */
  ghost predicate SameEntries(a: seq<Entry>, b: seq<Entry>) {
    multiset(a) == multiset(b)
  }

  lemma {:induction false} SameEntriesIff(a: seq<Entry>, b: seq<Entry>)
    requires FreshSequences({}, a) && FreshSequences({}, b)
    ensures SameEntries(a, b) <==> forall e :: e in a <==> e in b
  {
    if SameEntries(a, b) {
      assert forall e :: e in a <==> e in multiset(a);
      assert forall e :: e in b <==> e in multiset(b);
    }
    if forall e :: e in a <==> e in b {
      forall e
        ensures multiset(a)[e] == multiset(b)[e]
      {
        OnceEach(a, e);
        OnceEach(b, e);
      }
    }
  }

  lemma {:induction false} OnceEach(a: seq<Entry>, e: Entry)
    requires FreshSequences({}, a)
    ensures multiset(a)[e] == if e in a then 1 else 0
  {
    if a != [] {
      var rest := a[1..];
      assert a == [a[0]] + rest;
      assert forall i :: 0 <= i < |rest| ==> rest[i] == a[i + 1];
      OnceEach(rest, e);
    }
  }

  /** Entries that are those of a chain have sequence numbers of their own. */
  lemma {:induction false} FreshLikeChain(chain: seq<Entry>, entries: seq<Entry>)
    requires IsChain(chain) && SameEntries(chain, entries)
    ensures FreshSequences({}, entries) && FreshSequences({}, chain)
  {
    assert forall e :: e in chain <==> e in multiset(chain);
    assert forall e :: e in entries <==> e in multiset(entries);
    forall i, j | 0 <= i < j < |entries|
      ensures entries[i].sequence != entries[j].sequence
    {
      if entries[i].sequence == entries[j].sequence {
        var e := entries[i];
        assert e in chain && entries[j] in chain;
        assert chain[e.sequence] == e == entries[j];
        Twice(entries, i, j);
        OnceEach(chain, e);
      }
    }
  }

  lemma {:induction false} Twice(a: seq<Entry>, i: nat, j: nat)
    requires i < j < |a| && a[i] == a[j]
    ensures multiset(a)[a[i]] >= 2
  {
    assert a == a[..j] + [a[j]] + a[j + 1..];
    assert a[..j][i] == a[i];
    assert a[i] in multiset(a[..j]);
  }

  // ---------------------------------------------------------------------------------------------
  // The values of such a map

  ghost predicate Keyed(m: map<nat, Entry>) {
    forall n :: n in m ==> m[n].sequence == n
  }

  lemma {:induction false} ValuesHave(m: map<nat, Entry>, e: Entry)
    ensures e in Values(m) <==> exists n :: n in m && m[n] == e
    decreases |m.Keys|
  {
    if m != map[] {
      var k := LeastKey(m.Keys);
      SmallerSet((m - {k}).Keys, m.Keys);
      ValuesHave(m - {k}, e);
      assert forall n :: n in m <==> n == k || n in m - {k};
    }
  }

  /** When its values make a chain, the map holds that chain. */
  lemma {:induction false} ValuesAreChain(m: map<nat, Entry>)
    requires Keyed(m) && IsChain(Values(m))
    ensures m == EntryMap(Values(m))
  {
    var chain := Values(m);
    forall n: nat
      ensures n in m <==> n < |chain|
      ensures n in m && n < |chain| ==> m[n] == chain[n]
    {
      if n in m {
        ValuesHave(m, m[n]);
        var j :| 0 <= j < |chain| && chain[j] == m[n];
        assert j == n;
      }
      if n < |chain| {
        ValuesHave(m, chain[n]);
      }
    }
  }

  /** Placing entries on a chain gives a map whose values make a chain exactly when all of them are one chain's. */
  lemma {:induction false} PlacedIsChainIff(prefix: seq<Entry>, entries: seq<Entry>, m: map<nat, Entry>,
      chain: seq<Entry>)
    requires IsChain(prefix) && IsChain(chain)
    requires FreshSequences(EntryMap(prefix).Keys, entries) && Placed(EntryMap(prefix), entries, m)
    ensures m == EntryMap(chain) <==> SameEntries(chain, prefix + entries)
  {
    var whole := prefix + entries;
    PlacedWhole(prefix, entries, m);
    ChainFresh(chain);
    SameEntriesIff(chain, whole);
    hide Placed, FreshSequences, IsChain;
    if m == EntryMap(chain) {
      forall e
        ensures e in chain <==> e in whole
      {
        InMapIff(chain, e);
      }
    }
    if forall e :: e in chain <==> e in whole {
      forall n: nat
        ensures n in m <==> n < |chain|
        ensures n in m && n < |chain| ==> m[n] == chain[n]
      {
        if n in m {
          InMapIff(chain, m[n]);
        }
        if n < |chain| {
          AtOwnPlace(chain, n);
        }
      }
    }
  }

  lemma {:induction false} InMapIff(chain: seq<Entry>, e: Entry)
    requires IsChain(chain)
    ensures e in chain <==> e.sequence in EntryMap(chain) && EntryMap(chain)[e.sequence] == e
  {
  }

  lemma {:induction false} AtOwnPlace(chain: seq<Entry>, n: nat)
    requires IsChain(chain) && n < |chain|
    ensures chain[n] in chain && chain[n].sequence == n
  {
  }

  lemma {:induction false} ChainFresh(chain: seq<Entry>)
    requires IsChain(chain)
    ensures FreshSequences({}, chain)
  {
  }

  /** What the map holds are the entries of the prefix and the placed ones. */
  lemma {:induction false} PlacedWhole(prefix: seq<Entry>, entries: seq<Entry>, m: map<nat, Entry>)
    requires IsChain(prefix)
    requires FreshSequences(EntryMap(prefix).Keys, entries) && Placed(EntryMap(prefix), entries, m)
    ensures FreshSequences({}, prefix + entries) && Keyed(m)
    ensures forall e :: e in prefix + entries <==> e.sequence in m && m[e.sequence] == e
    ensures forall n :: n in m ==> m[n] in prefix + entries
  {
    var whole := prefix + entries;
    forall i, j | 0 <= i < j < |whole|
      ensures whole[i].sequence != whole[j].sequence
    {
      if i < |prefix| <= j {
        assert whole[j] == entries[j - |prefix|];
        assert i in EntryMap(prefix);
      }
    }
    forall n | n in m
      ensures m[n].sequence == n && m[n] in whole
    {
      if n !in EntryMap(prefix) {
        var e :| e in entries && e.sequence == n;
        assert m[n] == e && e in whole;
      } else {
        assert m[n] == prefix[n] && prefix[n] in whole;
      }
    }
    forall e | e in whole
      ensures e.sequence in m && m[e.sequence] == e
    {
      if e !in entries {
        assert e in prefix;
        var n :| 0 <= n < |prefix| && prefix[n] == e;
        assert n in EntryMap(prefix);
      }
    }
  }
}
