/**
 * The envelope codec and the protocol fit together.
 *
 * The protocol works on envelopes whose ids wrap what they name, the codec on their texts and digests. `Presents` only
 * asks that an encoded envelope has the same parts as a selected one. That is all the decoder looks at beyond the
 * bytes, and every envelope that the protocol selects comes back.
 */
module EnvelopeShapes {
  import opened Wrappers
  import opened Bytes
  import opened NativeCodec
  import opened NativeEnvelope
  import opened NativeLeaves
  import HostStore
  import HostProtocol
  import MemoryBackend

  /** The encoded envelope has the parts of the selected one. */
  ghost predicate Presents(selected: HostStore.Envelope, e: Envelope) {
    && (e.prefix.Some? <==> selected.prefix.Some?)
    && (e.head.Some? <==> selected.head.Some?)
    && (e.headLocation.Some? <==> selected.headLocation.Some?)
  }

  /** The only sound envelope that does not come back has a head and nothing that leads to it. */
  lemma {:induction false} EnvelopeBackIff(accepts: Accepts, e: Envelope)
    requires EnvelopeOk(accepts, e)
    ensures DecodedEnvelope(accepts, EncodedEnvelope(e)) == Some(e)
      <==> (e.head.Some? ==> e.prefix.Some? || e.headLocation.Some?)
    ensures (e.head.Some? && e.prefix.None? && e.headLocation.None?) <==>
      DecodedEnvelope(accepts, EncodedEnvelope(e)) == None
  {
    EnvelopeCodec(accepts, EncodedEnvelope(e), e);
    if DecodedEnvelope(accepts, EncodedEnvelope(e)).Some? {
      var d := DecodedEnvelope(accepts, EncodedEnvelope(e)).value;
      EnvelopeCodec(accepts, EncodedEnvelope(e), d);
      EnvelopeInjective(accepts, e, d);
    }
  }

  /** What selects a chain the store can serve has a head only where something leads to it. */
  lemma {:induction false} GoodLeadsToHead(store: HostStore.Store, selected: HostStore.Envelope)
    requires HostStore.EnvelopeGood(store, selected)
    ensures selected.head.Some? ==> selected.prefix.Some? || selected.headLocation.Some?
  {
  }

  /** An envelope that the protocol selects is read back from its bytes. */
  lemma {:induction false} GoodComesBack(
      accepts: Accepts, e: Envelope, store: HostStore.Store, selected: HostStore.Envelope)
    requires EnvelopeOk(accepts, e) && Presents(selected, e) && HostStore.EnvelopeGood(store, selected)
    ensures DecodedEnvelope(accepts, EncodedEnvelope(e)) == Some(e)
  {
    GoodLeadsToHead(store, selected);
    EnvelopeBackIff(accepts, e);
  }

  /** Whatever a step of the protocol exchanges into the state leaf is read back: first leases, bumps and commits. */
  lemma {:induction false} ExchangedComesBack(accepts: Accepts, e: Envelope, store: HostStore.Store,
      before: Option<HostStore.StateLeaf>, after: HostStore.Envelope)
    requires EnvelopeOk(accepts, e) && Presents(after, e)
    requires HostProtocol.StateGood(store, before) && HostProtocol.Justified(store, before, HostStore.V2(after))
    ensures DecodedEnvelope(accepts, EncodedEnvelope(e)) == Some(e)
  {
    HostProtocol.ExchangeGrows(store, before, HostStore.V2(after));
    GoodComesBack(accepts, e, store, after);
  }

  /** The first envelope of an upgraded journal with entries has a prefix and a head and no location, and comes back. */
  lemma {:induction false} UpgradedComesBack(accepts: Accepts, e: Envelope, store: HostStore.Store,
      before: HostStore.V1State, after: HostStore.Envelope)
    requires EnvelopeOk(accepts, e) && Presents(after, e) && before.head.Some?
    requires HostProtocol.Install(store, Some(HostStore.V1(before)), after)
    ensures e.prefix.Some? && e.head.Some? && e.headLocation.None?
    ensures DecodedEnvelope(accepts, EncodedEnvelope(e)) == Some(e)
  {
    EnvelopeBackIff(accepts, e);
  }

  /** Over every run of any writers, whatever v2 state is current can be read back from its bytes. */
  lemma {:induction false} RunComesBack(accepts: Accepts, e: Envelope, run: seq<HostStore.Store>, i: nat)
    requires HostProtocol.IsRun(run) && i < |run|
    requires run[i].state.Some? && run[i].state.value.V2? && Presents(run[i].state.value.envelope, e)
    requires EnvelopeOk(accepts, e)
    ensures DecodedEnvelope(accepts, EncodedEnvelope(e)) == Some(e)
  {
    HostProtocol.RunInv(run, i);
    GoodComesBack(accepts, e, run[i], run[i].state.value.envelope);
  }

  /** A head that nothing leads to selects no chain in any store, and its bytes are refused. */
  lemma {:induction false} LostHeadRefused(accepts: Accepts, e: Envelope, selected: HostStore.Envelope)
    requires EnvelopeOk(accepts, e) && Presents(selected, e)
    requires e.head.Some? && e.prefix.None? && e.headLocation.None?
    ensures DecodedEnvelope(accepts, EncodedEnvelope(e)) == None
    ensures forall store :: !HostStore.EnvelopeGood(store, selected)
  {
    EnvelopeBackIff(accepts, e);
    forall store | HostStore.EnvelopeGood(store, selected)
      ensures false
    {
      GoodLeadsToHead(store, selected);
    }
  }

  /** The last fence a lease can hand out is the last one that can be encoded. */
  lemma {:induction false} FencesFit(fence: nat)
    ensures WordOk(fence) <==> fence <= MemoryBackend.MAX_FENCE
  {
  }
}
