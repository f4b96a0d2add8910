/** What a keyframe request demands, and what a list of them adds up to (src/media.rs:1027-1121). */
module MediaRequests {
  import opened Wrappers
  import opened FixedWidth
  import opened MediaCredit
  import opened MediaState
  import opened MediaRecovery
  import opened MediaSync

  /** A keyframe of epoch `e` is what the request asks of this source: not older than its current epoch, not below an explicit
      minimum unless the transport lost something, and of a later epoch when its decoder failed and there is one. */
  predicate Satisfies(source: Source, request: Request, e: nat) {
    && e >= source.epoch
    && (!request.reason.TransportLoss? && request.minimum.Some? ==> e >= request.minimum.value)
    && (!request.reason.TransportLoss? && request.minimum.None? && !request.reason.Initial? && source.epoch < U32_MAX ==>
          e > source.epoch)
  }

  /** A request can be for this source at all. */
  predicate IsLive(m: Media, key: Key) {
    key in m.sources && m.sources[key].kind.Video? && !m.sources[key].ended
  }

  /** What is pending demands at least as much: every keyframe that would end it satisfies the request, and a plain transport
      loss does not stand for anything else. */
  ghost predicate IsCovered(source: Source, request: Request) {
    && source.pendingReason.Some?
    && (forall e: nat :: e >= source.minimumEpoch ==> Satisfies(source, request, e))
    && (source.pendingReason == Some(TransportLoss) ==> request.reason.TransportLoss?)
  }

  /** A request for a live video is damped exactly when a pending one covers it, and otherwise emitted exactly when there is
      someone to write to. Once it is emitted, the keyframes that end the loss are those that did before and satisfy it. */
  lemma RequestExactly(m: Media, request: Request)
    ensures
      var key, answer, after := request.key, AnswerRequest(m, request), RequestKeyframe(m, request);
      && (answer.Damped? <==> IsLive(m, key) && IsCovered(m.sources[key], request))
      && (answer.Emitted? <==>
            IsLive(m, key) && !IsCovered(m.sources[key], request) && key.producer in m.producers && request.writable)
      && (!answer.Emitted? ==> after == m)
      && (answer.Emitted? ==>
            && key in after.sources && answer.minimum == after.sources[key].minimumEpoch
            && after.sources[key].pendingReason == Some(answer.reason)
            && after == m.(sources := m.sources[key := m.sources[key].(minimumEpoch := answer.minimum, desynchronized := true,
                                                                       pendingReason := Some(answer.reason))])
            && (forall e: nat ::
                  e >= answer.minimum <==> e >= m.sources[key].minimumEpoch && Satisfies(m.sources[key], request, e)))
  {
    if IsLive(m, request.key) {
      var source := m.sources[request.key];
      var asked := RequestedEpoch(source.epoch, request.minimum, Normalize(request.reason));
      assert Satisfies(source, request, asked);
      assert forall e: nat :: Satisfies(source, request, e) <==> e >= asked;
      if source.pendingReason.Some? && forall e: nat :: e >= source.minimumEpoch ==> Satisfies(source, request, e) {
        assert Satisfies(source, request, source.minimumEpoch);
      }
    }
  }

  /** The reason sent along: requests merge like demands of growing strength, with a transport loss the weakest and a failed
      decoder the strongest, whatever their order. */
  lemma ReasonsMerge(a: Reason, b: Reason, c: Reason)
    ensures MergedReason(Some(a), b) == MergedReason(Some(b), a)
    ensures MergedReason(Some(MergedReason(Some(a), b)), c) == MergedReason(Some(a), MergedReason(Some(b), c))
    ensures MergedReason(Some(a), a) == a && MergedReason(None, a) == a
    ensures MergedReason(Some(TransportLoss), a) == a && MergedReason(Some(DecoderError), a) == DecoderError
    ensures a != b && !a.TransportLoss? && !b.TransportLoss? ==> MergedReason(Some(a), b) == DecoderError
  {
  }

  /** Unknown reasons count as a failed decoder. */
  function Known(reason: Reason): Reason {
    if reason.Unknown? then DecoderError else reason
  }

  lemma EmittedReason(m: Media, request: Request)
    requires AnswerRequest(m, request).Emitted?
    ensures AnswerRequest(m, request).reason == MergedReason(m.sources[request.key].pendingReason, Known(request.reason))
  {
  }
}
