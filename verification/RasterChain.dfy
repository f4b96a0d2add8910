/** One raster source over both hops: the inner presenter composes records and forwards bodies, the
    bridge takes them in order and re-originates them, and the outer presenter replays what the bridge
    wrote. A run is any interleaving of the steps, including lost bodies and refused writes. */
module RasterChain {
  import opened Wrappers
  import opened FixedWidth
  import opened RasterFrames
  import Pixels
  import InnerRaster
  import BridgeRaster

  datatype System = System(
    inner: InnerRaster.State,
    transit: seq<Body>,
    bridge: BridgeRaster.State,
    sent: seq<Body>)

  datatype Step =
    | Ingest(body: Body, inner: InnerRaster.Context)
    | RequestFull(code: nat)
    | Lose
    | Chunk(bridge: BridgeRaster.Context)
    | Drain(outerRequests: bool)
    | Recreate

  ghost function Next(s: System, step: Step): System
    requires s.inner.Valid()
  {
    match step
    case Ingest(body, context) =>
      var r := InnerRaster.Ingest(s.inner, body, context);
      s.(inner := r.state, transit := if r.forward.Some? then s.transit + [r.forward.value] else s.transit)
    case RequestFull(code) => s.(inner := InnerRaster.RequestFull(s.inner, code))
    case Lose => if s.transit == [] then s else s.(transit := s.transit[1..])
    case Chunk(context) =>
      if s.transit == [] then s
      else
        var r := BridgeRaster.Forward(s.bridge, s.transit[0], context);
        s.(transit := s.transit[1..], bridge := r.state,
           sent := if r.sent.Some? then s.sent + [r.sent.value] else s.sent)
    case Drain(outerRequests) => s.(bridge := BridgeRaster.Drain(s.bridge, outerRequests))
    case Recreate => s.(bridge := BridgeRaster.Recreate(s.bridge), sent := [])
  }

  ghost function Run(s: System, steps: seq<Step>): (r: System)
    requires s.inner.Valid()
    ensures r.inner.Valid() && r.inner.config == s.inner.config && r.bridge.config == s.bridge.config
  {
    if steps == [] then s
    else
      var init := Run(s, steps[..|steps| - 1]);
      InnerRaster.IngestKeepsValid(init.inner, Malformed, InnerRaster.Context(0, true, true, true, true));
      NextKeepsValid(init, steps[|steps| - 1]);
      Next(init, steps[|steps| - 1])
  }

  lemma NextKeepsValid(s: System, step: Step)
    requires s.inner.Valid()
    ensures Next(s, step).inner.Valid()
    ensures Next(s, step).inner.config == s.inner.config && Next(s, step).bridge.config == s.bridge.config
  {
    match step
    case Ingest(body, context) => InnerRaster.IngestKeepsValid(s.inner, body, context);
    case _ =>
  }

  ghost function Initial(config: Config, now: nat): System {
    System(
      InnerRaster.State(config, None, None, now, 0), [],
      BridgeRaster.State(config, 0, None, false), [])
  }

  // ---- Structure of the outgoing chain, in every run ----

  function EpochOf(body: Body): nat {
    if body.Malformed? then 0 else body.epoch
  }

  /** The `i`th body written since the outer source was created carries identity `i + 1`; a delta's base
      is the identity of the body written just before it, in the same epoch. */
  ghost predicate Linked(sent: seq<Body>, i: nat)
    requires i < |sent|
  {
    match sent[i]
    case Full(_, frameId, _, _, _) => frameId == i + 1
    case Delta(epoch, frameId, base, _) =>
      frameId == i + 1 && i > 0 && !sent[i - 1].Malformed? && base == sent[i - 1].frameId && epoch == sent[i - 1].epoch
    case Malformed => false
  }

  ghost predicate FitsSource(config: Config, body: Body) {
    match body
    case Full(_, _, width, height, pixels) => width == config.width && height == config.height && Pixels.Sized(pixels, width, height)
    case Delta(_, _, _, operations) => AllInBounds(operations, config.width, config.height)
    case Malformed => false
  }

  ghost predicate Structured(s: System) {
    && s.bridge.config == s.inner.config
    && (forall i :: 0 <= i < |s.transit| ==> FitsSource(s.inner.config, s.transit[i]))
    && (forall i :: 0 <= i < |s.sent| ==> FitsSource(s.inner.config, s.sent[i]))
    && (forall i :: 0 <= i < |s.sent| ==> Linked(s.sent, i))
    && s.bridge.frameId == |s.sent|
    && (s.bridge.chain.Some? ==>
          && s.sent != []
          && s.bridge.chain.value.baseFrameId == |s.sent|
          && s.bridge.chain.value.epoch == EpochOf(s.sent[|s.sent| - 1]))
  }

  lemma ForwardedFits(s: InnerRaster.State, body: Body, context: InnerRaster.Context)
    requires s.Valid()
    ensures
      var forward := InnerRaster.Ingest(s, body, context).forward;
      forward.Some? ==> FitsSource(s.config, forward.value)
  {
    InnerRaster.IngestKeepsValid(s, body, context);
  }

  /** What a written body and the committed chain look like; nothing else moves the chain. */
  lemma ForwardShape(s: BridgeRaster.State, body: Body, context: BridgeRaster.Context)
    ensures
      var r := BridgeRaster.Forward(s, body, context);
      && r.state.config == s.config
      && (r.sent.None? ==>
            && r.state.frameId == s.frameId && r.state.chain == s.chain
            && (r.reply.Ok? ==> r.state.needsFull))
      && (r.sent.Some? ==>
            && r.state.frameId == s.frameId + 1 && r.state.needsFull == s.needsFull
            && r.state.chain.Some? && r.state.chain.value.baseFrameId == s.frameId + 1
            && r.state.chain.value.epoch == EpochOf(body)
            && !body.Malformed?
            && (body.Full? ==> r.sent.value == BridgeRaster.ReoriginatedFull(body, s.frameId + 1))
            && (body.Delta? ==>
                  && s.chain.Some? && s.chain.value.epoch == body.epoch
                  && r.sent.value == Delta(body.epoch, s.frameId + 1, s.chain.value.baseFrameId, body.operations)))
  {
  }

  lemma ChunkKeepsStructure(s: System, context: BridgeRaster.Context)
    requires s.inner.Valid() && Structured(s) && s.transit != []
    ensures Structured(Next(s, Chunk(context)))
  {
    hide Pixels.Sized, BridgeRaster.Forward;
    ForwardShape(s.bridge, s.transit[0], context);
    var t := Next(s, Chunk(context));
    assert FitsSource(s.inner.config, s.transit[0]);
    forall i | 0 <= i < |t.sent|
      ensures Linked(t.sent, i) && FitsSource(t.inner.config, t.sent[i])
    {
      if i < |s.sent| {
        assert Linked(s.sent, i) && t.sent[i] == s.sent[i] && FitsSource(s.inner.config, s.sent[i]);
      } else if s.transit[0].Delta? {
        assert Linked(s.sent, i - 1);
      }
    }
  }

  lemma NextKeepsStructure(s: System, step: Step)
    requires s.inner.Valid() && Structured(s)
    ensures Structured(Next(s, step))
  {
    hide Pixels.Sized, InnerRaster.Ingest, BridgeRaster.Forward, FitsSource;
    NextKeepsValid(s, step);
    match step
    case Ingest(body, context) =>
      ForwardedFits(s.inner, body, context);
    case Chunk(context) =>
      if s.transit != [] {
        ChunkKeepsStructure(s, context);
      }
    case _ =>
  }

  /** Every run, whatever is lost or refused: the outgoing chain is well linked. */
  lemma {:induction false} ChainIsLinked(s: System, steps: seq<Step>)
    requires s.inner.Valid() && Structured(s)
    ensures Structured(Run(s, steps))
  {
    if steps != [] {
      ChainIsLinked(s, steps[..|steps| - 1]);
      NextKeepsStructure(Run(s, steps[..|steps| - 1]), steps[|steps| - 1]);
    }
  }

  // ---- What the outer presenter makes of it ----

  /** The outer presenter's retained frame after one body: a delta is applied only to its exact base. */
  ghost function Present(config: Config, retained: Option<Frame>, body: Body): Option<Frame> {
    match body
    case Malformed => retained
    case Full(epoch, frameId, width, height, pixels) =>
      if width != config.width || height != config.height || !Pixels.Sized(pixels, width, height) then retained
      else Some(Frame(epoch, frameId, pixels))
    case Delta(epoch, frameId, base, operations) =>
      if retained.None? || retained.value.epoch != epoch || retained.value.frameId != base
        || !Pixels.Sized(retained.value.pixels, config.width, config.height)
        || !AllInBounds(operations, config.width, config.height) then retained
      else Some(Frame(epoch, frameId, Pixels.AppliedAll(retained.value.pixels, config.width, config.height, operations)))
  }

  ghost function Replay(config: Config, retained: Option<Frame>, bodies: seq<Body>): Option<Frame> {
    if bodies == [] then retained
    else Present(config, Replay(config, retained, bodies[..|bodies| - 1]), bodies[|bodies| - 1])
  }

  lemma ReplayAppend(config: Config, retained: Option<Frame>, bodies: seq<Body>, body: Body)
    ensures Replay(config, retained, bodies + [body]) == Present(config, Replay(config, retained, bodies), body)
  {
    assert (bodies + [body])[..|bodies|] == bodies;
  }

  lemma {:induction false} ReplayFirst(config: Config, retained: Option<Frame>, bodies: seq<Body>)
    requires bodies != []
    ensures Replay(config, retained, bodies) == Replay(config, Present(config, retained, bodies[0]), bodies[1..])
  {
    if |bodies| == 1 {
      assert bodies[..0] == [] && bodies[1..] == [];
    } else {
      ReplayFirst(config, retained, bodies[..|bodies| - 1]);
      assert bodies[..|bodies| - 1][1..] == bodies[1..][..|bodies| - 2];
    }
  }

  /** What the outer presenter retains once it has accepted the first `n` bodies of a chain. */
  ghost predicate Retains(config: Config, outer: Option<Frame>, sent: seq<Body>, n: nat)
    requires n <= |sent|
  {
    n > 0 ==>
      && outer.Some? && outer.value.frameId == n && outer.value.epoch == EpochOf(sent[n - 1])
      && Pixels.Sized(outer.value.pixels, config.width, config.height)
  }

  lemma NextBodyIsAccepted(config: Config, outer: Option<Frame>, sent: seq<Body>, n: nat)
    requires Pixels.Stride(config.width) > 0 && n < |sent|
    requires Linked(sent, n) && (n > 0 ==> Linked(sent, n - 1)) && FitsSource(config, sent[n])
    requires Retains(config, outer, sent, n)
    ensures Retains(config, Present(config, outer, sent[n]), sent, n + 1)
  {
    hide Pixels.Sized, Pixels.AppliedAll;
  }

  /** The outer presenter accepts every body of a linked chain, so what it retains is the last one. */
  lemma {:induction false} EveryBodyIsAccepted(config: Config, sent: seq<Body>)
    requires Pixels.Stride(config.width) > 0
    requires forall i :: 0 <= i < |sent| ==> Linked(sent, i) && FitsSource(config, sent[i])
    ensures
      var outer := Replay(config, None, sent);
      sent != [] ==>
        && outer.Some? && outer.value.frameId == |sent| && outer.value.epoch == EpochOf(sent[|sent| - 1])
        && Pixels.Sized(outer.value.pixels, config.width, config.height)
  {
    hide Pixels.Sized, Pixels.AppliedAll, FitsSource, Present;
    if sent != [] {
      var n := |sent| - 1;
      forall i | 0 <= i < n
        ensures Linked(sent[..n], i) && FitsSource(config, sent[..n][i])
      {
        assert Linked(sent, i) && FitsSource(config, sent[i]);
      }
      EveryBodyIsAccepted(config, sent[..n]);
      NextBodyIsAccepted(config, Replay(config, None, sent[..n]), sent, n);
    }
  }

  // ---- Image equality, when nothing is lost ----

  /** Same picture in the same epoch, whatever the identities. */
  ghost predicate SameImage(a: Option<Frame>, b: Option<Frame>) {
    a.Some? && b.Some? && a.value.epoch == b.value.epoch && a.value.pixels == b.value.pixels
  }

  ghost predicate HasFull(bodies: seq<Body>) {
    exists i :: 0 <= i < |bodies| && bodies[i].Full?
  }

  lemma HasFullAppend(a: seq<Body>, b: seq<Body>)
    ensures HasFull(a + b) <==> HasFull(a) || HasFull(b)
  {
    if i :| 0 <= i < |a| && a[i].Full? {
      assert (a + b)[i].Full?;
    }
    if i :| 0 <= i < |b| && b[i].Full? {
      assert (a + b)[|a| + i].Full?;
    }
  }

  lemma HasFullOne(body: Body)
    ensures HasFull([body]) <==> body.Full?
  {
    if body.Full? {
      assert [body][0].Full?;
    }
  }

  /** The delta extends exactly this frame. */
  ghost predicate Extends(body: Body, frame: Option<Frame>) {
    body.Delta? ==> frame.Some? && frame.value.epoch == body.epoch && frame.value.frameId == body.baseFrameId
  }

  /** Every body in transit that no later full frame replaces extends the image before it. */
  ghost predicate InOrder(config: Config, seen: Option<Frame>, transit: seq<Body>) {
    forall i :: 0 <= i < |transit| && !HasFull(transit[i..]) ==> Extends(transit[i], Replay(config, seen, transit[..i]))
  }

  /** Replaying what is still in transit on top of `seen`, the inner image as far as the bridge has taken
      it, gives the inner retained frame; and unless a full frame is on its way, a usable outgoing chain
      means that the outer presenter shows exactly `seen`. */
  ghost predicate InStep(s: System, seen: Option<Frame>) {
    && s.bridge.config == s.inner.config
    && (forall i :: 0 <= i < |s.transit| ==> FitsSource(s.inner.config, s.transit[i]))
    && Replay(s.inner.config, seen, s.transit) == s.inner.retained
    && InOrder(s.inner.config, seen, s.transit)
    && (s.bridge.chain.Some? && !s.bridge.needsFull && !HasFull(s.transit) ==>
          SameImage(Replay(s.inner.config, None, s.sent), seen))
  }

  /** A step of a run in which every accepted record is forwarded, no body is lost, every `media_chunk`
      succeeds, and full-frame requests are drained between calls. */
  ghost predicate Lossless(s: System, step: Step)
    requires s.inner.Valid()
  {
    match step
    case Ingest(body, context) => context.queued
    case Lose => s.transit == []
    case Chunk(context) =>
      s.transit != [] ==> !s.bridge.needsFull && BridgeRaster.Forward(s.bridge, s.transit[0], context).reply.Ok?
    case _ => true
  }

  ghost predicate AllLossless(s: System, steps: seq<Step>)
    requires s.inner.Valid()
  {
    forall i :: 0 <= i < |steps| ==> Lossless(Run(s, steps[..i]), steps[i])
  }

  /** The inner image the bridge has seen after a step. */
  ghost function SeenAfter(s: System, seen: Option<Frame>, step: Step): Option<Frame> {
    if step.Chunk? && s.transit != [] then Present(s.inner.config, seen, s.transit[0]) else seen
  }

  lemma InOrderAppend(config: Config, seen: Option<Frame>, transit: seq<Body>, body: Body)
    requires InOrder(config, seen, transit) || body.Full?
    requires Extends(body, Replay(config, seen, transit))
    ensures InOrder(config, seen, transit + [body])
  {
    hide Replay, Extends, HasFull;
    var longer := transit + [body];
    HasFullOne(body);
    forall i | 0 <= i < |longer| && !HasFull(longer[i..])
      ensures Extends(longer[i], Replay(config, seen, longer[..i]))
    {
      if i < |transit| {
        assert longer[i..] == transit[i..] + [body];
        HasFullAppend(transit[i..], [body]);
        assert longer[..i] == transit[..i];
      } else {
        assert longer[..i] == transit;
      }
    }
  }

  lemma InOrderRest(config: Config, seen: Option<Frame>, transit: seq<Body>)
    requires transit != [] && InOrder(config, seen, transit)
    ensures InOrder(config, Present(config, seen, transit[0]), transit[1..])
  {
    hide Replay, Extends, Present;
    var rest := transit[1..];
    forall i | 0 <= i < |rest| && !HasFull(rest[i..])
      ensures Extends(rest[i], Replay(config, Present(config, seen, transit[0]), rest[..i]))
    {
      assert rest[i..] == transit[i + 1..];
      ReplayFirst(config, seen, transit[..i + 1]);
      assert transit[..i + 1][1..] == rest[..i];
    }
  }

  /** A queued record changes the retained frame exactly as the body handed on changes it. */
  lemma ForwardedEffect(s: InnerRaster.State, body: Body, context: InnerRaster.Context)
    requires s.Valid() && context.queued
    ensures
      var r := InnerRaster.Ingest(s, body, context);
      && (r.forward.None? ==> r.state.retained == s.retained)
      && (r.forward.Some? ==>
            && FitsSource(s.config, r.forward.value)
            && Extends(r.forward.value, s.retained)
            && Present(s.config, s.retained, r.forward.value) == r.state.retained)
  {
    InnerRaster.IngestKeepsValid(s, body, context);
  }

  lemma IngestKeepsInStep(s: System, seen: Option<Frame>, body: Body, context: InnerRaster.Context)
    requires s.inner.Valid() && InStep(s, seen) && context.queued
    ensures InStep(Next(s, Ingest(body, context)), seen)
  {
    hide Pixels.Sized, InnerRaster.Ingest, HasFull, Present, Extends, InOrder, FitsSource, SameImage;
    NextKeepsValid(s, Ingest(body, context));
    ForwardedEffect(s.inner, body, context);
    var forward := InnerRaster.Ingest(s.inner, body, context).forward;
    if forward.Some? {
      ReplayAppend(s.inner.config, seen, s.transit, forward.value);
      InOrderAppend(s.inner.config, seen, s.transit, forward.value);
      HasFullAppend(s.transit, [forward.value]);
    }
  }

  lemma ChunkKeepsInStep(s: System, seen: Option<Frame>, context: BridgeRaster.Context)
    requires s.inner.Valid() && Structured(s) && InStep(s, seen) && Lossless(s, Chunk(context)) && s.transit != []
    ensures InStep(Next(s, Chunk(context)), SeenAfter(s, seen, Chunk(context)))
  {
    hide BridgeRaster.Forward, HasFull, Present, InOrder, FitsSource, SameImage, Structured, Replay;
    var t := Next(s, Chunk(context));
    var config := s.inner.config;
    NextKeepsValid(s, Chunk(context));
    ReplayFirst(config, seen, s.transit);
    InOrderRest(config, seen, s.transit);
    assert forall i :: 0 <= i < |t.transit| ==> t.transit[i] == s.transit[i + 1];
    if t.bridge.chain.Some? && !t.bridge.needsFull && !HasFull(t.transit) {
      ChunkExtendsImage(s, seen, context);
    }
  }

  lemma ChunkExtendsImage(s: System, seen: Option<Frame>, context: BridgeRaster.Context)
    requires s.inner.Valid() && Structured(s) && InStep(s, seen) && Lossless(s, Chunk(context)) && s.transit != []
    requires
      var t := Next(s, Chunk(context));
      t.bridge.chain.Some? && !t.bridge.needsFull && !HasFull(t.transit)
    ensures
      var t := Next(s, Chunk(context));
      SameImage(Replay(s.inner.config, None, t.sent), Present(s.inner.config, seen, s.transit[0]))
  {
    hide Pixels.Sized, Pixels.AppliedAll, BridgeRaster.Forward, Linked;
    ForwardShape(s.bridge, s.transit[0], context);
    var config := s.inner.config;
    var t := Next(s, Chunk(context));
    var r := BridgeRaster.Forward(s.bridge, s.transit[0], context);
    assert FitsSource(config, s.transit[0]);
    assert r.sent.Some?;
    ReplayAppend(config, None, s.sent, r.sent.value);
    if s.transit[0].Delta? {
      assert s.transit == [s.transit[0]] + t.transit;
      HasFullOne(s.transit[0]);
      HasFullAppend([s.transit[0]], t.transit);
      EveryBodyIsAccepted(config, s.sent);
      assert s.transit[0..] == s.transit;
      assert Extends(s.transit[0], Replay(config, seen, s.transit[..0]));
    }
  }

  lemma NextKeepsInStep(s: System, seen: Option<Frame>, step: Step)
    requires s.inner.Valid() && Structured(s) && InStep(s, seen) && Lossless(s, step)
    ensures InStep(Next(s, step), SeenAfter(s, seen, step))
  {
    hide Pixels.Sized, Pixels.AppliedAll;
    match step
    case Ingest(body, context) => IngestKeepsInStep(s, seen, body, context);
    case Chunk(context) =>
      if s.transit != [] {
        ChunkKeepsInStep(s, seen, context);
      }
    case _ =>
  }

  /** Queueing a full frame restores agreement, whatever happened before. */
  lemma FullFrameResynchronises(s: System, seen: Option<Frame>, body: Body, context: InnerRaster.Context)
    requires s.inner.Valid() && Structured(s) && context.queued && body.Full?
    requires InnerRaster.Ingest(s.inner, body, context).outcome.Ok?
    ensures InStep(Next(s, Ingest(body, context)), seen)
  {
    hide Pixels.Sized, Pixels.AppliedAll;
    var t := Next(s, Ingest(body, context));
    NextKeepsStructure(s, Ingest(body, context));
    var forward := InnerRaster.Ingest(s.inner, body, context).forward.value;
    ReplayAppend(s.inner.config, seen, s.transit, forward);
    InOrderAppend(s.inner.config, seen, s.transit, forward);
    assert FitsSource(s.inner.config, t.transit[|s.transit|]);
    assert t.transit[|s.transit|].Full?;
  }

  lemma {:induction false} StaysInStep(s: System, seen: Option<Frame>, steps: seq<Step>) returns (seen': Option<Frame>)
    requires s.inner.Valid() && Structured(s) && InStep(s, seen) && AllLossless(s, steps)
    ensures InStep(Run(s, steps), seen')
  {
    hide InStep, Structured, Lossless, Next;
    seen' := seen;
    if steps != [] {
      var n := |steps| - 1;
      forall i | 0 <= i < n
        ensures Lossless(Run(s, steps[..n][..i]), steps[..n][i])
      {
        assert steps[..n][..i] == steps[..i];
        assert Lossless(Run(s, steps[..i]), steps[i]);
      }
      seen' := StaysInStep(s, seen, steps[..n]);
      ChainIsLinked(s, steps[..n]);
      assert Lossless(Run(s, steps[..n]), steps[n]);
      NextKeepsInStep(Run(s, steps[..n]), seen', steps[n]);
      seen' := SeenAfter(Run(s, steps[..n]), seen', steps[n]);
    }
  }

  /** After a full frame and any lossless run: while an outgoing chain exists and nothing is in transit,
      the picture the outer presenter replays is the inner retained picture. Deltas still in transit
      account for exactly the difference. */
  lemma ImagesAgree(s: System, full: Body, context: InnerRaster.Context, steps: seq<Step>)
    requires s.inner.Valid() && Structured(s) && context.queued && full.Full?
    requires InnerRaster.Ingest(s.inner, full, context).outcome.Ok?
    requires Next(s, Ingest(full, context)).inner.Valid()
    requires AllLossless(Next(s, Ingest(full, context)), steps)
    ensures
      var t := Run(Next(s, Ingest(full, context)), steps);
      t.bridge.chain.Some? && !t.bridge.needsFull && t.transit == [] ==>
        SameImage(Replay(t.inner.config, None, t.sent), t.inner.retained)
    ensures
      var t := Run(Next(s, Ingest(full, context)), steps);
      t.bridge.chain.Some? && !t.bridge.needsFull && !HasFull(t.transit) ==>
        exists seen :: SameImage(Replay(t.inner.config, None, t.sent), seen)
          && Replay(t.inner.config, seen, t.transit) == t.inner.retained
  {
    hide Structured, Next, Run, AllLossless, SameImage, HasFull, Pixels.Sized;
    FullFrameResynchronises(s, None, full, context);
    NextKeepsStructure(s, Ingest(full, context));
    var seen := StaysInStep(Next(s, Ingest(full, context)), None, steps);
    var t := Run(Next(s, Ingest(full, context)), steps);
    NothingInTransit(t.transit);
  }

  lemma NothingInTransit(bodies: seq<Body>)
    ensures bodies == [] ==> !HasFull(bodies)
  {
  }

  /** From the start, in every run: the chain is linked and the outer presenter accepted each body. */
  lemma EveryRun(config: Config, now: nat, steps: seq<Step>)
    requires Pixels.Stride(config.width) > 0
    ensures
      var t := Run(Initial(config, now), steps);
      var outer := Replay(config, None, t.sent);
      && Structured(t)
      && (t.sent != [] ==> outer.Some? && outer.value.frameId == |t.sent| == t.bridge.frameId)
  {
    hide FitsSource, Linked, Replay, Next;
    var s := Initial(config, now);
    ChainIsLinked(s, steps);
    EveryBodyIsAccepted(config, Run(s, steps).sent);
  }
}
