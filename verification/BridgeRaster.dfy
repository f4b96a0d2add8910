/** The bridge's side of a raster source (src/bridge.rs): every inner body is re-originated under this
    hop's own frame identities, and deltas are chained onto the last body the media writer accepted. */
module BridgeRaster {
  import opened Wrappers
  import opened FixedWidth
  import opened RasterFrames
  import Damage
  import Pixels

  const DAMAGE_FRAME_EQUIVALENTS: nat := 4
  const DAMAGE_INTERVAL_MS: nat := 1000

  datatype Chain = Chain(epoch: nat, baseFrameId: nat, damage: nat, windowStarted: nat)

  /** The bridge's state for one raster source: the last outer frame identity, the outgoing chain, and
      whether a full frame has to be requested. */
  datatype State = State(config: Config, frameId: nat, chain: Option<Chain>, needsFull: bool)

  /** The environment of one `media_chunk`: the clock, whether the re-encoded delta is shorter than the
      full frame, and whether the media writer's queue takes the body. */
  datatype Context = Context(now: nat, deltaIsShorter: bool, writerAccepts: bool)

  /** What is to be written, and the chain to commit once the writer has accepted it. */
  datatype Reoriginated = Reoriginated(body: Body, chain: Chain)

  /** A full frame keeps everything but its identity. */
  function ReoriginatedFull(body: Body, frameId: nat): Body
    requires body.Full?
  {
    Full(body.epoch, frameId, body.width, body.height, body.pixels)
  }

  /** The delta rebased onto this hop's chain, or `None` when the chain cannot carry it. */
  function ReoriginatedDelta(body: Body, chain: Chain, frameId: nat): Option<Body>
    requires body.Delta?
  {
    if chain.baseFrameId == 0 || body.epoch != chain.epoch then None
    else Some(Delta(body.epoch, frameId, chain.baseFrameId, body.operations))
  }

  ghost function Reoriginate(s: State, frameId: nat, body: Body, now: nat, deltaIsShorter: bool): Result<Option<Reoriginated>> {
    match body
    case Malformed => Err("raster frame header is truncated")
    case Full(epoch, _, width, height, pixels) =>
      if !Pixels.Sized(pixels, width, height) then Err("malformed raster frame")
      else Ok(Some(Reoriginated(ReoriginatedFull(body, frameId), Chain(epoch, 0, 0, now))))
    case Delta(epoch, _, _, operations) =>
      if s.config.operationLimit.None? || s.chain.None? then Ok(None)
      else if !DeltaParses(body, s.config, s.config.operationLimit.value) then Err("malformed raster delta")
      else if Damage.AreaSum(Damage.AreasOf(operations)) > U64_MAX then Err("raster damage area overflows")
      else
        var expired := now - s.chain.value.windowStarted >= DAMAGE_INTERVAL_MS;
        var started := if expired then now else s.chain.value.windowStarted;
        var damage := SaturatingAdd(if expired then 0 else s.chain.value.damage, Damage.AreaSum(Damage.AreasOf(operations)));
        if damage > DamageBudget(s.config, DAMAGE_FRAME_EQUIVALENTS) then Ok(None)
        else
          var delta := ReoriginatedDelta(body, s.chain.value, frameId);
          if delta.None? || !deltaIsShorter then Ok(None)
          else Ok(Some(Reoriginated(delta.value, Chain(s.chain.value.epoch, s.chain.value.baseFrameId, damage, started))))
  }

  /** The result of `media_chunk` on a complete body: the new state, the reply (`true` when a body was
      handed to the writer) and that body. */
  datatype Forwarded = Forwarded(state: State, reply: Result<bool>, sent: Option<Body>)

  ghost function Forward(s: State, body: Body, context: Context): Forwarded {
    if s.frameId >= U64_MAX then Forwarded(s, Err("outer raster frame ID space exhausted"), None)
    else
      var frameId := s.frameId + 1;
      match Reoriginate(s, frameId, body, context.now, context.deltaIsShorter)
      case Err(error) => Forwarded(s, Err(error), None)
      case Ok(None) => Forwarded(s.(needsFull := true), Ok(false), None)
      case Ok(Some(r)) =>
        if !context.writerAccepts then Forwarded(s, Err("outer source media writer queue is full"), None)
        else
          Forwarded(
            s.(frameId := frameId, chain := Some(r.chain.(baseFrameId := frameId))),
            Ok(true),
            Some(r.body))
  }

  /** `take_full_frame_requests`: broken chains, and sources the outer presenter asks a full frame for,
      lose their chain. */
  function Drain(s: State, outerRequests: bool): State {
    if s.needsFull || outerRequests then s.(chain := None, needsFull := false) else s
  }

  /** The outer source was created anew: identities restart and there is no chain. */
  function Recreate(s: State): State {
    State(s.config, 0, None, false)
  }

  /** A body with every frame identity erased. */
  function Anonymous(body: Body): Body {
    match body
    case Full(epoch, _, width, height, pixels) => Full(epoch, 0, width, height, pixels)
    case Delta(epoch, _, _, operations) => Delta(epoch, 0, 0, operations)
    case Malformed => Malformed
  }

  /** Inner frame identities never influence what the bridge writes or remembers. */
  lemma NoInnerIdCrosses(s: State, a: Body, b: Body, context: Context)
    requires Anonymous(a) == Anonymous(b)
    ensures Forward(s, a, context) == Forward(s, b, context)
  {
  }

  /** A complete inner body and the environment that meets it. */
  datatype Offer = Offer(body: Body, context: Context)

  datatype Delivered = Delivered(state: State, sent: seq<Body>)

  ghost function ForwardAll(s: State, offers: seq<Offer>): Delivered {
    if offers == [] then Delivered(s, [])
    else
      var init, last := ForwardAll(s, offers[..|offers| - 1]), offers[|offers| - 1];
      var r := Forward(init.state, last.body, last.context);
      Delivered(r.state, init.sent + if r.sent.Some? then [r.sent.value] else [])
  }

  /** Without a chain nothing is sent until a full frame comes. */
  lemma {:induction false} SilentUntilFull(s: State, offers: seq<Offer>)
    requires s.chain.None? && forall i :: 0 <= i < |offers| ==> !offers[i].body.Full?
    ensures ForwardAll(s, offers).sent == []
    ensures ForwardAll(s, offers).state == s.(needsFull := ForwardAll(s, offers).state.needsFull)
  {
    if offers != [] {
      SilentUntilFull(s, offers[..|offers| - 1]);
    }
  }

  /** A full frame comes to be needed exactly when a body is dropped: a delta that the chain cannot carry. */
  lemma BrokenChainAsks(s: State, body: Body, context: Context)
    requires !s.needsFull
    ensures
      var r := Forward(s, body, context);
      && (r.state.needsFull <==> r.reply == Ok(false))
      && (r.reply == Ok(false) ==> body.Delta? && r.sent.None? && r.state == s.(needsFull := true))
      && (s.chain.None? && body.Delta? && s.frameId < U64_MAX ==> r.reply == Ok(false))
  {
  }

  class RasterRelay {
    const config: Config
    var frameId: nat
    var chain: Option<Chain>
    var needsFull: bool

    ghost function Current(): State
      reads this
    {
      State(config, frameId, chain, needsFull)
    }

    constructor (config: Config)
      ensures this.config == config && Current() == State(config, 0, None, false)
    {
      this.config := config;
      frameId, chain, needsFull := 0, None, false;
    }

    method ReoriginateRaster(frameId: nat, body: Body, now: nat, deltaIsShorter: bool)
      returns (result: Result<Option<Reoriginated>>)
      ensures result == Reoriginate(Current(), frameId, body, now, deltaIsShorter)
    {
      match body
      case Malformed =>
        return Err("raster frame header is truncated");
      case Full(epoch, _, width, height, pixels) =>
        if |pixels| != Pixels.Rows(height as int, Pixels.Stride(width)) {
          return Err("malformed raster frame");
        }
        return Ok(Some(Reoriginated(ReoriginatedFull(body, frameId), Chain(epoch, 0, 0, now))));
      case Delta(epoch, _, _, operations) =>
        if config.operationLimit.None? || chain.None? {
          return Ok(None);
        }
        if !DeltaParses(body, config, config.operationLimit.value) {
          return Err("malformed raster delta");
        }
        var damage := Damage.PlainDamagePixels(operations);
        if damage.Err? {
          return Err("raster damage area overflows");
        }
        var next := chain.value;
        if now - next.windowStarted >= DAMAGE_INTERVAL_MS {
          next := next.(windowStarted := now, damage := 0);
        }
        if SaturatingAdd(next.damage, damage.value as nat) > DamageBudget(config, DAMAGE_FRAME_EQUIVALENTS) {
          return Ok(None);
        }
        var delta := ReoriginatedDelta(body, next, frameId);
        if delta.None? || !deltaIsShorter {
          return Ok(None);
        }
        next := next.(damage := SaturatingAdd(next.damage, damage.value as nat));
        return Ok(Some(Reoriginated(delta.value, next)));
    }

    method MediaChunk(body: Body, context: Context) returns (reply: Result<bool>, sent: Option<Body>)
      modifies this
      ensures Forwarded(Current(), reply, sent) == Forward(old(Current()), body, context)
    {
      sent := None;
      if frameId >= U64_MAX {
        return Err("outer raster frame ID space exhausted"), None;
      }
      var next := frameId + 1;
      var reoriginated := ReoriginateRaster(next, body, context.now, context.deltaIsShorter);
      if reoriginated.Err? {
        return Err(reoriginated.error), None;
      }
      if reoriginated.value.None? {
        needsFull := true;
        return Ok(false), None;
      }
      if !context.writerAccepts {
        return Err("outer source media writer queue is full"), None;
      }
      // The chain moves only once the writer has the body.
      frameId := next;
      chain := Some(reoriginated.value.value.chain.(baseFrameId := next));
      return Ok(true), Some(reoriginated.value.value.body);
    }

    /** Once a full frame is requested, nothing but a full frame is sent next. */
    method TakeFullFrameRequest(outerRequests: bool) returns (requested: bool)
      modifies this
      ensures Current() == Drain(old(Current()), outerRequests)
      ensures requested == (old(needsFull) || outerRequests)
      ensures requested ==>
                forall offers: seq<Offer> :: (forall i :: 0 <= i < |offers| ==> !offers[i].body.Full?) ==>
                                   ForwardAll(Current(), offers).sent == []
    {
      requested := needsFull || outerRequests;
      if requested {
        chain := None;
      }
      needsFull := false;
      if requested {
        forall offers: seq<Offer> | forall i :: 0 <= i < |offers| ==> !offers[i].body.Full?
          ensures ForwardAll(Current(), offers).sent == []
        {
          SilentUntilFull(Current(), offers);
        }
      }
    }
  }
}
