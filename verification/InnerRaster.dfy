/** The inner presenter's side of a raster source (src/media.rs): composing deltas onto the retained
    frame, demanding a full frame when that is impossible, and choosing the body to forward. */
module InnerRaster {
  import opened Wrappers
  import opened FixedWidth
  import opened RasterFrames
  import Damage
  import Pixels

  const DAMAGE_FRAME_EQUIVALENTS: nat := 8
  const DAMAGE_INTERVAL_MS: nat := 100

  datatype Reason = BaseUnavailable | DamageBudgetExceeded | Requested(code: nat)

  /** The raster fields of one `Source`. `retained` is the canonical full frame. */
  datatype State = State(
    config: Config,
    retained: Option<Frame>,
    requiresFull: Option<Reason>,
    windowStarted: nat,
    windowDamage: nat) {

    ghost predicate Valid() {
      && Pixels.Stride(config.width) > 0
      && (retained.Some? ==> Pixels.Sized(retained.value.pixels, config.width, config.height))
    }
  }

  datatype Preparation =
    | Accepted(frame: Frame, windowStarted: nat, windowDamage: nat)
    | Rejected(reason: Reason, notify: bool)

  /** What `prepare_raster` decides. `sequenceAccepts` is the verdict of `MediaSequence::accept` on the
      body's identity; `now` is the clock. */
  ghost function Prepared(s: State, body: Body, now: nat, sequenceAccepts: bool): Result<Preparation>
    requires s.Valid()
  {
    match body
    case Malformed => Err("raster frame header is truncated")
    case Full(epoch, frameId, width, height, pixels) =>
      if width != s.config.width || height != s.config.height || !Pixels.Sized(pixels, width, height) then
        Err("raster dimensions changed")
      else if !sequenceAccepts then Err("raster frame out of sequence")
      else Ok(Accepted(Frame(epoch, frameId, pixels), now, 0))
    case Delta(epoch, frameId, baseFrameId, operations) =>
      if s.config.operationLimit.None? then Err("raster delta was not enabled by CREATE_RASTER")
      else if !DeltaParses(body, s.config, s.config.operationLimit.value) then Err("malformed raster delta")
      else if s.requiresFull.Some? then Ok(Rejected(s.requiresFull.value, false))
      else if s.retained.None? then Ok(Rejected(BaseUnavailable, true))
      else if epoch != s.retained.value.epoch || baseFrameId != s.retained.value.frameId then
        Ok(Rejected(BaseUnavailable, true))
      else
        var damage := |Damage.Damaged(Damage.AreasOf(operations))|;
        var expired := now - s.windowStarted >= DAMAGE_INTERVAL_MS;
        var started := if expired then now else s.windowStarted;
        var accumulated := SaturatingAdd(if expired then 0 else s.windowDamage, damage);
        if accumulated > DamageBudget(s.config, DAMAGE_FRAME_EQUIVALENTS) then Ok(Rejected(DamageBudgetExceeded, true))
        else if !sequenceAccepts then Err("raster frame out of sequence")
        else
          var pixels := Pixels.AppliedAll(s.retained.value.pixels, s.config.width, s.config.height, operations);
          Ok(Accepted(Frame(epoch, frameId, pixels), started, accumulated))
  }

  /** What one record does to the source and which body it hands on towards the bridge. */
  datatype Ingested = Ingested(state: State, outcome: Result<Preparation>, forward: Option<Body>)

  /** The environment of one ingest: the clock, the sequence check, the retained-byte quota, whether the
      source is projected and the delivery queue has room, and whether the delta encodes shorter than
      the full frame. */
  datatype Context = Context(now: nat, sequenceAccepts: bool, quotaAllows: bool, queued: bool, deltaIsShorter: bool)

  function CanonicalFull(config: Config, frame: Frame): Body {
    Full(frame.epoch, frame.frameId, config.width, config.height, frame.pixels)
  }

  ghost function Ingest(s: State, body: Body, context: Context): Ingested
    requires s.Valid()
  {
    var prepared := Prepared(s, body, context.now, context.sequenceAccepts);
    match prepared
    case Err(_) => Ingested(s, prepared, None)
    case Ok(Rejected(reason, _)) => Ingested(s.(requiresFull := Some(reason)), prepared, None)
    case Ok(Accepted(frame, started, damage)) =>
      if !context.quotaAllows then Ingested(s, Err("aggregate retained media quota exceeded"), None)
      else
        var forward := if body.Delta? && context.deltaIsShorter then body else CanonicalFull(s.config, frame);
        Ingested(
          State(s.config, Some(frame), None, started, damage),
          prepared,
          if context.queued then Some(forward) else None)
  }

  /** `request_full_frames` on one live raster source: further deltas are refused until a full frame. */
  function RequestFull(s: State, code: nat): State {
    s.(requiresFull := Some(Requested(code)))
  }

  lemma IngestKeepsValid(s: State, body: Body, context: Context)
    requires s.Valid()
    ensures Ingest(s, body, context).state.Valid()
  {
  }

  /** While a full frame is demanded no delta changes the image or reaches the bridge; an accepted full
      frame lifts the demand. */
  lemma DemandHolds(s: State, body: Body, context: Context)
    requires s.Valid() && s.requiresFull.Some?
    ensures
      var after := Ingest(s, body, context);
      && (after.state.retained != s.retained || after.forward.Some? ==> body.Full?)
      && (after.outcome.Ok? && after.outcome.value.Accepted? <==> after.state.requiresFull.None?)
      && (!body.Full? ==> after.state == s)
  {
  }

  // ---- In place ----

  class RasterSource {
    const config: Config
    var retained: Option<Frame>
    var requiresFull: Option<Reason>
    var windowStarted: nat
    var windowDamage: nat

    ghost function Current(): State
      reads this
    {
      State(config, retained, requiresFull, windowStarted, windowDamage)
    }

    constructor (config: Config, now: nat)
      requires Pixels.Stride(config.width) > 0
      ensures this.config == config && Current() == State(config, None, None, now, 0) && Current().Valid()
    {
      this.config := config;
      retained, requiresFull, windowStarted, windowDamage := None, None, now, 0;
    }

    method PrepareRaster(body: Body, now: nat, sequenceAccepts: bool) returns (result: Result<Preparation>)
      requires Current().Valid()
      ensures result == Prepared(Current(), body, now, sequenceAccepts)
    {
      match body
      case Malformed =>
        return Err("raster frame header is truncated");
      case Full(epoch, frameId, width, height, pixels) =>
        if width != config.width || height != config.height || |pixels| != Pixels.Rows(height as int, Pixels.Stride(width)) {
          return Err("raster dimensions changed");
        }
        if !sequenceAccepts {
          return Err("raster frame out of sequence");
        }
        return Ok(Accepted(Frame(epoch, frameId, pixels), now, 0));
      case Delta(epoch, frameId, baseFrameId, operations) =>
        if config.operationLimit.None? {
          return Err("raster delta was not enabled by CREATE_RASTER");
        }
        if !DeltaParses(body, config, config.operationLimit.value) {
          return Err("malformed raster delta");
        }
        if requiresFull.Some? {
          return Ok(Rejected(requiresFull.value, false));
        }
        if retained.None? {
          return Ok(Rejected(BaseUnavailable, true));
        }
        if epoch != retained.value.epoch || baseFrameId != retained.value.frameId {
          return Ok(Rejected(BaseUnavailable, true));
        }
        result := PrepareDelta(body, now, sequenceAccepts);
    }

    method PrepareDelta(body: Body, now: nat, sequenceAccepts: bool) returns (result: Result<Preparation>)
      requires Current().Valid()
      requires config.operationLimit.Some? && DeltaParses(body, config, config.operationLimit.value)
      requires requiresFull.None? && retained.Some?
      requires body.epoch == retained.value.epoch && body.baseFrameId == retained.value.frameId
      ensures result == Prepared(Current(), body, now, sequenceAccepts)
      ensures
        var spent := if now - windowStarted >= 100 then 0 else windowDamage;
        var tolerated := 8 * (config.width as nat * config.height as nat);
        if spent + |Damage.Damaged(Damage.AreasOf(body.operations))| > tolerated && tolerated < U64_MAX then
          result == Ok(Rejected(DamageBudgetExceeded, true))
        else if sequenceAccepts then
          && result.Ok? && result.value.Accepted?
          && result.value.frame
             == Frame(body.epoch, body.frameId,
                      Pixels.AppliedAll(retained.value.pixels, config.width, config.height, body.operations))
        else result.Err?
    {
      var counted := Damage.RasterDamagePixels(body.operations, config.width, config.height);
      var started, accumulated := windowStarted, windowDamage;
      if now - started >= DAMAGE_INTERVAL_MS {
        started, accumulated := now, 0;
      }
      accumulated := SaturatingAdd(accumulated, counted.value as nat);
      if accumulated > DamageBudget(config, DAMAGE_FRAME_EQUIVALENTS) {
        return Ok(Rejected(DamageBudgetExceeded, true));
      }
      var base := retained.value.pixels;
      var pixels := new byte[|base|](i requires 0 <= i < |base| => base[i]);
      assert pixels[..] == base;
      Pixels.ApplyOperations(pixels, config.width, config.height, body.operations);
      if !sequenceAccepts {
        return Err("raster frame out of sequence");
      }
      result := Ok(Accepted(Frame(body.epoch, body.frameId, pixels[..]), started, accumulated));
    }

    method IngestRaster(body: Body, context: Context) returns (outcome: Result<Preparation>, forward: Option<Body>)
      requires Current().Valid()
      modifies this
      ensures Ingested(Current(), outcome, forward) == Ingest(old(Current()), body, context)
      ensures Current().Valid()
    {
      outcome := PrepareRaster(body, context.now, context.sequenceAccepts);
      forward := None;
      if outcome.Ok? && outcome.value.Rejected? {
        requiresFull := Some(outcome.value.reason);
      } else if outcome.Ok? && !context.quotaAllows {
        outcome := Err("aggregate retained media quota exceeded");
      } else if outcome.Ok? {
        var frame := outcome.value.frame;
        if context.queued {
          forward := Some(if body.Delta? && context.deltaIsShorter then body else CanonicalFull(config, frame));
        }
        retained, requiresFull := Some(frame), None;
        windowStarted, windowDamage := outcome.value.windowStarted, outcome.value.windowDamage;
      }
    }
  }
}
