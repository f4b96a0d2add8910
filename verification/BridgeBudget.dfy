/** Which raster bodies the bridge sends on, over the whole life of an outer source (src/bridge.rs:1400-1611): a chain carries
    every shorter delta of its epoch that its damage window has room for, and nothing breaks it but what is listed here. */
module BridgeBudget {
  import opened Wrappers
  import opened FixedWidth
  import opened RasterFrames
  import opened BridgeRaster
  import Damage
  import Pixels

  datatype Event = Chunked(body: Body, context: Context) | Drained(outerRequests: bool) | Recreated

  ghost function After(s: State, event: Event): (r: State)
    ensures r.config == s.config
  {
    match event
    case Chunked(body, context) => Forward(s, body, context).state
    case Drained(outerRequests) => Drain(s, outerRequests)
    case Recreated => Recreate(s)
  }

  ghost function Life(config: Config, events: seq<Event>): (s: State)
    ensures s.config == config
  {
    if events == [] then State(config, 0, None, false)
    else After(Life(config, events[..|events| - 1]), events[|events| - 1])
  }

  ghost predicate IsSent(s: State, event: Event) {
    event.Chunked? && Forward(s, event.body, event.context).sent.Some?
  }

  /** The outgoing chain: its epoch, when its damage window started and the deltas sent in it. */
  datatype Window = Window(epoch: nat, started: nat, deltas: seq<Body>)

  /** A full frame that is sent starts a chain, a delta sent prolongs it, and a full-frame request or a new outer source ends
      it. A window lasts a second. */
  ghost function WindowAt(config: Config, events: seq<Event>): Option<Window> {
    if events == [] then None
    else
      var n := |events| - 1;
      var s, last, window := Life(config, events[..n]), events[n], WindowAt(config, events[..n]);
      match last
      case Recreated => None
      case Drained(outerRequests) => if s.needsFull || outerRequests then None else window
      case Chunked(body, context) =>
        if !IsSent(s, last) || body.Malformed? then window
        else if body.Full? then Some(Window(body.epoch, context.now, []))
        else if window.None? then None
        else if context.now - window.value.started >= 1000 then Some(Window(window.value.epoch, context.now, [body]))
        else Some(window.value.(deltas := window.value.deltas + [body]))
  }

  /** The areas a delta names, counted as often as they are named. */
  ghost function Names(body: Body): nat {
    if body.Delta? then Damage.AreaSum(Damage.AreasOf(body.operations)) else 0
  }

  ghost function NamedBy(deltas: seq<Body>): nat {
    if deltas == [] then 0 else NamedBy(deltas[..|deltas| - 1]) + Names(deltas[|deltas| - 1])
  }

  ghost function Spent(window: Window, now: nat): nat {
    if now - window.started >= 1000 then 0 else NamedBy(window.deltas)
  }

  ghost function Tolerated(config: Config): nat {
    4 * (config.width as nat * config.height as nat)
  }

  function AtMost64(n: nat): nat {
    if n <= U64_MAX then n else U64_MAX
  }

  lemma Budget(config: Config)
    ensures DamageBudget(config, DAMAGE_FRAME_EQUIVALENTS) == AtMost64(Tolerated(config))
  {
  }

  lemma Saturated(config: Config, spent: nat, more: nat)
    ensures SaturatingAdd(AtMost64(spent), more) == AtMost64(spent + more)
    ensures AtMost64(spent + more) <= AtMost64(Tolerated(config)) <==> spent + more <= Tolerated(config) || Tolerated(config) >= U64_MAX
    ensures AtMost64(spent + more) <= AtMost64(Tolerated(config)) ==> AtMost64(spent + more) <= Tolerated(config)
  {
  }

  ghost predicate HasRoom(config: Config, window: Window, body: Body, now: nat) {
    Spent(window, now) + Names(body) <= Tolerated(config) || Tolerated(config) >= U64_MAX
  }

  /** The bridge's chain is that account. */
  ghost predicate Agrees(s: State, window: Option<Window>) {
    && (s.chain.Some? <==> window.Some?)
    && (s.chain.Some? ==>
          && s.chain.value.baseFrameId == s.frameId > 0
          && s.chain.value.epoch == window.value.epoch && s.chain.value.windowStarted == window.value.started
          && s.chain.value.damage == AtMost64(NamedBy(window.value.deltas)) <= Tolerated(s.config))
  }

  /** A well-formed delta that was negotiated. */
  predicate IsKnown(config: Config, body: Body) {
    && body.Delta? && config.operationLimit.Some? && |body.operations| <= config.operationLimit.value
    && forall i :: 0 <= i < |body.operations| ==> InBounds(body.operations[i], config.width, config.height)
  }

  /** The chain can carry the delta. */
  ghost predicate IsCarried(config: Config, window: Option<Window>, body: Body, context: Context) {
    && IsKnown(config, body) && window.Some? && Names(body) <= U64_MAX
    && body.epoch == window.value.epoch && HasRoom(config, window.value, body, context.now) && context.deltaIsShorter
  }

  /** The bridge cannot make anything of the delta. */
  ghost predicate IsBroken(config: Config, window: Option<Window>, body: Body) {
    config.operationLimit.Some? && window.Some? && !(IsKnown(config, body) && Names(body) <= U64_MAX)
  }

  /** What one body does, given that the chain is as accounted. */
  ghost predicate ChunkIs(s: State, window: Option<Window>, body: Body, context: Context) {
    var r, idsLeft := Forward(s, body, context), s.frameId < U64_MAX;
    var whole := body.Full? && |body.pixels| == 4 * (body.width as int * body.height as int);
    var carried := IsCarried(s.config, window, body, context);
    && (r.sent.Some? <==> idsLeft && (whole || carried) && context.writerAccepts)
    && (r.reply == Ok(true) <==> r.sent.Some?)
    && (r.reply == Ok(false) <==> idsLeft && body.Delta? && !carried && !IsBroken(s.config, window, body))
    && (r.sent.Some? ==>
          && r.sent.value == (if body.Full? then Full(body.epoch, s.frameId + 1, body.width, body.height, body.pixels)
                              else Delta(body.epoch, s.frameId + 1, s.frameId, body.operations))
          && r.state.frameId == s.frameId + 1 && r.state.needsFull == s.needsFull && r.state.chain.Some?)
    && (r.sent.None? ==> r.state == s.(needsFull := s.needsFull || r.reply == Ok(false)))
  }

  lemma AllPixels(width: u32, height: u32)
    ensures Pixels.Rows(height as int, Pixels.Stride(width)) == 4 * (width as int * height as int)
  {
    var w, h := width as int, height as int;
    assert h * (w * 4) == (h * w) * 4 && h * w == w * h;
  }

  lemma ChunkIsExact(s: State, window: Option<Window>, body: Body, context: Context)
    requires Agrees(s, window)
    ensures ChunkIs(s, window, body, context)
  {
    if body.Delta? {
      DeltaIsExact(s, window, body, context);
    } else {
      hide IsCarried, IsBroken;
      if body.Full? { AllPixels(body.width, body.height); }
      assert !IsCarried(s.config, window, body, context) by { OnlyDeltas(s.config, window, body, context); }
    }
  }

  lemma OnlyDeltas(config: Config, window: Option<Window>, body: Body, context: Context)
    requires !body.Delta?
    ensures !IsCarried(config, window, body, context)
  {
  }

  lemma DeltaIsExact(s: State, window: Option<Window>, body: Body, context: Context)
    requires Agrees(s, window) && body.Delta?
    ensures ChunkIs(s, window, body, context)
  {
    hide Damage.AreaSum, DamageBudget, SaturatingAdd, Tolerated, NamedBy, IsKnown, DeltaParses;
    Budget(s.config);
    KnownParses(s.config, body);
    if window.Some? { Saturated(s.config, Spent(window.value, context.now), Names(body)); }
    assert AtMost64(0) == 0;
  }

  lemma KnownParses(config: Config, body: Body)
    ensures config.operationLimit.Some? ==> (IsKnown(config, body) <==> DeltaParses(body, config, config.operationLimit.value))
    ensures IsKnown(config, body) ==> config.operationLimit.Some?
  {
  }

  lemma OneMoreDelta(deltas: seq<Body>, body: Body)
    ensures NamedBy(deltas + [body]) == NamedBy(deltas) + Names(body)
  {
    assert (deltas + [body])[..|deltas|] == deltas;
  }

  /** What a sent body does to the chain. */
  lemma SentMovesChain(s: State, body: Body, context: Context)
    requires Forward(s, body, context).sent.Some?
    ensures
      var chain := Forward(s, body, context).state.chain;
      && chain.Some? && chain.value.baseFrameId == s.frameId + 1 == Forward(s, body, context).state.frameId && !body.Malformed?
      && (body.Full? ==> chain.value.epoch == body.epoch && chain.value.windowStarted == context.now && chain.value.damage == 0)
      && (body.Delta? ==>
            && s.chain.Some? && chain.value.epoch == s.chain.value.epoch
            && var expired := context.now - s.chain.value.windowStarted >= 1000;
               && chain.value.windowStarted == (if expired then context.now else s.chain.value.windowStarted)
               && chain.value.damage == SaturatingAdd(if expired then 0 else s.chain.value.damage, Names(body)))
  {
    hide Damage.AreaSum, DamageBudget, SaturatingAdd;
  }

  lemma SentAgrees(s: State, window: Option<Window>, body: Body, context: Context, next: Option<Window>)
    requires Agrees(s, window) && Forward(s, body, context).sent.Some?
    requires
      next == if body.Full? then Some(Window(body.epoch, context.now, []))
              else if window.None? || body.Malformed? then None
              else if context.now - window.value.started >= 1000 then Some(Window(window.value.epoch, context.now, [body]))
              else Some(window.value.(deltas := window.value.deltas + [body]))
    ensures Agrees(Forward(s, body, context).state, next)
  {
    hide Forward, Damage.AreaSum, Tolerated, IsKnown, SaturatingAdd;
    SentMovesChain(s, body, context);
    ChunkIsExact(s, window, body, context);
    assert Forward(s, body, context).state.config == s.config by { ForwardKeepsConfig(s, body, context); }
    if body.Delta? {
      var spent := Spent(window.value, context.now);
      Saturated(s.config, spent, Names(body));
      OneMoreDelta(window.value.deltas, body);
      OneMoreDelta([], body);
      assert [] + [body] == [body] && NamedBy([]) == 0 && AtMost64(0) == 0;
    } else {
      assert NamedBy([]) == 0;
    }
  }

  lemma ForwardKeepsConfig(s: State, body: Body, context: Context)
    ensures Forward(s, body, context).state.config == s.config
  {
  }

  /** In every life of an outer source the chain agrees with the account. */
  lemma {:induction false} ChainIsAccounted(config: Config, events: seq<Event>)
    ensures Agrees(Life(config, events), WindowAt(config, events))
  {
    hide Forward, Agrees;
    if events == [] {
      NoChain(State(config, 0, None, false));
    } else {
      var n := |events| - 1;
      ChainIsAccounted(config, events[..n]);
      var s, window := Life(config, events[..n]), WindowAt(config, events[..n]);
      match events[n]
      case Recreated => NoChain(Recreate(s));
      case Drained(outerRequests) =>
        if s.needsFull || outerRequests { NoChain(Drain(s, outerRequests)); }
      case Chunked(body, context) =>
        if IsSent(s, events[n]) {
          SentMovesChain(s, body, context);
          SentAgrees(s, window, body, context, WindowAt(config, events));
        } else {
          ChunkIsExact(s, window, body, context);
          OnlyNeeds(s, Forward(s, body, context).state, window);
        }
    }
  }

  lemma NoChain(s: State)
    requires s.chain.None?
    ensures Agrees(s, None)
  {
  }

  lemma OnlyNeeds(s: State, after: State, window: Option<Window>)
    requires Agrees(s, window) && after == s.(needsFull := after.needsFull)
    ensures Agrees(after, window)
  {
  }

  /** In a source's life a full frame is sent while ids and writer allow it, and a delta exactly when the chain carries it
      besides; a delta that is not carried, and is not broken, asks for a full frame. */
  lemma ChunkExactly(config: Config, events: seq<Event>, body: Body, context: Context)
    ensures ChunkIs(Life(config, events), WindowAt(config, events), body, context)
  {
    ChainIsAccounted(config, events);
    ChunkIsExact(Life(config, events), WindowAt(config, events), body, context);
  }

  /** A body was dropped since full-frame requests were last drained or the outer source was created. */
  ghost predicate OwesRequest(config: Config, events: seq<Event>) {
    events != []
    && var n := |events| - 1;
       events[n].Chunked?
       && (OwesRequest(config, events[..n])
           || Forward(Life(config, events[..n]), events[n].body, events[n].context).reply == Ok(false))
  }

  /** A full frame is asked for once for any number of bodies dropped in a row, and never without one. */
  lemma {:induction false} RequestIsOwed(config: Config, events: seq<Event>)
    ensures Life(config, events).needsFull <==> OwesRequest(config, events)
  {
    hide Forward;
    if events != [] {
      var n := |events| - 1;
      RequestIsOwed(config, events[..n]);
      match events[n]
      case Chunked(body, context) => ChunkExactly(config, events[..n], body, context);
      case _ =>
    }
  }
}
