/** Which raster records the inner presenter accepts, over a source's whole life (src/media.rs:3660-3769): the damage of the
    deltas accepted since a window started is accounted for exactly, and decides about the next one. */
module RasterBudget {
  import opened Wrappers
  import opened FixedWidth
  import opened RasterFrames
  import opened InnerRaster
  import Damage
  import Pixels

  // ---- A life: records come in, full frames are demanded ----

  datatype Event = Offered(body: Body, context: Context) | Demanded(code: nat)

  ghost function After(s: State, event: Event): (r: State)
    requires s.Valid()
    ensures r.Valid() && r.config == s.config
  {
    match event
    case Offered(body, context) =>
      IngestKeepsValid(s, body, context);
      Ingest(s, body, context).state
    case Demanded(code) => RequestFull(s, code)
  }

  ghost function Born(config: Config, now: nat): State {
    State(config, None, None, now, 0)
  }

  ghost function Life(config: Config, now: nat, events: seq<Event>): (s: State)
    requires Pixels.Stride(config.width) > 0
    ensures s.Valid() && s.config == config
  {
    if events == [] then Born(config, now)
    else After(Life(config, now, events[..|events| - 1]), events[|events| - 1])
  }

  /** The record was taken: it is what the source retains now. */
  ghost predicate IsAccepted(s: State, event: Event)
    requires s.Valid()
  {
    event.Offered? && var r := Ingest(s, event.body, event.context); r.outcome.Ok? && r.outcome.value.Accepted?
  }

  // ---- The account ----

  /** When the current damage window started, and the deltas accepted in it. */
  datatype Window = Window(started: nat, deltas: seq<Body>)

  /** A full frame starts a window; so does a delta that comes 100 ms or more after the start of the last one. */
  ghost function WindowAt(config: Config, now: nat, events: seq<Event>): Window
    requires Pixels.Stride(config.width) > 0
  {
    if events == [] then Window(now, [])
    else
      var n := |events| - 1;
      var last, window := events[n], WindowAt(config, now, events[..n]);
      if !IsAccepted(Life(config, now, events[..n]), last) then window
      else if last.body.Full? then Window(last.context.now, [])
      else if last.context.now - window.started >= 100 then Window(last.context.now, [last.body])
      else Window(window.started, window.deltas + [last.body])
  }

  /** How many distinct pixels a delta writes. */
  ghost function Touches(body: Body): nat {
    if body.Delta? then |Damage.Damaged(Damage.AreasOf(body.operations))| else 0
  }

  ghost function TouchedBy(deltas: seq<Body>): nat {
    if deltas == [] then 0 else TouchedBy(deltas[..|deltas| - 1]) + Touches(deltas[|deltas| - 1])
  }

  /** What counts against a delta that comes at `now`. */
  ghost function Spent(window: Window, now: nat): nat {
    if now - window.started >= 100 then 0 else TouchedBy(window.deltas)
  }

  ghost function Tolerated(config: Config): nat {
    8 * (config.width as nat * config.height as nat)
  }

  function AtMost64(n: nat): nat {
    if n <= U64_MAX then n else U64_MAX
  }

  lemma Budget(config: Config)
    ensures DamageBudget(config, DAMAGE_FRAME_EQUIVALENTS) == AtMost64(Tolerated(config))
  {
  }

  lemma Saturated(config: Config, spent: nat, more: nat)
    ensures SaturatingAdd(AtMost64(spent), more) == AtMost64(spent + more)
    ensures AtMost64(spent + more) <= AtMost64(Tolerated(config)) <==> spent + more <= Tolerated(config) || Tolerated(config) >= U64_MAX
  {
  }

  /** The source's counters are that account: the damage counter is the number of pixels touched by the deltas of the
      window, and never exceeds eight whole images. (With more than 2^61 pixels it stops at 64 bits.) */
  lemma {:induction false} AccountIsExact(config: Config, now: nat, events: seq<Event>)
    requires Pixels.Stride(config.width) > 0
    ensures
      var s, window := Life(config, now, events), WindowAt(config, now, events);
      && s.windowStarted == window.started && s.windowDamage == AtMost64(TouchedBy(window.deltas))
      && s.windowDamage <= Tolerated(config)
      && (Tolerated(config) < U64_MAX ==> s.windowDamage == TouchedBy(window.deltas))
  {
    hide Ingest, Tolerated, Damage.Damaged;
    if events != [] {
      var n := |events| - 1;
      AccountIsExact(config, now, events[..n]);
      var s, window := Life(config, now, events[..n]), WindowAt(config, now, events[..n]);
      match events[n]
      case Demanded(_) =>
      case Offered(body, context) =>
        IngestMovesWindow(s, body, context);
        if IsAccepted(s, events[n]) && body.Delta? {
          var spent := Spent(window, context.now);
          Saturated(config, spent, Touches(body));
          OneMoreDelta(window.deltas, body);
          assert TouchedBy([]) == 0 && [] + [body] == [body];
          OneMoreDelta([], body);
          AtMostTolerated(config, spent + Touches(body));
        }
    }
  }

  lemma OneMoreDelta(deltas: seq<Body>, body: Body)
    ensures TouchedBy(deltas + [body]) == TouchedBy(deltas) + Touches(body)
  {
    assert (deltas + [body])[..|deltas|] == deltas;
  }

  lemma AtMostTolerated(config: Config, n: nat)
    ensures AtMost64(n) <= AtMost64(Tolerated(config)) ==> AtMost64(n) <= Tolerated(config)
  {
  }

  /** What one record does to the window. */
  lemma IngestMovesWindow(s: State, body: Body, context: Context)
    requires s.Valid()
    ensures
      var after := Ingest(s, body, context).state;
      if IsAccepted(s, Offered(body, context)) then
        && !body.Malformed?
        && (body.Full? ==> after.windowStarted == context.now && after.windowDamage == 0)
        && (body.Delta? ==>
              var expired := context.now - s.windowStarted >= 100;
              && after.windowStarted == (if expired then context.now else s.windowStarted)
              && after.windowDamage == SaturatingAdd(if expired then 0 else s.windowDamage, Touches(body))
              && after.windowDamage <= AtMost64(Tolerated(s.config)))
      else after.windowStarted == s.windowStarted && after.windowDamage == s.windowDamage
  {
    hide Damage.Damaged, Pixels.AppliedAll, DamageBudget;
    Budget(s.config);
  }

  // ---- Decisions ----

  /** The delta was negotiated and is well formed. */
  predicate IsKnown(config: Config, body: Body) {
    && body.Delta? && config.operationLimit.Some? && |body.operations| <= config.operationLimit.value
    && forall i :: 0 <= i < |body.operations| ==> InBounds(body.operations[i], config.width, config.height)
  }

  /** The delta is based on exactly what the source retains. */
  predicate Continues(s: State, body: Body) {
    body.Delta? && s.retained.Some? && body.epoch == s.retained.value.epoch && body.baseFrameId == s.retained.value.frameId
  }

  /** The window has room for the pixels the delta touches. */
  ghost predicate HasRoom(config: Config, window: Window, body: Body, now: nat) {
    Spent(window, now) + Touches(body) <= Tolerated(config) || Tolerated(config) >= U64_MAX
  }

  /** A delta in a source's life is accepted exactly when it is known, no full frame is owed, it continues what is retained, the
      window has room for it, and sequence and quota allow it; the image is then the composed one. It is rejected, with
      a full frame owed from then on, when it is known and one of the next three fails. Anything else changes nothing. */
  lemma DeltaExactly(config: Config, now: nat, events: seq<Event>, body: Body, context: Context)
    requires Pixels.Stride(config.width) > 0 && body.Delta?
    ensures
      var s, window := Life(config, now, events), WindowAt(config, now, events);
      var r, room := Ingest(s, body, context), HasRoom(config, window, body, context.now);
      var accepted := IsAccepted(s, Offered(body, context));
      var rejected := r.outcome.Ok? && r.outcome.value.Rejected?;
      && (accepted <==>
            IsKnown(config, body) && s.requiresFull.None? && Continues(s, body) && room
            && context.sequenceAccepts && context.quotaAllows)
      && (rejected <==> IsKnown(config, body) && (s.requiresFull.Some? || !Continues(s, body) || !room))
      && (accepted ==>
            && r.state.requiresFull.None?
            && r.state.retained
               == Some(Frame(body.epoch, body.frameId,
                             Pixels.AppliedAll(s.retained.value.pixels, config.width, config.height, body.operations)))
            && r.forward == if !context.queued then None
                            else if context.deltaIsShorter then Some(body)
                            else Some(Full(body.epoch, body.frameId, config.width, config.height, r.state.retained.value.pixels)))
      && (rejected ==>
            && r.outcome.value
               == (if s.requiresFull.Some? then Rejected(s.requiresFull.value, false)
                   else if !Continues(s, body) then Rejected(BaseUnavailable, true)
                   else Rejected(DamageBudgetExceeded, true))
            && r.state == s.(requiresFull := Some(r.outcome.value.reason)) && r.forward.None?)
      && (!accepted && !rejected ==> r.outcome.Err? && r.state == s && r.forward.None?)
  {
    hide Damage.Damaged, Pixels.AppliedAll, TouchedBy, Life, WindowAt, Tolerated, DamageBudget, SaturatingAdd;
    AccountIsExact(config, now, events);
    Budget(config);
    var s, window := Life(config, now, events), WindowAt(config, now, events);
    Saturated(config, Spent(window, context.now), Touches(body));
    assert AtMost64(0) == 0;
  }

  lemma AllRows(width: u32, height: u32)
    ensures Pixels.Rows(height as int, Pixels.Stride(width)) == 4 * (width as int * height as int)
  {
    var w, h := width as int, height as int;
    assert h * (w * 4) == (h * w) * 4 && h * w == w * h;
  }

  /** A full frame is accepted exactly when it has the source's dimensions and all its pixels, and sequence and quota allow it. */
  lemma FullExactly(s: State, body: Body, context: Context)
    requires s.Valid() && !body.Delta?
    ensures
      var r := Ingest(s, body, context);
      if body.Full? && body.width == s.config.width && body.height == s.config.height
         && |body.pixels| == 4 * (body.width as int * body.height as int) && context.sequenceAccepts && context.quotaAllows
      then
        && IsAccepted(s, Offered(body, context)) && r.state.requiresFull.None?
        && r.state.retained == Some(Frame(body.epoch, body.frameId, body.pixels))
        && r.forward == if context.queued then Some(body) else None
      else r.outcome.Err? && r.state == s && r.forward.None?
  {
    if body.Full? {
      AllRows(body.width, body.height);
    }
  }

  /** Once the bridge or the outer presenter demands a full frame, the image and what is sent stay as they are until one is
      accepted, however many deltas come. */
  lemma {:induction false} DemandLasts(config: Config, now: nat, events: seq<Event>, code: nat, more: seq<Event>)
    requires Pixels.Stride(config.width) > 0
    requires forall i :: 0 <= i < |more| ==> !(more[i].Offered? && more[i].body.Full?)
    ensures
      var before, after := Life(config, now, events), Life(config, now, events + [Demanded(code)] + more);
      && after.retained == before.retained && after.requiresFull.Some?
      && after.windowStarted == before.windowStarted && after.windowDamage == before.windowDamage
      && (forall body: Body, context: Context :: !body.Full? ==> Ingest(after, body, context).forward.None?)
  {
    hide Ingest;
    var all := events + [Demanded(code)] + more;
    if more == [] {
      assert all[..|all| - 1] == events && all[|all| - 1] == Demanded(code);
      assert Life(config, now, all) == RequestFull(Life(config, now, events), code);
    } else {
      var n := |more| - 1;
      DemandLasts(config, now, events, code, more[..n]);
      assert all[..|all| - 1] == events + [Demanded(code)] + more[..n] && all[|all| - 1] == more[n];
      if more[n].Offered? {
        DemandHolds(Life(config, now, all[..|all| - 1]), more[n].body, more[n].context);
      }
    }
    var after := Life(config, now, all);
    forall body: Body, context: Context | !body.Full? ensures Ingest(after, body, context).forward.None? {
      DemandHolds(after, body, context);
    }
  }
}
