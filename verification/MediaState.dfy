/** The state of the inner presenter behind its lock, and what each critical section does to it (src/media.rs).
    Records are abstracted to their length and the fields the sections look at; the verdicts of the media codec
    and of `prepare_raster` are inputs, and so is whether a producer's writer is still there. */
module MediaState {
  import opened Wrappers
  import opened FixedWidth
  import opened MapSums
  import opened MediaCredit

  // ---- Data ----

  /** Sources and nodes are named by their producer and the producer's own id. */
  datatype Key = Key(producer: nat, id: nat)

  datatype Kind = Raster | Image | Video | Audio(linkedVideo: Option<nat>)

  predicate IsStatic(kind: Kind) {
    kind.Raster? || kind.Image?
  }

  datatype Reason = Initial | DecoderError | EpochDiscontinuity | DeviceReset | TransportLoss | Unknown(code: nat)

  /** `retained` is the length of the retained body. */
  datatype Source = Source(
    kind: Kind, credit: Credit, retained: Option<nat>, retainedBytes: nat, playing: bool, ended: bool,
    desynchronized: bool, epoch: nat, minimumEpoch: nat, pendingReason: Option<Reason>, posterDenied: bool)

  datatype Anchor = Anchor(line: int, column: nat)

  datatype Producer = Producer(pane: nat, anchors: map<nat, Anchor>)

  datatype Node = Node(producer: nat, id: nat, source: nat, pane: nat, anchorId: Option<nat>, retainedAnchor: Option<Anchor>)

  datatype Delivery = Delivery(source: Key, creditBytes: nat, queuedBytes: nat)

  datatype Config = Config(maxSources: nat, maxNodes: nat, retainedLimit: nat, queueLimit: nat)

  /** `attached` tells whether a bridge takes media events. */
  datatype Media = Media(
    config: Config, producers: map<nat, Producer>, sources: map<Key, Source>, nodes: map<Key, Node>,
    deliveries: map<nat, Delivery>, nextDeliveryId: nat, queuedBytes: nat, retainedBytes: nat, projected: set<Key>,
    activePanes: set<nat>, attached: bool)

  function Initially(config: Config, attached: bool): Media {
    Media(config, map[], map[], map[], map[], 0, 0, 0, {}, {}, attached)
  }

  function WithSource(m: Media, key: Key, source: Source): Media {
    m.(sources := m.sources[key := source])
  }

  // ---- Credit and deliveries ----

  /** A grant on its way to a producer. */
  datatype Granted = Granted(key: Key, grant: Grant)

  datatype Released = Released(media: Media, grants: seq<Granted>)

  /** `prepare_credit_return`: the credit of a source that is gone is granted as it is. */
  function ReturnCredit(m: Media, key: Key, bytes: nat, packets: nat): Released {
    if key !in m.sources then Released(m, [Granted(key, Grant(bytes, packets))])
    else
      var source := m.sources[key];
      var returned := Return(source.credit, bytes, packets, key in m.projected);
      Released(WithSource(m, key, source.(credit := returned.credit)), [Granted(key, returned.grant)])
  }

  /** Taking one delivery out of the queue and returning its credit. */
  function TakeDelivery(m: Media, id: nat): Released {
    if id !in m.deliveries then Released(m, [])
    else
      var pending := m.deliveries[id];
      var taken := m.(deliveries := m.deliveries - {id}, queuedBytes := SaturatingSub(m.queuedBytes, pending.queuedBytes));
      ReturnCredit(taken, pending.source, pending.creditBytes, 1)
  }

  function TakeDeliveries(m: Media, ids: seq<nat>): Released {
    if ids == [] then Released(m, [])
    else
      var init := TakeDeliveries(m, ids[..|ids| - 1]);
      var last := TakeDelivery(init.media, ids[|ids| - 1]);
      Released(last.media, init.grants + last.grants)
  }

  // ---- Ingest ----

  datatype RasterVerdict = Malformed | Rejected | Accepted(epoch: nat, fullBytes: nat, delta: bool)

  datatype Payload =
    | RasterFrame(verdict: RasterVerdict)
    | ImageData(decodes: bool)
    | VideoPacket(fits: bool, epoch: nat, key: bool)
    | AudioPacket(fits: bool, epoch: nat)

  datatype Record = Record(bytes: nat, payload: Payload)

  datatype Outcome = Refused(error: string) | DeltaRejected | Queued(deliveryId: nat) | NotQueued(requestKeyframe: bool)

  /** `consumed` is the byte credit the record was charged, together with one packet when it is not zero. */
  datatype Ingested = Ingested(media: Media, outcome: Outcome, consumed: nat, grants: seq<Granted>)

  predicate PayloadMatches(kind: Kind, payload: Payload) {
    match kind
    case Raster => payload.RasterFrame?
    case Image => payload.ImageData?
    case Video => payload.VideoPacket?
    case Audio(_) => payload.AudioPacket?
  }

  /** Decoding a matching record: what it changes at once, before the quota is checked. */
  function Decoded(source: Source, payload: Payload, projected: bool): Result<Source>
    requires PayloadMatches(source.kind, payload)
  {
    match payload
    case RasterFrame(_) => Ok(source)
    case ImageData(_) =>
      if source.retained.Some? then Err("image body count or length is invalid") else Ok(source)
    case VideoPacket(fits, epoch, isKey) =>
      if !fits then Err("video access unit exceeds source maximum")
      else
        var accepted := source.(epoch := epoch);
        if source.desynchronized && epoch >= source.minimumEpoch && isKey then
          Ok(accepted.(desynchronized := false, pendingReason := None))
        else Ok(accepted.(desynchronized := source.desynchronized || !projected))
    case AudioPacket(fits, epoch) =>
      if !fits then Err("audio access unit exceeds source maximum") else Ok(source.(epoch := epoch))
  }

  function NewRetained(record: Record): Option<nat> {
    match record.payload
    case RasterFrame(verdict) => if verdict.Accepted? then Some(verdict.fullBytes) else None
    case ImageData(_) => Some(record.bytes)
    case _ => None
  }

  /** A raster goes out as whichever is smaller, its delta or the composed full frame. */
  function ForwardedBytes(record: Record): nat {
    if record.payload.RasterFrame? && record.payload.verdict.Accepted?
       && !(record.payload.verdict.delta && record.bytes < record.payload.verdict.fullBytes)
    then record.payload.verdict.fullBytes
    else record.bytes
  }

  predicate LinkedVideoReady(m: Media, key: Key, kind: Kind) {
    kind.Audio? && kind.linkedVideo.Some? && Key(key.producer, kind.linkedVideo.value) in m.sources ==>
      !m.sources[Key(key.producer, kind.linkedVideo.value)].desynchronized
  }

  /** Whether a live record goes out: its source is visible and synchronized, and so is the video it is linked to. */
  predicate ForwardTimed(m: Media, key: Key)
    requires key in m.sources
  {
    var source := m.sources[key];
    !source.kind.Image? && key in m.projected && !source.desynchronized && LinkedVideoReady(m, key, source.kind)
  }

  predicate QueueAdmits(m: Media, bytes: nat) {
    m.attached && (m.queuedBytes == 0 || SaturatingAdd(m.queuedBytes, bytes) <= m.config.queueLimit)
  }

  /** The end of an ingest, once the record is stored: queue it towards the bridge or return its credit. */
  function Dispatch(m: Media, key: Key, record: Record): Ingested
    requires key in m.sources
  {
    var forward := ForwardTimed(m, key);
    if forward && QueueAdmits(m, ForwardedBytes(record)) then
      if m.nextDeliveryId >= U64_MAX then Ingested(m, Refused("bridge delivery IDs exhausted"), record.bytes, [])
      else
        var id := m.nextDeliveryId + 1;
        var queued := m.(nextDeliveryId := id,
                         queuedBytes := SaturatingAdd(m.queuedBytes, ForwardedBytes(record)),
                         deliveries := m.deliveries[id := Delivery(key, record.bytes, ForwardedBytes(record))]);
        Ingested(queued, Queued(id), record.bytes, [])
    else
      var lost := forward && m.sources[key].kind.Video?;
      var dropped := if lost then WithSource(m, key, m.sources[key].(desynchronized := true)) else m;
      var released := ReturnCredit(dropped, key, record.bytes, 1);
      Ingested(released.media, NotQueued(lost), record.bytes, released.grants)
  }

  function Stored(source: Source, record: Record): Source {
    var kept := NewRetained(record);
    if kept.None? then source
    else
      source.(retained := kept, retainedBytes := kept.value,
              epoch := if record.payload.RasterFrame? && record.payload.verdict.Accepted? then record.payload.verdict.epoch
                       else source.epoch)
  }

  /** The retained bytes of all sources once this record replaces what its source retains. */
  function RetainedTotal(m: Media, key: Key, record: Record): nat
    requires key in m.sources
  {
    var kept := NewRetained(record);
    SaturatingSub(m.retainedBytes, m.sources[key].retainedBytes) + if kept.Some? then kept.value else 0
  }

  function Store(m: Media, key: Key, decoded: Source, record: Record): Media
    requires key in m.sources
  {
    WithSource(m, key, Stored(decoded, record)).(retainedBytes := RetainedTotal(m, key, record))
  }

  /** The rest of an ingest after the record's credit is charged. */
  function IngestCharged(m: Media, key: Key, record: Record): Ingested
    requires key in m.sources
  {
    var source := m.sources[key];
    if !PayloadMatches(source.kind, record.payload) then
      Ingested(m, Refused("media record type does not match source"), record.bytes, [])
    else if record.payload.RasterFrame? && record.payload.verdict.Malformed? then
      Ingested(m, Refused("raster frame is malformed"), record.bytes, [])
    else if record.payload.RasterFrame? && record.payload.verdict.Rejected? then
      var released := ReturnCredit(m, key, record.bytes, 1);
      Ingested(released.media, DeltaRejected, record.bytes, released.grants)
    else
      var decoded := Decoded(source, record.payload, key in m.projected);
      if decoded.Err? then Ingested(m, Refused(decoded.error), record.bytes, [])
      else if RetainedTotal(m, key, record) > m.config.retainedLimit then
        Ingested(WithSource(m, key, decoded.value), Refused("aggregate retained media quota exceeded"), record.bytes, [])
      else Dispatch(Store(m, key, decoded.value, record), key, record)
  }

  function Ingest(m: Media, key: Key, record: Record): Ingested {
    if key !in m.sources then Ingested(m, Refused("source no longer exists"), 0, [])
    else
      var source := m.sources[key];
      if source.kind.Image? && record.payload.ImageData? && !record.payload.decodes then
        Ingested(m, Refused("image decoder rejected body"), 0, [])
      else
        var consumed := Consume(source.credit, record.bytes);
        var charged := WithSource(m, key, source.(credit := consumed.credit));
        if !consumed.accepted then
          Ingested(charged, Refused("media record exceeds outstanding source credit"), 0, [])
        else IngestCharged(charged, key, record)
  }

  /** Losing synchronization with the bridge, for a video source only. */
  function Desynchronize(m: Media, key: Key): Media {
    if key in m.sources && m.sources[key].kind.Video? then
      WithSource(m, key, m.sources[key].(desynchronized := true))
    else m
  }

  /** The actor's queue was full or gone when the event was handed over. */
  function SendFailed(m: Media, key: Key, id: nat): Released {
    var released := TakeDelivery(m, id);
    Released(Desynchronize(released.media, key), released.grants)
  }

  datatype Completed = Completed(media: Media, known: bool, requestKeyframe: bool, grants: seq<Granted>)

  /** The bridge reports whether a delivery reached the outer presenter. */
  function CompleteDelivery(m: Media, id: nat, delivered: bool): Completed {
    if id !in m.deliveries then Completed(m, false, false, [])
    else
      var key := m.deliveries[id].source;
      var failed :=
        !delivered && key in m.projected && key in m.sources && m.sources[key].kind.Video? && !m.sources[key].ended;
      var released := TakeDelivery(if failed then Desynchronize(m, key) else m, id);
      Completed(released.media, true, failed, released.grants)
  }

  // ---- Playback ----

  function Flush(m: Media, key: Key, epoch: nat): Media {
    if key !in m.sources then m
    else
      WithSource(m, key, m.sources[key].(epoch := 0, minimumEpoch := epoch, ended := false, desynchronized := true))
  }

  function EndOfStream(m: Media, key: Key): Media {
    if key !in m.sources then m
    else
      var ended := m.sources[key].(ended := true);
      WithSource(m, key, if IsStatic(ended.kind) then ended else ended.(retained := None, retainedBytes := 0))
  }

  function SetPlaying(m: Media, key: Key, playing: bool): Media {
    if key !in m.sources || IsStatic(m.sources[key].kind) then m
    else WithSource(m, key, m.sources[key].(playing := playing))
  }

  /** A projection snapshot: the visible sources, and the deliveries of those no longer visible given up. */
  function Project(m: Media, visible: set<Key>, panes: set<nat>, hidden: seq<nat>): Released {
    var released := TakeDeliveries(m.(projected := visible), hidden);
    Released(released.media.(activePanes := panes), released.grants)
  }

  function Deactivate(m: Media, ids: seq<nat>): Released {
    var sources :=
      map key | key in m.sources ::
        if m.sources[key].kind.Video? && m.sources[key].playing then m.sources[key].(desynchronized := true)
        else m.sources[key];
    TakeDeliveries(m.(projected := {}, sources := sources), ids)
  }

  // ---- Keyframe requests ----

  function Normalize(reason: Reason): Reason {
    if reason.Unknown? then DecoderError else reason
  }

  function Max(a: nat, b: nat): nat {
    if a >= b then a else b
  }

  /** The epoch a request asks for, given the source's current one. Epochs are 32 bits wide. */
  function RequestedEpoch(current: nat, minimum: Option<nat>, reason: Reason): nat {
    if reason.TransportLoss? then current
    else if minimum.Some? then Max(minimum.value, current)
    else if reason.Initial? then current
    else if current >= U32_MAX then current else current + 1
  }

  datatype Request = Request(key: Key, minimum: Option<nat>, reason: Reason, writable: bool)

  datatype Answer = Emitted(minimum: nat, reason: Reason) | Damped | Ignored

  predicate IsDamped(source: Source, minimum: nat, reason: Reason) {
    && source.pendingReason.Some?
    && minimum <= source.minimumEpoch
    && !(source.pendingReason.value.TransportLoss? && !reason.TransportLoss?)
  }

  function MergedReason(pending: Option<Reason>, reason: Reason): Reason {
    if pending.None? || pending.value == reason || pending.value.TransportLoss? then reason
    else if reason.TransportLoss? then pending.value
    else DecoderError
  }

  function AnswerRequest(m: Media, request: Request): Answer {
    if request.key !in m.sources || !m.sources[request.key].kind.Video? || m.sources[request.key].ended then Ignored
    else
      var source, reason := m.sources[request.key], Normalize(request.reason);
      var minimum := RequestedEpoch(source.epoch, request.minimum, reason);
      if IsDamped(source, minimum, reason) then Damped
      else if request.key.producer !in m.producers || !request.writable then Ignored
      else Emitted(Max(source.minimumEpoch, minimum), MergedReason(source.pendingReason, reason))
  }

  function RequestKeyframe(m: Media, request: Request): Media {
    match AnswerRequest(m, request)
    case Emitted(minimum, reason) =>
      WithSource(m, request.key,
                 m.sources[request.key].(minimumEpoch := minimum, pendingReason := Some(reason), desynchronized := true))
    case _ => m
  }

  function RequestKeyframes(m: Media, requests: seq<Request>): Media {
    if requests == [] then m
    else RequestKeyframe(RequestKeyframes(m, requests[..|requests| - 1]), requests[|requests| - 1])
  }

  // ---- Producers, sources and scenes ----

  function Register(m: Media, producer: nat, pane: nat): Media {
    m.(producers := m.producers[producer := Producer(pane, map[])])
  }

  function CreateSource(m: Media, key: Key, kind: Kind, maximum: nat, posterDenied: bool): Result<Media> {
    if |m.sources| >= m.config.maxSources then Err("source quota exceeded")
    else if maximum > m.config.retainedLimit then Err("source cannot receive one maximum legal record")
    else if key in m.sources then Err("source ID already exists")
    else
      var source := Source(kind, Fresh(maximum), None, 0, false, false, false, 0, 0, None, posterDenied);
      var visible := m.attached && key.producer in m.producers && m.producers[key.producer].pane in m.activePanes;
      Ok(WithSource(m, key, source).(projected := if visible then m.projected + {key} else m.projected))
  }

  datatype Mutation = Create(node: Node) | Update(node: Node) | Delete(owner: nat, id: nat)

  function NodeKey(node: Node): Key {
    Key(node.producer, node.id)
  }

  function NodeSource(node: Node): Key {
    Key(node.producer, node.source)
  }

  function ValidateNode(m: Media, producer: nat, node: Node): Result<()> {
    if node.producer != producer || NodeSource(node) !in m.sources then Err("node source is outside producer scope")
    else if node.anchorId.None? then Ok(())
    else if producer !in m.producers then Err("producer missing")
    else if node.anchorId.value !in m.producers[producer].anchors then Err("node anchor does not exist")
    else Ok(())
  }

  function Mutate(m: Media, producer: nat, nodes: map<Key, Node>, mutation: Mutation): Result<map<Key, Node>> {
    match mutation
    case Create(node) =>
      var valid := ValidateNode(m, producer, node);
      if valid.Err? then Err(valid.error)
      else if NodeKey(node) in nodes then Err("node ID already exists")
      else Ok(nodes[NodeKey(node) := node])
    case Update(node) =>
      var valid := ValidateNode(m, producer, node);
      if valid.Err? then Err(valid.error)
      else if NodeKey(node) !in nodes then Err("updated node does not exist")
      else Ok(nodes[NodeKey(node) := node])
    case Delete(owner, id) =>
      if Key(owner, id) !in nodes then Err("deleted node does not exist") else Ok(nodes - {Key(owner, id)})
  }

  function MutateAll(m: Media, producer: nat, mutations: seq<Mutation>): Result<map<Key, Node>> {
    if mutations == [] then Ok(m.nodes)
    else
      match MutateAll(m, producer, mutations[..|mutations| - 1])
      case Err(error) => Err(error)
      case Ok(nodes) => Mutate(m, producer, nodes, mutations[|mutations| - 1])
  }

  /** `structureValid` is the verdict of the protocol library on the whole resulting scene. */
  function Commit(m: Media, producer: nat, mutations: seq<Mutation>, structureValid: bool): Result<Media> {
    match MutateAll(m, producer, mutations)
    case Err(error) => Err(error)
    case Ok(nodes) =>
      if !structureValid then Err("scene structure is invalid")
      else if |nodes| > m.config.maxNodes then Err("node quota exceeded")
      else Ok(m.(nodes := nodes))
  }

  function RemoveSource(m: Media, key: Key): Result<Media> {
    if key !in m.sources then Err("source does not exist")
    else
      Ok(m.(sources := m.sources - {key},
            retainedBytes := SaturatingSub(m.retainedBytes, m.sources[key].retainedBytes),
            nodes := map id | id in m.nodes && NodeSource(m.nodes[id]) != key :: m.nodes[id]))
  }

  ghost predicate IsReferenced(nodes: map<Key, Node>, key: Key) {
    exists id :: id in nodes && NodeSource(nodes[id]) == key
  }

  ghost function Orphans(m: Media): set<Key> {
    set key | key in m.sources && key.producer !in m.producers && !IsReferenced(m.nodes, key)
  }

  function RetainedSizes(sources: map<Key, Source>): map<Key, nat> {
    map key | key in sources :: sources[key].retainedBytes
  }

  /** Sources that neither a connected producer nor a node keeps alive are dropped. */
  ghost function Prune(m: Media): Media {
    var orphans := Orphans(m);
    m.(sources := m.sources - orphans,
       retainedBytes := SaturatingSub(m.retainedBytes, Sum(Part(RetainedSizes(m.sources), orphans))))
  }

  function Anchored(node: Node, producer: nat, anchors: map<nat, Anchor>): Node {
    if node.producer != producer then node
    else
      node.(retainedAnchor := if node.anchorId.Some? && node.anchorId.value in anchors then Some(anchors[node.anchorId.value])
                              else None)
  }

  /** A node of a disconnected producer stays only as an anchored still picture that may be kept as a poster. */
  predicate Survives(sources: map<Key, Source>, node: Node, producer: nat, preserve: bool) {
    node.producer != producer
    || (preserve && node.retainedAnchor.Some? && NodeSource(node) in sources
        && IsStatic(sources[NodeSource(node)].kind) && sources[NodeSource(node)].retained.Some?
        && !sources[NodeSource(node)].posterDenied)
  }

  /** A producer is gone; its nodes remember where their anchors were, and those that may not stay are dropped. */
  function Detached(m: Media, producer: nat, preserve: bool): Media
    requires producer in m.producers
  {
    var anchors := m.producers[producer].anchors;
    m.(producers := m.producers - {producer},
       nodes := map id | id in m.nodes && Survives(m.sources, Anchored(m.nodes[id], producer, anchors), producer, preserve) ::
                  Anchored(m.nodes[id], producer, anchors))
  }

  ghost function CleanupProducer(m: Media, producer: nat, preserve: bool): Media {
    if producer !in m.producers then m else Prune(Detached(m, producer, preserve))
  }

  ghost function CleanupProducers(m: Media, producers: seq<nat>): Media {
    if producers == [] then m
    else CleanupProducer(CleanupProducers(m, producers[..|producers| - 1]), producers[|producers| - 1], false)
  }

  function WithoutPane(m: Media, pane: nat): Media {
    m.(nodes := map id | id in m.nodes && m.nodes[id].pane != pane :: m.nodes[id])
  }

  ghost function RevokePane(m: Media, pane: nat, producers: seq<nat>): Media {
    Prune(WithoutPane(CleanupProducers(m, producers), pane))
  }

  function SeeAnchor(m: Media, producer: nat, id: nat, anchor: Anchor): Media {
    if producer !in m.producers then m
    else m.(producers := m.producers[producer := m.producers[producer].(anchors := m.producers[producer].anchors[id := anchor])])
  }

  function ClearedAnchors(m: Media, pane: nat): Media {
    m.(producers := map id | id in m.producers ::
                      if m.producers[id].pane == pane then m.producers[id].(anchors := map[]) else m.producers[id],
       nodes := map id | id in m.nodes && (m.nodes[id].pane != pane || m.nodes[id].retainedAnchor.None?) :: m.nodes[id])
  }

  ghost function ClearAnchors(m: Media, pane: nat): Media {
    Prune(ClearedAnchors(m, pane))
  }

  // ---- Steps ----

  /** One critical section of some thread. */
  datatype Step =
    | Registered(producer: nat, pane: nat)
    | SourceCreated(key: Key, kind: Kind, maximum: nat, posterDenied: bool)
    | RecordIngested(key: Key, record: Record)
    | HandoverFailed(key: Key, delivery: nat)
    | DeliveryCompleted(delivery: nat, delivered: bool)
    | DeliveriesCancelled(key: Key, deliveries: seq<nat>)
    | Projected(visible: set<Key>, panes: set<nat>, hidden: seq<nat>)
    | Deactivated(deliveries: seq<nat>)
    | KeyframesRequested(requests: seq<Request>)
    | Flushed(key: Key, epoch: nat)
    | StreamEnded(key: Key)
    | PlaybackSet(key: Key, playing: bool)
    | Committed(producer: nat, mutations: seq<Mutation>, structureValid: bool)
    | SourceDestroyed(key: Key)
    | Disconnected(producer: nat)
    | AnchorSeen(producer: nat, id: nat, anchor: Anchor)
    | AnchorsCleared(pane: nat)
    | PaneRevoked(pane: nat, producers: seq<nat>)

  /** Producer ids are never reused, and control records come from registered producers only, which delete only their
      own nodes. A source is created with a record limit of at most 64 bits; a composed raster is not empty. */
  predicate Possible(m: Media, step: Step) {
    match step
    case Registered(producer, _) => producer !in m.producers
    case SourceCreated(key, _, maximum, _) => key.producer in m.producers && maximum <= U64_MAX
    case RecordIngested(_, record) =>
      record.payload.RasterFrame? && record.payload.verdict.Accepted? ==> record.payload.verdict.fullBytes > 0
    case Flushed(key, _) => key.producer in m.producers
    case Committed(producer, mutations, _) =>
      && producer in m.producers
      && forall i :: 0 <= i < |mutations| && mutations[i].Delete? ==> mutations[i].owner == producer
    case SourceDestroyed(key) => key.producer in m.producers
    case _ => true
  }

  /** `grants` are the credits sent out, `consumed` the credit the step charged to its source. */
  datatype Effect = Effect(media: Media, grants: seq<Granted>, consumed: nat)

  function OrSame(m: Media, result: Result<Media>): Media {
    if result.Ok? then result.value else m
  }

  ghost function Next(m: Media, step: Step): Effect {
    match step
    case Registered(producer, pane) => Effect(Register(m, producer, pane), [], 0)
    case SourceCreated(key, kind, maximum, posterDenied) =>
      Effect(OrSame(m, CreateSource(m, key, kind, maximum, posterDenied)), [], 0)
    case RecordIngested(key, record) =>
      var r := Ingest(m, key, record);
      Effect(r.media, r.grants, r.consumed)
    case HandoverFailed(key, delivery) =>
      var r := SendFailed(m, key, delivery);
      Effect(r.media, r.grants, 0)
    case DeliveryCompleted(delivery, delivered) =>
      var r := CompleteDelivery(m, delivery, delivered);
      Effect(r.media, r.grants, 0)
    case DeliveriesCancelled(_, deliveries) =>
      var r := TakeDeliveries(m, deliveries);
      Effect(r.media, r.grants, 0)
    case Projected(visible, panes, hidden) =>
      var r := Project(m, visible, panes, hidden);
      Effect(r.media, r.grants, 0)
    case Deactivated(deliveries) =>
      var r := Deactivate(m, deliveries);
      Effect(r.media, r.grants, 0)
    case KeyframesRequested(requests) => Effect(RequestKeyframes(m, requests), [], 0)
    case Flushed(key, epoch) => Effect(Flush(m, key, epoch), [], 0)
    case StreamEnded(key) => Effect(EndOfStream(m, key), [], 0)
    case PlaybackSet(key, playing) => Effect(SetPlaying(m, key, playing), [], 0)
    case Committed(producer, mutations, structureValid) =>
      Effect(OrSame(m, Commit(m, producer, mutations, structureValid)), [], 0)
    case SourceDestroyed(key) => Effect(OrSame(m, RemoveSource(m, key)), [], 0)
    case Disconnected(producer) => Effect(CleanupProducer(m, producer, true), [], 0)
    case AnchorSeen(producer, id, anchor) => Effect(SeeAnchor(m, producer, id, anchor), [], 0)
    case AnchorsCleared(pane) => Effect(ClearAnchors(m, pane), [], 0)
    case PaneRevoked(pane, producers) => Effect(RevokePane(m, pane, producers), [], 0)
  }

  ghost function Run(m: Media, steps: seq<Step>): Media {
    if steps == [] then m else Next(Run(m, steps[..|steps| - 1]), steps[|steps| - 1]).media
  }

  ghost predicate PossibleRun(m: Media, steps: seq<Step>) {
    if steps == [] then true
    else
      var n := |steps| - 1;
      PossibleRun(m, steps[..n]) && Possible(Run(m, steps[..n]), steps[n])
  }
}
