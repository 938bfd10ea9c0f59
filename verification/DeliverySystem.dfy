/** Bridge and core as one machine of interleaved steps.

    The bridge runs two threads over shared state: the serial loop, which stores captures and
    delivers them one at a time, and the core reader, which marks receipts and forwards
    commands. The core's client owns a single pending slot. The two TCP directions are FIFO
    queues; either process can disappear between any two steps, and the survivor may still
    read what had already arrived. The spool and the core tables outlive everything. */
module DeliverySystem {
  import opened Bytes
  import opened Delivery
  import opened Spool
  import opened CoreStore
  import opened Accounting

  datatype Command = Command(id: nat, hello: bool)

  datatype ToBridge =
    | Forward(command: Command)
    | CommitRequest(receipt: Receipt, sequence: nat)

  datatype ToCore =
    | Reply(hello: bool)
    | Deliver(parcel: Parcel, sequence: nat)
    | CommitResponse(connection: nat, record: nat, disposition: Disposition, sequence: nat)

  /** Where deliver_pending returns to. */
  datatype Resume = ToReading | ToReplay(rest: seq<Pending>)

  datatype SerialLoop =
    | Reading
    | Querying
    | Replaying(rest: seq<Pending>)
    | Sending(row: Pending, sequence: nat, resume: Resume)
    | Waiting(row: Pending, sequence: nat, resume: Resume)
    | Enabling
    | Flushing(queue: seq<Command>)     // holds the serial write lock

  datatype CoreReader =
    | Idle
    | Marked(receipt: Receipt, sequence: nat, disposition: Disposition)
    | Responded(record: nat)
    | Writing(command: Command)         // wants the serial write lock

  datatype Bridge =
    | BridgeOff
    | BridgeOn(connection: nat, serial: SerialLoop, reader: CoreReader,
               events: map<nat, bool>, forwarding: bool, deferred: seq<Command>)

  datatype Client =
    | ClientOff
    | Ready
    | Accepted(parcel: Parcel, sequence: nat)
    | Committed(parcel: Parcel, receipt: Receipt, sequence: nat)
    | Awaiting(parcel: Parcel, receipt: Receipt, sequence: nat)

  /** The last five fields record history and influence no step: every frame ever stored,
      every capture ever resolved, and, for the current connection, the commands sent by the
      client, those written to the device, and the frames the bridge put on the stream. */
  datatype System = System(
    spool: Rows, core: Tables, bridge: Bridge, client: Client,
    toCore: seq<ToCore>, toBridge: seq<ToBridge>,
    stored: map<Identity, seq<byte>>, log: Log,
    sent: seq<Command>, written: seq<Command>, emitted: seq<ToCore>)

  /** strict: a capture is stored only where it becomes, or already is, the oldest pending row. */
  datatype World = World(codec: Codec, plan: Plan, limit: nat, strict: bool)

  datatype Action =
    | Connect(connection: nat)
    | BridgeDrops
    | ClientDrops
    | DeviceReplies(hello: bool)
    | DeviceCaptures(frame: seq<byte>, source: Source, sequence: nat)
    | QuerySpool
    | NextReplay
    | SendDelivery
    | ResumeSerial
    | EnableForwarding
    | FlushOne
    | ReaderReceives
    | ReaderResponds
    | ReaderSignals
    | ReaderWrites
    | ClientSends(command: Command)
    | ClientReceives
    | CommitLive(session: SessionId)
    | CommitReplay
    | ClientConfirms
    | SaveSession(session: SessionId, summary: Summary)
    | EndSession(session: SessionId, payload: Summary)
    | SetContexts(contexts: map<(Id16, Id16), Context>)

  const REPLAY_BATCH := 64
  const MAX_DEFERRED := 8

  // ---------------------------------------------------------------- link and failures

  function DropBridge(s: System): System {
    s.(bridge := BridgeOff, toBridge := [])
  }

  function DropClient(s: System): System {
    s.(client := ClientOff, toCore := [])
  }

  /** Put one frame on the stream to the core; it vanishes when nobody is there. */
  function Push(s: System, m: ToCore): System {
    s.(toCore := if s.client.ClientOff? then s.toCore else s.toCore + [m], emitted := s.emitted + [m])
  }

  function Connected(s: System, connection: nat): Option<System> {
    if s.bridge.BridgeOff? && s.client.ClientOff? then
      Some(s.(bridge := BridgeOn(connection, Reading, Idle, map[], false, []), client := Ready,
              toCore := [], toBridge := [], sent := [], written := [], emitted := []))
    else None
  }

  // ---------------------------------------------------------------- the serial loop

  function SerialReply(s: System, hello: bool): Option<System> {
    if s.bridge.BridgeOn? && s.bridge.serial.Reading? then
      Some(Push(s, Reply(hello)).(bridge := s.bridge.(serial := if hello then Querying else Reading)))
    else None
  }

  /** What the device may send: a capture it has not sent before, or one still pending. */
  ghost predicate DeviceMaySend(w: World, s: System, frame: seq<byte>) {
    var id := w.codec.identity(frame);
    id.Some? && id.value in s.stored ==> exists p :: p in s.spool.pending && p.identity == id.value
  }

  predicate Heads(pending: seq<Pending>, row: Pending) {
    pending != [] && pending[0] == row
  }

  ghost function SerialCapture(w: World, s: System, frame: seq<byte>, source: Source, sequence: nat): Option<System> {
    if s.bridge.BridgeOn? && s.bridge.serial.Reading? && DeviceMaySend(w, s, frame) then
      match Store(w.codec, s.spool, frame, source)
      case StoreRefused(_) => Some(DropBridge(s))
      case Stored(rows, row) =>
        if w.strict && !Heads(rows.pending, row) then None
        else
          Some(s.(spool := rows,
                  stored := s.stored[row.identity := row.frame],
                  bridge := s.bridge.(serial := Sending(row, sequence, ToReading),
                                      events := s.bridge.events[row.record := false])))
    else None
  }

  function SerialQuery(s: System): Option<System> {
    if s.bridge.BridgeOn? && s.bridge.serial.Querying? then
      var batch := if |s.spool.pending| <= REPLAY_BATCH then s.spool.pending else s.spool.pending[..REPLAY_BATCH];
      Some(s.(bridge := s.bridge.(serial := if batch == [] then Enabling else Replaying(batch))))
    else None
  }

  function SerialNext(s: System): Option<System> {
    if s.bridge.BridgeOn? && s.bridge.serial.Replaying? then
      var rest := s.bridge.serial.rest;
      if rest == [] then Some(s.(bridge := s.bridge.(serial := Querying)))
      else
        Some(s.(bridge := s.bridge.(
          serial := Sending(rest[0], rest[0].record % 0x1_0000_0000, ToReplay(rest[1..])),
          events := s.bridge.events[rest[0].record := false])))
    else None
  }

  function ParcelOf(connection: nat, row: Pending): Parcel {
    Parcel(connection, row.record, row.source, row.frame)
  }

  function SerialSend(w: World, s: System): Option<System> {
    if s.bridge.BridgeOn? && s.bridge.serial.Sending? then
      var Sending(row, sequence, resume) := s.bridge.serial;
      var parcel := ParcelOf(s.bridge.connection, row);
      if !Deliverable(w.codec, parcel) then Some(DropBridge(s))
      else Some(Push(s, Deliver(parcel, sequence)).(bridge := s.bridge.(serial := Waiting(row, sequence, resume))))
    else None
  }

  function SerialResume(s: System): Option<System> {
    if s.bridge.BridgeOn? && s.bridge.serial.Waiting? then
      var record := s.bridge.serial.row.record;
      if record in s.bridge.events && s.bridge.events[record] then
        Some(s.(bridge := s.bridge.(
          serial := match s.bridge.serial.resume
                    case ToReading => Reading
                    case ToReplay(rest) => Replaying(rest),
          events := s.bridge.events - {record})))
      else None
    else None
  }

  function SerialEnable(s: System): Option<System> {
    if s.bridge.BridgeOn? && s.bridge.serial.Enabling? then
      Some(s.(bridge := s.bridge.(serial := Flushing(s.bridge.deferred), forwarding := true, deferred := [])))
    else None
  }

  function SerialFlush(s: System): Option<System> {
    if s.bridge.BridgeOn? && s.bridge.serial.Flushing? then
      var queue := s.bridge.serial.queue;
      if queue == [] then Some(s.(bridge := s.bridge.(serial := Reading)))
      else Some(s.(written := s.written + [queue[0]], bridge := s.bridge.(serial := Flushing(queue[1..]))))
    else None
  }

  // ---------------------------------------------------------------- the core reader

  function ReaderReceive(w: World, s: System): Option<System> {
    if s.bridge.BridgeOn? && s.bridge.reader.Idle? && s.toBridge != [] then
      var rest := s.(toBridge := s.toBridge[1..]);
      match s.toBridge[0]
      case CommitRequest(receipt, sequence) =>
        (match Mark(s.spool, receipt, w.limit)
         case MarkRefused => Some(DropBridge(s))
         case MarkedAs(rows, disposition) =>
           Some(rest.(spool := rows, bridge := s.bridge.(reader := Marked(receipt, sequence, disposition)))))
      case Forward(command) =>
        if command.hello || s.bridge.forwarding then
          Some(rest.(bridge := s.bridge.(reader := Writing(command))))
        else if |s.bridge.deferred| >= MAX_DEFERRED then Some(DropBridge(s))
        else Some(rest.(bridge := s.bridge.(deferred := s.bridge.deferred + [command])))
    else None
  }

  function ReaderRespond(s: System): Option<System> {
    if s.bridge.BridgeOn? && s.bridge.reader.Marked? then
      var Marked(receipt, sequence, disposition) := s.bridge.reader;
      Some(Push(s, CommitResponse(receipt.connection, receipt.record, disposition, sequence)).(
        bridge := s.bridge.(reader := Responded(receipt.record))))
    else None
  }

  function ReaderSignal(s: System): Option<System> {
    if s.bridge.BridgeOn? && s.bridge.reader.Responded? then
      var record := s.bridge.reader.record;
      if record in s.bridge.events then
        Some(s.(bridge := s.bridge.(reader := Idle, events := s.bridge.events[record := true])))
      else Some(DropBridge(s))
    else None
  }

  function ReaderWrite(s: System): Option<System> {
    if s.bridge.BridgeOn? && s.bridge.reader.Writing? && !s.bridge.serial.Flushing? then
      Some(s.(written := s.written + [s.bridge.reader.command], bridge := s.bridge.(reader := Idle)))
    else None
  }

  // ---------------------------------------------------------------- the core client

  /** _send refuses anything but a receipt while a delivery is pending. */
  function ClientSend(s: System, command: Command): Option<System> {
    if s.client.Ready? then
      Some(s.(sent := s.sent + [command],
              toBridge := if s.bridge.BridgeOn? then s.toBridge + [Forward(command)] else s.toBridge))
    else None
  }

  /** The check of _confirm_delivery. */
  predicate ResponseMatches(m: ToCore, parcel: Parcel, sequence: nat) {
    m.CommitResponse? && m.sequence == sequence && m.connection == parcel.connection && m.record == parcel.record
  }

  function ClientReceive(w: World, s: System): Option<System> {
    if s.toCore == [] then None
    else
      var m := s.toCore[0];
      var rest := s.(toCore := s.toCore[1..]);
      match s.client
      case Ready =>
        (match m
         case Reply(_) => Some(rest)
         case Deliver(parcel, sequence) =>
           if Deliverable(w.codec, parcel) then Some(rest.(client := Accepted(parcel, sequence)))
           else Some(DropClient(s))
         case CommitResponse(_, _, _, _) => Some(DropClient(s)))
      case Awaiting(parcel, receipt, sequence) =>
        if ResponseMatches(m, parcel, sequence) then Some(rest.(client := Ready)) else Some(DropClient(s))
      case _ => None
  }

  /** The log after a transaction: one more entry, unless the identity was remembered. */
  function LogAfter(w: World, s: System, parcel: Parcel, session: SessionId): Log
    requires w.codec.identity(parcel.frame).Some?
  {
    var identity := w.codec.identity(parcel.frame).value;
    if FindTombstone(s.core.tombs, identity).Some? then s.log
    else s.log + [Entry(identity, session, parcel.frame)]
  }

  function AfterCommit(w: World, s: System, outcome: Outcome, session: SessionId): System
    requires s.client.Accepted? && w.codec.identity(s.client.parcel.frame).Some?
  {
    match outcome
    case Refused(_) => s
    case Resolved(tables, receipt, _, _) =>
      s.(core := tables, client := Committed(s.client.parcel, receipt, s.client.sequence),
         log := LogAfter(w, s, s.client.parcel, session))
  }

  /** _persist_capture: a capture of a session the application is running. */
  function ClientCommitLive(w: World, s: System, session: SessionId): Option<System> {
    if s.client.Accepted? && Open(s.core, session) && w.codec.identity(s.client.parcel.frame).Some? then
      Some(AfterCommit(w, s, CommitDelivery(w.codec, s.core, s.client.parcel, w.plan(session), session), session))
    else None
  }

  /** _response: a capture replayed from the spool. */
  function ClientCommitReplay(w: World, s: System): Option<System> {
    if s.client.Accepted? && w.codec.identity(s.client.parcel.frame).Some? then
      var identity := w.codec.identity(s.client.parcel.frame).value;
      var key := (identity.device, identity.boot);
      var session := if key in s.core.contexts then s.core.contexts[key].session else "";
      Some(AfterCommit(w, s, CommitReplayed(w.codec, s.core, s.client.parcel), session))
    else None
  }

  function ClientConfirm(s: System): Option<System> {
    if s.client.Committed? then
      var Committed(parcel, receipt, sequence) := s.client;
      Some(s.(client := Awaiting(parcel, receipt, sequence),
              toBridge := if s.bridge.BridgeOn? then s.toBridge + [CommitRequest(receipt, sequence)] else s.toBridge))
    else None
  }

  // ---------------------------------------------------------------- the core's sessions

  function CoreSave(s: System, session: SessionId, summary: Summary): Option<System> {
    if Open(s.core, session) && !summary.state.Ended? then
      Some(s.(core := s.core.(sessions := s.core.sessions[session := summary])))
    else None
  }

  function CoreEnd(w: World, s: System, session: SessionId, payload: Summary): Option<System> {
    if payload.state.Ended? && SummaryPolicy(w.plan, session, payload.policy) then
      match FinalizeSession(w.codec, s.core, session, payload, payload.policy)
      case None => Some(s)
      case Some(tables) => Some(s.(core := tables))
    else None
  }

  predicate ContextsFit(plan: Plan, contexts: map<(Id16, Id16), Context>) {
    forall k :: k in contexts ==> contexts[k].session != "" && contexts[k].policy == plan(contexts[k].session)
  }

  function CoreContexts(w: World, s: System, contexts: map<(Id16, Id16), Context>): Option<System> {
    if ContextsFit(w.plan, contexts) then Some(s.(core := s.core.(contexts := contexts))) else None
  }

  // ---------------------------------------------------------------- one step, and runs

  ghost function Next(w: World, s: System, a: Action): Option<System> {
    match a
    case Connect(connection) => Connected(s, connection)
    case BridgeDrops => Some(DropBridge(s))
    case ClientDrops => Some(DropClient(s))
    case DeviceReplies(hello) => SerialReply(s, hello)
    case DeviceCaptures(frame, source, sequence) => SerialCapture(w, s, frame, source, sequence)
    case QuerySpool => SerialQuery(s)
    case NextReplay => SerialNext(s)
    case SendDelivery => SerialSend(w, s)
    case ResumeSerial => SerialResume(s)
    case EnableForwarding => SerialEnable(s)
    case FlushOne => SerialFlush(s)
    case ReaderReceives => ReaderReceive(w, s)
    case ReaderResponds => ReaderRespond(s)
    case ReaderSignals => ReaderSignal(s)
    case ReaderWrites => ReaderWrite(s)
    case ClientSends(command) => ClientSend(s, command)
    case ClientReceives => ClientReceive(w, s)
    case CommitLive(session) => ClientCommitLive(w, s, session)
    case CommitReplay => ClientCommitReplay(w, s)
    case ClientConfirms => ClientConfirm(s)
    case SaveSession(session, summary) => CoreSave(s, session, summary)
    case EndSession(session, payload) => CoreEnd(w, s, session, payload)
    case SetContexts(contexts) => CoreContexts(w, s, contexts)
  }

  /** The state after a run; a disabled action stops it. */
  ghost function Run(w: World, s: System, actions: seq<Action>): Option<System>
    decreases |actions|
  {
    if actions == [] then Some(s)
    else
      match Next(w, s, actions[0])
      case None => None
      case Some(t) => Run(w, t, actions[1..])
  }

  /** Both processes down, an empty core, and any well-formed spool left by earlier work. */
  ghost predicate Initial(w: World, s: System) {
    s.bridge == BridgeOff && s.client == ClientOff && s.toCore == [] && s.toBridge == [] &&
    s.core == EMPTY && s.log == [] && s.sent == [] && s.written == [] && s.emitted == [] &&
    WellFormed(w.codec, s.spool) && s.spool.markers == map[] &&
    s.stored.Keys == (set p | p in s.spool.pending :: p.identity) &&
    forall p :: p in s.spool.pending ==> s.stored[p.identity] == p.frame
  }
}
