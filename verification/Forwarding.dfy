/** Commands reach the device in the order the core sent them, none lost or repeated, and none
    but HELLO before the spool has been replayed. */
module Forwarding {
  import opened Bytes
  import opened Delivery
  import opened Spool
  import opened DeliverySystem
  import Lockstep
  import Handoff

  function NonHello(commands: seq<Command>): seq<Command> {
    if commands == [] then []
    else (if commands[0].hello then [] else [commands[0]]) + NonHello(commands[1..])
  }

  /** The commands among the frames still on their way to the bridge. */
  function Commands(toBridge: seq<ToBridge>): seq<Command> {
    if toBridge == [] then []
    else (if toBridge[0].Forward? then [toBridge[0].command] else []) + Commands(toBridge[1..])
  }

  function Flushed(serial: SerialLoop): seq<Command> {
    if serial.Flushing? then serial.queue else []
  }

  function Held(reader: CoreReader): seq<Command> {
    if reader.Writing? then [reader.command] else []
  }

  /** Everything between the client and the device, oldest first. */
  function Pipeline(b: Bridge, toBridge: seq<ToBridge>): seq<Command>
    requires b.BridgeOn?
  {
    Flushed(b.serial) + b.deferred + Held(b.reader) + Commands(toBridge)
  }

  /** The pipeline without HELLO, part by part. */
  function Filtered(b: Bridge, toBridge: seq<ToBridge>): seq<Command>
    requires b.BridgeOn?
  {
    NonHello(Flushed(b.serial)) + NonHello(b.deferred) + NonHello(Held(b.reader)) + NonHello(Commands(toBridge))
  }

  /** Written so far, then what is in the pipeline, is what was sent. */
  predicate InOrder(s: System) {
    if s.bridge.BridgeOff? then NonHello(s.written) <= NonHello(s.sent)
    else
      NonHello(s.written) + Filtered(s.bridge, s.toBridge) == NonHello(s.sent) &&
      (s.bridge.forwarding ==> s.bridge.deferred == []) &&
      (!s.bridge.forwarding ==>
        NonHello(s.written) == [] && NonHello(Held(s.bridge.reader)) == [] && !s.bridge.serial.Flushing?) &&
      (s.bridge.serial.Enabling? ==> s.spool.pending == [])
  }

  lemma {:induction false} NonHelloConcat(a: seq<Command>, b: seq<Command>)
    ensures NonHello(a + b) == NonHello(a) + NonHello(b)
  {
    if a == [] {
      assert a + b == b;
    } else {
      assert (a + b)[1..] == a[1..] + b;
      NonHelloConcat(a[1..], b);
    }
  }

  lemma {:induction false} CommandsConcat(a: seq<ToBridge>, b: seq<ToBridge>)
    ensures Commands(a + b) == Commands(a) + Commands(b)
  {
    if a == [] {
      assert a + b == b;
    } else {
      assert (a + b)[1..] == a[1..] + b && (a + b)[0] == a[0];
      CommandsConcat(a[1..], b);
    }
  }

  lemma FilteredPipeline(b: Bridge, toBridge: seq<ToBridge>)
    requires b.BridgeOn?
    ensures NonHello(Pipeline(b, toBridge)) == Filtered(b, toBridge)
  {
    NonHelloConcat(Flushed(b.serial) + b.deferred + Held(b.reader), Commands(toBridge));
    NonHelloConcat(Flushed(b.serial) + b.deferred, Held(b.reader));
    NonHelloConcat(Flushed(b.serial), b.deferred);
  }

  /** Moving one command along the pipeline keeps the order. */
  lemma Moves<T>(w: seq<T>, x: seq<T>, f: seq<T>, d: seq<T>, h: seq<T>, c: seq<T>)
    ensures w + ((x + f) + d + h + c) == (w + x) + (f + d + h + c)
    ensures w + (f + d + h + (c + x)) == (w + (f + d + h + c)) + x
    ensures f + d + [] + (x + c) == f + (d + x) + [] + c
    ensures f + [] + [] + (x + c) == f + [] + x + c
    ensures w + ([] + [] + x + c) == (w + x) + ([] + [] + [] + c)
  {
  }

  lemma DropInOrder(s: System)
    requires InOrder(s)
    ensures InOrder(DropBridge(s)) && InOrder(DropClient(s))
  {
  }

  lemma FlushInOrder(s: System)
    requires InOrder(s) && SerialFlush(s).Some?
    ensures InOrder(SerialFlush(s).value)
  {
    hide NonHello, Commands;
    var q := s.bridge.serial.queue;
    if q != [] {
      assert q == [q[0]] + q[1..];
      NonHelloConcat([q[0]], q[1..]);
      NonHelloConcat(s.written, [q[0]]);
      Moves(NonHello(s.written), NonHello([q[0]]), NonHello(q[1..]), NonHello(s.bridge.deferred),
        NonHello(Held(s.bridge.reader)), NonHello(Commands(s.toBridge)));
    }
  }

  lemma EnableInOrder(s: System)
    requires InOrder(s) && SerialEnable(s).Some?
    ensures InOrder(SerialEnable(s).value)
  {
    assert NonHello([]) == [];
    hide NonHello, Commands;
  }

  lemma WriteInOrder(s: System)
    requires InOrder(s) && ReaderWrite(s).Some?
    ensures InOrder(ReaderWrite(s).value)
  {
    assert NonHello([]) == [];
    hide NonHello, Commands;
    var c := [s.bridge.reader.command];
    NonHelloConcat(s.written, c);
    if s.bridge.forwarding {
      Moves(NonHello(s.written), NonHello(c), [], [], [], NonHello(Commands(s.toBridge)));
    }
  }

  lemma RequestInOrder(w: World, s: System)
    requires InOrder(s) && Lockstep.Inv(w, s) && ReaderReceive(w, s).Some?
    requires s.toBridge[0].CommitRequest? && ReaderReceive(w, s).value.bridge.BridgeOn?
    ensures InOrder(ReaderReceive(w, s).value)
  {
    assert !s.bridge.serial.Enabling? by {
      hide InOrder, Mark, Lockstep.RowsHeld, Handoff.Inv;
    }
    hide NonHello, Mark, Lockstep.Inv;
  }

  lemma ReceiveInOrder(w: World, s: System)
    requires InOrder(s) && Lockstep.Inv(w, s) && ReaderReceive(w, s).Some?
    ensures InOrder(ReaderReceive(w, s).value)
  {
    hide Mark;
    DropInOrder(s);
    var t := ReaderReceive(w, s).value;
    if t.bridge.BridgeOn? {
      if s.toBridge[0].CommitRequest? {
        RequestInOrder(w, s);
      } else {
        hide Lockstep.Inv;
        var c := s.toBridge[0].command;
        FirstCommand(s.toBridge);
        hide InOrder, NonHello, Commands;
        if c.hello || s.bridge.forwarding {
          CommandPasses(s, t, c);
        } else {
          CommandDeferred(s, t, c);
        }
      }
    }
  }

  lemma FirstCommand(toBridge: seq<ToBridge>)
    requires toBridge != [] && toBridge[0].Forward?
    ensures NonHello(Commands(toBridge)) == NonHello([toBridge[0].command]) + NonHello(Commands(toBridge[1..]))
  {
    NonHelloConcat([toBridge[0].command], Commands(toBridge[1..]));
  }

  /** A command taken off the queue is written next: nothing else is held back. */
  lemma CommandPasses(s: System, t: System, c: Command)
    requires InOrder(s) && s.bridge.BridgeOn? && s.bridge.reader.Idle? && (c.hello || s.bridge.forwarding)
    requires NonHello(Commands(s.toBridge)) == NonHello([c]) + NonHello(Commands(t.toBridge))
    requires t == s.(toBridge := t.toBridge, bridge := s.bridge.(reader := Writing(c)))
    ensures InOrder(t)
  {
    assert NonHello([]) == [];
    assert c.hello ==> NonHello([c]) == [];
    hide NonHello, Commands;
    if s.bridge.forwarding {
      Moves([], NonHello([c]), NonHello(Flushed(s.bridge.serial)), [], [], NonHello(Commands(t.toBridge)));
    }
  }

  /** A command taken off the queue is put behind the others that wait for the replay. */
  lemma CommandDeferred(s: System, t: System, c: Command)
    requires InOrder(s) && s.bridge.BridgeOn? && s.bridge.reader.Idle? && !s.bridge.forwarding
    requires NonHello(Commands(s.toBridge)) == NonHello([c]) + NonHello(Commands(t.toBridge))
    requires t == s.(toBridge := t.toBridge, bridge := s.bridge.(deferred := s.bridge.deferred + [c]))
    ensures InOrder(t)
  {
    assert NonHello([]) == [];
    hide NonHello, Commands;
    NonHelloConcat(s.bridge.deferred, [c]);
    Moves([], NonHello([c]), NonHello(Flushed(s.bridge.serial)), NonHello(s.bridge.deferred), [],
      NonHello(Commands(t.toBridge)));
  }

  lemma SendInOrder(s: System, command: Command)
    requires InOrder(s) && ClientSend(s, command).Some?
    ensures InOrder(ClientSend(s, command).value)
  {
    NonHelloConcat(s.sent, [command]);
    if s.bridge.BridgeOn? {
      CommandsConcat(s.toBridge, [Forward(command)]);
      assert Commands([Forward(command)]) == [command];
      NonHelloConcat(Commands(s.toBridge), [command]);
      hide NonHello, Commands;
      Moves(NonHello(s.written), NonHello([command]), NonHello(Flushed(s.bridge.serial)), NonHello(s.bridge.deferred),
        NonHello(Held(s.bridge.reader)), NonHello(Commands(s.toBridge)));
    }
  }

  lemma ConfirmInOrder(s: System)
    requires InOrder(s) && ClientConfirm(s).Some?
    ensures InOrder(ClientConfirm(s).value)
  {
    if s.bridge.BridgeOn? {
      var m := [CommitRequest(s.client.receipt, s.client.sequence)];
      CommandsConcat(s.toBridge, m);
      assert Commands(m) == [];
      assert Commands(s.toBridge + m) == Commands(s.toBridge);
      hide NonHello, Commands;
    }
  }

  lemma ConnectInOrder(s: System, connection: nat)
    requires Connected(s, connection).Some?
    ensures InOrder(Connected(s, connection).value)
  {
  }

  lemma CaptureInOrder(w: World, s: System, frame: seq<byte>, source: Source, sequence: nat)
    requires InOrder(s) && SerialCapture(w, s, frame, source, sequence).Some?
    ensures InOrder(SerialCapture(w, s, frame, source, sequence).value)
  {
    hide NonHello, Commands, Store, DeviceMaySend;
    DropInOrder(s);
  }

  lemma CommitInOrder(w: World, s: System, a: Action)
    requires InOrder(s) && Next(w, s, a).Some? && (a.CommitLive? || a.CommitReplay?)
    ensures InOrder(Next(w, s, a).value) && Next(w, s, a).value.bridge == s.bridge
  {
    hide Filtered, NonHello, CoreStore.CommitDelivery, CoreStore.CommitReplayed, CoreStore.FindTombstone;
  }

  lemma CoreInOrder(w: World, s: System, a: Action)
    requires InOrder(s) && Next(w, s, a).Some?
    requires a.SaveSession? || a.EndSession? || a.SetContexts? || a.ClientReceives?
    ensures InOrder(Next(w, s, a).value) && Next(w, s, a).value.bridge == s.bridge
  {
    hide Filtered, NonHello, CoreStore.FinalizeSession, Deliverable;
  }

  /** Every other step leaves the pipeline as it is. */
  lemma OthersInOrder(w: World, s: System, a: Action)
    requires InOrder(s) && Next(w, s, a).Some?
    requires a.BridgeDrops? || a.ClientDrops? || a.DeviceReplies? || a.QuerySpool? || a.NextReplay? ||
             a.SendDelivery? || a.ResumeSerial? || a.ReaderResponds? || a.ReaderSignals?
    ensures InOrder(Next(w, s, a).value)
  {
    hide NonHello, Commands, Deliverable;
    DropInOrder(s);
  }

  lemma StepInOrder(w: World, s: System, a: Action)
    requires InOrder(s) && Lockstep.Inv(w, s) && Next(w, s, a).Some?
    ensures InOrder(Next(w, s, a).value)
  {
    hide InOrder, Lockstep.Inv;
    if a.FlushOne? {
      FlushInOrder(s);
    } else if a.EnableForwarding? {
      EnableInOrder(s);
    } else if a.ReaderWrites? {
      WriteInOrder(s);
    } else if a.ReaderReceives? {
      ReceiveInOrder(w, s);
    } else if a.ClientSends? {
      SendInOrder(s, a.command);
    } else if a.ClientConfirms? {
      ConfirmInOrder(s);
    } else if a.Connect? {
      ConnectInOrder(s, a.connection);
    } else if a.DeviceCaptures? {
      CaptureInOrder(w, s, a.frame, a.source, a.sequence);
    } else if a.CommitLive? || a.CommitReplay? {
      CommitInOrder(w, s, a);
    } else if a.SaveSession? || a.EndSession? || a.SetContexts? || a.ClientReceives? {
      CoreInOrder(w, s, a);
    } else {
      OthersInOrder(w, s, a);
    }
  }

  lemma {:induction false} RunInOrder(w: World, s: System, actions: seq<Action>)
    requires InOrder(s) && Lockstep.Inv(w, s) && Run(w, s, actions).Some?
    ensures InOrder(Run(w, s, actions).value)
    decreases |actions|
  {
    hide InOrder, Lockstep.Inv, Next;
    if actions != [] {
      StepInOrder(w, s, actions[0]);
      Lockstep.StepKeeps(w, s, actions[0]);
      RunInOrder(w, Next(w, s, actions[0]).value, actions[1..]);
    }
  }

  /** In every run, under every interleaving of the two threads: what the device has received,
      HELLO aside, is the beginning of what the client sent, in order; while the bridge runs
      the rest is still queued; and nothing is received before forwarding is enabled. */
  lemma CommandsInOrder(w: World, s: System, actions: seq<Action>)
    requires Initial(w, s) && Run(w, s, actions).Some?
    ensures var t := Run(w, s, actions).value;
            NonHello(t.written) <= NonHello(t.sent) &&
            (t.bridge.BridgeOn? ==>
              NonHello(t.sent) == NonHello(t.written) + NonHello(Pipeline(t.bridge, t.toBridge))) &&
            (t.bridge.BridgeOn? && !t.bridge.forwarding ==> NonHello(t.written) == [])
  {
    Lockstep.InitialInv(w, s);
    RunInOrder(w, s, actions);
    hide Run;
    var t := Run(w, s, actions).value;
    if t.bridge.BridgeOn? {
      FilteredPipeline(t.bridge, t.toBridge);
    }
  }

  /** Forwarding is switched on only when the replay has drained the spool. */
  lemma ForwardingStartsDrained(w: World, s: System, actions: seq<Action>, a: Action)
    requires Initial(w, s) && Run(w, s, actions).Some?
    requires Next(w, Run(w, s, actions).value, a).Some?
    ensures var t := Run(w, s, actions).value;
            var u := Next(w, t, a).value;
            u.bridge.BridgeOn? && u.bridge.forwarding && !(t.bridge.BridgeOn? && t.bridge.forwarding) ==>
              t.spool.pending == [] && u.spool.pending == []
  {
    Lockstep.InitialInv(w, s);
    RunInOrder(w, s, actions);
    hide Run, Initial;
    EnabledDrained(w, Run(w, s, actions).value, a);
  }

  lemma EnabledDrained(w: World, t: System, a: Action)
    requires InOrder(t) && Next(w, t, a).Some?
    ensures var u := Next(w, t, a).value;
            u.bridge.BridgeOn? && u.bridge.forwarding && !(t.bridge.BridgeOn? && t.bridge.forwarding) ==>
              t.spool.pending == [] && u.spool.pending == []
  {
    hide CoreStore.CommitDelivery, CoreStore.CommitReplayed, CoreStore.FinalizeSession, Store, Mark,
      Deliverable, CoreStore.FindTombstone, DeviceMaySend, Filtered, NonHello;
    if a.CommitLive? || a.CommitReplay? {
      CommitInOrder(w, t, a);
      hide Next;
    } else if a.SaveSession? || a.EndSession? || a.SetContexts? || a.ClientReceives? {
      CoreInOrder(w, t, a);
      hide Next;
    }
  }
}
