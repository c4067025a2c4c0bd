/** The broker as a whole: any number of clients, two channels, and every
    interleaving of their locked sections with readers and idle timers. */
module BrokerRuns {
  import opened Common
  import opened Redaction
  import opened Broker
  import Utf8

  datatype Channel = Uart0 | Uart1

  /** What a client's task still has to do after its last locked section:
      `open` and `close` update the subscription table in a section of their own,
      and a disconnect visits the channels one after the other. */
  datatype Task =
    | Ready
    | Subscribing(channel: Channel)
    | Unsubscribing(channel: Channel)
    | Leaving(todo: set<Channel>, due: Option<Channel>)

  datatype World = World(uart0: Line, uart1: Line, subscriptions: map<Peer, set<Channel>>, tasks: map<Peer, Task>)

  const INITIAL := World(CLOSED, CLOSED, map[], map[])

  datatype Action =
    | Open(peer: Peer, channel: Channel, baud: nat, e: OpenEnv)
    | Write(peer: Peer, channel: Channel, token: Option<Bytes>, bytes: Bytes, ioOk: bool)
    | Claim(peer: Peer, channel: Channel, tag: Bytes)
    | Release(peer: Peer, channel: Channel)
    | Close(peer: Peer, channel: Channel)
    | Disconnect(peer: Peer)
    | Continue(peer: Peer)
    | Leave(peer: Peer, channel: Channel)
    | Schedule(peer: Peer)
    | Timeout(channel: Channel)
    | Data(channel: Channel, text: Bytes)
    | EndReader(channel: Channel)
    | Shutdown(channel: Channel)

  function At(w: World, c: Channel): Line {
    if c == Uart0 then w.uart0 else w.uart1
  }

  function With(w: World, c: Channel, l: Line): World {
    if c == Uart0 then w.(uart0 := l) else w.(uart1 := l)
  }

  function Subscriptions(w: World, p: Peer): set<Channel> {
    if p in w.subscriptions then w.subscriptions[p] else {}
  }

  function TaskOf(w: World, p: Peer): Task {
    if p in w.tasks then w.tasks[p] else Ready
  }

  predicate Enabled(w: World, a: Action) {
    match a
    case Open(p, _, _, _) => TaskOf(w, p).Ready?
    case Write(p, _, _, _, _) => TaskOf(w, p).Ready?
    case Claim(p, _, _) => TaskOf(w, p).Ready?
    case Release(p, _) => TaskOf(w, p).Ready?
    case Close(p, _) => TaskOf(w, p).Ready?
    case Disconnect(p) => TaskOf(w, p).Ready?
    case Continue(p) => TaskOf(w, p).Subscribing? || TaskOf(w, p).Unsubscribing?
    case Leave(p, c) => TaskOf(w, p).Leaving? && TaskOf(w, p).due.None? && c in TaskOf(w, p).todo
    case Schedule(p) => TaskOf(w, p).Leaving? && TaskOf(w, p).due.Some?
    case Timeout(c) => At(w, c).idle
    case Data(c, text) => At(w, c).port.reader && Utf8.Valid(text)
    case EndReader(c) => At(w, c).port.reader
    case Shutdown(_) => true
  }

  /** The channel whose lock a step holds. */
  function Target(w: World, a: Action): Option<Channel> {
    match a
    case Disconnect(_) => None
    case Continue(_) => None
    case Schedule(p) => if TaskOf(w, p).Leaving? then TaskOf(w, p).due else None
    case _ => Some(a.channel)
  }

  function LineStep(l: Line, a: Action): Line {
    match a
    case Open(p, _, baud, e) => AfterOpen(l, p, baud, e)
    case Write(p, _, token, bytes, ioOk) => AfterWrite(l, p, token, bytes, ioOk)
    case Claim(p, _, tag) => AfterClaim(l, p, tag)
    case Release(p, _) => AfterRelease(l, p)
    case Close(p, _) => AfterClose(l, p)
    case Disconnect(_) => l
    case Continue(_) => l
    case Leave(p, _) => AfterLeave(l, p)
    case Schedule(_) => AfterSchedule(l)
    case Timeout(_) => AfterTimeout(l)
    case Data(_, text) => AfterData(l, text)
    case EndReader(_) => AfterReaderEnd(l)
    case Shutdown(_) => AfterShutdown(l)
  }

  function NextTasks(w: World, a: Action): map<Peer, Task> {
    match a
    case Open(p, c, baud, e) =>
      if OpenCode(At(w, c), baud, e) == Opened then w.tasks[p := Subscribing(c)] else w.tasks
    case Close(p, c) => w.tasks[p := Unsubscribing(c)]
    case Disconnect(p) => w.tasks[p := Leaving(Subscriptions(w, p), None)]
    case Continue(p) => w.tasks[p := Ready]
    case Leave(p, c) =>
      if TaskOf(w, p).Leaving? then
        w.tasks[p := Leaving(TaskOf(w, p).todo - {c},
                             if AfterLeave(At(w, c), p).subscribers == {} then Some(c) else None)]
      else w.tasks
    case Schedule(p) =>
      if TaskOf(w, p).Leaving? then w.tasks[p := TaskOf(w, p).(due := None)] else w.tasks
    case _ => w.tasks
  }

  function NextSubscriptions(w: World, a: Action): map<Peer, set<Channel>> {
    match a
    case Disconnect(p) => w.subscriptions - {p}
    case Continue(p) =>
      (match TaskOf(w, p)
      case Subscribing(c) => w.subscriptions[p := Subscriptions(w, p) + {c}]
      case Unsubscribing(c) =>
        if p in w.subscriptions then w.subscriptions[p := w.subscriptions[p] - {c}] else w.subscriptions
      case _ => w.subscriptions)
    case _ => w.subscriptions
  }

  function Step(w: World, a: Action): World {
    var moved := if Target(w, a).Some? then
                   With(w, Target(w, a).value, LineStep(At(w, Target(w, a).value), a))
                 else w;
    moved.(tasks := NextTasks(w, a), subscriptions := NextSubscriptions(w, a))
  }

  lemma StepAt(w: World, a: Action, c: Channel)
    ensures At(Step(w, a), c) == if Target(w, a) == Some(c) then LineStep(At(w, c), a) else At(w, c)
  {
    hide LineStep, NextTasks, NextSubscriptions;
  }

  // ---------------------------------------------------------------------
  // The invariant.

  /** `p` is in channel `c`, as its task and the subscription table tell. */
  predicate Tracked(w: World, p: Peer, c: Channel) {
    match TaskOf(w, p)
    case Ready => c in Subscriptions(w, p)
    case Subscribing(d) => c == d || c in Subscriptions(w, p)
    case Unsubscribing(d) => c != d && c in Subscriptions(w, p)
    case Leaving(todo, _) => c in todo
  }

  ghost predicate WorldInv(w: World) {
    && (forall c :: ChannelInv(At(w, c)))
    && forall p, c :: p in At(w, c).subscribers <==> Tracked(w, p, c)
  }

  lemma LineStepKeepsInv(l: Line, a: Action)
    requires ChannelInv(l) && (a.Data? ==> Utf8.Valid(a.text))
    ensures ChannelInv(LineStep(l, a))
  {
    hide AfterOpen, AfterWrite, AfterClaim, AfterRelease, AfterClose, AfterLeave, AfterSchedule, AfterTimeout;
    hide AfterData, AfterReaderEnd, AfterShutdown, ChannelInv;
    match a
    case Open(p, _, baud, e) => OpenKeepsInv(l, p, baud, e);
    case Write(p, _, token, bytes, ioOk) => WriteKeepsInv(l, p, token, bytes, ioOk);
    case Claim(p, _, tag) => ClaimKeepsInv(l, p, tag);
    case Release(p, _) => LeaveKeepsInv(l, p);
    case Close(p, _) => LeaveKeepsInv(l, p);
    case Leave(p, _) => LeaveKeepsInv(l, p);
    case Data(_, text) => DataKeepsInv(l, text);
    case EndReader(_) => EndKeepsInv(l);
    case _ => IdleKeepsInv(l);
  }

  lemma SubscribersChange(l: Line, a: Action)
    ensures LineStep(l, a).subscribers ==
            match a
            case Open(p, _, baud, e) => if OpenCode(l, baud, e) == Opened then l.subscribers + {p} else l.subscribers
            case Close(p, _) => l.subscribers - {p}
            case Leave(p, _) => l.subscribers - {p}
            case _ => l.subscribers
  {
    hide Posted, RedactLine, Shown, Kept;
  }

  lemma StepKeepsInv(w: World, a: Action)
    requires WorldInv(w) && Enabled(w, a)
    ensures WorldInv(Step(w, a))
  {
    var w' := Step(w, a);
    hide LineStep, ChannelInv;
    forall c ensures ChannelInv(At(w', c)) {
      StepAt(w, a, c);
      LineStepKeepsInv(At(w, c), a);
    }
    forall p, c ensures p in At(w', c).subscribers <==> Tracked(w', p, c) {
      StepKeepsTracked(w, a, p, c);
    }
  }

  lemma StepKeepsTracked(w: World, a: Action, p: Peer, c: Channel)
    requires WorldInv(w) && Enabled(w, a)
    ensures p in At(Step(w, a), c).subscribers <==> Tracked(Step(w, a), p, c)
  {
    hide LineStep, ChannelInv, Tracked, Step, Enabled;
    assert p in At(w, c).subscribers <==> Tracked(w, p, c);
    StepAt(w, a, c);
    hide At;
    SubscribersChange(At(w, c), a);
    if ActsFor(a, p) {
      OwnStepIsTracked(w, a, p, c);
    } else {
      OtherStepIsTracked(w, a, p, c);
    }
  }

  predicate ActsFor(a: Action, p: Peer) {
    !(a.Timeout? || a.Data? || a.EndReader? || a.Shutdown?) && a.peer == p
  }

  lemma OwnStepIsTracked(w: World, a: Action, p: Peer, c: Channel)
    requires Enabled(w, a) && ActsFor(a, p)
    ensures Tracked(Step(w, a), p, c) <==>
            match a
            case Open(_, d, baud, e) => (c == d && OpenCode(At(w, d), baud, e) == Opened) || Tracked(w, p, c)
            case Close(_, d) => c != d && Tracked(w, p, c)
            case Leave(_, d) => c != d && Tracked(w, p, c)
            case _ => Tracked(w, p, c)
  {
    hide LineStep, OpenCode, AfterLeave, At;
  }

  lemma OtherStepIsTracked(w: World, a: Action, p: Peer, c: Channel)
    requires !ActsFor(a, p)
    ensures Tracked(Step(w, a), p, c) <==> Tracked(w, p, c)
  {
    hide LineStep, OpenCode, AfterLeave, At;
  }

  // ---------------------------------------------------------------------
  // Every run.

  ghost predicate IsRun(worlds: seq<World>, actions: seq<Action>) {
    && |worlds| == |actions| + 1
    && worlds[0] == INITIAL
    && forall i | 0 <= i < |actions| ::
         Enabled(worlds[i], actions[i]) && worlds[i + 1] == Step(worlds[i], actions[i])
  }

  /** In every reachable state the path, the rate and the writer are present
      together, an owner is a subscriber of a connected port, a redaction belongs
      to the owner, an idle timer waits only while nobody subscribes, the log
      sessions begun and finished match, and a client's disconnect will visit every
      channel it subscribes to. */
  lemma {:induction false} RunKeepsInv(worlds: seq<World>, actions: seq<Action>, i: nat)
    requires IsRun(worlds, actions) && i < |worlds|
    ensures WorldInv(worlds[i])
  {
    if i == 0 {
      ClosedIsValid();
    } else {
      hide WorldInv, Step, Enabled;
      RunKeepsInv(worlds, actions, i - 1);
      StepKeepsInv(worlds[i - 1], actions[i - 1]);
    }
  }

  /** A client that has disconnected holds nothing: no subscription, no claim, no
      redaction. */
  lemma GonePeersHoldNothing(worlds: seq<World>, actions: seq<Action>, i: nat, p: Peer, c: Channel)
    requires IsRun(worlds, actions) && i < |worlds|
    requires TaskOf(worlds[i], p) == Leaving({}, None)
    ensures var l := At(worlds[i], c);
            && p !in l.subscribers && !Owns(l, p)
            && (l.redaction.Some? ==> l.redaction.value.owner != p)
  {
    hide IsRun;
    RunKeepsInv(worlds, actions, i);
    assert !Tracked(worlds[i], p, c);
  }

  /** The subscription table is exact: between two requests it lists for a client the
      channels the client is in, and no others. */
  lemma TableIsExact(worlds: seq<World>, actions: seq<Action>, i: nat, p: Peer)
    requires IsRun(worlds, actions) && i < |worlds| && TaskOf(worlds[i], p) == Ready
    ensures forall c :: c in Subscriptions(worlds[i], p) <==> p in At(worlds[i], c).subscribers
  {
    hide IsRun;
    RunKeepsInv(worlds, actions, i);
    forall c ensures c in Subscriptions(worlds[i], p) <==> p in At(worlds[i], c).subscribers {
      assert Tracked(worlds[i], p, c) <==> c in Subscriptions(worlds[i], p);
    }
  }

  /** Whenever a port is closed, every log session ever begun on its channel has
      been finished, once and in order. */
  lemma ClosedPortsFinishedTheirLogs(worlds: seq<World>, actions: seq<Action>, i: nat, c: Channel)
    requires IsRun(worlds, actions) && i < |worlds| && !At(worlds[i], c).port.writer
    ensures At(worlds[i], c).past.ended == At(worlds[i], c).past.begun
  {
    hide IsRun;
    RunKeepsInv(worlds, actions, i);
    assert ChannelInv(At(worlds[i], c));
  }

  // ---------------------------------------------------------------------
  // Exclusive writing.

  /** The steps that end a claim of `p`: its own release, close or disconnect, and
      the end of the port. */
  predicate EndsClaim(a: Action, p: Peer) {
    match a
    case Release(q, _) => p == q
    case Close(q, _) => p == q
    case Leave(q, _) => p == q
    case EndReader(_) => true
    case Shutdown(_) => true
    case _ => false
  }

  predicate Ends(w: World, a: Action, p: Peer, c: Channel) {
    Target(w, a) == Some(c) && EndsClaim(a, p)
  }

  /** Another client's release or close does not touch the owner. */
  lemma OthersLeave(l: Line, p: Peer, q: Peer)
    requires ChannelInv(l) && Owns(l, p) && p != q
    ensures AfterRelease(l, q) == l
    ensures AfterClose(l, q) == AfterLeave(l, q) == l.(subscribers := l.subscribers - {q})
  {
    assert p in l.subscribers - {q};
  }

  lemma ClaimEndsExactly(l: Line, a: Action, p: Peer)
    requires ChannelInv(l) && Owns(l, p) && (a.Timeout? ==> l.idle)
    ensures Owns(LineStep(l, a), p) <==> !EndsClaim(a, p)
  {
    hide Posted, RedactLine, Shown, Kept, Ordered, Bounded;
    assert p in l.subscribers;
    if (a.Close? || a.Leave? || a.Release?) && a.peer != p {
      OthersLeave(l, p, a.peer);
    }
  }

  /** While one client owns the line, no other client's write is accepted, and the
      owner's plain writes are refused by the device only. */
  lemma OnlyOwnerWrites(l: Line, p: Peer, q: Peer, token: Option<Bytes>, ioOk: bool)
    requires ChannelInv(l) && Owns(l, p)
    ensures WriteCode(l, q, token, ioOk) == Acked ==> q == p
    ensures WriteCode(l, p, None, ioOk) == if ioOk then Acked else WriteFailed
  {
  }

  /** The write a step puts on the wire of `c`, if it does. */
  function Written(w: World, a: Action, c: Channel): seq<Entry> {
    if a.Write? && a.channel == c && WriteCode(At(w, c), a.peer, a.token, a.ioOk) == Acked then
      [Entry(a.peer, a.bytes)]
    else []
  }

  ghost function AllWritten(worlds: seq<World>, actions: seq<Action>, c: Channel, i: nat, k: nat): seq<Entry>
    requires i <= k <= |actions| <= |worlds|
  {
    if i == k then []
    else AllWritten(worlds, actions, c, i, k - 1) + Written(worlds[k - 1], actions[k - 1], c)
  }

  lemma LineStepWire(l: Line, a: Action)
    ensures LineStep(l, a).past.wire ==
            l.past.wire + if a.Write? && WriteCode(l, a.peer, a.token, a.ioOk) == Acked
                          then [Entry(a.peer, a.bytes)] else []
  {
    hide Posted, RedactLine, Shown, Kept;
    assert l.past.wire + [] == l.past.wire;
  }

  lemma StepWire(w: World, a: Action, c: Channel)
    ensures At(Step(w, a), c).past.wire == At(w, c).past.wire + Written(w, a, c)
  {
    hide LineStep, Step, WriteCode;
    StepAt(w, a, c);
    LineStepWire(At(w, c), a);
  }

  /** From a moment at which `p` owns the line until something of `p`'s own or the
      end of the port ends the claim, `p` stays the owner, whatever the other
      clients do, and exactly the accepted writes of `p` reach the device, each in
      one piece and in order. */
  lemma {:induction false} ClaimIsExclusive(worlds: seq<World>, actions: seq<Action>, p: Peer, c: Channel,
                                            i: nat, k: nat)
    requires IsRun(worlds, actions) && i <= k < |worlds|
    requires Owns(At(worlds[i], c), p)
    requires forall j | i <= j < k :: !Ends(worlds[j], actions[j], p, c)
    ensures Owns(At(worlds[k], c), p)
    ensures At(worlds[k], c).past.wire ==
            At(worlds[i], c).past.wire + AllWritten(worlds, actions, c, i, k)
    ensures forall entry | entry in AllWritten(worlds, actions, c, i, k) :: entry.peer == p
  {
    hide Step, WorldInv, ChannelInv, WriteCode, LineStep, Enabled;
    if i < k {
      var w, a := worlds[k - 1], actions[k - 1];
      ClaimIsExclusive(worlds, actions, p, c, i, k - 1);
      ClaimHolds(worlds, actions, k - 1, p, c);
      StepWire(w, a, c);
      Assoc(At(worlds[i], c).past.wire, AllWritten(worlds, actions, c, i, k - 1), Written(w, a, c));
    }
  }

  lemma ClaimHolds(worlds: seq<World>, actions: seq<Action>, i: nat, p: Peer, c: Channel)
    requires IsRun(worlds, actions) && i < |actions|
    requires Owns(At(worlds[i], c), p) && !Ends(worlds[i], actions[i], p, c)
    ensures Owns(At(worlds[i + 1], c), p)
    ensures forall entry | entry in Written(worlds[i], actions[i], c) :: entry.peer == p
  {
    var w, a := worlds[i], actions[i];
    RunKeepsInv(worlds, actions, i);
    StepAt(w, a, c);
    assert Enabled(w, a);
    assert ChannelInv(At(w, c));
    hide Step, LineStep, WriteCode, ChannelInv, IsRun;
    if Target(w, a) == Some(c) {
      ClaimEndsExactly(At(w, c), a, p);
    }
    if a.Write? {
      OnlyOwnerWrites(At(w, c), p, a.peer, a.token, a.ioOk);
    }
  }

  // ---------------------------------------------------------------------
  // What observers see of a redacted operation.

  function TextOf(frames: seq<Frame>): Bytes {
    if frames == [] then [] else TextOf(frames[..|frames| - 1]) + frames[|frames| - 1].text
  }

  /** All data text ever sent to a client. */
  function Received(l: Line, p: Peer): Bytes {
    TextOf(Outbox(l.outboxes, p))
  }

  lemma TextOfSnoc(frames: seq<Frame>, last: Frame)
    ensures TextOf(frames + [last]) == TextOf(frames) + last.text
  {
    assert (frames + [last])[..|frames|] == frames;
  }

  lemma PostedText(outboxes: map<Peer, seq<Frame>>, receivers: set<Peer>, frame: Frame, p: Peer)
    ensures TextOf(Outbox(Posted(outboxes, receivers, frame), p)) ==
            TextOf(Outbox(outboxes, p)) + if p in receivers then frame.text else []
  {
    hide Posted, Outbox;
    PostedAt(outboxes, receivers, frame, p);
    TextOfSnoc(Outbox(outboxes, p), frame);
  }

  lemma DataReaches(l: Line, text: Bytes, p: Peer, q: Peer)
    requires l.redaction.Some? && l.redaction.value.owner == p && p in l.subscribers
    requires q != p && q in l.subscribers
    ensures var r := l.redaction.value;
            && Received(AfterData(l, text), q) == Received(l, q) + Shown(r.pending, text, r.token)
            && Received(AfterData(l, text), p) == Received(l, p) + text
  {
    hide Posted, Outbox, Shown, Kept, TextOf;
    var r, n := l.redaction.value, l.sequence + 1;
    var visible := Shown(r.pending, text, r.token);
    var raw := Posted(l.outboxes, l.subscribers * {p}, Frame(n, text));
    var others := if visible == [] then {} else l.subscribers - {p};
    PostedText(l.outboxes, l.subscribers * {p}, Frame(n, text), p);
    PostedText(l.outboxes, l.subscribers * {p}, Frame(n, text), q);
    PostedText(raw, others, Frame(n, visible), p);
    PostedText(raw, others, Frame(n, visible), q);
  }

  lemma SettlingReaches(l: Line, p: Peer, q: Peer)
    requires l.redaction.Some? && l.redaction.value.owner == p
    requires q != p && q in l.subscribers
    ensures var r := l.redaction.value;
            && Received(Settled(l), q) == Received(l, q) + RedactLine(r.pending, r.token)
            && Received(Settled(l), p) == Received(l, p)
  {
    hide Posted, Outbox, RedactLine, TextOf;
    var r := l.redaction.value;
    var frame := Frame(l.sequence + 1, RedactLine(r.pending, r.token));
    PostedText(l.outboxes, l.subscribers - {p}, frame, p);
    PostedText(l.outboxes, l.subscribers - {p}, frame, q);
  }

  /** During a redacted operation a step shows an observer what `push` lets
      through, and the owner everything. */
  lemma StepWhileRedacting(l: Line, a: Action, p: Peer, q: Peer)
    requires ChannelInv(l) && l.redaction.Some? && l.redaction.value.owner == p
    requires !EndsClaim(a, p) && (a.Timeout? ==> l.idle) && q != p && q in l.subscribers
    ensures var r, next := l.redaction.value, LineStep(l, a);
            if a.Data? then
              && next.redaction == Some(r.(pending := Kept(r.pending, a.text)))
              && Received(next, q) == Received(l, q) + Shown(r.pending, a.text, r.token)
              && Received(next, p) == Received(l, p) + a.text
            else
              next.redaction == l.redaction && next.outboxes == l.outboxes
  {
    hide Posted, Outbox, Shown, Kept, TextOf, RedactLine, Ordered, Bounded;
    assert Owns(l, p);
    if a.Data? {
      DataReaches(l, a.text, p, q);
    } else if a.Close? || a.Leave? || a.Release? {
      OthersLeave(l, p, a.peer);
    }
  }

  /** The end of the claim shows an observer the rest, unless the host shuts
      down. */
  lemma StepThatSettles(l: Line, a: Action, p: Peer, q: Peer)
    requires ChannelInv(l) && l.redaction.Some? && l.redaction.value.owner == p
    requires EndsClaim(a, p) && !a.Shutdown? && q != p && q in l.subscribers
    ensures var r, next := l.redaction.value, LineStep(l, a);
            && next.redaction.None?
            && Received(next, q) == Received(l, q) + RedactLine(r.pending, r.token)
            && Received(next, p) == Received(l, p)
  {
    hide Posted, Outbox, TextOf, RedactLine, Ordered, Bounded;
    SettlingReaches(l, p, q);
  }

  /** The texts broadcast on a channel between two moments of a run. */
  function Texts(actions: seq<Action>, c: Channel, i: nat, k: nat): seq<Bytes>
    requires i <= k <= |actions|
    decreases k - i
  {
    if i == k then []
    else (if actions[i].Data? && actions[i].channel == c then [actions[i].text] else [])
         + Texts(actions, c, i + 1, k)
  }

  ghost predicate Redacting(worlds: seq<World>, actions: seq<Action>, p: Peer, q: Peer, c: Channel, i: nat, k: nat) {
    && IsRun(worlds, actions) && i <= k < |actions| < |worlds| && p != q
    && At(worlds[i], c).redaction.Some? && At(worlds[i], c).redaction.value.owner == p
    && (forall j | i <= j < k :: !Ends(worlds[j], actions[j], p, c))
    && (forall j | i <= j <= k :: q in At(worlds[j], c).subscribers)
    && Ends(worlds[k], actions[k], p, c) && !actions[k].Shutdown?
  }

  /** One step of a redacted operation, at the level of the world. */
  lemma RedactingStep(worlds: seq<World>, actions: seq<Action>, p: Peer, q: Peer, c: Channel, i: nat, k: nat)
    requires Redacting(worlds, actions, p, q, c, i, k)
    ensures var r, l, next, a := At(worlds[i], c).redaction.value, At(worlds[i], c), At(worlds[i + 1], c), actions[i];
            if i == k then
              && Received(next, q) == Received(l, q) + RedactLine(r.pending, r.token)
              && Received(next, p) == Received(l, p)
            else if a.Data? && a.channel == c then
              && next.redaction == Some(r.(pending := Kept(r.pending, a.text)))
              && Received(next, q) == Received(l, q) + Shown(r.pending, a.text, r.token)
              && Received(next, p) == Received(l, p) + a.text
            else
              && next.redaction == l.redaction
              && Received(next, q) == Received(l, q) && Received(next, p) == Received(l, p)
  {
    var w, a := worlds[i], actions[i];
    RunKeepsInv(worlds, actions, i);
    StepAt(w, a, c);
    assert Enabled(w, a) && ChannelInv(At(w, c)) && q in At(w, c).subscribers;
    hide Step, LineStep, ChannelInv, IsRun, Shown, Kept, RedactLine;
    if Target(w, a) == Some(c) {
      if i == k {
        StepThatSettles(At(w, c), a, p, q);
      } else {
        assert !Ends(w, a, p, c);
        StepWhileRedacting(At(w, c), a, p, q);
      }
    }
  }

  /** Over a whole redacted operation, an observer that stays subscribed receives
      exactly the streamed redaction of what was read, and the owner all of it. */
  lemma {:induction false} ObserversReceiveStream(worlds: seq<World>, actions: seq<Action>, p: Peer, q: Peer,
                                                  c: Channel, i: nat, k: nat)
    requires Redacting(worlds, actions, p, q, c, i, k)
    ensures var r, texts := At(worlds[i], c).redaction.value, Texts(actions, c, i, k);
            && Received(At(worlds[k + 1], c), q) ==
               Received(At(worlds[i], c), q) + Streamed(r.pending, texts, r.token)
            && Received(At(worlds[k + 1], c), p) == Received(At(worlds[i], c), p) + Flatten(texts)
    decreases k - i
  {
    hide Step, At, Shown, Kept, RedactLine, Received, IsRun, Ends;
    RedactingStep(worlds, actions, p, q, c, i, k);
    if i < k {
      assert Redacting(worlds, actions, p, q, c, i + 1, k) by {
        RedactionPersists(worlds, actions, p, q, c, i, k);
      }
      ObserversReceiveStream(worlds, actions, p, q, c, i + 1, k);
      var l, next, a := At(worlds[i], c), At(worlds[i + 1], c), actions[i];
      var r, rest := l.redaction.value, Texts(actions, c, i + 1, k);
      if a.Data? && a.channel == c {
        assert ([a.text] + rest)[1..] == rest;
        Assoc(Received(l, q), Shown(r.pending, a.text, r.token), Streamed(next.redaction.value.pending, rest, r.token));
        Assoc(Received(l, p), a.text, Flatten(rest));
      } else {
        assert [] + rest == rest;
      }
    }
  }

  lemma RedactionPersists(worlds: seq<World>, actions: seq<Action>, p: Peer, q: Peer, c: Channel, i: nat, k: nat)
    requires Redacting(worlds, actions, p, q, c, i, k) && i < k
    ensures Redacting(worlds, actions, p, q, c, i + 1, k)
  {
    RedactingStep(worlds, actions, p, q, c, i, k);
    hide IsRun, Step, Ends, Shown, Kept, RedactLine, Received;
  }

  lemma WriteStartsRedaction(worlds: seq<World>, actions: seq<Action>, i: nat, p: Peer, c: Channel,
                             token: Bytes, bytes: Bytes)
    requires IsRun(worlds, actions) && i < |actions| && actions[i] == Write(p, c, Some(token), bytes, true)
    requires WriteCode(At(worlds[i], c), p, Some(token), true) == Acked
    ensures At(worlds[i + 1], c).redaction == Some(Redact(p, token, []))
  {
    StepAt(worlds[i], actions[i], c);
  }

  /** An accepted write with a token starts a redaction with nothing pending.
      Everything an observer then receives until the claim ends is the streamed
      redaction of the text read. That is the batch redaction, free of the
      bookkeeping, if and only if every line cut on the way is harmless; text without
      bookkeeping always arrives unchanged. */
  lemma ObserversSeeRedactedText(worlds: seq<World>, actions: seq<Action>, p: Peer, q: Peer, c: Channel,
                                 i: nat, k: nat, token: Bytes, bytes: Bytes)
    requires Redacting(worlds, actions, p, q, c, i, k) && IsToken(token)
    requires i > 0 && actions[i - 1] == Write(p, c, Some(token), bytes, true)
    requires WriteCode(At(worlds[i - 1], c), p, Some(token), true) == Acked
    ensures var texts := Texts(actions, c, i, k);
            var seen := Streamed([], texts, token);
            && Received(At(worlds[k + 1], c), q) == Received(At(worlds[i], c), q) + seen
            && Received(At(worlds[k + 1], c), p) == Received(At(worlds[i], c), p) + Flatten(texts)
            && (seen == RedactText(Flatten(texts), token) <==> AllHarmless(CutLines([], [], texts), token))
            && Clean(RedactText(Flatten(texts), token), token)
            && (Clean(Flatten(texts), token) ==> seen == Flatten(texts))
  {
    WriteStartsRedaction(worlds, actions, i - 1, p, c, token, bytes);
    hide IsRun, Ends, At, Received, RedactText, Streamed, Contains, Clean, Flatten, Texts, AllHarmless, CutLines;
    var texts := Texts(actions, c, i, k);
    assert [] + Flatten(texts) == Flatten(texts);
    ObserversReceiveStream(worlds, actions, p, q, c, i, k);
    StreamsBatchExactly(texts, token);
    RedactedTextIsClean(Flatten(texts), token);
    if Clean(Flatten(texts), token) {
      CleanTextPasses([], texts, token);
    }
  }

  /** Without a redaction only data reaches a client, and it reaches every
      subscriber. */
  lemma StepWithoutRedaction(l: Line, a: Action, q: Peer)
    requires l.redaction.None? && q in l.subscribers
    ensures Received(LineStep(l, a), q) == Received(l, q) + if a.Data? then a.text else []
  {
    hide Posted, Outbox, Shown, Kept, TextOf, RedactLine;
    assert Received(l, q) + [] == Received(l, q);
    if a.Data? {
      PostedText(l.outboxes, l.subscribers, Frame(l.sequence + 1, a.text), q);
    }
  }

  /** While no redaction is active, a client that stays subscribed receives all the
      text read, whoever owns the line. */
  lemma {:induction false} SubscribersReceiveAll(worlds: seq<World>, actions: seq<Action>, q: Peer, c: Channel,
                                                 i: nat, k: nat)
    requires IsRun(worlds, actions) && i <= k < |worlds|
    requires forall j | i <= j < k :: At(worlds[j], c).redaction.None? && q in At(worlds[j], c).subscribers
    ensures Received(At(worlds[k], c), q) == Received(At(worlds[i], c), q) + Flatten(Texts(actions, c, i, k))
    decreases k - i
  {
    if i < k {
      var w, a, rest := worlds[i], actions[i], Texts(actions, c, i + 1, k);
      assert worlds[i + 1] == Step(w, a) && Enabled(w, a);
      StepAt(w, a, c);
      StepWithoutRedaction(At(w, c), a, q);
      SubscribersReceiveAll(worlds, actions, q, c, i + 1, k);
      hide Step, At, LineStep, Received, IsRun;
      if a.Data? && a.channel == c {
        assert ([a.text] + rest)[1..] == rest;
        Assoc(Received(At(w, c), q), a.text, Flatten(rest));
      } else {
        assert [] + rest == rest;
        assert Received(At(w, c), q) + [] == Received(At(w, c), q);
      }
    }
  }

  /** From the port to the client: when the reader broadcasts what it decodes from
      its batches, and no redaction is active, a client that stays subscribed receives
      the lossy decoding of all bytes read, however they were split into batches and
      whatever else happens. The reader is always able to broadcast these texts. */
  lemma BytesReachSubscribers(worlds: seq<World>, actions: seq<Action>, q: Peer, c: Channel, i: nat, k: nat,
                              batches: seq<Bytes>)
    requires IsRun(worlds, actions) && i <= k < |worlds|
    requires forall j | i <= j < k :: At(worlds[j], c).redaction.None? && q in At(worlds[j], c).subscribers
    requires Texts(actions, c, i, k) == Utf8.Broadcasts([], batches)
    ensures Received(At(worlds[k], c), q) == Received(At(worlds[i], c), q) + Utf8.Lossy(Flatten(batches))
    ensures forall w, text | At(w, c).port.reader && text in Utf8.Broadcasts([], batches) ::
              Enabled(w, Data(c, text))
  {
    hide IsRun, Texts, Received, Utf8.Lossy, Utf8.Broadcasts, Flatten;
    SubscribersReceiveAll(worlds, actions, q, c, i, k);
    Utf8.BroadcastsAreLossy([], batches);
    assert [] + Flatten(batches) == Flatten(batches);
  }

  /** The same for the owner of a redacted operation. */
  lemma BytesReachOwner(worlds: seq<World>, actions: seq<Action>, p: Peer, q: Peer, c: Channel, i: nat, k: nat,
                        batches: seq<Bytes>)
    requires Redacting(worlds, actions, p, q, c, i, k)
    requires Texts(actions, c, i, k) == Utf8.Broadcasts([], batches)
    ensures Received(At(worlds[k + 1], c), p) == Received(At(worlds[i], c), p) + Utf8.Lossy(Flatten(batches))
  {
    hide IsRun, Texts, Received, Utf8.Lossy, Utf8.Broadcasts, Flatten, Streamed, Ends;
    ObserversReceiveStream(worlds, actions, p, q, c, i, k);
    Utf8.BroadcastsAreLossy([], batches);
    assert [] + Flatten(batches) == Flatten(batches);
  }

  // ---------------------------------------------------------------------
  // Idle ports.

  /** A disconnecting client is about to start the idle timer of `c`. */
  ghost predicate ScheduleDue(w: World, c: Channel) {
    exists p | p in w.tasks :: w.tasks[p].Leaving? && w.tasks[p].due == Some(c)
  }

  /** A connected port without subscribers will be closed by a timer. */
  ghost predicate Covered(w: World, c: Channel) {
    At(w, c).port.writer && At(w, c).subscribers == {} ==> At(w, c).idle || ScheduleDue(w, c)
  }

  /** An `open` at another rate, of a connected port nobody subscribes to. */
  ghost predicate Strands(w: World, a: Action, c: Channel) {
    && a.Open? && a.channel == c && At(w, c).port.writer && At(w, c).subscribers == {}
    && At(w, c).port.baud != Some(a.baud) && !ScheduleDue(w, c)
  }

  lemma DueStays(w: World, a: Action, c: Channel)
    requires Enabled(w, a) && ScheduleDue(w, c) && !(a.Schedule? && Target(w, a) == Some(c))
    ensures ScheduleDue(Step(w, a), c)
  {
    hide LineStep;
    var p :| p in w.tasks && w.tasks[p].Leaving? && w.tasks[p].due == Some(c);
    assert p in NextTasks(w, a) && NextTasks(w, a)[p].Leaving? && NextTasks(w, a)[p].due == Some(c);
  }

  lemma NoNewDue(w: World, a: Action, c: Channel)
    requires Enabled(w, a) && a.Open? && !ScheduleDue(w, c)
    ensures !ScheduleDue(Step(w, a), c)
  {
    hide LineStep;
    assert forall p | p in w.tasks :: !(w.tasks[p].Leaving? && w.tasks[p].due == Some(c));
  }

  /** That a connected port without subscribers has a timer is not an invariant: a
      step breaks it exactly when it is a conflicting `open`, which stops the timer
      before it fails. */
  lemma CoverageLostExactly(w: World, a: Action, c: Channel)
    requires WorldInv(w) && Enabled(w, a) && Covered(w, c)
    ensures Covered(Step(w, a), c) <==> !Strands(w, a, c)
  {
    hide Step, LineStep, ScheduleDue, ChannelInv;
    assert ChannelInv(At(w, c));
    StepAt(w, a, c);
    if Target(w, a) == Some(c) {
      LineCoverage(At(w, c), a);
    }
    if ScheduleDue(w, c) && !(a.Schedule? && Target(w, a) == Some(c)) {
      DueStays(w, a, c);
    }
    if a.Open? && !ScheduleDue(w, c) {
      NoNewDue(w, a, c);
    }
    if a.Leave? && a.channel == c {
      assert a == Leave(a.peer, c);
      LeaveIsDue(w, a.peer, c);
    }
  }

  lemma LeaveIsDue(w: World, p: Peer, c: Channel)
    requires Enabled(w, Leave(p, c))
    ensures At(Step(w, Leave(p, c)), c).subscribers == {} ==> ScheduleDue(Step(w, Leave(p, c)), c)
  {
    StepAt(w, Leave(p, c), c);
    hide AfterLeave;
    var w' := Step(w, Leave(p, c));
    assert p in w'.tasks;
  }

  /** What a step on a channel does to a port without subscribers. */
  lemma LineCoverage(l: Line, a: Action)
    requires ChannelInv(l) && (a.Timeout? ==> l.idle)
    ensures var next := LineStep(l, a);
            next.port.writer && next.subscribers == {} && !next.idle ==>
              if a.Open? then l.port.writer && l.subscribers == {} && l.port.baud != Some(a.baud)
              else a.Leave? || (!a.Schedule? && l.port.writer && l.subscribers == {} && !l.idle)
    ensures a.Open? && l.port.writer && l.subscribers == {} && l.port.baud != Some(a.baud) ==>
              LineStep(l, a).port.writer && LineStep(l, a).subscribers == {} && !LineStep(l, a).idle
  {
    hide Posted, RedactLine, Shown, Kept, Ordered, Bounded;
  }

  /** Worlds in which only the first channel is in use, at 115200 baud. */
  function Lone(path: Bytes, subscribers: set<Peer>, idle: bool, subscriptions: map<Peer, set<Channel>>,
                task: Task): World {
    World(Line(Port(Some(path), Some(115200), true, true, None), idle, subscribers, None, None, 0, map[],
               Past([], [], [])),
          CLOSED, subscriptions, map[0 := task])
  }

  lemma FirstOpens(path: Bytes, e: OpenEnv)
    requires e == OpenEnv(Found(path), true, None)
    ensures Enabled(INITIAL, Open(0, Uart0, 115200, e))
    ensures Step(INITIAL, Open(0, Uart0, 115200, e)) == Lone(path, {0}, false, map[], Subscribing(Uart0))
  {
    assert {} + {0} == {0};
  }

  lemma FirstSubscribes(path: Bytes)
    ensures Enabled(Lone(path, {0}, false, map[], Subscribing(Uart0)), Continue(0))
    ensures Step(Lone(path, {0}, false, map[], Subscribing(Uart0)), Continue(0)) ==
            Lone(path, {0}, false, map[0 := {Uart0}], Ready)
  {
    var w := Lone(path, {0}, false, map[], Subscribing(Uart0));
    assert Subscriptions(w, 0) + {Uart0} == {Uart0};
    assert NextSubscriptions(w, Continue(0)) == map[0 := {Uart0}];
  }

  lemma FirstDisconnects(path: Bytes)
    ensures Enabled(Lone(path, {0}, false, map[0 := {Uart0}], Ready), Disconnect(0))
    ensures Step(Lone(path, {0}, false, map[0 := {Uart0}], Ready), Disconnect(0)) ==
            Lone(path, {0}, false, map[], Leaving({Uart0}, None))
  {
  }

  lemma FirstLeaves(path: Bytes)
    ensures Enabled(Lone(path, {0}, false, map[], Leaving({Uart0}, None)), Leave(0, Uart0))
    ensures Step(Lone(path, {0}, false, map[], Leaving({Uart0}, None)), Leave(0, Uart0)) ==
            Lone(path, {}, false, map[], Leaving({}, Some(Uart0)))
  {
    var w := Lone(path, {0}, false, map[], Leaving({Uart0}, None));
    assert AfterLeave(w.uart0, 0).subscribers == {};
    assert TaskOf(w, 0).todo - {Uart0} == {};
    assert NextTasks(w, Leave(0, Uart0)) == map[0 := Leaving({}, Some(Uart0))];
  }

  lemma TimerStarts(path: Bytes)
    ensures Enabled(Lone(path, {}, false, map[], Leaving({}, Some(Uart0))), Schedule(0))
    ensures Step(Lone(path, {}, false, map[], Leaving({}, Some(Uart0))), Schedule(0)) ==
            Lone(path, {}, true, map[], Leaving({}, None))
  {
  }

  lemma ConflictStopsTimer(path: Bytes, e: OpenEnv)
    ensures Enabled(Lone(path, {}, true, map[], Leaving({}, None)), Open(1, Uart0, 9600, e))
    ensures Step(Lone(path, {}, true, map[], Leaving({}, None)), Open(1, Uart0, 9600, e)) ==
            Lone(path, {}, false, map[], Leaving({}, None))
  {
  }

  lemma NotCovered(path: Bytes)
    ensures !Covered(Lone(path, {}, false, map[], Leaving({}, None)), Uart0)
  {
  }

  /** A run that leaves a port open for good: the only client disconnects, and an
      `open` at another rate stops the timer. */
  lemma PortLeftOpen(path: Bytes) returns (worlds: seq<World>, actions: seq<Action>)
    ensures IsRun(worlds, actions) && !Covered(worlds[|actions|], Uart0)
  {
    var e := OpenEnv(Found(path), true, None);
    worlds, actions := [INITIAL], [];
    assert IsRun(worlds, actions);
    FirstOpens(path, e);
    FirstSubscribes(path);
    FirstDisconnects(path);
    FirstLeaves(path);
    TimerStarts(path);
    ConflictStopsTimer(path, e);
    NotCovered(path);
    hide Step, Enabled, Covered, Lone, IsRun;
    worlds, actions := Extended(worlds, actions, Open(0, Uart0, 115200, e),
                                Lone(path, {0}, false, map[], Subscribing(Uart0)));
    worlds, actions := Extended(worlds, actions, Continue(0), Lone(path, {0}, false, map[0 := {Uart0}], Ready));
    worlds, actions := Extended(worlds, actions, Disconnect(0),
                                Lone(path, {0}, false, map[], Leaving({Uart0}, None)));
    worlds, actions := Extended(worlds, actions, Leave(0, Uart0),
                                Lone(path, {}, false, map[], Leaving({}, Some(Uart0))));
    worlds, actions := Extended(worlds, actions, Schedule(0), Lone(path, {}, true, map[], Leaving({}, None)));
    worlds, actions := Extended(worlds, actions, Open(1, Uart0, 9600, e),
                                Lone(path, {}, false, map[], Leaving({}, None)));
  }

  lemma Extended(worlds: seq<World>, actions: seq<Action>, a: Action, next: World)
    returns (longer: seq<World>, steps: seq<Action>)
    requires |worlds| == |actions| + 1 && IsRun(worlds, actions)
    requires Enabled(worlds[|actions|], a) && next == Step(worlds[|actions|], a)
    ensures |longer| == |steps| + 1 && IsRun(longer, steps) && longer[|steps|] == next
  {
    hide Step, Enabled;
    longer, steps := worlds + [next], actions + [a];
    assert forall i | 0 <= i < |worlds| :: longer[i] == worlds[i];
    forall i | 0 <= i < |steps| ensures Enabled(longer[i], steps[i]) && longer[i + 1] == Step(longer[i], steps[i]) {
      assert i < |actions| ==> steps[i] == actions[i];
    }
  }

  lemma FirstClaims(path: Bytes, tag: Bytes)
    ensures Enabled(Lone(path, {0}, false, map[0 := {Uart0}], Ready), Claim(0, Uart0, tag))
    ensures var w := Lone(path, {0}, false, map[0 := {Uart0}], Ready);
            Step(w, Claim(0, Uart0, tag)) == w.(uart0 := w.uart0.(owner := Some(Owner(0, tag))))
  {
  }

  /** A run in which a client opens a channel and claims it. */
  lemma LineIsClaimed(path: Bytes, tag: Bytes) returns (worlds: seq<World>, actions: seq<Action>)
    ensures IsRun(worlds, actions)
    ensures At(worlds[|actions|], Uart0).owner == Some(Owner(0, tag))
  {
    var e := OpenEnv(Found(path), true, None);
    worlds, actions := [INITIAL], [];
    assert IsRun(worlds, actions);
    FirstOpens(path, e);
    FirstSubscribes(path);
    FirstClaims(path, tag);
    var ready := Lone(path, {0}, false, map[0 := {Uart0}], Ready);
    var claimed := ready.(uart0 := ready.uart0.(owner := Some(Owner(0, tag))));
    assert At(claimed, Uart0).owner == Some(Owner(0, tag));
    hide Step, Enabled, Lone, IsRun, At;
    worlds, actions := Extended(worlds, actions, Open(0, Uart0, 115200, e),
                                Lone(path, {0}, false, map[], Subscribing(Uart0)));
    worlds, actions := Extended(worlds, actions, Continue(0), ready);
    worlds, actions := Extended(worlds, actions, Claim(0, Uart0, tag), claimed);
  }
}
