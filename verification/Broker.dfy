/** One serial channel of the broker. Every section that holds the channel's
    lock is one atomic step; aborting a reader or an idle timer takes effect at
    once, and a write to the device succeeds or fails as a whole. */
module Broker {
  import opened Common
  import opened Utf8
  import opened Redaction

  type Peer = nat

  type Session = nat

  datatype Owner = Owner(peer: Peer, tag: Bytes)

  /** An active observer redaction. */
  datatype Redact = Redact(owner: Peer, token: Bytes, pending: Bytes)

  /** A data frame queued for a client. */
  datatype Frame = Frame(sequence: nat, text: Bytes)

  /** An accepted write, as it reached the device. */
  datatype Entry = Entry(peer: Peer, bytes: Bytes)

  /** The serial port of a channel: its path and rate, the write half, the reader
      task, and the log session. */
  datatype Port = Port(path: Option<Bytes>, baud: Option<nat>, writer: bool, reader: bool,
                       logSession: Option<Session>)

  /** The writes that reached the device, and the log sessions begun and
      finished. */
  datatype Past = Past(wire: seq<Entry>, begun: seq<Session>, ended: seq<Session>)

  /** A channel with the frames queued for each client. */
  datatype Line = Line(port: Port, idle: bool, subscribers: set<Peer>, owner: Option<Owner>,
                       redaction: Option<Redact>, sequence: nat, outboxes: map<Peer, seq<Frame>>, past: Past)

  datatype Code =
    | Opened | BaudConflict | SerialNotFound | OpenFailed
    | Acked | NotOpen | Busy | ClaimRequired | RedactionActive | WriteFailed
    | Claimed

  /** What `open` finds outside: the port search, whether the port opens, and the
      log session, if logging is on. */
  datatype Search = Found(path: Bytes) | Missing | Failed

  datatype OpenEnv = OpenEnv(search: Search, opens: bool, session: Option<Session>)

  const NO_PORT := Port(None, None, false, false, None)

  const CLOSED := Line(NO_PORT, false, {}, None, None, 0, map[], Past([], [], []))

  function Outbox(outboxes: map<Peer, seq<Frame>>, peer: Peer): seq<Frame> {
    if peer in outboxes then outboxes[peer] else []
  }

  function Posted(outboxes: map<Peer, seq<Frame>>, receivers: set<Peer>, frame: Frame): map<Peer, seq<Frame>> {
    map p | p in outboxes.Keys + receivers ::
      Outbox(outboxes, p) + if p in receivers then [frame] else []
  }

  function Listed(session: Option<Session>): seq<Session> {
    match session
    case None => []
    case Some(id) => [id]
  }

  predicate Owns(l: Line, peer: Peer) {
    l.owner.Some? && l.owner.value.peer == peer
  }

  // ---------------------------------------------------------------------
  // The locked sections, as functions.

  /** `finish_observer_redaction`. */
  function Settled(l: Line): Line {
    match l.redaction
    case None => l
    case Some(r) =>
      var visible := RedactLine(r.pending, r.token);
      if visible == [] then l.(redaction := None)
      else
        l.(redaction := None, sequence := l.sequence + 1,
           outboxes := Posted(l.outboxes, l.subscribers - {r.owner}, Frame(l.sequence + 1, visible)))
  }

  function PortClosed(l: Line): Line {
    l.(port := NO_PORT, owner := None, redaction := None,
       past := l.past.(ended := l.past.ended + Listed(l.port.logSession)))
  }

  function OpenCode(l: Line, baud: nat, e: OpenEnv): Code {
    if l.port.baud.Some? && l.port.baud.value != baud then BaudConflict
    else if l.port.writer then Opened
    else if e.search.Missing? then SerialNotFound
    else if e.search.Failed? || !e.opens then OpenFailed
    else Opened
  }

  function AfterOpen(l: Line, peer: Peer, baud: nat, e: OpenEnv): Line {
    if OpenCode(l, baud, e) != Opened then l.(idle := false)
    else if l.port.writer || !e.search.Found? then l.(idle := false, subscribers := l.subscribers + {peer})
    else
      l.(idle := false, subscribers := l.subscribers + {peer},
         port := Port(Some(e.search.path), Some(baud), true, true, e.session),
         past := l.past.(begun := l.past.begun + Listed(e.session)))
  }

  function WriteCode(l: Line, peer: Peer, token: Option<Bytes>, ioOk: bool): Code {
    if peer !in l.subscribers || !l.port.writer then NotOpen
    else if l.owner.Some? && !Owns(l, peer) then Busy
    else if token.Some? && !Owns(l, peer) then ClaimRequired
    else if token.Some? && l.redaction.Some? then RedactionActive
    else if !ioOk then WriteFailed
    else Acked
  }

  /** The redaction starts before the bytes are written, and stays when the write
      fails. */
  function AfterWrite(l: Line, peer: Peer, token: Option<Bytes>, bytes: Bytes, ioOk: bool): Line {
    var code := WriteCode(l, peer, token, ioOk);
    var started := if token.Some? && code in {WriteFailed, Acked} then Some(Redact(peer, token.value, []))
                   else l.redaction;
    l.(redaction := started,
       past := if code == Acked then l.past.(wire := l.past.wire + [Entry(peer, bytes)]) else l.past)
  }

  function ClaimCode(l: Line, peer: Peer): Code {
    if peer !in l.subscribers || !l.port.writer then NotOpen
    else if l.owner.Some? && !Owns(l, peer) then Busy
    else Claimed
  }

  function AfterClaim(l: Line, peer: Peer, tag: Bytes): Line {
    if ClaimCode(l, peer) == Claimed then l.(owner := Some(Owner(peer, tag))) else l
  }

  function AfterRelease(l: Line, peer: Peer): Line {
    if Owns(l, peer) then Settled(l).(owner := None) else l
  }

  /** What `close` and `disconnect_peer` share. */
  function AfterLeave(l: Line, peer: Peer): Line {
    var released := AfterRelease(l, peer);
    released.(subscribers := released.subscribers - {peer})
  }

  function AfterClose(l: Line, peer: Peer): Line {
    var left := AfterLeave(l, peer);
    if left.subscribers == {} then PortClosed(left) else left
  }

  function AfterSchedule(l: Line): Line {
    l.(idle := l.subscribers == {} && l.port.writer)
  }

  function AfterTimeout(l: Line): Line {
    (if l.subscribers == {} then PortClosed(l) else l).(idle := false)
  }

  /** `broadcast_data`: an active redaction shows its owner the raw text and all
      others what it lets through. */
  function AfterData(l: Line, text: Bytes): Line {
    var n := l.sequence + 1;
    match l.redaction
    case None => l.(sequence := n, outboxes := Posted(l.outboxes, l.subscribers, Frame(n, text)))
    case Some(r) =>
      var visible := Shown(r.pending, text, r.token);
      var raw := Posted(l.outboxes, l.subscribers * {r.owner}, Frame(n, text));
      l.(sequence := n, redaction := Some(r.(pending := Kept(r.pending, text))),
         outboxes := Posted(raw, if visible == [] then {} else l.subscribers - {r.owner}, Frame(n, visible)))
  }

  /** The end of `read_serial`. */
  function AfterReaderEnd(l: Line): Line {
    PortClosed(Settled(l))
  }

  function AfterShutdown(l: Line): Line {
    PortClosed(l.(idle := false))
  }

  // ---------------------------------------------------------------------
  // What every section keeps.

  predicate Increasing(frames: seq<Frame>, last: nat) {
    && (forall i, j | 0 <= i < j < |frames| :: frames[i].sequence < frames[j].sequence)
    && forall i | 0 <= i < |frames| :: frames[i].sequence <= last
  }

  ghost predicate Ordered(outboxes: map<Peer, seq<Frame>>, last: nat) {
    forall p | p in outboxes :: Increasing(outboxes[p], last)
  }

  /** Every log session begun by opening the port is finished when the port
      closes, once and in order. */
  predicate SessionsMatch(l: Line) {
    && l.past.begun == l.past.ended + Listed(l.port.logSession)
    && (l.port.logSession.Some? ==> l.port.writer)
  }

  predicate Bounded(r: Redact) {
    Valid(r.pending) && NEWLINE !in r.pending && |r.pending| <= MAX_BUFFER
  }

  ghost predicate ChannelInv(l: Line) {
    && (l.port.path.Some? <==> l.port.writer) && (l.port.baud.Some? <==> l.port.writer)
    && (l.port.reader <==> l.port.writer)
    && (l.owner.Some? ==> l.port.writer && l.owner.value.peer in l.subscribers)
    && (l.redaction.Some? ==> Owns(l, l.redaction.value.owner) && Bounded(l.redaction.value))
    && (l.idle ==> l.subscribers == {})
    && SessionsMatch(l)
    && Ordered(l.outboxes, l.sequence)
  }

  lemma ClosedIsValid()
    ensures ChannelInv(CLOSED)
  {
  }

  lemma PostedAt(outboxes: map<Peer, seq<Frame>>, receivers: set<Peer>, frame: Frame, peer: Peer)
    ensures var before, after := Outbox(outboxes, peer), Outbox(Posted(outboxes, receivers, frame), peer);
            after == if peer in receivers then before + [frame] else before
  {
  }

  lemma NextFrameIncreases(frames: seq<Frame>, last: nat, text: Bytes)
    requires Increasing(frames, last)
    ensures Increasing(frames, last + 1) && Increasing(frames + [Frame(last + 1, text)], last + 1)
  {
  }

  /** Two disjoint groups of receivers may be given frames with the next number;
      either group may be empty. */
  lemma PostKeepsOrder(outboxes: map<Peer, seq<Frame>>, last: nat, some: set<Peer>, others: set<Peer>,
                       a: Bytes, b: Bytes)
    requires Ordered(outboxes, last) && some !! others
    ensures Ordered(Posted(outboxes, some, Frame(last + 1, a)), last + 1)
    ensures Ordered(Posted(Posted(outboxes, some, Frame(last + 1, a)), others, Frame(last + 1, b)), last + 1)
  {
    hide Posted, Increasing;
    var one := Posted(outboxes, some, Frame(last + 1, a));
    var two := Posted(one, others, Frame(last + 1, b));
    forall p ensures Increasing(Outbox(one, p), last + 1) && Increasing(Outbox(two, p), last + 1) {
      EmptyIncreases(last);
      PostedAt(outboxes, some, Frame(last + 1, a), p);
      PostedAt(one, others, Frame(last + 1, b), p);
      NextFrameIncreases(Outbox(outboxes, p), last, a);
      NextFrameIncreases(Outbox(outboxes, p), last, b);
    }
    OrderedByOutbox(one, last + 1);
    OrderedByOutbox(two, last + 1);
  }

  lemma EmptyIncreases(last: nat)
    ensures Increasing([], last)
  {
  }

  lemma OrderedByOutbox(outboxes: map<Peer, seq<Frame>>, last: nat)
    requires forall p :: Increasing(Outbox(outboxes, p), last)
    ensures Ordered(outboxes, last)
  {
    hide Increasing;
    forall p | p in outboxes ensures Increasing(outboxes[p], last) {
      assert Increasing(Outbox(outboxes, p), last);
    }
  }

  lemma SettledKeepsOrder(l: Line)
    requires Ordered(l.outboxes, l.sequence)
    ensures Ordered(Settled(l).outboxes, Settled(l).sequence)
    ensures Settled(l) == l.(redaction := None, sequence := Settled(l).sequence, outboxes := Settled(l).outboxes)
  {
    hide RedactLine, Posted, Ordered;
    if l.redaction.Some? {
      var r := l.redaction.value;
      PostKeepsOrder(l.outboxes, l.sequence, l.subscribers - {r.owner}, {}, RedactLine(r.pending, r.token), []);
    }
  }

  lemma OpenKeepsInv(l: Line, peer: Peer, baud: nat, e: OpenEnv)
    requires ChannelInv(l)
    ensures ChannelInv(AfterOpen(l, peer, baud, e))
  {
    hide Ordered, Bounded;
  }

  lemma WriteKeepsInv(l: Line, peer: Peer, token: Option<Bytes>, bytes: Bytes, ioOk: bool)
    requires ChannelInv(l)
    ensures ChannelInv(AfterWrite(l, peer, token, bytes, ioOk))
  {
    hide Ordered;
  }

  lemma ClaimKeepsInv(l: Line, peer: Peer, tag: Bytes)
    requires ChannelInv(l)
    ensures ChannelInv(AfterClaim(l, peer, tag))
  {
    hide Ordered, Bounded;
  }

  lemma LeaveKeepsInv(l: Line, peer: Peer)
    requires ChannelInv(l)
    ensures ChannelInv(AfterRelease(l, peer)) && ChannelInv(AfterLeave(l, peer))
    ensures ChannelInv(AfterClose(l, peer))
  {
    hide Ordered, Bounded, Settled;
    SettledKeepsOrder(l);
  }

  lemma IdleKeepsInv(l: Line)
    requires ChannelInv(l)
    ensures ChannelInv(AfterSchedule(l)) && ChannelInv(AfterTimeout(l)) && ChannelInv(AfterShutdown(l))
  {
    hide Ordered, Bounded;
  }

  lemma EndKeepsInv(l: Line)
    requires ChannelInv(l)
    ensures ChannelInv(AfterReaderEnd(l))
  {
    hide Ordered, Bounded, Settled;
    SettledKeepsOrder(l);
  }

  lemma PushKeepsBound(r: Redact, text: Bytes)
    requires Bounded(r) && Valid(text)
    ensures Bounded(r.(pending := Kept(r.pending, text)))
  {
    hide Kept, Valid;
    ValidPrefixDecodes(r.pending, text);
    KeptIsBounded(r.pending, text);
  }

  lemma DataKeepsInv(l: Line, text: Bytes)
    requires ChannelInv(l) && Valid(text)
    ensures ChannelInv(AfterData(l, text))
  {
    hide Ordered, Posted, Shown, Kept, Valid, Bounded;
    match l.redaction
    case None => PostKeepsOrder(l.outboxes, l.sequence, l.subscribers, {}, text, []);
    case Some(r) =>
      var visible := Shown(r.pending, text, r.token);
      var others := if visible == [] then {} else l.subscribers - {r.owner};
      PostKeepsOrder(l.outboxes, l.sequence, l.subscribers * {r.owner}, others, text, visible);
      PushKeepsBound(r, text);
  }

  // ---------------------------------------------------------------------
  // What each request achieves.

  /** A client that opens a channel is in exactly when the port is connected at the
      rate it asks for, or is not connected and can be found and opened; the port then
      has that rate. Everyone else's place is untouched, and a refused open only stops
      the idle timer. */
  lemma OpenAchieves(l: Line, peer: Peer, baud: nat, e: OpenEnv)
    requires ChannelInv(l)
    ensures var next := AfterOpen(l, peer, baud, e);
            var connects := !l.port.writer && e.search.Found? && e.opens;
            var joins := l.port.writer && l.port.baud == Some(baud);
            && (OpenCode(l, baud, e) == Opened <==> connects || joins)
            && (OpenCode(l, baud, e) == BaudConflict <==> l.port.writer && !joins)
            && (OpenCode(l, baud, e) == SerialNotFound <==> !l.port.writer && e.search.Missing?)
            && (if connects || joins then
                  && next == l.(idle := false, subscribers := l.subscribers + {peer}, port := next.port,
                                past := next.past)
                  && next.port.writer && next.port.reader && next.port.baud == Some(baud)
                  && (joins ==> next.port == l.port && next.past == l.past)
                  && (connects ==> next.port.path == Some(e.search.path) && next.port.logSession == e.session
                                   && next.past.wire == l.past.wire)
                else next == l.(idle := false))
  {
    hide Ordered, Bounded;
  }

  /** A claim succeeds exactly for a subscriber of a connected port that no other client
      owns; a refused claim changes nothing. */
  lemma ClaimAchieves(l: Line, peer: Peer, tag: Bytes)
    requires ChannelInv(l)
    ensures var next := AfterClaim(l, peer, tag);
            var usable := peer in l.subscribers && l.port.writer;
            var taken := exists other | other in l.subscribers && other != peer :: Owns(l, other);
            && (ClaimCode(l, peer) == Claimed <==> usable && !taken)
            && (ClaimCode(l, peer) == NotOpen <==> !usable)
            && (ClaimCode(l, peer) == Busy <==> usable && taken)
            && next == (if usable && !taken then l.(owner := Some(Owner(peer, tag))) else l)
            && (usable && !taken ==> Owns(next, peer))
  {
    hide Ordered, Bounded;
    if l.owner.Some? {
      assert l.owner.value.peer in l.subscribers && Owns(l, l.owner.value.peer);
    }
  }

  /** When an owner releases, closes or disconnects, the next claim of another subscriber
      succeeds, as long as the port stays connected. */
  lemma NextClaimSucceeds(l: Line, peer: Peer, next: Peer, tag: Bytes)
    requires ChannelInv(l) && Owns(l, peer) && next in l.subscribers && next != peer
    ensures ClaimCode(l, next) == Busy
    ensures Owns(AfterClaim(AfterRelease(l, peer), next, tag), next)
    ensures Owns(AfterClaim(AfterLeave(l, peer), next, tag), next)
    ensures Owns(AfterClaim(AfterClose(l, peer), next, tag), next)
  {
    hide Ordered, Bounded, Settled;
    SettledKeepsOrder(l);
    assert next in AfterLeave(l, peer).subscribers;
  }

  /** A write is accepted exactly from a subscriber of a connected port, if nobody else
      owns the line, a redaction is asked for by the owner alone and only when none is
      active, and the device takes the bytes; then they go to the device. The code names
      the first condition that fails. */
  lemma WriteAchieves(l: Line, peer: Peer, token: Option<Bytes>, bytes: Bytes, ioOk: bool)
    requires ChannelInv(l)
    ensures var next, code := AfterWrite(l, peer, token, bytes, ioOk), WriteCode(l, peer, token, ioOk);
            var usable := peer in l.subscribers && l.port.writer;
            var foreign := l.owner.Some? && l.owner.value.peer != peer;
            var claimed := l.owner.Some? && l.owner.value.peer == peer;
            && (code == NotOpen <==> !usable)
            && (code == Busy <==> usable && foreign)
            && (code == ClaimRequired <==> usable && !foreign && token.Some? && !claimed)
            && (code == RedactionActive <==> usable && claimed && token.Some? && l.redaction.Some?)
            && (code in {Acked, WriteFailed} <==>
                  usable && !foreign && (token.Some? ==> claimed && l.redaction.None?))
            && (code in {Acked, WriteFailed} ==> (code == Acked <==> ioOk))
            && next.past.wire == (if code == Acked then l.past.wire + [Entry(peer, bytes)] else l.past.wire)
            && next.redaction == (if token.Some? && code in {Acked, WriteFailed}
                                  then Some(Redact(peer, token.value, [])) else l.redaction)
            && next == l.(past := l.past.(wire := next.past.wire), redaction := next.redaction)
  {
    hide Ordered, Bounded;
  }

  /** Leaving takes the client, and its claim, out of the channel and no one else; with
      a close the port goes with the last subscriber and not before. */
  lemma LeaveAchieves(l: Line, peer: Peer)
    requires ChannelInv(l)
    ensures var left, closed := AfterLeave(l, peer), AfterClose(l, peer);
            && left.subscribers == closed.subscribers == l.subscribers - {peer}
            && !Owns(left, peer) && !Owns(closed, peer)
            && (!Owns(l, peer) ==> left == l.(subscribers := l.subscribers - {peer}))
            && left.port == l.port && left.past == l.past && left.idle == l.idle
            && (if closed.subscribers == {} then closed.port == NO_PORT && closed.owner.None?
                else closed == left)
  {
    hide Ordered, Bounded, Settled;
    SettledKeepsOrder(l);
  }

  /** The idle timer, if it runs out, always closes the port: it never meets a
      subscriber. */
  lemma TimeoutCloses(l: Line)
    requires ChannelInv(l) && l.idle
    ensures var next := AfterTimeout(l);
            && next.port == NO_PORT && !next.idle && next.owner.None? && next.redaction.None?
            && next.past.ended == next.past.begun
  {
    hide Ordered, Bounded;
  }

  // ---------------------------------------------------------------------
  // The implementation.

  class ChannelState {
    var port: Port
    var idleTask: bool
    var subscribers: set<Peer>
    var owner: Option<Owner>
    var observerRedaction: ObserverRedaction?<Peer>
    var sequence: nat
    var outboxes: map<Peer, seq<Frame>>
    ghost var past: Past

    ghost function R(): Option<Redact>
      reads this, observerRedaction
    {
      if observerRedaction == null then None
      else Some(Redact(observerRedaction.owner, observerRedaction.token, observerRedaction.pending))
    }

    ghost function S(): Line
      reads this, observerRedaction
    {
      Line(port, idleTask, subscribers, owner, R(), sequence, outboxes, past)
    }

    constructor ()
      ensures S() == CLOSED && observerRedaction == null
    {
      port, idleTask, subscribers, owner, observerRedaction := NO_PORT, false, {}, None, null;
      sequence, outboxes, past := 0, map[], Past([], [], []);
    }

    method CancelIdleClose()
      modifies this`idleTask
      ensures !idleTask
    {
      idleTask := false;
    }

    method ClosePort() returns (session: Option<Session>)
      modifies this
      ensures S() == PortClosed(old(S())) && observerRedaction == null && session == old(port.logSession)
    {
      session := port.logSession;
      port := NO_PORT;
      owner := None;
      observerRedaction := null;
      past := past.(ended := past.ended + Listed(session));
    }

    /** One frame for each of the receivers. */
    method Send(receivers: set<Peer>, frame: Frame)
      modifies this`outboxes
      ensures outboxes == Posted(old(outboxes), receivers, frame)
    {
      PostedToNone(outboxes, frame);
      var todo := receivers;
      assert receivers - todo == {};
      while todo != {}
        invariant todo <= receivers && outboxes == Posted(old(outboxes), receivers - todo, frame)
      {
        var peer :| peer in todo;
        outboxes := outboxes[peer := Outbox(outboxes, peer) + [frame]];
        todo := todo - {peer};
      }
      assert receivers - todo == receivers;
    }

    method FinishObserverRedaction()
      modifies this, observerRedaction
      ensures S() == Settled(old(S())) && observerRedaction == null
    {
      hide Posted;
      if observerRedaction == null {
        return;
      }
      var redaction := observerRedaction;
      observerRedaction := null;
      var visible := redaction.Finish();
      if visible == [] {
        return;
      }
      sequence := sequence + 1;
      Send(subscribers - {redaction.owner}, Frame(sequence, visible));
    }

    method Open(peer: Peer, rate: nat, e: OpenEnv) returns (code: Code)
      modifies this
      ensures S() == AfterOpen(old(S()), peer, rate, e) && code == OpenCode(old(S()), rate, e)
      ensures observerRedaction == old(observerRedaction)
    {
      CancelIdleClose();
      if port.baud.Some? && port.baud.value != rate {
        return BaudConflict;
      }
      if !port.writer {
        match e.search
        case Missing => return SerialNotFound;
        case Failed => return OpenFailed;
        case Found(found) =>
          if !e.opens {
            return OpenFailed;
          }
          port := Port(Some(found), Some(rate), true, true, e.session);
          past := past.(begun := past.begun + Listed(e.session));
      }
      subscribers := subscribers + {peer};
      return Opened;
    }

    method Write(peer: Peer, token: Option<Bytes>, bytes: Bytes, ioOk: bool) returns (code: Code)
      modifies this
      ensures S() == AfterWrite(old(S()), peer, token, bytes, ioOk)
      ensures code == WriteCode(old(S()), peer, token, ioOk)
      ensures observerRedaction == old(observerRedaction) || fresh(observerRedaction)
    {
      if peer !in subscribers || !port.writer {
        return NotOpen;
      }
      if owner.Some? && owner.value.peer != peer {
        return Busy;
      }
      if token.Some? {
        if owner.None? || owner.value.peer != peer {
          return ClaimRequired;
        }
        if observerRedaction != null {
          return RedactionActive;
        }
        observerRedaction := new ObserverRedaction(peer, token.value);
      }
      if !ioOk {
        return WriteFailed;
      }
      past := past.(wire := past.wire + [Entry(peer, bytes)]);
      return Acked;
    }

    method Claim(peer: Peer, tag: Bytes) returns (code: Code)
      modifies this`owner
      ensures S() == AfterClaim(old(S()), peer, tag) && code == ClaimCode(old(S()), peer)
    {
      if peer !in subscribers || !port.writer {
        return NotOpen;
      }
      if owner.Some? && owner.value.peer != peer {
        return Busy;
      }
      owner := Some(Owner(peer, tag));
      return Claimed;
    }

    method Release(peer: Peer)
      modifies this, observerRedaction
      ensures S() == AfterRelease(old(S()), peer)
      ensures observerRedaction == old(observerRedaction) || observerRedaction == null
    {
      hide Settled;
      if owner.Some? && owner.value.peer == peer {
        FinishObserverRedaction();
        owner := None;
      }
    }

    method Close(peer: Peer) returns (finished: Option<Session>)
      modifies this, observerRedaction
      ensures S() == AfterClose(old(S()), peer)
      ensures past.ended == old(past.ended) + Listed(finished)
      ensures observerRedaction == old(observerRedaction) || observerRedaction == null
    {
      hide Settled;
      var _ := Leave(peer);
      finished := None;
      if subscribers == {} {
        finished := ClosePort();
      }
    }

    /** The part of `disconnect_peer` under the channel's lock. */
    method Leave(peer: Peer) returns (idle: bool)
      modifies this, observerRedaction
      ensures S() == AfterLeave(old(S()), peer) && past.ended == old(past.ended)
      ensures idle <==> subscribers == {}
      ensures observerRedaction == old(observerRedaction) || observerRedaction == null
    {
      Release(peer);
      subscribers := subscribers - {peer};
      idle := subscribers == {};
    }

    method ScheduleIdleClose()
      modifies this`idleTask
      ensures S() == AfterSchedule(old(S()))
    {
      CancelIdleClose();
      if subscribers != {} || !port.writer {
        return;
      }
      idleTask := true;
    }

    method IdleTimeout() returns (finished: Option<Session>)
      modifies this
      ensures S() == AfterTimeout(old(S())) && past.ended == old(past.ended) + Listed(finished)
      ensures observerRedaction == old(observerRedaction) || observerRedaction == null
    {
      finished := None;
      if subscribers == {} {
        finished := ClosePort();
      }
      idleTask := false;
    }

    method BroadcastData(text: Bytes)
      modifies this, observerRedaction
      ensures S() == AfterData(old(S()), text) && sequence == old(sequence) + 1
      ensures observerRedaction == old(observerRedaction)
    {
      hide Shown, Kept, Posted;
      sequence := sequence + 1;
      if observerRedaction != null {
        var redactionOwner := observerRedaction.owner;
        var visible := observerRedaction.Push(text);
        Send(subscribers * {redactionOwner}, Frame(sequence, text));
        if visible != [] {
          Send(subscribers - {redactionOwner}, Frame(sequence, visible));
        } else {
          PostedToNone(outboxes, Frame(sequence, visible));
        }
      } else {
        Send(subscribers, Frame(sequence, text));
      }
    }

    method EndReader() returns (finished: Option<Session>)
      modifies this, observerRedaction
      ensures S() == AfterReaderEnd(old(S())) && finished == old(port.logSession) && observerRedaction == null
    {
      finished := port.logSession;
      port := port.(logSession := None);
      past := past.(ended := past.ended + Listed(finished));
      FinishObserverRedaction();
      port := port.(writer := false, path := None, baud := None, reader := false);
      owner := None;
    }

    method Shutdown() returns (finished: Option<Session>)
      modifies this
      ensures S() == AfterShutdown(old(S())) && finished == old(port.logSession) && observerRedaction == null
    {
      CancelIdleClose();
      finished := ClosePort();
    }
  }

  lemma PostedToNone(outboxes: map<Peer, seq<Frame>>, frame: Frame)
    ensures Posted(outboxes, {}, frame) == outboxes
  {
    forall p | p in outboxes ensures Posted(outboxes, {}, frame)[p] == outboxes[p] {
    }
  }
}
