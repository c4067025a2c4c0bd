/** The bounded queue between the serial readers and the log writer, and what is
    lost on the way. */
module SerialLogQueue {
  import opened Common
  import opened SegmentLog
  import opened SerialLog

  datatype Command = Start(id: Id) | Data(id: Id, bytes: Bytes) | Finish(id: Id)

  /** The log service: the archive with its writer, the loss recorded for each
      session, the total of dropped bytes, and the queued commands. */
  datatype Service = Service(store: Store, losses: map<Id, Loss>, dropped: nat, queue: seq<Command>)

  /** The outside of one writer step: the clock, the length of the manifest and
      of the index line, the directory listing, and whether the file system
      accepts the write. */
  datatype WriterEnv = WriterEnv(startedAt: nat, manifestSize: nat, line: nat, env: Env, ioOk: bool)

  function LossOf(losses: map<Id, Loss>, id: Id): Loss {
    if id in losses then losses[id] else Loss(0, false)
  }

  /** `note_drop` for a session. */
  function Dropped(s: Service, id: Id, length: nat): Service {
    s.(dropped := s.dropped + length,
       losses := s.losses[id := Loss(LossOf(s.losses, id).dropped + length, true)])
  }

  function StartRequested(s: Service, capacity: nat, id: Id): Service {
    if |s.queue| < capacity then
      s.(losses := s.losses[id := Loss(0, false)], queue := s.queue + [Start(id)])
    else s.(losses := s.losses - {id})
  }

  function Received(s: Service, capacity: nat, id: Id, bytes: Bytes): Service {
    if |s.queue| < capacity then s.(queue := s.queue + [Data(id, bytes)])
    else Dropped(s, id, |bytes|)
  }

  /** `finish_session` waits for room in the queue. */
  function FinishRequested(s: Service, id: Id): Service {
    s.(queue := s.queue + [Finish(id)])
  }

  predicate Listed(s: Store, e: WriterEnv) {
    Listing(s.dirs, e.env.order) && e.manifestSize > 0
  }

  /** One turn of the writer loop. */
  ghost function Processed(s: Service, cfg: Config, e: WriterEnv): Service
    requires s.queue != [] && Inv(s.store) && Listed(s.store, e)
  {
    var rest := s.(queue := s.queue[1..]);
    match s.queue[0]
    case Start(id) =>
      var store := Started(s.store, cfg, id, e.startedAt, e.manifestSize, e.env, e.ioOk);
      rest.(store := store, losses := if e.ioOk then s.losses else s.losses - {id})
    case Data(id, bytes) =>
      var code := DataResult(s.store, cfg, id, bytes, e.line, e.env, e.ioOk);
      var next := rest.(store := Stored(s.store, cfg, id, bytes, e.line, e.env, e.ioOk));
      if code == QuotaExhausted || code == IoFailed then Dropped(next, id, |bytes|) else next
    case Finish(id) =>
      rest.(store := Finished(s.store, id, LossOf(s.losses, id), e.manifestSize, e.ioOk),
            losses := s.losses - {id})
  }

  // ---------------------------------------------------------------------
  // One session followed through the service.

  datatype Stage =
    | Absent
    | Waiting(closing: bool)
    | Live(closing: bool)
    | Closed
    | Abandoned

  /** `offered` are the records given to `record_rx` for session `me`, of which
      `written` are in the archive and `pending` in the queue; `used` are all
      session ids ever drawn; `last` is the writer's state when the session was
      finished. */
  datatype World = World(s: Service, stage: Stage, offered: seq<Bytes>, pending: seq<Bytes>,
                         written: seq<Bytes>, used: set<Id>, last: Active)

  datatype Action =
    | RequestStart(id: Id)
    | RecordRx(id: Id, bytes: Bytes)
    | RequestFinish(id: Id)
    | Write(e: WriterEnv)
    | Pin(id: Id, pinned: bool)
    | Remove(id: Id)

  /** Session ids are fresh, a reader records between the start and the finish of
      its session, and a finish waits for room. */
  ghost predicate Enabled(w: World, me: Id, capacity: nat, action: Action) {
    match action
    case RequestStart(id) => id !in w.used
    case RecordRx(id, _) => id != me || w.stage in {Waiting(false), Live(false), Abandoned}
    case RequestFinish(id) =>
      && (id != me || w.stage in {Waiting(false), Live(false), Abandoned})
      && |w.s.queue| < capacity
    case Write(e) => w.s.queue != [] && Inv(w.s.store) && Listed(w.s.store, e)
    case Pin(_, _) => true
    case Remove(_) => true
  }

  ghost function Step(w: World, me: Id, capacity: nat, cfg: Config, action: Action): World
    requires Enabled(w, me, capacity, action)
  {
    match action
    case RequestStart(id) =>
      var w' := w.(s := StartRequested(w.s, capacity, id), used := w.used + {id});
      if id != me then w'
      else w'.(stage := if |w.s.queue| < capacity then Waiting(false) else Abandoned)
    case RecordRx(id, bytes) =>
      var w' := w.(s := Received(w.s, capacity, id, bytes));
      if id != me then w'
      else
        w'.(offered := w.offered + [bytes],
            pending := if |w.s.queue| < capacity then w.pending + [bytes] else w.pending)
    case RequestFinish(id) =>
      var w' := w.(s := FinishRequested(w.s, id));
      if id != me || w.stage.Abandoned? then w' else w'.(stage := w.stage.(closing := true))
    case Write(e) =>
      var w' := w.(s := Processed(w.s, cfg, e));
      if w.s.queue[0].id != me then w'
      else
        (match w.s.queue[0]
        case Start(_) =>
          if w.stage.Waiting? && e.ioOk then w'.(stage := Live(w.stage.closing))
          else w'.(stage := Abandoned)
        case Data(_, bytes) =>
          var taken := w'.(pending := if w.pending == [] then [] else w.pending[1..]);
          if DataResult(w.s.store, cfg, me, bytes, e.line, e.env, e.ioOk) == Accepted then
            taken.(written := w.written + [bytes])
          else taken
        case Finish(_) =>
          if w.stage.Live? && e.ioOk && me in w.s.store.sessions then
            w'.(stage := Closed, last := w.s.store.sessions[me])
          else w'.(stage := Abandoned))
    case Pin(id, pinned) => w.(s := w.s.(store := Pinned(w.s.store, id, pinned)))
    case Remove(id) => w.(s := w.s.(store := Deleted(w.s.store, id)))
  }

  // ---------------------------------------------------------------------
  // The invariant.

  function Mine(queue: seq<Command>, me: Id): seq<Command> {
    if queue == [] then []
    else (if queue[0].id == me then [queue[0]] else []) + Mine(queue[1..], me)
  }

  lemma {:induction false} MineSnoc(queue: seq<Command>, c: Command, me: Id)
    ensures Mine(queue + [c], me) == Mine(queue, me) + if c.id == me then [c] else []
  {
    if queue == [] {
      assert [c][1..] == [];
    } else {
      var head := if queue[0].id == me then [queue[0]] else [];
      var tail := if c.id == me then [c] else [];
      assert (queue + [c])[1..] == queue[1..] + [c];
      MineSnoc(queue[1..], c, me);
      Assoc(head, Mine(queue[1..], me), tail);
    }
  }

  function DataFor(me: Id, pending: seq<Bytes>): seq<Command> {
    seq(|pending|, i requires 0 <= i < |pending| => Data(me, pending[i]))
  }

  /** The session's commands in the queue. */
  function Expected(stage: Stage, me: Id, pending: seq<Bytes>): seq<Command> {
    match stage
    case Waiting(closing) => [Start(me)] + DataFor(me, pending) + if closing then [Finish(me)] else []
    case Live(closing) => DataFor(me, pending) + if closing then [Finish(me)] else []
    case _ => []
  }

  function Total(records: seq<Bytes>): nat {
    |Flatten(records)|
  }

  /** Nothing is lost unnoticed: every byte offered is written, queued or counted
      as dropped, and as long as no failure is noted the records are all there,
      in order. */
  ghost predicate Accounted(w: World, loss: Loss) {
    && Total(w.written) + Total(w.pending) + loss.dropped == Total(w.offered)
    && (!loss.failed ==> w.written + w.pending == w.offered)
    && (loss.failed ==> |w.written| + |w.pending| < |w.offered|)
  }

  /** The finished directory of the session. */
  ghost predicate Final(d: Dir, w: World, limit: nat) {
    && Tiles(d.files, w.last, w.written, limit)
    && d.manifest.status in {Complete, Incomplete}
    && d.manifest.bytes == Total(w.written) && d.manifest.records == |w.written|
    && d.manifest.segments == |d.files|
    && d.manifest.bytes + d.manifest.dropped == Total(w.offered)
    && (d.manifest.status == Complete <==> w.written == w.offered)
    && (d.manifest.status == Complete <==> |w.written| == |w.offered|)
  }

  ghost predicate StartsAreFresh(w: World) {
    && (forall id | id in w.s.store.dirs :: id in w.used)
    && (forall i | 0 <= i < |w.s.queue| && w.s.queue[i].Start? ::
          w.s.queue[i].id in w.used && w.s.queue[i].id !in w.s.store.dirs)
    && (forall i, j | 0 <= i < j < |w.s.queue| && w.s.queue[i].Start? && w.s.queue[j].Start? ::
          w.s.queue[i].id != w.s.queue[j].id)
  }

  ghost predicate MineInv(w: World, me: Id, limit: nat) {
    var store, loss := w.s.store, LossOf(w.s.losses, me);
    && (if w.stage == Absent then me !in w.used && w.offered == w.pending == w.written == []
        else me in w.used)
    && (!w.stage.Abandoned? ==>
          && Mine(w.s.queue, me) == Expected(w.stage, me, w.pending)
          && (me in store.sessions <==> w.stage.Live?)
          && (w.stage.Absent? || w.stage.Waiting? ==> me !in store.dirs))
    && (w.stage.Waiting? ==> w.written == [] && Accounted(w, loss))
    && (w.stage.Live? ==>
          && me in store.dirs
          && Tiles(store.dirs[me].files, store.sessions[me], w.written, limit)
          && (store.sessions[me].failed ==> loss.failed) && Accounted(w, loss))
    && (w.stage.Closed? ==> w.pending == [])
    && (w.stage.Closed? && me in store.dirs ==> Final(store.dirs[me], w, limit))
  }

  ghost predicate WorldInv(w: World, me: Id, cfg: Config) {
    Inv(w.s.store) && StartsAreFresh(w) && MineInv(w, me, cfg.segmentBytes)
  }

  // ---------------------------------------------------------------------
  // Steps of other sessions leave this one alone.

  /** What an operation on another session may do to `me`: delete its finished
      directory or change its pin. */
  ghost predicate Untouched(s: Store, s': Store, me: Id) {
    && (me in s.sessions <==> me in s'.sessions)
    && (me in s.sessions ==> s'.sessions[me] == s.sessions[me] && me in s'.dirs)
    && (me in s'.dirs ==>
          && me in s.dirs && s'.dirs[me].files == s.dirs[me].files
          && s'.dirs[me].manifest == s.dirs[me].manifest)
  }

  lemma OthersStart(s: Store, cfg: Config, id: Id, startedAt: nat, manifestSize: nat, env: Env, ioOk: bool,
                    me: Id)
    requires SerialLog.Inv(s) && Listing(s.dirs, env.order) && id != me
    ensures Untouched(s, Started(s, cfg, id, startedAt, manifestSize, env, ioOk), me)
  {
    hide Unpinned, Freed;
    FreedKeepsInv(s, env, cfg.totalBytes);
  }

  lemma OthersData(s: Store, cfg: Config, id: Id, bytes: Bytes, line: nat, env: Env, ioOk: bool, me: Id)
    requires SerialLog.Inv(s) && Listing(s.dirs, env.order) && id != me
    ensures Untouched(s, Stored(s, cfg, id, bytes, line, env, ioOk), me)
  {
    hide Unpinned, RoomMade;
    RoomKeepsInv(s, cfg, |bytes| + line, env);
  }

  lemma OthersFinish(s: Store, id: Id, loss: Loss, manifestSize: nat, ioOk: bool, me: Id)
    requires SerialLog.Inv(s) && id != me
    ensures Untouched(s, Finished(s, id, loss, manifestSize, ioOk), me)
  {
  }

  lemma OthersAccess(s: Store, id: Id, pinned: bool, me: Id)
    requires SerialLog.Inv(s)
    ensures Untouched(s, Pinned(s, id, pinned), me)
    ensures Untouched(s, Deleted(s, id), me)
  {
  }

  lemma SameStoreIsUntouched(s: Store, me: Id)
    requires SerialLog.Inv(s)
    ensures Untouched(s, s, me)
  {
  }

  lemma UntouchedKeepsMine(w: World, w': World, me: Id, limit: nat)
    requires MineInv(w, me, limit) && Untouched(w.s.store, w'.s.store, me)
    requires w' == w.(s := w'.s, used := w'.used) && (me in w.used <==> me in w'.used)
    requires Mine(w'.s.queue, me) == Mine(w.s.queue, me)
    requires LossOf(w'.s.losses, me) == LossOf(w.s.losses, me)
    ensures MineInv(w', me, limit)
  {
    hide Tiles, Expected, Mine;
  }

  // ---------------------------------------------------------------------
  // Every step keeps the invariant.

  lemma ServiceStepKeepsStore(w: World, me: Id, capacity: nat, cfg: Config, action: Action)
    requires WorldInv(w, me, cfg) && Enabled(w, me, capacity, action)
    ensures SerialLog.Inv(Step(w, me, capacity, cfg, action).s.store)
  {
    hide SerialLog.Inv, MineInv, Unpinned;
    match action
    case Write(e) =>
      match w.s.queue[0] {
        case Start(id) =>
          StartKeepsCounter(w.s.store, cfg, id, e.startedAt, e.manifestSize, e.env, e.ioOk);
        case Data(id, bytes) =>
          DataKeepsCounter(w.s.store, cfg, id, bytes, e.line, e.env, e.ioOk);
        case Finish(id) =>
          FinishKeepsCounter(w.s.store, id, LossOf(w.s.losses, id), e.manifestSize, e.ioOk);
      }
    case Pin(id, pinned) => PinKeepsCounter(w.s.store, id, pinned);
    case Remove(id) => DeleteKeepsCounter(w.s.store, id);
    case _ =>
  }

  lemma StartAddsOne(s: Store, cfg: Config, id: Id, e: WriterEnv)
    requires SerialLog.Inv(s) && Listed(s, e)
    ensures var s' := Started(s, cfg, id, e.startedAt, e.manifestSize, e.env, e.ioOk);
            forall other | other in s'.dirs :: other in s.dirs || other == id
  {
    hide Unpinned, Freed;
    FreedKeepsInv(s, e.env, cfg.totalBytes);
  }

  lemma DataAddsNone(s: Store, cfg: Config, id: Id, bytes: Bytes, e: WriterEnv)
    requires SerialLog.Inv(s) && Listed(s, e)
    ensures var s' := Stored(s, cfg, id, bytes, e.line, e.env, e.ioOk);
            forall other | other in s'.dirs :: other in s.dirs
  {
    hide Unpinned, RoomMade;
    RoomKeepsInv(s, cfg, |bytes| + e.line, e.env);
  }

  lemma FinishAddsNone(s: Store, id: Id, loss: Loss, manifestSize: nat, ioOk: bool)
    requires SerialLog.Inv(s)
    ensures forall other | other in Finished(s, id, loss, manifestSize, ioOk).dirs :: other in s.dirs
  {
  }

  /** No operation but a start adds a directory. */
  lemma DirectoriesOnlyStart(w: World, me: Id, capacity: nat, cfg: Config, action: Action)
    requires WorldInv(w, me, cfg) && Enabled(w, me, capacity, action)
    ensures forall id | id in Step(w, me, capacity, cfg, action).s.store.dirs ::
              id in w.s.store.dirs || (action.Write? && w.s.queue[0] == Start(id))
  {
    hide MineInv, SerialLog.Inv, Unpinned, StartsAreFresh, Started, Stored, Finished, DataResult, Listing;
    if action.Write? {
      var e := action.e;
      match w.s.queue[0]
      case Start(id) => StartAddsOne(w.s.store, cfg, id, e);
      case Data(id, bytes) => DataAddsNone(w.s.store, cfg, id, bytes, e);
      case Finish(id) =>
        FinishAddsNone(w.s.store, id, LossOf(w.s.losses, id), e.manifestSize, e.ioOk);
    }
  }

  lemma StartsStayFresh(w: World, me: Id, capacity: nat, cfg: Config, action: Action)
    requires WorldInv(w, me, cfg) && Enabled(w, me, capacity, action)
    ensures StartsAreFresh(Step(w, me, capacity, cfg, action))
  {
    hide MineInv, SerialLog.Inv, Step;
    DirectoriesOnlyStart(w, me, capacity, cfg, action);
    StepMovesQueue(w, me, capacity, cfg, action);
  }

  /** A step drops the first command, adds a last one, or leaves the queue. */
  lemma StepMovesQueue(w: World, me: Id, capacity: nat, cfg: Config, action: Action)
    requires Enabled(w, me, capacity, action)
    ensures var w' := Step(w, me, capacity, cfg, action);
            && w.used <= w'.used
            && match action
               case Write(_) => w'.s.queue == w.s.queue[1..]
               case RequestStart(id) =>
                 id in w'.used && (w'.s.queue == w.s.queue || w'.s.queue == w.s.queue + [Start(id)])
               case RecordRx(id, bytes) =>
                 w'.s.queue == w.s.queue || w'.s.queue == w.s.queue + [Data(id, bytes)]
               case RequestFinish(id) => w'.s.queue == w.s.queue + [Finish(id)]
               case _ => w'.s.queue == w.s.queue
  {
    hide SerialLog.Inv, Started, Stored, Finished, DataResult, Listing, Pinned, Deleted;
  }

  lemma RequestStartKeepsMine(w: World, me: Id, capacity: nat, cfg: Config, id: Id)
    requires WorldInv(w, me, cfg) && Enabled(w, me, capacity, RequestStart(id))
    ensures MineInv(Step(w, me, capacity, cfg, RequestStart(id)), me, cfg.segmentBytes)
  {
    hide SerialLog.Inv, Tiles, StartsAreFresh, Unpinned, Mine;
    MineSnoc(w.s.queue, Start(id), me);
    if id == me {
      assert w.stage == Absent && DataFor(me, w.pending) == [];
      assert Expected(Waiting(false), me, w.pending) == [Start(me)];
      assert Flatten<Byte>([]) == [];
    } else {
      SameStoreIsUntouched(w.s.store, me);
      UntouchedKeepsMine(w, Step(w, me, capacity, cfg, RequestStart(id)), me, cfg.segmentBytes);
    }
  }

  lemma RequestFinishKeepsMine(w: World, me: Id, capacity: nat, cfg: Config, id: Id)
    requires WorldInv(w, me, cfg) && Enabled(w, me, capacity, RequestFinish(id))
    ensures MineInv(Step(w, me, capacity, cfg, RequestFinish(id)), me, cfg.segmentBytes)
  {
    hide SerialLog.Inv, Tiles, StartsAreFresh, Unpinned, Mine;
    var w' := Step(w, me, capacity, cfg, RequestFinish(id));
    MineSnoc(w.s.queue, Finish(id), me);
    if id != me {
      SameStoreIsUntouched(w.s.store, me);
      UntouchedKeepsMine(w, w', me, cfg.segmentBytes);
    } else if !w.stage.Abandoned? {
      assert Expected(w'.stage, me, w.pending) == Expected(w.stage, me, w.pending) + [Finish(me)];
    }
  }

  /** A record refused by the full queue is accounted for, and so is one that is
      queued. */
  lemma ReceiptIsAccounted(w: World, w': World, loss: Loss, loss': Loss, bytes: Bytes)
    requires Accounted(w, loss) && w'.offered == w.offered + [bytes] && w'.written == w.written
    requires || (w'.pending == w.pending + [bytes] && loss' == loss)
             || (w'.pending == w.pending && loss' == Loss(loss.dropped + |bytes|, true))
    ensures Accounted(w', loss')
  {
    FlattenSnoc(w.offered, bytes);
    FlattenSnoc(w.pending, bytes);
    Assoc(w.written, w.pending, [bytes]);
    assert !loss.failed ==> |w.written| + |w.pending| == |w.offered|;
  }

  lemma ReceiveKeepsMine(w: World, me: Id, capacity: nat, cfg: Config, id: Id, bytes: Bytes)
    requires WorldInv(w, me, cfg) && Enabled(w, me, capacity, RecordRx(id, bytes))
    ensures MineInv(Step(w, me, capacity, cfg, RecordRx(id, bytes)), me, cfg.segmentBytes)
  {
    hide SerialLog.Inv, Tiles, StartsAreFresh, Unpinned, Mine, Accounted;
    var w' := Step(w, me, capacity, cfg, RecordRx(id, bytes));
    MineSnoc(w.s.queue, Data(id, bytes), me);
    if id != me {
      SameStoreIsUntouched(w.s.store, me);
      UntouchedKeepsMine(w, w', me, cfg.segmentBytes);
    } else if !w.stage.Abandoned? {
      ReceiptIsAccounted(w, w', LossOf(w.s.losses, me), LossOf(w'.s.losses, me), bytes);
      assert DataFor(me, w.pending + [bytes]) == DataFor(me, w.pending) + [Data(me, bytes)];
      assert Expected(w.stage, me, w.pending + [bytes])
          == Expected(w.stage, me, w.pending) + [Data(me, bytes)];
    }
  }

  lemma WriteKeepsMine(w: World, me: Id, capacity: nat, cfg: Config, e: WriterEnv)
    requires WorldInv(w, me, cfg) && Enabled(w, me, capacity, Write(e))
    ensures MineInv(Step(w, me, capacity, cfg, Write(e)), me, cfg.segmentBytes)
  {
    hide SerialLog.Inv, Unpinned, Tiles, MineInv, Mine, Started, Stored, Finished, DataResult, Listing;
    var w' := Step(w, me, capacity, cfg, Write(e));
    var head := w.s.queue[0];
    MineHead(w.s.queue, me);
    if head.id != me {
      match head {
        case Start(id) =>
          OthersStart(w.s.store, cfg, id, e.startedAt, e.manifestSize, e.env, e.ioOk, me);
        case Data(id, bytes) =>
          OthersData(w.s.store, cfg, id, bytes, e.line, e.env, e.ioOk, me);
        case Finish(id) =>
          OthersFinish(w.s.store, id, LossOf(w.s.losses, id), e.manifestSize, e.ioOk, me);
      }
      UntouchedKeepsMine(w, w', me, cfg.segmentBytes);
    } else {
      match head
      case Start(_) => MyStart(w, me, capacity, cfg, e);
      case Data(_, bytes) => MyData(w, me, capacity, cfg, e, bytes);
      case Finish(_) => MyFinish(w, me, capacity, cfg, e);
    }
  }

  lemma MineHead(queue: seq<Command>, me: Id)
    requires queue != []
    ensures queue[0].id == me ==> Mine(queue, me) == [queue[0]] + Mine(queue[1..], me)
    ensures queue[0].id != me ==> Mine(queue, me) == Mine(queue[1..], me)
  {
  }

  lemma MyStart(w: World, me: Id, capacity: nat, cfg: Config, e: WriterEnv)
    requires WorldInv(w, me, cfg) && Enabled(w, me, capacity, Write(e)) && w.s.queue[0] == Start(me)
    ensures MineInv(Step(w, me, capacity, cfg, Write(e)), me, cfg.segmentBytes)
  {
    hide Unpinned, Mine, Tiles, Freed;
    MineHead(w.s.queue, me);
    FreedKeepsInv(w.s.store, e.env, cfg.totalBytes);
    FreshTiles(cfg.segmentBytes);
    if w.stage.Waiting? {
      assert Expected(w.stage, me, w.pending)[1..] == Expected(Live(w.stage.closing), me, w.pending);
    }
  }

  /** A record taken from the queue is accounted for, whether it is written or
      refused. */
  lemma TakingIsAccounted(w: World, w': World, loss: Loss, loss': Loss, bytes: Bytes)
    requires Accounted(w, loss) && w.pending != [] && w.pending[0] == bytes
    requires w'.pending == w.pending[1..] && w'.offered == w.offered
    requires || (w'.written == w.written + [bytes] && loss' == loss)
             || (w'.written == w.written && loss' == Loss(loss.dropped + |bytes|, true))
    ensures Accounted(w', loss')
  {
    FlattenSnoc(w.written, bytes);
    Assoc(w.written, [bytes], w.pending[1..]);
    assert [bytes] + w.pending[1..] == w.pending;
    assert !loss.failed ==> |w.written| + |w.pending| == |w.offered|;
  }

  lemma StoredMine(w: World, me: Id, cfg: Config, e: WriterEnv, bytes: Bytes)
    requires SerialLog.Inv(w.s.store) && Listed(w.s.store, e) && me in w.s.store.sessions
    requires Tiles(w.s.store.dirs[me].files, w.s.store.sessions[me], w.written, cfg.segmentBytes)
    ensures var s, s' := w.s.store, Stored(w.s.store, cfg, me, bytes, e.line, e.env, e.ioOk);
            var code := DataResult(s, cfg, me, bytes, e.line, e.env, e.ioOk);
            && code != Ignored && me in s'.sessions && me in s'.dirs
            && Tiles(s'.dirs[me].files, s'.sessions[me],
                     if code == Accepted then w.written + [bytes] else w.written, cfg.segmentBytes)
            && s'.sessions[me].failed == (s.sessions[me].failed || code != Accepted)
  {
    hide Unpinned, Tiles, RoomMade, Written, Advanced;
    RecordingIsKept(w.s.store, cfg, me, |bytes| + e.line, e.env);
    var d, active := w.s.store.dirs[me], w.s.store.sessions[me];
    WriteKeepsTiles(d.files, active, w.written, cfg.segmentBytes, bytes, e.line);
    FailureKeepsTiles(d.files, active, w.written, cfg.segmentBytes);
    AdvancedKeepsFailed(active, |bytes|, cfg.segmentBytes);
  }

  lemma MyData(w: World, me: Id, capacity: nat, cfg: Config, e: WriterEnv, bytes: Bytes)
    requires WorldInv(w, me, cfg) && Enabled(w, me, capacity, Write(e)) && w.s.queue[0] == Data(me, bytes)
    ensures MineInv(Step(w, me, capacity, cfg, Write(e)), me, cfg.segmentBytes)
  {
    hide SerialLog.Inv, Unpinned, Mine, Tiles, Stored, DataResult, Accounted, StartsAreFresh, Expected;
    var w' := Step(w, me, capacity, cfg, Write(e));
    if !w.stage.Abandoned? {
      MineHead(w.s.queue, me);
      MyDataIsPending(w, me, cfg, bytes);
      StoredMine(w, me, cfg, e, bytes);
      TakingIsAccounted(w, w', LossOf(w.s.losses, me), LossOf(w'.s.losses, me), bytes);
    }
  }

  lemma AdvancedKeepsFailed(active: Active, length: nat, limit: nat)
    ensures Advanced(active, length, limit).failed == active.failed
  {
  }

  lemma FailureKeepsTiles(files: Segments, active: Active, records: seq<Bytes>, limit: nat)
    requires Tiles(files, active, records, limit)
    ensures Tiles(files, active.(failed := true), records, limit)
  {
  }

  lemma MyDataIsPending(w: World, me: Id, cfg: Config, bytes: Bytes)
    requires WorldInv(w, me, cfg) && w.s.queue != [] && w.s.queue[0] == Data(me, bytes)
    requires !w.stage.Abandoned?
    ensures w.stage.Live? && me in w.s.store.sessions && w.pending != [] && w.pending[0] == bytes
    ensures Expected(w.stage, me, w.pending)[1..] == Expected(w.stage, me, w.pending[1..])
  {
    hide Unpinned, Tiles;
    var mine := Expected(w.stage, me, w.pending);
    assert mine[0] == Data(me, bytes);
    assert DataFor(me, w.pending)[1..] == DataFor(me, w.pending[1..]);
  }

  /** When the writer reaches its finish command, a session has nothing queued. */
  lemma MyFinishIsLast(w: World, me: Id, cfg: Config)
    requires WorldInv(w, me, cfg) && w.s.queue != [] && w.s.queue[0] == Finish(me)
    requires !w.stage.Abandoned?
    ensures w.stage == Live(true) && w.pending == [] && Mine(w.s.queue[1..], me) == []
  {
    hide Unpinned, Mine, Tiles, Accounted, Final, StartsAreFresh, SerialLog.Inv;
    MineHead(w.s.queue, me);
    assert Expected(w.stage, me, w.pending)[0] == Finish(me);
    assert Expected(w.stage, me, w.pending) == [Finish(me)];
  }

  lemma FinishedIsFinal(w: World, w': World, me: Id, cfg: Config, loss: Loss, manifestSize: nat)
    requires SerialLog.Inv(w.s.store) && me in w.s.store.sessions && w.pending == []
    requires Tiles(w.s.store.dirs[me].files, w.s.store.sessions[me], w.written, cfg.segmentBytes)
    requires (w.s.store.sessions[me].failed ==> loss.failed) && Accounted(w, loss)
    requires w' == w.(s := w'.s, stage := w'.stage, last := w.s.store.sessions[me])
    ensures var s' := Finished(w.s.store, me, loss, manifestSize, true);
            me !in s'.sessions && me in s'.dirs && Final(s'.dirs[me], w', cfg.segmentBytes)
  {
    hide Unpinned, Tiles;
    assert w.written + w.pending == w.written;
    RawsAreWritten(w.s.store.dirs[me].files, w.s.store.sessions[me], w.written, cfg.segmentBytes);
  }

  lemma MyFinish(w: World, me: Id, capacity: nat, cfg: Config, e: WriterEnv)
    requires WorldInv(w, me, cfg) && Enabled(w, me, capacity, Write(e)) && w.s.queue[0] == Finish(me)
    ensures MineInv(Step(w, me, capacity, cfg, Write(e)), me, cfg.segmentBytes)
  {
    hide Unpinned, Mine, Tiles, Accounted, Final, StartsAreFresh, SerialLog.Inv;
    var w' := Step(w, me, capacity, cfg, Write(e));
    if !w.stage.Abandoned? {
      MyFinishIsLast(w, me, cfg);
      if e.ioOk {
        FinishedIsFinal(w, w', me, cfg, LossOf(w.s.losses, me), e.manifestSize);
        hide Finished;
      }
    }
  }

  lemma RawsAreWritten(files: Segments, active: Active, records: seq<Bytes>, limit: nat)
    requires Tiles(files, active, records, limit)
    ensures active.bytes == Total(records) && active.records == |records| && active.segment == |files|
  {
  }

  lemma StepKeepsInv(w: World, me: Id, capacity: nat, cfg: Config, action: Action)
    requires WorldInv(w, me, cfg) && Enabled(w, me, capacity, action)
    ensures WorldInv(Step(w, me, capacity, cfg, action), me, cfg)
  {
    ServiceStepKeepsStore(w, me, capacity, cfg, action);
    StartsStayFresh(w, me, capacity, cfg, action);
    hide SerialLog.Inv, Unpinned, Tiles, StartsAreFresh, MineInv, Mine, Pinned, Deleted;
    match action
    case RequestStart(id) => RequestStartKeepsMine(w, me, capacity, cfg, id);
    case RequestFinish(id) => RequestFinishKeepsMine(w, me, capacity, cfg, id);
    case RecordRx(id, bytes) => ReceiveKeepsMine(w, me, capacity, cfg, id, bytes);
    case Write(e) => WriteKeepsMine(w, me, capacity, cfg, e);
    case Pin(id, pinned) =>
      OthersAccess(w.s.store, id, pinned, me);
      UntouchedKeepsMine(w, Step(w, me, capacity, cfg, action), me, cfg.segmentBytes);
    case Remove(id) =>
      OthersAccess(w.s.store, id, false, me);
      UntouchedKeepsMine(w, Step(w, me, capacity, cfg, action), me, cfg.segmentBytes);
  }

  // ---------------------------------------------------------------------
  // Every run.

  ghost predicate IsRun(worlds: seq<World>, actions: seq<Action>, me: Id, capacity: nat, cfg: Config) {
    && |worlds| == |actions| + 1
    && SerialLog.Inv(worlds[0].s.store) && StartsAreFresh(worlds[0])
    && worlds[0].stage == Absent && me !in worlds[0].used && Mine(worlds[0].s.queue, me) == []
    && me !in worlds[0].s.store.sessions
    && worlds[0].offered == worlds[0].pending == worlds[0].written == []
    && forall i | 0 <= i < |actions| ::
         && Enabled(worlds[i], me, capacity, actions[i])
         && worlds[i + 1] == Step(worlds[i], me, capacity, cfg, actions[i])
  }

  lemma {:induction false} RunKeepsInv(worlds: seq<World>, actions: seq<Action>, me: Id, capacity: nat,
                                       cfg: Config, i: nat)
    requires IsRun(worlds, actions, me, capacity, cfg) && i < |worlds|
    ensures WorldInv(worlds[i], me, cfg)
  {
    if i == 0 {
      assert me !in worlds[0].s.store.dirs;
    } else {
      hide SerialLog.Inv, Step, Enabled, MineInv;
      RunKeepsInv(worlds, actions, me, capacity, cfg, i - 1);
      StepKeepsInv(worlds[i - 1], me, capacity, cfg, actions[i - 1]);
    }
  }

  /** For every finished session and every interleaving of readers, writer, pins
      and deletions: the bytes written and the bytes dropped add up to the bytes
      offered, and the session is complete exactly when every record offered was
      written. Its files then hold the offered stream, and the download of fewer
      than 1,000,000 segments returns it. */
  lemma FinishedSessionsAddUp(worlds: seq<World>, actions: seq<Action>, me: Id, capacity: nat, cfg: Config,
                              i: nat, order: seq<nat>)
    requires IsRun(worlds, actions, me, capacity, cfg) && i < |worlds|
    requires worlds[i].stage == Closed && me in worlds[i].s.store.dirs
    ensures var w := worlds[i];
            var d := w.s.store.dirs[me];
            && d.manifest.bytes == |Raws(d.files)| && d.manifest.records == |w.written|
            && d.manifest.segments == |d.files|
            && d.manifest.bytes + d.manifest.dropped == Total(w.offered)
            && (d.manifest.status == Complete <==> w.written == w.offered)
            && (d.manifest.status == Complete ==> Raws(d.files) == Flatten(w.offered))
            && (d.manifest.status == Complete && |d.files| < 1_000_000 && SortedListing(order, |d.files|) ==>
                  Download(d.files, order) == Flatten(w.offered))
  {
    RunKeepsInv(worlds, actions, me, capacity, cfg, i);
    hide IsRun;
    var w := worlds[i];
    var d := w.s.store.dirs[me];
    if |d.files| < 1_000_000 && SortedListing(order, |d.files|) {
      hide Raws;
      DownloadIsRecorded(d.files, w.last, w.written, cfg.segmentBytes, order);
    }
  }

  /** The steps that lose a record of the session: the queue is full when it is offered,
      or the writer refuses or fails to write it. */
  ghost predicate Loses(w: World, me: Id, capacity: nat, cfg: Config, action: Action) {
    match action
    case RecordRx(id, _) => id == me && |w.s.queue| >= capacity
    case Write(e) =>
      && w.s.queue != [] && Inv(w.s.store) && Listed(w.s.store, e)
      && w.s.queue[0].Data? && w.s.queue[0].id == me
      && DataResult(w.s.store, cfg, me, w.s.queue[0].bytes, e.line, e.env, e.ioOk) in {QuotaExhausted, IoFailed}
    case _ => false
  }

  /** Records offered that are neither written nor queued. */
  function Lost(w: World): int {
    |w.offered| - |w.written| - |w.pending|
  }

  lemma LostByStep(w: World, me: Id, capacity: nat, cfg: Config, action: Action)
    requires WorldInv(w, me, cfg) && Enabled(w, me, capacity, action) && !w.stage.Abandoned?
    ensures Lost(Step(w, me, capacity, cfg, action)) ==
            Lost(w) + if Loses(w, me, capacity, cfg, action) then 1 else 0
  {
    hide SerialLog.Inv, Unpinned, Mine, Tiles, Stored, Started, Finished, DataResult, StartsAreFresh, Accounted,
         Expected, Listing, MineInv, Pinned, Deleted;
    if action.Write? && w.s.queue[0].Data? && w.s.queue[0].id == me {
      var e, bytes := action.e, w.s.queue[0].bytes;
      MyDataIsPending(w, me, cfg, bytes);
      LiveIsTiled(w, me, cfg);
      StoredMine(w, me, cfg, e, bytes);
    }
  }

  lemma LiveIsTiled(w: World, me: Id, cfg: Config)
    requires WorldInv(w, me, cfg) && w.stage.Live?
    ensures me in w.s.store.sessions && me in w.s.store.dirs
    ensures Tiles(w.s.store.dirs[me].files, w.s.store.sessions[me], w.written, cfg.segmentBytes)
  {
    hide SerialLog.Inv, Mine, Tiles, Expected, Accounted;
  }

  lemma AbandonedStays(w: World, me: Id, capacity: nat, cfg: Config, action: Action)
    requires Enabled(w, me, capacity, action) && me in w.used && w.stage.Abandoned?
    ensures Step(w, me, capacity, cfg, action).stage.Abandoned? && me in Step(w, me, capacity, cfg, action).used
  {
    hide SerialLog.Inv, Stored, Started, Finished, DataResult, Pinned, Deleted, Listing;
  }

  ghost function LostSteps(worlds: seq<World>, actions: seq<Action>, me: Id, capacity: nat, cfg: Config, i: nat): nat
    requires i <= |actions| < |worlds|
  {
    if i == 0 then 0
    else
      LostSteps(worlds, actions, me, capacity, cfg, i - 1)
      + if Loses(worlds[i - 1], me, capacity, cfg, actions[i - 1]) then 1 else 0
  }

  lemma {:induction false} LostOverRun(worlds: seq<World>, actions: seq<Action>, me: Id, capacity: nat,
                                       cfg: Config, i: nat)
    requires IsRun(worlds, actions, me, capacity, cfg) && i < |worlds| && !worlds[i].stage.Abandoned?
    ensures Lost(worlds[i]) == LostSteps(worlds, actions, me, capacity, cfg, i)
  {
    hide IsRun, WorldInv, Step, Loses, Enabled;
    RunBegins(worlds, actions, me, capacity, cfg);
    if i > 0 {
      RunSteps(worlds, actions, me, capacity, cfg, i - 1);
      hide Lost;
      if worlds[i - 1].stage.Abandoned? {
        AbandonedStays(worlds[i - 1], me, capacity, cfg, actions[i - 1]);
      } else {
        LostOverRun(worlds, actions, me, capacity, cfg, i - 1);
        LostByStep(worlds[i - 1], me, capacity, cfg, actions[i - 1]);
      }
    }
  }

  lemma RunBegins(worlds: seq<World>, actions: seq<Action>, me: Id, capacity: nat, cfg: Config)
    requires IsRun(worlds, actions, me, capacity, cfg)
    ensures |worlds| == |actions| + 1 && Lost(worlds[0]) == 0
  {
    hide SerialLog.Inv, Step, Enabled, StartsAreFresh, Mine;
  }

  lemma RunSteps(worlds: seq<World>, actions: seq<Action>, me: Id, capacity: nat, cfg: Config, i: nat)
    requires IsRun(worlds, actions, me, capacity, cfg) && i < |actions|
    ensures |worlds| == |actions| + 1 && WorldInv(worlds[i], me, cfg)
    ensures Enabled(worlds[i], me, capacity, actions[i])
    ensures worlds[i + 1] == Step(worlds[i], me, capacity, cfg, actions[i])
    ensures worlds[i].stage.Abandoned? ==> me in worlds[i].used
  {
    RunKeepsInv(worlds, actions, me, capacity, cfg, i);
    hide Step, Enabled, StartsAreFresh, WorldInv, SerialLog.Inv, Mine;
    UsedWhenAbandoned(worlds[i], me, cfg);
  }

  lemma UsedWhenAbandoned(w: World, me: Id, cfg: Config)
    requires WorldInv(w, me, cfg)
    ensures w.stage.Abandoned? ==> me in w.used
  {
    hide SerialLog.Inv, Mine, Tiles, Expected, Accounted;
  }

  lemma {:induction false} LostStepsExist(worlds: seq<World>, actions: seq<Action>, me: Id, capacity: nat,
                                          cfg: Config, i: nat)
    requires i <= |actions| < |worlds|
    ensures LostSteps(worlds, actions, me, capacity, cfg, i) > 0 <==>
            exists j | 0 <= j < i :: Loses(worlds[j], me, capacity, cfg, actions[j])
  {
    hide Loses;
    if i > 0 {
      LostStepsExist(worlds, actions, me, capacity, cfg, i - 1);
    }
  }

  /** A finished session is complete if and only if nothing was ever lost on the way: the
      queue had room for each of its records, and the writer took each of them. */
  lemma CompleteExactly(worlds: seq<World>, actions: seq<Action>, me: Id, capacity: nat, cfg: Config, i: nat)
    requires IsRun(worlds, actions, me, capacity, cfg) && i < |worlds|
    requires worlds[i].stage == Closed && me in worlds[i].s.store.dirs
    ensures worlds[i].s.store.dirs[me].manifest.status == Complete <==>
            forall j | 0 <= j < i :: !Loses(worlds[j], me, capacity, cfg, actions[j])
  {
    RunKeepsInv(worlds, actions, me, capacity, cfg, i);
    LostOverRun(worlds, actions, me, capacity, cfg, i);
    LostStepsExist(worlds, actions, me, capacity, cfg, i);
    hide IsRun, Loses, LostSteps, SerialLog.Inv, Tiles, StartsAreFresh;
  }

  /** The bytes of a record, of any session, that this step loses. */
  ghost function LostBytes(w: World, capacity: nat, cfg: Config, action: Action): nat {
    match action
    case RecordRx(_, bytes) => if |w.s.queue| >= capacity then |bytes| else 0
    case Write(e) =>
      if w.s.queue != [] && Inv(w.s.store) && Listed(w.s.store, e) && w.s.queue[0].Data?
         && Loses(w, w.s.queue[0].id, capacity, cfg, action) then |w.s.queue[0].bytes|
      else 0
    case _ => 0
  }

  ghost function AllLostBytes(worlds: seq<World>, actions: seq<Action>, capacity: nat, cfg: Config, i: nat): nat
    requires i <= |actions| < |worlds|
  {
    if i == 0 then 0
    else AllLostBytes(worlds, actions, capacity, cfg, i - 1) + LostBytes(worlds[i - 1], capacity, cfg, actions[i - 1])
  }

  lemma DroppedByStep(w: World, me: Id, capacity: nat, cfg: Config, action: Action)
    requires Enabled(w, me, capacity, action)
    ensures Step(w, me, capacity, cfg, action).s.dropped == w.s.dropped + LostBytes(w, capacity, cfg, action)
  {
    hide SerialLog.Inv, Stored, Started, Finished, DataResult, Pinned, Deleted, Listing;
  }

  /** The total of dropped bytes counts every record lost, of every session, once. */
  lemma {:induction false} DroppedIsExact(worlds: seq<World>, actions: seq<Action>, me: Id, capacity: nat,
                                          cfg: Config, i: nat)
    requires IsRun(worlds, actions, me, capacity, cfg) && i < |worlds|
    ensures |worlds| == |actions| + 1
    ensures worlds[i].s.dropped == worlds[0].s.dropped + AllLostBytes(worlds, actions, capacity, cfg, i)
  {
    hide IsRun, Step, Enabled, LostBytes, WorldInv;
    RunBegins(worlds, actions, me, capacity, cfg);
    if i > 0 {
      RunSteps(worlds, actions, me, capacity, cfg, i - 1);
      DroppedIsExact(worlds, actions, me, capacity, cfg, i - 1);
      DroppedByStep(worlds[i - 1], me, capacity, cfg, actions[i - 1]);
    }
  }

  /** The loss record of a session begins clean with a queued start and ends with a
      refused or failed start or with the finish; the records of other sessions stay. */
  lemma LossRecordsEnd(s: Service, cfg: Config, capacity: nat, id: Id, e: WriterEnv)
    requires Inv(s.store) && Listed(s.store, e) && s.queue != [] && id == s.queue[0].id
    ensures var requested, turn := StartRequested(s, capacity, id), Processed(s, cfg, e);
            && (id in requested.losses <==> |s.queue| < capacity) && LossOf(requested.losses, id) == Loss(0, false)
            && ((s.queue[0].Start? && !e.ioOk) || s.queue[0].Finish? ==> id !in turn.losses)
            && (s.queue[0].Start? && e.ioOk ==> turn.losses == s.losses)
            && (forall other | other != id ::
                  && LossOf(requested.losses, other) == LossOf(s.losses, other) == LossOf(turn.losses, other)
                  && (other in requested.losses <==> other in s.losses)
                  && (other in turn.losses <==> other in s.losses))
  {
    hide SerialLog.Inv, Stored, Started, Finished, DataResult, Listing;
  }

  /** The running counter is exact at every moment of every run. */
  lemma CounterIsExact(worlds: seq<World>, actions: seq<Action>, me: Id, capacity: nat, cfg: Config, i: nat)
    requires IsRun(worlds, actions, me, capacity, cfg) && i < |worlds|
    ensures worlds[i].s.store.counter == Unpinned(worlds[i].s.store.dirs)
  {
    RunKeepsInv(worlds, actions, me, capacity, cfg, i);
  }

  // ---------------------------------------------------------------------
  // The implementation.

  class LogService {
    const log: Archive
    const capacity: nat
    var losses: map<Id, Loss>
    var droppedBytes: nat
    var queue: seq<Command>

    function S(): Service
      reads this, log
    {
      Service(log.S(), losses, droppedBytes, queue)
    }

    constructor (config: Config, queueRecords: nat)
      ensures log.config == config && fresh(log) && capacity == Max(1, queueRecords)
      ensures Inv(log.S()) && S() == Service(Store(map[], map[], 0), map[], 0, [])
    {
      log := new Archive(config);
      capacity := Max(1, queueRecords);
      losses, droppedBytes, queue := map[], 0, [];
    }

    method TryEnqueue(command: Command) returns (ok: bool)
      modifies this`queue
      ensures ok <==> |old(queue)| < capacity
      ensures queue == if ok then old(queue) + [command] else old(queue)
    {
      ok := |queue| < capacity;
      if ok {
        queue := queue + [command];
      }
    }

    method NoteDrop(id: Option<Id>, bytes: nat)
      modifies this`losses, this`droppedBytes
      ensures id.Some? ==> S() == Dropped(old(S()), id.value, bytes)
      ensures id.None? ==> losses == old(losses) && droppedBytes == old(droppedBytes) + bytes
    {
      droppedBytes := droppedBytes + bytes;
      if id.Some? {
        var loss := LossOf(losses, id.value);
        losses := losses[id.value := Loss(loss.dropped + bytes, true)];
      }
    }

    method StartSession(id: Id) returns (started: bool)
      modifies this
      ensures started <==> |old(queue)| < capacity
      ensures S() == StartRequested(old(S()), capacity, id)
    {
      losses := losses[id := Loss(0, false)];
      started := TryEnqueue(Start(id));
      if !started {
        losses := losses - {id};
        NoteDrop(None, 0);
        assert losses == old(losses) - {id};
      }
    }

    method RecordRx(id: Id, bytes: Bytes)
      modifies this
      ensures S() == Received(old(S()), capacity, id, bytes)
    {
      var ok := TryEnqueue(Data(id, bytes));
      if !ok {
        NoteDrop(Some(id), |bytes|);
      }
    }

    method FinishSession(id: Id)
      requires |queue| < capacity
      modifies this
      ensures S() == FinishRequested(old(S()), id)
    {
      queue := queue + [Finish(id)];
    }

    /** One turn of `writer_loop`. */
    method ProcessNext(e: WriterEnv)
      requires queue != [] && Inv(log.S()) && Listed(log.S(), e)
      requires queue[0].Start? ==> queue[0].id !in log.dirs
      modifies this, log
      ensures Inv(log.S()) && S() == Processed(old(S()), log.config, e)
    {
      hide SerialLog.Inv, Started, Stored, Finished, DataResult, Unpinned, Listing;
      var command := queue[0];
      queue := queue[1..];
      match command
      case Start(id) =>
        var ok := log.Start(id, e.startedAt, e.manifestSize, e.env, e.ioOk);
        if !ok {
          losses := losses - {id};
        }
      case Data(id, bytes) =>
        var code := log.WriteData(id, bytes, e.line, e.env, e.ioOk);
        if code == QuotaExhausted || code == IoFailed {
          NoteDrop(Some(id), |bytes|);
        }
      case Finish(id) =>
        var loss := LossOf(losses, id);
        losses := losses - {id};
        var _ := log.Finish(id, loss, e.manifestSize, e.ioOk);
    }
  }
}
