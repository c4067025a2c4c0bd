/** The lossless-or-stop logic capture session: a DMA-filled ring of samples,
    a pre-trigger window and a reader that drains the ring. */
module LogicSession {
  import opened Common

  type Word = w: int | 0 <= w < 0x1_0000_0000

  const RING_LIMIT: nat := 20_000
  /** The largest 64-bit value stands for "no sequence number". */
  const NO_SEQ: nat := 0xFFFF_FFFF_FFFF_FFFF
  const NO_OFFSET: nat := 0xFFFF_FFFF

  datatype Phase =
    Idle | ArmedPretrigger | LiveUntriggered | TriggerDrain | LiveTriggered | Stopping | Failed

  datatype Owner = NoOwner | WebSocket | BeagleLogic

  datatype Trigger = NoTrigger | Edge

  datatype Reason = IdleReason | RunningReason | OverrunReason | StoppedReason | Given(text: string)

  datatype Code = Done | Invalid | Busy | Overflow | NotPermitted | NoSpace

  datatype Config = Config(owner: Owner, trigger: Trigger, sessionId: nat,
                           pre: nat, ringSamples: nat, bytesPerSample: nat)

  datatype Session = Session(
    phase: Phase, owner: Owner, sessionId: nat, pre: nat, ringSamples: nat, bytesPerSample: nat,
    writer: nat, reader: nat, eligible: nat, trigger: nat, lastSent: nat, lastCaptured: nat,
    triggered: bool, terminal: bool, overrun: bool, reason: Reason)

  datatype Chunk = Chunk(firstSeq: nat, sampleCount: nat, triggerOffset: nat, hasTrigger: bool)

  const EMPTY_CHUNK := Chunk(0, 0, 0, false)

  // ---------------------------------------------------------------------
  // The session functions.

  const IDLE := Session(Idle, NoOwner, 0, 0, 0, 0, 0, 0, 0, 0, 0, 0, false, false, false, IdleReason)

  predicate Acceptable(c: Config) {
    && c.owner != NoOwner
    && 0 < c.ringSamples <= RING_LIMIT
    && 1 <= c.bytesPerSample <= 2
    && c.pre < c.ringSamples
  }

  function Started(c: Config): Session {
    var free := c.trigger == NoTrigger;
    Session(if free then LiveTriggered else ArmedPretrigger, c.owner, c.sessionId, c.pre,
            c.ringSamples, c.bytesPerSample, 0, 0, if free then 0 else NO_SEQ, NO_SEQ, 0, 0,
            free, false, false, RunningReason)
  }

  function StartCode(s: Session, c: Config): Code {
    if !Acceptable(c) then Invalid else if s.phase != Idle then Busy else Done
  }

  predicate Running(s: Session) {
    s.phase != Idle && s.phase != Failed && s.phase != Stopping
  }

  function Overran(s: Session): Session {
    s.(phase := Failed, reason := OverrunReason, terminal := true, overrun := true,
       lastCaptured := s.writer)
  }

  /** First sample of the pre-trigger window of a trigger at `trigger`. */
  function WindowStart(trigger: nat, pre: nat): nat {
    SatSub(trigger, pre)
  }

  function CommitCode(s: Session, count: nat, seen: bool, offset: nat): Code {
    if count == 0 then Done
    else if !Running(s) then Invalid
    else if count > s.ringSamples || (seen && offset >= count) then Overflow
    else
      var oldest := SatSub(s.writer + count, s.ringSamples);
      if s.triggered && s.reader < oldest then Overflow
      else if !s.triggered && seen && WindowStart(s.writer + offset, s.pre) < oldest then Overflow
      else Done
  }

  /** `commit`: `count` samples have been written behind `writer`. */
  function Committed(s: Session, count: nat, seen: bool, offset: nat): Session {
    var next := s.writer + count;
    match CommitCode(s, count, seen, offset)
    case Overflow =>
      if count > s.ringSamples || (seen && offset >= count) then Overran(s)
      else Overran(s.(writer := next))
    case Done =>
      if count == 0 then s
      else
        var kept := s.(writer := next, lastCaptured := next);
        if !s.triggered && seen then
          kept.(triggered := true, trigger := s.writer + offset,
                reader := WindowStart(s.writer + offset, s.pre),
                eligible := next, phase := TriggerDrain)
        else if s.triggered then
          kept.(eligible := next, phase := if s.phase == TriggerDrain then LiveTriggered else s.phase)
        else if s.pre == 0 then kept.(phase := LiveUntriggered)
        else kept
    case _ => s
  }

  function StopCode(s: Session, owner: Owner, id: nat): Code {
    if s.phase == Idle then Done
    else if s.owner != owner || s.sessionId != id then NotPermitted
    else Done
  }

  function Stopped(s: Session, owner: Owner, id: nat, reason: Option<string>): Session {
    if s.phase == Idle || StopCode(s, owner, id) != Done then s
    else s.(phase := Stopping, reason := StopReason(reason),
            terminal := true, lastCaptured := s.writer)
  }

  function StopReason(reason: Option<string>): Reason {
    if reason.Some? then Given(reason.value) else StoppedReason
  }

  function Available(s: Session): nat {
    if s.triggered then SatSub(s.eligible, s.reader) else 0
  }

  function ReadCount(s: Session, maxSamples: nat): nat {
    Min(Available(s), maxSamples)
  }

  function ReadCode(s: Session, space: nat, maxSamples: nat): Code {
    if maxSamples == 0 then Invalid
    else if ReadCount(s, maxSamples) * s.bytesPerSample > space then NoSpace
    else Done
  }

  function ReadChunk(s: Session, count: nat): Chunk {
    var here := s.reader <= s.trigger < s.reader + count;
    Chunk(s.reader, count, if here then s.trigger - s.reader else NO_OFFSET, here)
  }

  function AfterRead(s: Session, count: nat): Session {
    var reader := s.reader + count;
    s.(reader := reader, lastSent := reader,
       phase := if s.phase == TriggerDrain && reader > s.trigger then LiveTriggered else s.phase)
  }

  // ---------------------------------------------------------------------
  // Samples and the ring.

  function EncodeSample(w: Word, bytesPerSample: nat): Bytes {
    if bytesPerSample == 1 then [w % 256] else [w % 256, w / 256 % 256]
  }

  /** The u8 or little-endian u16 form of a run of samples. */
  function Encode(samples: seq<Word>, bytesPerSample: nat): Bytes {
    if samples == [] then []
    else Encode(samples[..|samples| - 1], bytesPerSample)
         + EncodeSample(samples[|samples| - 1], bytesPerSample)
  }

  /** The samples of sequence numbers `from` to `to` as the ring holds them. */
  function RingSlice(ring: seq<Word>, from: nat, to: nat, n: nat): seq<Word>
    requires 0 < n <= |ring| && from <= to
  {
    seq(to - from, i requires 0 <= i < to - from => ring[(from + i) % n])
  }

  function Fill(ring: seq<Word>, at: nat, samples: seq<Word>, n: nat): (r: seq<Word>)
    requires 0 < n <= |ring|
    ensures |r| == |ring|
    decreases |samples|
  {
    if samples == [] then ring
    else
      var last := |samples| - 1;
      Fill(ring, at, samples[..last], n)[(at + last) % n := samples[last]]
  }

  lemma ModDistinct(a: nat, b: nat, n: nat)
    requires 0 < n && a < b < a + n
    ensures a % n != b % n
  {
    var d := b / n - a / n;
    assert b - a == n * d + (b % n - a % n);
    assert d >= 1 ==> n * d >= n;
    assert d <= 0 ==> n * d <= 0;
  }

  /** Filling writes the new samples and spares every slot whose sample is less
      than a ring behind the last one written. */
  lemma {:induction false} FillHolds(ring: seq<Word>, at: nat, samples: seq<Word>, n: nat, q: nat)
    requires 0 < n <= |ring|
    ensures at <= q < at + |samples| <= q + n ==> Fill(ring, at, samples, n)[q % n] == samples[q - at]
    ensures at + |samples| <= q + n && q < at ==> Fill(ring, at, samples, n)[q % n] == ring[q % n]
    decreases |samples|
  {
    if samples != [] {
      var last := at + |samples| - 1;
      FillHolds(ring, at, samples[..|samples| - 1], n, q);
      if q < last && last < q + n {
        ModDistinct(q, last, n);
      }
    }
  }

  lemma {:induction false} EncodeConcat(a: seq<Word>, b: seq<Word>, bytesPerSample: nat)
    ensures Encode(a + b, bytesPerSample) == Encode(a, bytesPerSample) + Encode(b, bytesPerSample)
    decreases |b|
  {
    if b == [] {
      assert a + b == a;
    } else {
      var front, last := b[..|b| - 1], b[|b| - 1];
      EncodeConcat(a, front, bytesPerSample);
      assert (a + b)[..|a + b| - 1] == a + front;
      Assoc(Encode(a, bytesPerSample), Encode(front, bytesPerSample), EncodeSample(last, bytesPerSample));
    }
  }

  // ---------------------------------------------------------------------
  // The session together with its ring and its history.

  /** Since the start: `stream` is every sample the DMA has written, `sent` every
      byte the reader was given, `chunks` every non-empty chunk, and `failed` says
      whether a commit has failed. */
  datatype World = World(s: Session, ring: seq<Word>, stream: seq<Word>, sent: Bytes,
                         chunks: seq<Chunk>, failed: bool)

  datatype Event =
    | Init
    | Start(config: Config)
    | Capture(samples: seq<Word>, seen: bool, offset: nat)
    | Stop(owner: Owner, id: nat, reason: Option<string>)
    | Read(space: nat, maxSamples: nat)

  function AfterInit(w: World): World {
    World(IDLE, w.ring, [], [], [], false)
  }

  function AfterStart(w: World, c: Config): World {
    if StartCode(w.s, c) != Done then w else World(Started(c), w.ring, [], [], [], false)
  }

  /** The DMA fills the ring while a session is running; its commit follows. */
  function AfterCapture(w: World, samples: seq<Word>, seen: bool, offset: nat): World
    requires 0 < w.s.ringSamples <= |w.ring| || !Running(w.s)
  {
    if samples == [] || !Running(w.s) then w
    else
      var s := Committed(w.s, |samples|, seen, offset);
      w.(s := s, ring := Fill(w.ring, w.s.writer, samples, w.s.ringSamples),
         stream := w.stream + samples,
         failed := w.failed || CommitCode(w.s, |samples|, seen, offset) == Overflow)
  }

  function AfterStop(w: World, owner: Owner, id: nat, reason: Option<string>): World {
    w.(s := Stopped(w.s, owner, id, reason))
  }

  function ReadBytes(w: World, count: nat): Bytes
    requires 0 < w.s.ringSamples <= |w.ring|
  {
    Encode(RingSlice(w.ring, w.s.reader, w.s.reader + count, w.s.ringSamples), w.s.bytesPerSample)
  }

  function AfterReading(w: World, space: nat, maxSamples: nat): World
    requires 0 < w.s.ringSamples <= |w.ring| || !w.s.triggered
  {
    var count := ReadCount(w.s, maxSamples);
    if count == 0 || ReadCode(w.s, space, maxSamples) != Done then w
    else w.(s := AfterRead(w.s, count), sent := w.sent + ReadBytes(w, count),
            chunks := w.chunks + [ReadChunk(w.s, count)])
  }

  // ---------------------------------------------------------------------
  // The invariant.

  /** First sample the reader is owed: the start of the pre-trigger window, or
      sample 0 without a trigger. */
  function Base(s: Session): nat {
    if s.trigger == NO_SEQ then 0 else WindowStart(s.trigger, s.pre)
  }

  function Flags(chunks: seq<Chunk>): nat {
    if chunks == [] then 0
    else Flags(chunks[..|chunks| - 1]) + if chunks[|chunks| - 1].hasTrigger then 1 else 0
  }

  /** The ring holds the last samples written. */
  ghost predicate RingHolds(w: World)
    requires 0 < w.s.ringSamples <= |w.ring|
  {
    forall q: nat | q < |w.stream| <= q + w.s.ringSamples :: w.ring[q % w.s.ringSamples] == w.stream[q]
  }

  ghost predicate TriggeredInv(w: World)
    requires |w.stream| == w.s.writer
  {
    var s := w.s;
    && Base(s) <= s.reader <= s.eligible == s.writer <= s.reader + s.ringSamples
    && s.writer < NO_SEQ
    && (s.trigger == NO_SEQ || s.trigger < s.writer)
    && w.sent == Encode(w.stream[Base(s)..s.reader], s.bytesPerSample)
    && Flags(w.chunks) == (if s.trigger != NO_SEQ && s.trigger < s.reader then 1 else 0)
    && forall c | c in w.chunks && c.hasTrigger ::
         c.firstSeq + c.triggerOffset == s.trigger != NO_SEQ && c.triggerOffset < c.sampleCount
  }

  ghost predicate UntriggeredInv(w: World) {
    w.s.reader == 0 && w.s.eligible == NO_SEQ == w.s.trigger && w.sent == [] && w.chunks == []
  }

  ghost predicate Inv(w: World) {
    && |w.ring| == RING_LIMIT
    && (w.s.phase == Idle ==> w.s == IDLE && w.stream == [] && !w.failed)
    && (w.s.phase != Idle ==>
          && 0 < w.s.ringSamples <= RING_LIMIT && 1 <= w.s.bytesPerSample <= 2
          && w.s.pre < w.s.ringSamples && RingHolds(w)
          && Available(w.s) <= w.s.ringSamples && w.s.writer <= |w.stream|
          && (w.s.triggered ==> w.s.eligible <= |w.stream|))
    && (w.s.phase == Failed ==> w.failed) && (w.failed ==> !Running(w.s))
    && (w.failed <==> w.s.overrun)
    && (w.s.phase != Idle && !w.failed ==>
          && |w.stream| == w.s.writer
          && (w.s.triggered ==> TriggeredInv(w))
          && (!w.s.triggered ==> UntriggeredInv(w)))
  }

  function Step(w: World, e: Event): World
    requires Inv(w)
  {
    match e
    case Init => AfterInit(w)
    case Start(c) => AfterStart(w, c)
    case Capture(samples, seen, offset) => AfterCapture(w, samples, seen, offset)
    case Stop(owner, id, reason) => AfterStop(w, owner, id, reason)
    case Read(space, maxSamples) => AfterReading(w, space, maxSamples)
  }

  /** No run is long enough to reach the sentinel. */
  predicate InRange(w: World, e: Event) {
    e.Capture? ==> w.s.writer + |e.samples| < NO_SEQ
  }

  lemma CaptureKeepsRing(w: World, samples: seq<Word>, seen: bool, offset: nat)
    requires Inv(w) && Running(w.s) && samples != []
    ensures var w' := AfterCapture(w, samples, seen, offset);
            w'.s.ringSamples == w.s.ringSamples && RingHolds(w')
  {
    hide Fill;
    var w' := AfterCapture(w, samples, seen, offset);
    var n := w.s.ringSamples;
    forall q: nat | q < |w'.stream| <= q + n
      ensures w'.ring[q % n] == w'.stream[q]
    {
      FillHolds(w.ring, w.s.writer, samples, n, q);
      assert q < w.s.writer ==> w.ring[q % n] == w.stream[q];
    }
  }

  lemma TriggeredAfterCapture(w: World, w': World, samples: seq<Word>)
    requires |w.stream| == w.s.writer && TriggeredInv(w)
    requires w'.stream == w.stream + samples && w'.s.writer == |w'.stream| == w'.s.eligible < NO_SEQ
    requires w'.s.reader == w.s.reader && w'.s.trigger == w.s.trigger && w'.s.pre == w.s.pre
    requires w'.s.bytesPerSample == w.s.bytesPerSample && w'.sent == w.sent && w'.chunks == w.chunks
    requires w'.s.writer <= w'.s.reader + w'.s.ringSamples
    ensures TriggeredInv(w')
  {
    hide Encode, Flags;
    assert w'.stream[Base(w.s)..w.s.reader] == w.stream[Base(w.s)..w.s.reader];
  }

  lemma TriggeredFirst(w': World)
    requires |w'.stream| == w'.s.writer == w'.s.eligible <= w'.s.reader + w'.s.ringSamples
    requires w'.s.trigger < w'.s.writer < NO_SEQ && w'.s.reader == Base(w'.s)
    requires w'.sent == [] && w'.chunks == []
    ensures TriggeredInv(w')
  {
    assert w'.stream[w'.s.reader..w'.s.reader] == [];
  }

  lemma FailedCaptureKeepsInv(w: World, samples: seq<Word>, seen: bool, offset: nat)
    requires Inv(w) && w.s.writer + |samples| < NO_SEQ && samples != [] && Running(w.s)
    requires CommitCode(w.s, |samples|, seen, offset) == Overflow
    ensures Inv(AfterCapture(w, samples, seen, offset))
  {
    hide Fill, RingHolds, TriggeredInv, UntriggeredInv;
    CaptureKeepsRing(w, samples, seen, offset);
  }

  lemma GoodCaptureKeepsInv(w: World, samples: seq<Word>, seen: bool, offset: nat)
    requires Inv(w) && w.s.writer + |samples| < NO_SEQ && samples != [] && Running(w.s)
    requires CommitCode(w.s, |samples|, seen, offset) == Done
    ensures Inv(AfterCapture(w, samples, seen, offset))
  {
    hide Fill, RingHolds, TriggeredInv;
    var w' := AfterCapture(w, samples, seen, offset);
    CaptureKeepsRing(w, samples, seen, offset);
    if w.s.triggered {
      TriggeredAfterCapture(w, w', samples);
    } else if seen {
      TriggeredFirst(w');
    }
  }

  lemma CaptureKeepsInv(w: World, samples: seq<Word>, seen: bool, offset: nat)
    requires Inv(w) && w.s.writer + |samples| < NO_SEQ
    ensures Inv(AfterCapture(w, samples, seen, offset))
  {
    hide Fill, Inv, Committed;
    RunningHasRing(w);
    if samples != [] && Running(w.s) {
      if CommitCode(w.s, |samples|, seen, offset) == Overflow {
        FailedCaptureKeepsInv(w, samples, seen, offset);
      } else {
        GoodCaptureKeepsInv(w, samples, seen, offset);
      }
    }
  }

  lemma EmptyEncodes(bytesPerSample: nat)
    ensures Encode([], bytesPerSample) == []
  {
  }

  /** The last sample written to the slot of sample `q`, among `total` samples. */
  function Latest(q: nat, n: nat, total: nat): (r: nat)
    requires n > 0 && q < total
    ensures q <= r < total <= r + n && r % n == q % n
    ensures r == q <==> total <= q + n
    decreases total - q
  {
    NextLap(q, n);
    if total <= q + n then q else Latest(q + n, n, total)
  }

  /** The samples handed out as numbers `from` to `to`. */
  function HandedOut(w: World, from: nat, to: nat): seq<Word>
    requires 0 < w.s.ringSamples && from <= to <= |w.stream|
  {
    seq(to - from, i requires 0 <= i < to - from => w.stream[Latest(from + i, w.s.ringSamples, |w.stream|)])
  }

  /** Each slot still holds the sample of that number. */
  ghost predicate AreOwn(from: nat, to: nat, n: nat, total: nat)
    requires n > 0 && to <= total
  {
    forall q | from <= q < to :: Latest(q, n, total) == q
  }

  lemma OwnExactly(from: nat, to: nat, n: nat, total: nat)
    requires n > 0 && from < to <= total
    ensures AreOwn(from, to, n, total) <==> total <= from + n
  {
    if total > from + n {
      assert Latest(from, n, total) != from;
    }
  }

  lemma ReadWithinStream(w: World, count: nat)
    requires Inv(w) && w.s.phase != Idle && w.s.triggered && count <= Available(w.s)
    ensures 0 < w.s.ringSamples <= |w.ring| && RingHolds(w)
    ensures count > 0 ==> w.s.reader + count <= |w.stream|
    ensures !w.s.overrun ==> w.s.reader <= |w.stream| <= w.s.reader + w.s.ringSamples
  {
    hide RingHolds;
  }

  lemma SlotsHoldLatest(w: World, count: nat)
    requires 0 < w.s.ringSamples <= |w.ring| && RingHolds(w) && w.s.reader + count <= |w.stream|
    ensures RingSlice(w.ring, w.s.reader, w.s.reader + count, w.s.ringSamples)
         == HandedOut(w, w.s.reader, w.s.reader + count)
  {
    var n := w.s.ringSamples;
    var slice := RingSlice(w.ring, w.s.reader, w.s.reader + count, n);
    var handed := HandedOut(w, w.s.reader, w.s.reader + count);
    forall i | 0 <= i < count ensures slice[i] == handed[i] {
      var q := Latest(w.s.reader + i, n, |w.stream|);
      assert w.ring[q % n] == w.stream[q];
    }
  }

  /** What a read hands out, after a failed commit too: for each sequence number
      the last sample written to its slot. Those are the samples of these numbers
      exactly when the DMA is at most one ring ahead of the reader. */
  lemma ReadsExactly(w: World, count: nat)
    requires Inv(w) && w.s.phase != Idle && w.s.triggered && 0 < count <= Available(w.s)
    ensures w.s.reader + count <= |w.stream|
    ensures ReadBytes(w, count) == Encode(HandedOut(w, w.s.reader, w.s.reader + count), w.s.bytesPerSample)
    ensures AreOwn(w.s.reader, w.s.reader + count, w.s.ringSamples, |w.stream|)
       <==> |w.stream| <= w.s.reader + w.s.ringSamples
    ensures !w.s.overrun ==> |w.stream| <= w.s.reader + w.s.ringSamples
  {
    ReadWithinStream(w, count);
    hide Inv, Encode, RingHolds, RingSlice, HandedOut, AreOwn;
    SlotsHoldLatest(w, count);
    OwnExactly(w.s.reader, w.s.reader + count, w.s.ringSamples, |w.stream|);
  }

  /** A read hands out the captured samples themselves. */
  lemma ReadIsFaithful(w: World, count: nat)
    requires Inv(w) && w.s.phase != Idle && !w.s.overrun && w.s.triggered
    requires count <= Available(w.s)
    ensures ReadBytes(w, count) == Encode(w.stream[w.s.reader..w.s.reader + count], w.s.bytesPerSample)
  {
    ReadWithinStream(w, count);
    hide Inv, Encode, RingHolds;
    if count > 0 {
      SlotsHoldLatest(w, count);
    }
    var handed := RingSlice(w.ring, w.s.reader, w.s.reader + count, w.s.ringSamples);
    assert handed == w.stream[w.s.reader..w.s.reader + count];
  }

  lemma TriggeredAfterRead(w: World, w': World, count: nat)
    requires |w.stream| == w.s.writer && TriggeredInv(w) && count <= Available(w.s) && w.s.triggered
    requires w'.s == AfterRead(w.s, count) && w'.stream == w.stream
    requires w'.sent == w.sent
                        + Encode(w.stream[w.s.reader..w.s.reader + count], w.s.bytesPerSample)
    requires w'.chunks == w.chunks + [ReadChunk(w.s, count)]
    ensures TriggeredInv(w')
  {
    hide Encode;
    var from, to, b := w.s.reader, w.s.reader + count, Base(w.s);
    EncodeConcat(w.stream[b..from], w.stream[from..to], w.s.bytesPerSample);
    assert w.stream[b..to] == w.stream[b..from] + w.stream[from..to];
    assert w'.chunks[..|w'.chunks| - 1] == w.chunks;
  }

  lemma ReadKeepsInv(w: World, space: nat, maxSamples: nat)
    requires Inv(w)
    ensures Inv(AfterReading(w, space, maxSamples))
  {
    hide RingHolds, TriggeredInv, ReadBytes, Encode;
    var count := ReadCount(w.s, maxSamples);
    var w' := AfterReading(w, space, maxSamples);
    if count > 0 && ReadCode(w.s, space, maxSamples) == Done {
      RingIgnoresReader(w, w');
      if !w.failed {
        ReadIsFaithful(w, count);
        TriggeredAfterRead(w, w', count);
      }
    }
  }

  lemma RingIgnoresReader(w: World, w': World)
    requires 0 < w.s.ringSamples <= |w.ring| && RingHolds(w)
    requires w'.ring == w.ring && w'.stream == w.stream
    requires w'.s.ringSamples == w.s.ringSamples
    ensures RingHolds(w')
  {
  }

  lemma StepKeepsInv(w: World, e: Event)
    requires Inv(w) && InRange(w, e)
    ensures Inv(Step(w, e))
  {
    match e
    case Init =>
    case Start(c) => FreshStart(w, c);
    case Capture(samples, seen, offset) => CaptureKeepsInv(w, samples, seen, offset);
    case Stop(owner, id, reason) =>
    case Read(space, maxSamples) => ReadKeepsInv(w, space, maxSamples);
  }

  lemma FreshStart(w: World, c: Config)
    requires Inv(w)
    ensures Inv(AfterStart(w, c))
  {
    if StartCode(w.s, c) == Done {
      FreshIsValid(w.ring, c);
    }
  }

  lemma FreshIsValid(ring: seq<Word>, c: Config)
    requires |ring| == RING_LIMIT && Acceptable(c)
    ensures Inv(World(Started(c), ring, [], [], [], false))
  {
    var w := World(Started(c), ring, [], [], [], false);
    if w.s.triggered {
      FreshTriggered(w);
    }
    hide TriggeredInv;
  }

  lemma FreshTriggered(w: World)
    requires w.stream == [] && w.sent == [] && w.chunks == [] && w.s.trigger == NO_SEQ
    requires w.s.writer == w.s.reader == w.s.eligible == 0
    ensures TriggeredInv(w)
  {
    assert Flags([]) == 0;
    EmptyEncodes(w.s.bytesPerSample);
    hide Encode, Flags;
    assert w.stream[0..0] == [];
  }

  // ---------------------------------------------------------------------
  // Whole runs.

  /** A run starts with an initialised engine and takes one step per event. */
  ghost predicate IsRun(worlds: seq<World>, events: seq<Event>) {
    && |worlds| == |events| + 1
    && (forall i | 0 <= i < |worlds| :: |worlds[i].ring| == RING_LIMIT)
    && worlds[0] == AfterInit(worlds[0])
    && forall i | 0 <= i < |events| ::
         InRange(worlds[i], events[i]) && (Inv(worlds[i]) ==> worlds[i + 1] == Step(worlds[i], events[i]))
  }

  lemma {:induction false} RunKeepsInv(worlds: seq<World>, events: seq<Event>, i: nat)
    requires IsRun(worlds, events) && i < |worlds|
    ensures Inv(worlds[i])
  {
    if i > 0 {
      RunKeepsInv(worlds, events, i - 1);
      StepKeepsInv(worlds[i - 1], events[i - 1]);
    }
  }

  /** The event is a commit that overflows. */
  predicate Fails(w: World, e: Event) {
    e.Capture? && CommitCode(w.s, |e.samples|, e.seen, e.offset) == Overflow
  }

  /** The session's overrun flag tells whether a commit has failed: it is raised by
      an overflowing commit and by nothing else, and only `init` takes it back. */
  lemma FailureIsVisible(worlds: seq<World>, events: seq<Event>, i: nat)
    requires IsRun(worlds, events) && i < |events|
    ensures worlds[i].failed <==> worlds[i].s.overrun
    ensures worlds[i + 1].s.overrun <==> Fails(worlds[i], events[i]) || (worlds[i].s.overrun && !events[i].Init?)
    ensures worlds[i + 1].s.phase == Failed && worlds[i].s.phase != Failed ==> Fails(worlds[i], events[i])
  {
    RunKeepsInv(worlds, events, i);
    hide IsRun, RingHolds, TriggeredInv, UntriggeredInv, Fill;
    assert worlds[i + 1] == Step(worlds[i], events[i]);
  }

  /** In every run, as long as the overrun flag is down, what has been read is the
      encoding of the contiguous captured samples from the start of the pre-trigger
      window, or from 0 without a trigger, up to the reader. */
  lemma SentIsEncoded(worlds: seq<World>, events: seq<Event>, i: nat)
    requires IsRun(worlds, events) && i < |worlds|
    requires !worlds[i].s.overrun && worlds[i].s.phase != Idle
    ensures var w := worlds[i];
            if w.s.triggered then
              && Base(w.s) <= w.s.reader <= w.s.writer == |w.stream|
              && w.sent == Encode(w.stream[Base(w.s)..w.s.reader], w.s.bytesPerSample)
            else w.sent == []
  {
    RunKeepsInv(worlds, events, i);
  }

  /** Exactly one chunk carries the trigger once the reader has passed it, at
      the trigger's place in the chunk; without a trigger none does. */
  lemma TriggerIsFlaggedOnce(worlds: seq<World>, events: seq<Event>, i: nat)
    requires IsRun(worlds, events) && i < |worlds|
    requires !worlds[i].s.overrun && worlds[i].s.phase != Idle
    ensures FlaggedOnce(worlds[i])
  {
    hide FlaggedOnce, IsRun, RingHolds, TriggeredInv, UntriggeredInv;
    RunKeepsInv(worlds, events, i);
    InvFlagsOnce(worlds[i]);
  }

  ghost predicate FlaggedOnce(w: World) {
    && Flags(w.chunks) == (if w.s.trigger != NO_SEQ && w.s.trigger < w.s.reader then 1 else 0)
    && forall c | c in w.chunks && c.hasTrigger ::
         c.firstSeq + c.triggerOffset == w.s.trigger && c.triggerOffset < c.sampleCount
  }

  lemma InvFlagsOnce(w: World)
    requires Inv(w) && !w.s.overrun && w.s.phase != Idle
    ensures FlaggedOnce(w)
  {
    assert Flags([]) == 0;
  }

  /** A read of `count` samples hands out the latest samples of their slots, the
      first of them from one ring later. */
  ghost predicate ReadsOneLapOn(w: World, count: nat) {
    && 0 < w.s.ringSamples <= |w.ring| && count > 0
    && w.s.reader + count <= |w.stream| && w.s.reader + w.s.ringSamples < |w.stream|
    && ReadBytes(w, count) == Encode(HandedOut(w, w.s.reader, w.s.reader + count), w.s.bytesPerSample)
    && HandedOut(w, w.s.reader, w.s.reader + count)[0] == w.stream[w.s.reader + w.s.ringSamples]
  }

  /** When a well-formed commit laps the reader, the next read hands out the samples
      of one lap later, without an error. */
  lemma LapIsHandedOut(w: World, samples: seq<Word>, seen: bool, offset: nat, space: nat, maxSamples: nat)
    requires Inv(w) && w.s.triggered && w.s.writer + |samples| < NO_SEQ
    requires 0 < |samples| <= w.s.ringSamples && (seen ==> offset < |samples|)
    requires Fails(w, Capture(samples, seen, offset)) && maxSamples > 0
    ensures var lapped := AfterCapture(w, samples, seen, offset);
            && lapped.s.overrun && lapped.s.reader == w.s.reader && lapped.s.ringSamples == w.s.ringSamples
            && ReadsOneLapOn(lapped, ReadCount(lapped.s, maxSamples))
  {
    RunningHasRing(w);
    hide Inv, AfterCapture, RingHolds, CommitCode, ReadsOneLapOn;
    var lapped := AfterCapture(w, samples, seen, offset);
    CaptureKeepsInv(w, samples, seen, offset);
    LapFacts(w, samples, seen, offset);
    BehindByALap(lapped, ReadCount(lapped.s, maxSamples));
  }

  lemma BehindByALap(w: World, count: nat)
    requires Inv(w) && w.s.phase != Idle && w.s.triggered && 0 < count <= Available(w.s)
    requires w.s.reader + w.s.ringSamples < |w.stream| <= w.s.reader + 2 * w.s.ringSamples
    ensures ReadsOneLapOn(w, count)
  {
    hide Inv, Encode, ReadBytes, AreOwn, RingHolds, Latest, Available, HandedOut;
    RunningHasRing(w);
    ReadsExactly(w, count);
    FirstIsNextLap(w, count);
  }

  lemma FirstIsNextLap(w: World, count: nat)
    requires 0 < w.s.ringSamples && 0 < count && w.s.reader + count <= |w.stream|
    requires w.s.reader + w.s.ringSamples < |w.stream| <= w.s.reader + 2 * w.s.ringSamples
    ensures HandedOut(w, w.s.reader, w.s.reader + count)[0] == w.stream[w.s.reader + w.s.ringSamples]
  {
    hide Latest;
    LatestIsNextLap(w.s.reader, w.s.ringSamples, |w.stream|);
  }

  lemma LatestIsNextLap(q: nat, n: nat, total: nat)
    requires n > 0 && q + n < total <= q + 2 * n
    ensures Latest(q, n, total) == q + n
  {
    assert Latest(q, n, total) == Latest(q + n, n, total);
  }

  lemma LapFacts(w: World, samples: seq<Word>, seen: bool, offset: nat)
    requires Inv(w) && w.s.triggered && 0 < |samples| <= w.s.ringSamples && (seen ==> offset < |samples|)
    requires Fails(w, Capture(samples, seen, offset))
    ensures var s, lapped := w.s, AfterCapture(w, samples, seen, offset);
            && lapped.s == Overran(s.(writer := s.writer + |samples|)) && Available(lapped.s) > 0
            && lapped.s.ringSamples > 0
            && s.reader + s.ringSamples < |lapped.stream| <= s.reader + 2 * s.ringSamples
  {
    hide Fill, RingHolds;
  }

  const TINY := Config(WebSocket, NoTrigger, 7, 0, 1, 1)

  /** A ring of one sample, after `step` of four events. */
  function Tiny(ring: seq<Word>, step: nat): World
    requires |ring| == RING_LIMIT
  {
    var one := Started(TINY).(writer := 1, eligible := 1, lastCaptured := 1);
    var lapped := Overran(one.(writer := 2));
    if step == 0 then World(IDLE, ring, [], [], [], false)
    else if step == 1 then World(Started(TINY), ring, [], [], [], false)
    else if step == 2 then World(one, ring[0 := 1], [1], [], [], false)
    else if step == 3 then World(lapped, ring[0 := 2], [1, 2], [], [], true)
    else World(lapped.(reader := 1, lastSent := 1), ring[0 := 2], [1, 2], [2], [Chunk(0, 1, NO_OFFSET, false)], true)
  }

  ghost predicate Follows(w: World, e: Event, next: World) {
    |next.ring| == RING_LIMIT && InRange(w, e) && (Inv(w) ==> next == Step(w, e))
  }

  lemma TinyStarts(ring: seq<Word>)
    requires |ring| == RING_LIMIT
    ensures |Tiny(ring, 0).ring| == RING_LIMIT && AfterInit(Tiny(ring, 0)) == Tiny(ring, 0)
    ensures Follows(Tiny(ring, 0), Start(TINY), Tiny(ring, 1))
  {
    hide Inv;
  }

  lemma FirstSample(ring: seq<Word>)
    requires |ring| == RING_LIMIT
    ensures Follows(Tiny(ring, 1), Capture([1], false, 0), Tiny(ring, 2))
  {
    hide Fill, Inv;
    FillOne(ring, 0, 1);
    var none: seq<Word> := [];
    assert none + [1] == [1];
  }

  lemma SecondSample(ring: seq<Word>)
    requires |ring| == RING_LIMIT
    ensures Follows(Tiny(ring, 2), Capture([2], false, 0), Tiny(ring, 3))
  {
    hide Fill, Inv;
    FillOne(ring[0 := 1], 1, 2);
    assert ring[0 := 1][0 := 2] == ring[0 := 2];
  }

  lemma LostSample(ring: seq<Word>)
    requires |ring| == RING_LIMIT
    ensures Follows(Tiny(ring, 3), Read(1, 1), Tiny(ring, 4))
  {
    hide Encode, Inv;
    var w := Tiny(ring, 3);
    assert RingSlice(w.ring, 0, 1, 1) == [2];
    EncodeOne(2);
    assert w.sent + [2] == [2] && w.chunks + [ReadChunk(w.s, 1)] == [Chunk(0, 1, NO_OFFSET, false)];
  }

  lemma TinyEnds(ring: seq<Word>)
    requires |ring| == RING_LIMIT
    ensures var w := Tiny(ring, 4);
            w.stream == [1, 2] && w.s.overrun && w.s.reader == 1 && w.chunks == [Chunk(0, 1, NO_OFFSET, false)]
            && w.sent == [2]
  {
  }

  /** A run in which a sample is lost and the read does not tell: a ring of one
      sample, two samples, and then the read. */
  lemma ReadAfterLap(ring: seq<Word>) returns (worlds: seq<World>, events: seq<Event>)
    requires |ring| == RING_LIMIT
    ensures IsRun(worlds, events) && |worlds| == 5
    ensures var w := worlds[4];
            w.stream == [1, 2] && w.s.overrun && w.s.reader == 1 && w.chunks == [Chunk(0, 1, NO_OFFSET, false)]
            && w.sent == [2]
  {
    hide *;
    TinyStarts(ring);
    FirstSample(ring);
    SecondSample(ring);
    LostSample(ring);
    TinyEnds(ring);
    worlds, events := NewRun(Tiny(ring, 0));
    worlds, events := Extended(worlds, events, Start(TINY), Tiny(ring, 1));
    worlds, events := Extended(worlds, events, Capture([1], false, 0), Tiny(ring, 2));
    worlds, events := Extended(worlds, events, Capture([2], false, 0), Tiny(ring, 3));
    worlds, events := Extended(worlds, events, Read(1, 1), Tiny(ring, 4));
  }

  lemma NewRun(w: World) returns (worlds: seq<World>, events: seq<Event>)
    requires |w.ring| == RING_LIMIT && w == AfterInit(w)
    ensures |worlds| == 1 && |events| == 0 && worlds[0] == w && IsRun(worlds, events)
  {
    worlds, events := [w], [];
  }

  lemma Extended(worlds: seq<World>, events: seq<Event>, e: Event, next: World)
    returns (longer: seq<World>, more: seq<Event>)
    requires |worlds| == |events| + 1 && IsRun(worlds, events) && Follows(worlds[|events|], e, next)
    ensures |more| == |events| + 1 && |longer| == |more| + 1
    ensures IsRun(longer, more) && longer[|more|] == next
  {
    hide Step, Inv, InRange;
    longer, more := worlds + [next], events + [e];
    assert forall i | 0 <= i < |worlds| :: longer[i] == worlds[i];
    assert forall i | 0 <= i < |events| :: more[i] == events[i];
  }

  lemma FillOne(ring: seq<Word>, at: nat, sample: Word)
    requires |ring| > 0
    ensures Fill(ring, at, [sample], 1) == ring[0 := sample]
  {
    var before: seq<Word> := [sample][..0];
    assert before == [] && Fill(ring, at, before, 1) == ring;
  }

  lemma EncodeOne(sample: Word)
    ensures Encode([sample], 1) == [sample % 256]
  {
    assert [sample][..0] == [];
  }

  // ---------------------------------------------------------------------
  // Draining.

  function Drained(w: World, space: nat, maxSamples: nat, times: nat): World
    requires 0 < w.s.ringSamples <= |w.ring|
    decreases times
  {
    if times == 0 then w else Drained(AfterReading(w, space, maxSamples), space, maxSamples, times - 1)
  }

  /** After `times` reads the reader has advanced by as many blocks, at most to the
      writer; everything on the way has been handed out, and nothing else has
      changed. */
  ghost predicate Drains(w: World, space: nat, maxSamples: nat, times: nat) {
    0 < w.s.ringSamples <= |w.ring| &&
    var w' := Drained(w, space, maxSamples, times);
    && w'.stream == w.stream && w'.s.writer == w.s.writer
    && w'.s.reader == Min(w.s.writer, w.s.reader + times * maxSamples)
    && Base(w.s) <= w'.s.reader <= |w.stream|
    && w'.sent == Encode(w.stream[Base(w.s)..w'.s.reader], w.s.bytesPerSample)
    && (w.s.phase == Stopping ==> w'.s.phase == Stopping)
  }

  /** Repeated reads into a large enough buffer hand out everything captured, in
      particular after a stop; nothing else of the session changes. */
  lemma {:induction false} DrainReachesWriter(w: World, space: nat, maxSamples: nat, times: nat)
    requires Inv(w) && w.s.phase != Idle && !w.s.overrun && w.s.triggered
    requires 0 < maxSamples && maxSamples * w.s.bytesPerSample <= space
    ensures Drains(w, space, maxSamples, times)
    decreases times
  {
    hide Inv, Encode, AfterReading;
    InvSays(w);
    if times > 0 {
      var next := AfterReading(w, space, maxSamples);
      DrainStep(w, space, maxSamples);
      DrainReachesWriter(next, space, maxSamples, times - 1);
      assert times * maxSamples == (times - 1) * maxSamples + maxSamples;
    }
  }

  lemma InvSays(w: World)
    requires Inv(w) && w.s.phase != Idle && !w.s.overrun && w.s.triggered
    ensures 0 < w.s.ringSamples <= |w.ring| && |w.stream| == w.s.writer == w.s.eligible
    ensures Base(w.s) <= w.s.reader <= w.s.writer
    ensures w.sent == Encode(w.stream[Base(w.s)..w.s.reader], w.s.bytesPerSample)
  {
  }

  lemma DrainStep(w: World, space: nat, maxSamples: nat)
    requires Inv(w) && w.s.phase != Idle && !w.s.overrun && w.s.triggered
    requires 0 < maxSamples && maxSamples * w.s.bytesPerSample <= space
    ensures var next := AfterReading(w, space, maxSamples);
            && next.ring == w.ring && next.s.ringSamples == w.s.ringSamples
            && Inv(next) && next.s.phase != Idle && !next.s.overrun && next.s.triggered
            && next.stream == w.stream && next.s.writer == w.s.writer && Base(next.s) == Base(w.s)
            && next.s.bytesPerSample == w.s.bytesPerSample
            && next.s.reader == Min(w.s.writer, w.s.reader + maxSamples)
            && (w.s.phase == Stopping ==> next.s.phase == Stopping)
  {
    hide Inv, Encode, ReadBytes;
    InvSays(w);
    ReadKeepsInv(w, space, maxSamples);
    ReadFits(w.s, space, maxSamples);
  }

  lemma ReadFits(s: Session, space: nat, maxSamples: nat)
    requires 0 < maxSamples && maxSamples * s.bytesPerSample <= space
    ensures ReadCode(s, space, maxSamples) == Done
  {
    var count := ReadCount(s, maxSamples);
    assert count * s.bytesPerSample <= maxSamples * s.bytesPerSample;
  }

  // ---------------------------------------------------------------------
  // When a commit overflows.

  /** The reader is still owed sample `q`: it is unread, or it belongs to the
      pre-trigger window of the trigger seen in this commit. */
  predicate Owed(s: Session, seen: bool, offset: nat, q: nat) {
    if s.triggered then s.reader <= q < s.writer
    else seen && WindowStart(s.writer + offset, s.pre) <= q < s.writer
  }

  /** One of the samples just written took the slot of sample `q`. */
  ghost predicate Overwritten(s: Session, count: nat, q: nat)
    requires s.ringSamples > 0
  {
    exists q': nat | s.writer <= q' < s.writer + count :: SameSlot(q', q, s.ringSamples)
  }

  predicate SameSlot(a: nat, b: nat, n: nat)
    requires n > 0
  {
    a % n == b % n
  }

  lemma OverwrittenMeans(s: Session, count: nat, q: nat)
    requires 0 < count <= s.ringSamples && q < s.writer <= q + s.ringSamples
    ensures Overwritten(s, count, q) <==> q + s.ringSamples < s.writer + count
  {
    var n := s.ringSamples;
    NextLap(q, n);
    forall q': nat | s.writer <= q' < s.writer + count
      ensures SameSlot(q', q, n) <==> q' == q + n
    {
      if q' < q + n {
        ModDistinct(q, q', n);
      } else if q' > q + n {
        ModDistinct(q + n, q', n);
      }
    }
    assert q + n < s.writer + count ==> SameSlot(q + n, q, n);
  }

  lemma NextLap(q: nat, n: nat)
    requires n > 0
    ensures (q + n) % n == q % n
  {
    var x := q + n;
    var d := q / n + 1 - x / n;
    assert n * d == x % n - q % n;
    assert d >= 1 ==> n * d >= n;
    assert d + 1 <= 0 ==> n * d + n <= 0;
  }

  /** A well-formed commit in a running session fails exactly when a sample the
      reader is still owed has been overwritten. */
  lemma OverflowExactly(w: World, count: nat, seen: bool, offset: nat)
    requires Inv(w) && !w.s.overrun && Running(w.s)
    requires 0 < count <= w.s.ringSamples && (seen ==> offset < count)
    ensures CommitCode(w.s, count, seen, offset) == Overflow <==>
              exists q: nat :: Owed(w.s, seen, offset, q) && Overwritten(w.s, count, q)
    ensures CommitCode(w.s, count, seen, offset) != Overflow ==>
              var s := Committed(w.s, count, seen, offset);
              s.triggered ==> s.reader <= s.eligible == s.writer <= s.reader + s.ringSamples
  {
    hide Overwritten;
    var s := w.s;
    forall q: nat | Owed(s, seen, offset, q)
      ensures Overwritten(s, count, q) <==> q + s.ringSamples < s.writer + count
    {
      OverwrittenMeans(s, count, q);
    }
    var first := if s.triggered then s.reader else WindowStart(s.writer + offset, s.pre);
    if CommitCode(s, count, seen, offset) == Overflow {
      assert Owed(s, seen, offset, first);
    }
  }

  // ---------------------------------------------------------------------
  // The implementation: one static session structure and one static ring.

  class Engine {
    var session: Session
    const ring: array<Word>
    ghost var stream: seq<Word>
    ghost var sent: Bytes
    ghost var chunks: seq<Chunk>
    ghost var failed: bool

    ghost function W(): World
      reads this, ring
    {
      World(session, ring[..], stream, sent, chunks, failed)
    }

    constructor ()
      ensures Inv(W()) && W() == AfterInit(W()) && fresh(ring)
    {
      session := IDLE;
      ring := new Word[RING_LIMIT](_ => 0);
      stream, sent, chunks, failed := [], [], [], false;
    }

    method Init()
      modifies this
      ensures W() == AfterInit(old(W()))
    {
      session := IDLE;
      stream, sent, chunks, failed := [], [], [], false;
    }

    method Start(config: Config) returns (code: Code)
      modifies this
      ensures code == StartCode(old(session), config)
      ensures W() == AfterStart(old(W()), config)
    {
      if config.owner == NoOwner || config.ringSamples == 0 || config.ringSamples > RING_LIMIT ||
         config.bytesPerSample == 0 || config.bytesPerSample > 2 || config.pre >= config.ringSamples {
        return Invalid;
      }
      if session.phase != Idle {
        return Busy;
      }
      var free := config.trigger == NoTrigger;
      session := IDLE.(owner := config.owner, sessionId := config.sessionId, pre := config.pre,
                       ringSamples := config.ringSamples, bytesPerSample := config.bytesPerSample,
                       reason := RunningReason);
      session := session.(phase := if free then LiveTriggered else ArmedPretrigger,
                          triggered := free, trigger := NO_SEQ, eligible := if free then 0 else NO_SEQ);
      stream, sent, chunks, failed := [], [], [], false;
      return Done;
    }

    method SetError(why: Reason)
      modifies this`session
      ensures session == old(session).(phase := Failed, reason := why, terminal := true,
                                       overrun := why == OverrunReason, lastCaptured := old(session.writer))
    {
      session := session.(phase := Failed, reason := why, terminal := true,
                          overrun := why == OverrunReason, lastCaptured := session.writer);
    }

    method Commit(count: nat, seen: bool, offset: nat) returns (code: Code)
      modifies this`session
      ensures code == CommitCode(old(session), count, seen, offset)
      ensures session == Committed(old(session), count, seen, offset)
    {
      if count == 0 {
        return Done;
      }
      if session.phase == Idle || session.phase == Failed || session.phase == Stopping {
        return Invalid;
      }
      if count > session.ringSamples || (seen && offset >= count) {
        SetError(OverrunReason);
        return Overflow;
      }
      var firstSeq := session.writer;
      var nextWriter := session.writer + count;
      var oldestAfterWrite :=
        if nextWriter > session.ringSamples then nextWriter - session.ringSamples else 0;
      if session.triggered && session.reader < oldestAfterWrite {
        session := session.(writer := nextWriter);
        SetError(OverrunReason);
        return Overflow;
      }
      if !session.triggered && seen {
        var triggerSeq := firstSeq + offset;
        var readerSeq := if triggerSeq > session.pre then triggerSeq - session.pre else 0;
        if readerSeq < oldestAfterWrite {
          session := session.(writer := nextWriter);
          SetError(OverrunReason);
          return Overflow;
        }
        session := session.(triggered := true, trigger := triggerSeq, reader := readerSeq,
                            eligible := nextWriter, phase := TriggerDrain);
      } else if session.triggered {
        session := session.(eligible := nextWriter);
        if session.phase == TriggerDrain {
          session := session.(phase := LiveTriggered);
        }
      } else if session.pre == 0 {
        session := session.(phase := LiveUntriggered);
      }
      session := session.(writer := nextWriter, lastCaptured := nextWriter);
      return Done;
    }

    /** The DMA writes a block behind the writer, wrapping around the ring. */
    method FillRing(samples: seq<Word>)
      requires 0 < session.ringSamples <= ring.Length
      modifies ring
      ensures ring[..] == Fill(old(ring[..]), session.writer, samples, session.ringSamples)
    {
      assert samples[..0] == [];
      for i := 0 to |samples|
        invariant ring[..] == Fill(old(ring[..]), session.writer, samples[..i], session.ringSamples)
      {
        ring[(session.writer + i) % session.ringSamples] := samples[i];
        assert samples[..i + 1][..i] == samples[..i];
      }
      assert samples[..|samples|] == samples;
    }

    method Capture(samples: seq<Word>, seen: bool, offset: nat) returns (code: Code)
      requires Inv(W()) && ring.Length == RING_LIMIT
      requires session.writer + |samples| < NO_SEQ
      modifies this, ring
      ensures code == CommitCode(old(session), |samples|, seen, offset)
      ensures Inv(W()) && W() == AfterCapture(old(W()), samples, seen, offset)
    {
      hide Inv, Fill;
      ghost var w := W();
      CaptureKeepsInv(w, samples, seen, offset);
      RunningHasRing(w);
      if samples != [] && session.phase != Idle && session.phase != Failed && session.phase != Stopping {
        FillRing(samples);
      }
      code := Commit(|samples|, seen, offset);
      stream := if samples != [] && Running(w.s) then stream + samples else stream;
      failed := failed || code == Overflow;
    }

    method Stop(who: Owner, id: nat, why: Option<string>) returns (code: Code)
      modifies this`session
      ensures code == StopCode(old(session), who, id)
      ensures W() == AfterStop(old(W()), who, id, why)
    {
      if session.phase == Idle {
        return Done;
      }
      if session.owner != who || session.sessionId != id {
        return NotPermitted;
      }
      session := session.(phase := Stopping,
                          reason := if why.Some? then Given(why.value) else StoppedReason,
                          terminal := true, lastCaptured := session.writer);
      return Done;
    }

    method Read(dst: array<Byte>, maxSamples: nat) returns (code: Code, chunk: Chunk)
      requires Inv(W()) && ring.Length == RING_LIMIT
      modifies this, dst
      ensures code == ReadCode(old(session), dst.Length, maxSamples)
      ensures Inv(W()) && W() == AfterReading(old(W()), dst.Length, maxSamples)
      ensures var count := ReadCount(old(session), maxSamples);
              if code == Done && count > 0 then
                var bytes := ReadBytes(old(W()), count);
                && chunk == ReadChunk(old(session), count)
                && |bytes| <= dst.Length && dst[..|bytes|] == bytes
                && dst[|bytes|..] == old(dst[|bytes|..])
              else chunk == EMPTY_CHUNK && dst[..] == old(dst[..])
    {
      hide Inv, Encode, RingSlice, AfterRead;
      ghost var w := W();
      ReadKeepsInv(w, dst.Length, maxSamples);
      RunningHasRing(w);
      chunk := EMPTY_CHUNK;
      if maxSamples == 0 {
        return Invalid, chunk;
      }
      if !session.triggered || session.reader >= session.eligible {
        return Done, chunk;
      }
      var available := session.eligible - session.reader;
      var count: nat := if available > maxSamples then maxSamples else available;
      var needed := count * session.bytesPerSample;
      if needed > dst.Length {
        return NoSpace, chunk;
      }
      var triggerOffset := CopySamples(dst, count);
      chunk := Chunk(session.reader, count, triggerOffset, triggerOffset != NO_OFFSET);
      sent := sent + ReadBytes(w, count);
      chunks := chunks + [chunk];
      Advance(count);
      code := Done;
    }

    method Advance(count: nat)
      modifies this`session
      ensures session == AfterRead(old(session), count)
    {
      session := session.(reader := session.reader + count, lastSent := session.reader + count);
      if session.phase == TriggerDrain && session.reader > session.trigger {
        session := session.(phase := LiveTriggered);
      }
    }

    /** The copy loop of `read`; returns where in the block the trigger is. */
    method CopySamples(dst: array<Byte>, count: nat) returns (triggerOffset: nat)
      requires 0 < session.ringSamples <= ring.Length && 1 <= session.bytesPerSample <= 2
      requires count * session.bytesPerSample <= dst.Length && count < NO_OFFSET
      modifies dst
      ensures var r, t := session.reader, session.trigger;
              triggerOffset == if r <= t < r + count then t - r else NO_OFFSET
      ensures var bytes := ReadBytes(W(), count);
              && |bytes| == count * session.bytesPerSample
              && dst[..|bytes|] == bytes && dst[|bytes|..] == old(dst[|bytes|..])
    {
      hide Encode, RingSlice;
      var n, size, first := session.ringSamples, session.bytesPerSample, session.reader;
      ghost var words := ring[..];
      triggerOffset := NO_OFFSET;
      NothingCopied(words, first, n, size);
      assert dst[..0] == [] && dst[0..] == dst[..];
      for i := 0 to count
        invariant triggerOffset ==
                  if first <= session.trigger < first + i then session.trigger - first else NO_OFFSET
        invariant dst[..i * size] == Encode(RingSlice(words, first, first + i, n), size)
        invariant dst[i * size..] == old(dst[i * size..])
      {
        var raw := ring[(first + i) % n];
        var at := i * size;
        Room(i, count, size, dst.Length);
        CopySample(dst, at, raw, size);
        OneMoreCopied(words, first, i, n, size);
        assert old(dst[at..])[size..] == old(dst[at + size..]);
        if first + i == session.trigger {
          triggerOffset := i;
        }
      }
      assert |Encode(RingSlice(words, first, first + count, n), size)| == count * size;
    }

    method CopySample(dst: array<Byte>, at: nat, raw: Word, size: nat)
      requires 1 <= size <= 2 && at + size <= dst.Length
      modifies dst
      ensures dst[..at + size] == old(dst[..at]) + EncodeSample(raw, size)
      ensures dst[at + size..] == old(dst[at..])[size..]
    {
      if size == 1 {
        dst[at] := raw % 256;
      } else {
        dst[at] := raw % 256;
        dst[at + 1] := raw / 256 % 256;
      }
    }
  }

  lemma Room(i: nat, count: nat, size: nat, length: nat)
    requires i < count && count * size <= length
    ensures i * size + size == (i + 1) * size <= length
  {
    assert (i + 1) * size <= count * size;
  }

  lemma NothingCopied(ring: seq<Word>, from: nat, n: nat, size: nat)
    requires 0 < n <= |ring|
    ensures Encode(RingSlice(ring, from, from, n), size) == []
  {
  }

  lemma OneMoreCopied(ring: seq<Word>, from: nat, i: nat, n: nat, size: nat)
    requires 0 < n <= |ring|
    ensures Encode(RingSlice(ring, from, from + i + 1, n), size)
         == Encode(RingSlice(ring, from, from + i, n), size) + EncodeSample(ring[(from + i) % n], size)
  {
    var slice := RingSlice(ring, from, from + i + 1, n);
    assert slice[..i] == RingSlice(ring, from, from + i, n);
  }

  lemma RunningHasRing(w: World)
    requires Inv(w)
    ensures |w.ring| == RING_LIMIT
    ensures w.s.phase != Idle ==> 0 < w.s.ringSamples <= RING_LIMIT && 1 <= w.s.bytesPerSample <= 2
    ensures w.s.phase == Idle ==> !w.s.triggered
    ensures w.s.phase != Idle ==> Available(w.s) <= RING_LIMIT
  {
  }
}
