/** Whole runs of the logic capture session, told from outside: by what it was
    started with and by the edges the DMA reported. */
module LogicRuns {
  import opened Common
  import opened LogicSession

  /** A configuration the engine takes. */
  predicate IsConfig(c: Config) {
    && c.owner in {WebSocket, BeagleLogic} && 1 <= c.ringSamples <= 20_000
    && c.bytesPerSample in {1, 2} && c.pre < c.ringSamples
  }

  /** What the running session was started with: the first proper configuration
      since the last `init`. */
  ghost function Settings(worlds: seq<World>, events: seq<Event>, i: nat): Option<Config>
    requires i < |worlds| == |events| + 1
  {
    if i == 0 then None
    else
      match events[i - 1]
      case Init => None
      case Start(c) =>
        if Settings(worlds, events, i - 1).None? && IsConfig(c) then Some(c)
        else Settings(worlds, events, i - 1)
      case _ => Settings(worlds, events, i - 1)
  }

  /** The sample of the first edge the DMA reported to an edge-triggered session:
      the samples before the block, plus the place in the block. A block that lets the
      session overrun does not count. */
  ghost function EdgeSample(worlds: seq<World>, events: seq<Event>, i: nat): Option<nat>
    requires i < |worlds| == |events| + 1
  {
    if i == 0 then None
    else
      var before := EdgeSample(worlds, events, i - 1);
      match events[i - 1]
      case Init => None
      case Capture(samples, seen, offset) =>
        if before.None? && seen && Settings(worlds, events, i - 1).Some?
           && Settings(worlds, events, i - 1).value.trigger == Edge
           && |worlds[i].stream| > |worlds[i - 1].stream| && !worlds[i].s.overrun
        then Some(|worlds[i - 1].stream| + offset)
        else before
      case _ => before
  }

  /** The first sample the reader is to get. */
  function FirstSent(c: Config, edge: Option<nat>): nat {
    match edge
    case None => 0
    case Some(q) => if q > c.pre then q - c.pre else 0
  }

  /** A chunk for each stretch, one behind the other, from `first` to `reader`. */
  ghost predicate ChunksTile(chunks: seq<Chunk>, first: nat, reader: nat) {
    && (forall k | 0 <= k < |chunks| ::
          && chunks[k].sampleCount > 0
          && (!chunks[k].hasTrigger ==> chunks[k].triggerOffset == NO_OFFSET)
          && chunks[k].firstSeq == if k == 0 then first else chunks[k - 1].firstSeq + chunks[k - 1].sampleCount)
    && reader == if chunks == [] then first
                 else chunks[|chunks| - 1].firstSeq + chunks[|chunks| - 1].sampleCount
  }

  /** The state a user sees says where the session stands. */
  predicate PhaseTells(w: World, c: Config) {
    && (w.s.triggered ==> w.s.phase !in {Idle, ArmedPretrigger, LiveUntriggered})
    && (!w.s.triggered && Running(w.s) ==>
          w.s.phase == if c.pre == 0 && w.stream != [] then LiveUntriggered else ArmedPretrigger)
    && (w.s.phase == TriggerDrain ==> w.s.reader <= w.s.trigger < NO_SEQ)
    && (w.s.terminal <==> !Running(w.s))
  }

  /** The session is what it was started with, and its trigger is the edge. */
  ghost predicate Tells(w: World, config: Option<Config>, edge: Option<nat>) {
    match config
    case None => w.s == IDLE && edge.None? && w.stream == []
    case Some(c) =>
      && IsConfig(c) && w.s.phase != Idle
      && w.s.owner == c.owner && w.s.sessionId == c.sessionId && w.s.pre == c.pre
      && w.s.ringSamples == c.ringSamples && w.s.bytesPerSample == c.bytesPerSample
      && w.s.lastCaptured == w.s.writer
      && w.s.lastSent == (if w.chunks == [] then 0 else w.s.reader)
      && (w.s.triggered <==> c.trigger == NoTrigger || edge.Some?)
      && (c.trigger == NoTrigger ==> edge.None?)
      && w.s.trigger == (if edge.Some? then edge.value else NO_SEQ)
      && (edge.Some? ==> edge.value < NO_SEQ)
      && (w.s.triggered ==> ChunksTile(w.chunks, FirstSent(c, edge), w.s.reader))
      && (!w.s.triggered ==> w.chunks == [] && w.sent == [])
      && PhaseTells(w, c)
  }

  lemma ChunksGrow(chunks: seq<Chunk>, first: nat, reader: nat, c: Chunk)
    requires ChunksTile(chunks, first, reader) && c.firstSeq == reader && c.sampleCount > 0
    requires !c.hasTrigger ==> c.triggerOffset == NO_OFFSET
    ensures ChunksTile(chunks + [c], first, reader + c.sampleCount)
  {
    var all := chunks + [c];
    assert forall k | 0 <= k < |chunks| :: all[k] == chunks[k];
    assert all[|chunks|] == c;
  }

  lemma StartTells(w: World, c: Config, config: Option<Config>, edge: Option<nat>)
    requires Inv(w) && Tells(w, config, edge)
    ensures Tells(Step(w, Start(c)), if config.None? && IsConfig(c) then Some(c) else config, edge)
  {
    hide Inv, RingHolds, TriggeredInv, UntriggeredInv;
    assert Acceptable(c) <==> IsConfig(c);
  }

  lemma HandedOutTells(w: World, next: World, count: nat, config: Option<Config>, edge: Option<nat>)
    requires Tells(w, config, edge) && config.Some? && w.s.triggered && count > 0
    requires next.s == AfterRead(w.s, count) && next.stream == w.stream
    requires next.chunks == w.chunks + [ReadChunk(w.s, count)]
    ensures Tells(next, config, edge)
  {
    ChunksGrow(w.chunks, FirstSent(config.value, edge), w.s.reader, ReadChunk(w.s, count));
    hide ChunksTile;
  }

  lemma ReadTells(w: World, space: nat, maxSamples: nat, config: Option<Config>, edge: Option<nat>)
    requires Inv(w) && Tells(w, config, edge)
    ensures Tells(Step(w, Read(space, maxSamples)), config, edge)
  {
    RunningHasRing(w);
    var count := ReadCount(w.s, maxSamples);
    var next := Step(w, Read(space, maxSamples));
    hide Inv, Tells, ReadBytes, AfterRead, ReadChunk;
    if next != w {
      HandedOutTells(w, next, count, config, edge) by {
        TellsTriggered(w, config, edge);
      }
    }
  }

  /** The edge after a capture. */
  function EdgeAfter(w: World, next: World, e: Event, config: Option<Config>, edge: Option<nat>): Option<nat>
    requires e.Capture?
  {
    if edge.None? && e.seen && config.Some? && config.value.trigger == Edge
       && |next.stream| > |w.stream| && !next.s.overrun
    then Some(|w.stream| + e.offset)
    else edge
  }

  /** The first edge: the trigger is that sample, and the reader goes back by the
      pre-trigger window, at most to sample 0. */
  lemma CaptureAtEdge(w: World, samples: seq<Word>, offset: nat)
    requires Inv(w) && Running(w.s) && !w.s.triggered && 0 < |samples| <= w.s.ringSamples && offset < |samples|
    requires !Fails(w, Capture(samples, true, offset))
    ensures var next := Step(w, Capture(samples, true, offset));
            && !next.s.overrun && next.s.triggered && next.s.trigger == |w.stream| + offset
            && next.s.reader == (if |w.stream| + offset > w.s.pre then |w.stream| + offset - w.s.pre else 0)
            && next.s == w.s.(triggered := true, trigger := next.s.trigger, reader := next.s.reader,
                              writer := next.s.writer, eligible := next.s.writer,
                              lastCaptured := next.s.writer, phase := TriggerDrain)
            && next.s.writer == |w.stream| + |samples|
            && next.stream == w.stream + samples && next.sent == w.sent && next.chunks == w.chunks
  {
    hide RingHolds, Fill;
  }

  /** A capture that is no first edge leaves trigger and reader alone. */
  lemma CaptureElsewhere(w: World, samples: seq<Word>, seen: bool, offset: nat)
    requires Inv(w) && Running(w.s) && samples != [] && (w.s.triggered || !seen)
    requires !Fails(w, Capture(samples, seen, offset))
    ensures var next := Step(w, Capture(samples, seen, offset));
            && !next.s.overrun && next.s == w.s.(writer := next.s.writer, lastCaptured := next.s.writer,
                                                 eligible := next.s.eligible, phase := next.s.phase)
            && next.s.writer == |w.stream| + |samples|
            && (w.s.triggered ==> next.s.phase == if w.s.phase == TriggerDrain then LiveTriggered else w.s.phase)
            && (!w.s.triggered ==> next.s.phase == if w.s.pre == 0 then LiveUntriggered else w.s.phase)
            && next.stream == w.stream + samples && next.sent == w.sent && next.chunks == w.chunks
  {
    hide RingHolds, Fill;
  }

  lemma CaptureOverruns(w: World, samples: seq<Word>, seen: bool, offset: nat)
    requires Inv(w) && Running(w.s) && Fails(w, Capture(samples, seen, offset))
    ensures var next := Step(w, Capture(samples, seen, offset));
            && next.s.overrun && next.s == Overran(w.s.(writer := next.s.writer))
            && next.sent == w.sent && next.chunks == w.chunks
  {
    hide RingHolds, Fill;
  }

  lemma OverrunTells(w: World, next: World, config: Option<Config>, edge: Option<nat>)
    requires Tells(w, config, edge) && config.Some? && Running(w.s)
    requires next.s == Overran(w.s.(writer := next.s.writer)) && next.sent == w.sent && next.chunks == w.chunks
    ensures Tells(next, config, edge)
  {
    hide ChunksTile;
  }

  lemma ElsewhereTells(w: World, next: World, config: Option<Config>, edge: Option<nat>)
    requires Tells(w, config, edge) && config.Some? && Running(w.s) && next.stream != []
    requires next.s == w.s.(writer := next.s.writer, lastCaptured := next.s.writer,
                            eligible := next.s.eligible, phase := next.s.phase)
    requires w.s.triggered ==> next.s.phase == if w.s.phase == TriggerDrain then LiveTriggered else w.s.phase
    requires !w.s.triggered ==> next.s.phase == if w.s.pre == 0 then LiveUntriggered else w.s.phase
    requires next.sent == w.sent && next.chunks == w.chunks
    ensures Tells(next, config, edge)
  {
    hide ChunksTile;
  }

  lemma AtEdgeTells(w: World, next: World, c: Config, q: nat)
    requires Tells(w, Some(c), None) && Running(w.s) && !w.s.triggered && q < NO_SEQ
    requires next.s == w.s.(triggered := true, trigger := q, reader := FirstSent(c, Some(q)),
                            writer := next.s.writer, eligible := next.s.eligible,
                            lastCaptured := next.s.writer, phase := TriggerDrain)
    requires next.sent == w.sent && next.chunks == w.chunks
    ensures Tells(next, Some(c), Some(q))
  {
    NothingTiles(FirstSent(c, Some(q)));
    hide ChunksTile;
  }

  lemma CaptureTells(w: World, e: Event, config: Option<Config>, edge: Option<nat>)
    requires Inv(w) && Tells(w, config, edge) && e.Capture? && InRange(w, e)
    ensures Tells(Step(w, e), config, EdgeAfter(w, Step(w, e), e, config, edge))
  {
    RunningFacts(w);
    var next := Step(w, e);
    if Running(w.s) && e.samples != [] {
      TellsTriggered(w, config, edge);
      if Fails(w, e) {
        CaptureOverruns(w, e.samples, e.seen, e.offset);
        OverrunTells(w, next, config, edge);
      } else if w.s.triggered || !e.seen {
        CaptureElsewhere(w, e.samples, e.seen, e.offset);
        ElsewhereTells(w, next, config, edge);
      } else {
        WellFormed(w, e);
        CaptureAtEdge(w, e.samples, e.offset);
        AtEdgeTells(w, next, config.value, |w.stream| + e.offset);
      }
      hide Inv, Step, Tells, Fails;
    } else {
      hide Inv, Tells;
    }
  }

  lemma WellFormed(w: World, e: Event)
    requires e.Capture? && Running(w.s) && e.samples != [] && e.seen && !Fails(w, e)
    ensures |e.samples| <= w.s.ringSamples && e.offset < |e.samples|
  {
  }

  lemma TellsTriggered(w: World, config: Option<Config>, edge: Option<nat>)
    requires Tells(w, config, edge) && w.s.phase != Idle
    ensures config.Some? && w.s.pre == config.value.pre
    ensures w.s.triggered <==> config.value.trigger == NoTrigger || edge.Some?
  {
    hide ChunksTile;
  }

  lemma RunningFacts(w: World)
    requires Inv(w)
    ensures Running(w.s) ==> |w.stream| == w.s.writer && !w.s.overrun
    ensures !w.s.triggered && !w.s.overrun && w.s.phase != Idle ==> w.s.reader == 0
  {
    hide RingHolds, TriggeredInv;
  }

  lemma NothingTiles(first: nat)
    ensures ChunksTile([], first, first)
  {
  }

  lemma StopTells(w: World, e: Event, config: Option<Config>, edge: Option<nat>)
    requires Inv(w) && Tells(w, config, edge) && e.Stop?
    ensures Tells(Step(w, e), config, edge)
  {
    hide Inv, ChunksTile;
  }

  // ---------------------------------------------------------------------
  // Over whole runs.

  lemma StepTells(w: World, e: Event, config: Option<Config>, edge: Option<nat>)
    requires Inv(w) && Tells(w, config, edge) && InRange(w, e)
    ensures match e
            case Init => Tells(Step(w, e), None, None)
            case Start(c) => Tells(Step(w, e), if config.None? && IsConfig(c) then Some(c) else config, edge)
            case Capture(_, _, _) => Tells(Step(w, e), config, EdgeAfter(w, Step(w, e), e, config, edge))
            case _ => Tells(Step(w, e), config, edge)
  {
    hide Inv, Tells, EdgeAfter;
    match e
    case Init => InitTells(w);
    case Start(c) => StartTells(w, c, config, edge);
    case Capture(_, _, _) => CaptureTells(w, e, config, edge);
    case Stop(_, _, _) => StopTells(w, e, config, edge);
    case Read(space, maxSamples) => ReadTells(w, space, maxSamples, config, edge);
  }

  lemma InitTells(w: World)
    ensures Tells(AfterInit(w), None, None)
  {
  }

  /** At every moment of every run the session is what it was started with, its
      trigger is the first edge reported, and its state, last captured and last sent
      numbers and chunks say what happened. */
  lemma {:induction false} RunTells(worlds: seq<World>, events: seq<Event>, i: nat)
    requires IsRun(worlds, events) && i < |worlds|
    ensures Tells(worlds[i], Settings(worlds, events, i), EdgeSample(worlds, events, i))
  {
    hide Tells;
    if i == 0 {
      InitTells(worlds[0]);
    } else {
      RunTells(worlds, events, i - 1);
      RunKeepsInv(worlds, events, i - 1);
      hide Inv, Step;
      StepTells(worlds[i - 1], events[i - 1], Settings(worlds, events, i - 1), EdgeSample(worlds, events, i - 1));
    }
  }

  /** As long as the overrun flag is down, an edge-triggered session sends nothing
      before its edge; after it, and from the start without a trigger, all bytes sent
      are the encoding of the contiguous samples from the pre-trigger window of the
      edge on, at most from sample 0, up to the reader. */
  lemma ReadsAreLossless(worlds: seq<World>, events: seq<Event>, i: nat)
    requires IsRun(worlds, events) && i < |worlds| && !worlds[i].s.overrun
    requires Settings(worlds, events, i).Some?
    ensures var w, c, edge := worlds[i], Settings(worlds, events, i).value, EdgeSample(worlds, events, i);
            if c.trigger == Edge && edge.None? then w.sent == []
            else
              && FirstSent(c, edge) <= w.s.reader <= w.s.writer == |w.stream|
              && w.sent == Encode(w.stream[FirstSent(c, edge)..w.s.reader], c.bytesPerSample)
  {
    RunTells(worlds, events, i);
    SentIsEncoded(worlds, events, i);
    hide IsRun, ChunksTile, Settings, EdgeSample;
  }

  /** As long as the overrun flag is down, the chunks tile what has been sent, and
      exactly one of them carries the trigger flag once the reader has passed the edge:
      at the edge. Before that, and without a trigger, none does. */
  lemma EdgeIsFlaggedOnce(worlds: seq<World>, events: seq<Event>, i: nat)
    requires IsRun(worlds, events) && i < |worlds| && !worlds[i].s.overrun
    requires Settings(worlds, events, i).Some?
    ensures var w, c, edge := worlds[i], Settings(worlds, events, i).value, EdgeSample(worlds, events, i);
            && (w.chunks != [] ==> ChunksTile(w.chunks, FirstSent(c, edge), w.s.reader))
            && Flags(w.chunks) == (if edge.Some? && edge.value < w.s.reader then 1 else 0)
            && forall chunk | chunk in w.chunks && chunk.hasTrigger ::
                 && edge.Some? && chunk.triggerOffset < chunk.sampleCount
                 && chunk.firstSeq + chunk.triggerOffset == edge.value
  {
    RunTells(worlds, events, i);
    TriggerIsFlaggedOnce(worlds, events, i);
    FlagsNeedEdge(worlds, events, i);
    hide IsRun, ChunksTile, Settings, EdgeSample;
  }

  lemma FlagsNeedEdge(worlds: seq<World>, events: seq<Event>, i: nat)
    requires IsRun(worlds, events) && i < |worlds|
    ensures !worlds[i].s.triggered && !worlds[i].s.overrun && worlds[i].s.phase != Idle ==> worlds[i].s.reader == 0
    ensures forall c | c in worlds[i].chunks && c.hasTrigger && worlds[i].s.phase != Idle && !worlds[i].s.overrun ::
              worlds[i].s.triggered && worlds[i].s.trigger != NO_SEQ
  {
    RunKeepsInv(worlds, events, i);
  }

  // ---------------------------------------------------------------------
  // Starting and stopping.

  /** A start is taken exactly for a proper configuration while no session is there;
      otherwise nothing changes. */
  lemma StartExactly(worlds: seq<World>, events: seq<Event>, i: nat, c: Config)
    requires IsRun(worlds, events) && i < |events| && events[i] == Start(c)
    ensures var free := Settings(worlds, events, i).None?;
            && StartCode(worlds[i].s, c) == (if !IsConfig(c) then Invalid else if free then Done else Busy)
            && (if IsConfig(c) && free then
                  Settings(worlds, events, i + 1) == Some(c) && worlds[i + 1].stream == []
                else worlds[i + 1] == worlds[i])
  {
    RunTells(worlds, events, i);
    RunTells(worlds, events, i + 1);
    RunKeepsInv(worlds, events, i);
    hide RingHolds, TriggeredInv, UntriggeredInv, ChunksTile;
    assert worlds[i + 1] == Step(worlds[i], events[i]);
  }

  /** A stop is taken exactly from the owner of the session, by its id; from anyone
      else it changes nothing. */
  lemma StopExactly(worlds: seq<World>, events: seq<Event>, i: nat, who: Owner, id: nat, why: Option<string>)
    requires IsRun(worlds, events) && i < |events| && events[i] == Stop(who, id, why)
    ensures var w, next, settings := worlds[i], worlds[i + 1], Settings(worlds, events, i);
            if settings.Some? && settings.value.owner == who && settings.value.sessionId == id then
              && next.s.phase == Stopping && next.s.terminal
              && next.s.reason == (if why.Some? then Given(why.value) else StoppedReason)
              && next == w.(s := next.s) && next.s.reader == w.s.reader && next.s.writer == w.s.writer
            else next == w
  {
    RunTells(worlds, events, i);
    RunKeepsInv(worlds, events, i);
    hide RingHolds, TriggeredInv, UntriggeredInv, ChunksTile, Settings, EdgeSample;
    assert worlds[i + 1] == Step(worlds[i], events[i]);
  }

  lemma StoppedStep(w: World, e: Event)
    requires Inv(w) && w.s.phase == Stopping && !e.Init?
    ensures var next := Step(w, e);
            next.s.phase == Stopping && next.stream == w.stream && next.ring == w.ring && next.s.writer == w.s.writer
            && next.s.overrun == w.s.overrun
  {
    hide RingHolds, TriggeredInv, UntriggeredInv, ReadBytes;
  }

  /** Until the next `init` a stopped session takes no sample and cannot be started
      again; only its reader moves. */
  lemma {:induction false} StopIsFinal(worlds: seq<World>, events: seq<Event>, i: nat, j: nat)
    requires IsRun(worlds, events) && i <= j < |worlds| && worlds[i].s.phase == Stopping
    requires forall k | i <= k < j :: !events[k].Init?
    ensures var w, later := worlds[i], worlds[j];
            && later.s.phase == Stopping && later.stream == w.stream && later.ring == w.ring
            && later.s.writer == w.s.writer && later.s.overrun == w.s.overrun
  {
    hide Inv, Step;
    if i < j {
      StopIsFinal(worlds, events, i, j - 1);
      RunKeepsInv(worlds, events, j - 1);
      StoppedStep(worlds[j - 1], events[j - 1]);
    }
  }

  // ---------------------------------------------------------------------
  // The bytes of a sample.

  /** The number that a group of bytes stands for, lowest byte first. */
  function LittleEndian(b: Bytes): nat {
    if b == [] then 0 else b[0] + 256 * LittleEndian(b[1..])
  }

  lemma LowBits(w: nat)
    ensures w % 256 + 256 * (w / 256 % 256) == w % 65_536
  {
    var high, low := w / 256 / 256, w % 256 + 256 * (w / 256 % 256);
    assert w == 256 * (w / 256) + w % 256;
    assert w / 256 == 256 * high + w / 256 % 256;
    assert w == 65_536 * high + low && 0 <= low < 65_536;
  }

  lemma SampleBytes(w: Word, bytesPerSample: nat)
    requires 1 <= bytesPerSample <= 2
    ensures |EncodeSample(w, bytesPerSample)| == bytesPerSample
    ensures LittleEndian(EncodeSample(w, bytesPerSample)) == if bytesPerSample == 1 then w % 256 else w % 65_536
  {
    var b := EncodeSample(w, bytesPerSample);
    LowBits(w);
    if bytesPerSample == 1 {
      assert b[1..] == [];
    } else {
      assert b[1..] == [b[1]] && [b[1]][1..] == [];
      assert LittleEndian([b[1]]) == b[1];
    }
  }

  lemma {:induction false} EncodedLength(samples: seq<Word>, bytesPerSample: nat)
    requires 1 <= bytesPerSample <= 2
    ensures |Encode(samples, bytesPerSample)| == |samples| * bytesPerSample
    decreases |samples|
  {
    if samples != [] {
      var last := |samples| - 1;
      EncodedLength(samples[..last], bytesPerSample);
      SampleBytes(samples[last], bytesPerSample);
      hide EncodeSample, LittleEndian;
      assert |samples| * bytesPerSample == last * bytesPerSample + bytesPerSample;
    }
  }

  lemma EncodeOneSample(w: Word, bytesPerSample: nat)
    ensures Encode([w], bytesPerSample) == EncodeSample(w, bytesPerSample)
  {
    assert [w][..0] == [];
  }

  /** Sample `k` of an encoding is one byte or two, lowest first: its low 8 or 16
      bits. */
  lemma EncodedSample(samples: seq<Word>, bytesPerSample: nat, k: nat)
    requires 1 <= bytesPerSample <= 2 && k < |samples|
    ensures |Encode(samples, bytesPerSample)| == |samples| * bytesPerSample
    ensures var at := k * bytesPerSample;
            && at + bytesPerSample <= |Encode(samples, bytesPerSample)|
            && LittleEndian(Encode(samples, bytesPerSample)[at..at + bytesPerSample])
               == samples[k] % if bytesPerSample == 1 then 256 else 65_536
  {
    hide Encode, EncodeSample, LittleEndian;
    var a, b, c := samples[..k], [samples[k]], samples[k + 1..];
    assert samples == (a + b) + c;
    EncodeConcat(a + b, c, bytesPerSample);
    EncodeConcat(a, b, bytesPerSample);
    EncodeOneSample(samples[k], bytesPerSample);
    SampleBytes(samples[k], bytesPerSample);
    EncodedLength(a, bytesPerSample);
    EncodedLength(samples, bytesPerSample);
    var all, at := Encode(samples, bytesPerSample), k * bytesPerSample;
    assert all[at..at + bytesPerSample] == EncodeSample(samples[k], bytesPerSample);
  }
}
