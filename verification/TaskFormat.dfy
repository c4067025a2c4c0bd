/** The line format of stored task blobs. What a request line means is the
    parameter `decode`; everything else about the format is written out. */
module TaskFormat {
  import opened Common
  import opened TaskBlob

  const MAX_BLOB: nat := 4096
  const MAX_TASKS: nat := 4
  const MAX_REQUESTS: nat := 32
  const MAX_ID: nat := 31
  const MAX_LINE: nat := 256
  const HASH: Byte := 35

  /** "# linkr-task.v1" */
  function Version(): Bytes {
    [35, 32, 108, 105, 110, 107, 114, 45, 116, 97, 115, 107, 46, 118, 49]
  }

  /** "# task " */
  function Marker(): Bytes {
    [35, 32, 116, 97, 115, 107, 32]
  }

  lemma MarkersDiffer()
    ensures |Version()| == 15 && |Marker()| == 7 && !IsMarker(Version())
    ensures Version()[0] == HASH && Marker()[0] == HASH
    ensures NEWLINE !in Version() && RETURN !in Version() && NEWLINE !in Marker() && RETURN !in Marker()
  {
    assert Version()[2] == 108 && Marker()[2] == 116;
  }

  lemma IdsAre(id: Bytes)
    ensures ValidId(id) <==> 1 <= |id| <= 31 && forall b | b in Ascii(" \t\r\n#") :: b !in id
  {
    assert Ascii(" \t\r\n#") == [32, 9, 13, 10, 35];
  }

  lemma MarkersAre()
    ensures Version() == Ascii("# linkr-task.v1") && Marker() == Ascii("# task ")
  {
  }

  datatype SavedTask = SavedTask(id: Bytes, records: seq<Record>)

  // ---------------------------------------------------------------------
  // Lines.

  function ChopReturn(line: Bytes): Bytes {
    if line != [] && line[|line| - 1] == RETURN then line[..|line| - 1] else line
  }

  /** `str::lines`: a line ends in a newline or in a return and a newline. */
  function Lines(text: Bytes): seq<Bytes> {
    if text == [] then []
    else
      match FindNewline(text)
      case None => [text]
      case Some(e) => [ChopReturn(text[..e])] + Lines(text[e + 1..])
  }

  predicate IsMarker(line: Bytes) {
    Marker() <= line
  }

  predicate IsComment(line: Bytes) {
    line != [] && line[0] == HASH && line != Version() && !IsMarker(line)
  }

  predicate ValidId(id: Bytes) {
    && 0 < |id| <= MAX_ID
    && forall b | b in id :: b !in {32, 9, 13, 10, 35}
  }

  // ---------------------------------------------------------------------
  // The parser, as a function.

  datatype State = State(tasks: seq<SavedTask>, ids: set<Bytes>, current: Option<SavedTask>, seen: bool)

  function PushTask(tasks: seq<SavedTask>, task: SavedTask): Option<seq<SavedTask>> {
    if |tasks| >= MAX_TASKS then None else Some(tasks + [task])
  }

  /** One line of the loop in `parse`. */
  function Next(st: State, rawLine: Bytes, decode: Bytes -> Option<Record>): Option<State> {
    var line := ChopReturn(rawLine);
    if |line| > MAX_LINE then None
    else if line == [] then Some(st)
    else if !st.seen then if line == Version() then Some(st.(seen := true)) else None
    else if line == Version() then None
    else if IsMarker(line) then
      var id := line[7..];
      if !ValidId(id) || id in st.ids then None
      else
        match st.current
        case None => Some(st.(ids := st.ids + {id}, current := Some(SavedTask(id, []))))
        case Some(task) =>
          match PushTask(st.tasks, task)
          case None => None
          case Some(tasks) => Some(State(tasks, st.ids + {id}, Some(SavedTask(id, [])), true))
    else if line[0] == HASH then Some(st)
    else
      match st.current
      case None => None
      case Some(task) =>
        if |task.records| >= MAX_REQUESTS then None
        else
          match decode(line)
          case None => None
          case Some(record) => Some(st.(current := Some(task.(records := task.records + [record]))))
  }

  function Initial(): State {
    State([], {}, None, false)
  }

  function AfterLines(lines: seq<Bytes>, decode: Bytes -> Option<Record>): Option<State> {
    if lines == [] then Some(Initial())
    else
      match AfterLines(lines[..|lines| - 1], decode)
      case None => None
      case Some(st) => Next(st, lines[|lines| - 1], decode)
  }

  function Finish(st: State): Option<seq<SavedTask>> {
    match st.current
    case None => None
    case Some(task) => if st.seen then PushTask(st.tasks, task) else None
  }

  /** `TaskBlob::parse`; `None` is an invalid blob. */
  function Parsed(text: Bytes, decode: Bytes -> Option<Record>): Option<seq<SavedTask>> {
    if text == [] then Some([])
    else if |text| > MAX_BLOB then None
    else
      match AfterLines(Lines(text), decode)
      case None => None
      case Some(st) => Finish(st)
  }

  // ---------------------------------------------------------------------
  // What a blob says, independently of the parser: drop blank lines and
  // comments, and group request lines under the markers before them.

  datatype RawTask = RawTask(id: Bytes, lines: seq<Bytes>)

  /** The lines that matter; before the version line, a comment does too. */
  function Significant(lines: seq<Bytes>): seq<Bytes> {
    if lines == [] then []
    else
      var before, line := Significant(lines[..|lines| - 1]), ChopReturn(lines[|lines| - 1]);
      if line == [] || (before != [] && IsComment(line)) then before else before + [line]
  }

  /** The lines of a list of tasks. */
  function Printed(raw: seq<RawTask>): seq<Bytes> {
    if raw == [] then []
    else
      var n := |raw| - 1;
      Printed(raw[..n]) + [Marker() + raw[n].id] + raw[n].lines
  }

  predicate AreRequests(lines: seq<Bytes>) {
    forall i | 0 <= i < |lines| :: lines[i] != [] && !IsMarker(lines[i]) && lines[i] != Version()
  }

  predicate WellSplit(raw: seq<RawTask>) {
    forall i | 0 <= i < |raw| :: AreRequests(raw[i].lines)
  }

  predicate LoadableLines(lines: seq<Bytes>, decode: Bytes -> Option<Record>) {
    |lines| <= MAX_REQUESTS && forall i | 0 <= i < |lines| :: decode(lines[i]).Some?
  }

  /** The limits on the tasks, except on their number. */
  ghost predicate Loadable(raw: seq<RawTask>, decode: Bytes -> Option<Record>) {
    && (forall i | 0 <= i < |raw| :: ValidId(raw[i].id) && LoadableLines(raw[i].lines, decode))
    && (forall i, j | 0 <= i < j < |raw| :: raw[i].id != raw[j].id)
  }

  ghost predicate ShortLines(lines: seq<Bytes>) {
    forall i | 0 <= i < |lines| :: |ChopReturn(lines[i])| <= MAX_LINE
  }

  function Decoded(lines: seq<Bytes>, decode: Bytes -> Option<Record>): seq<Record>
    requires forall i | 0 <= i < |lines| :: decode(lines[i]).Some?
  {
    seq(|lines|, i requires 0 <= i < |lines| => decode(lines[i]).value)
  }

  ghost function Loaded(raw: seq<RawTask>, decode: Bytes -> Option<Record>): seq<SavedTask>
    requires Loadable(raw, decode)
  {
    seq(|raw|, i requires 0 <= i < |raw| => SavedTask(raw[i].id, Decoded(raw[i].lines, decode)))
  }

  ghost function Ids(raw: seq<RawTask>): set<Bytes> {
    set i | 0 <= i < |raw| :: raw[i].id
  }

  // ---------------------------------------------------------------------
  // The parser agrees with the reference.

  /** The parser's state after the version line and the lines of `raw`. */
  ghost function StateOf(raw: seq<RawTask>, decode: Bytes -> Option<Record>): State
    requires Loadable(raw, decode)
  {
    var n := |raw|;
    if n == 0 then State([], {}, None, true)
    else State(Loaded(raw, decode)[..n - 1], Ids(raw), Some(Loaded(raw, decode)[n - 1]), true)
  }

  /** What the parser's state says about the lines read so far. */
  ghost predicate Explains(lines: seq<Bytes>, st: State, raw: seq<RawTask>, decode: Bytes -> Option<Record>) {
    && ShortLines(lines) && WellSplit(raw) && Loadable(raw, decode) && |raw| <= MAX_TASKS + 1
    && (if st.seen then Significant(lines) == [Version()] + Printed(raw) && st == StateOf(raw, decode)
        else Significant(lines) == [] && raw == [] && st == Initial())
  }

  function WithTask(raw: seq<RawTask>, id: Bytes): seq<RawTask> {
    raw + [RawTask(id, [])]
  }

  function WithLine(raw: seq<RawTask>, line: Bytes): seq<RawTask>
    requires raw != []
  {
    var n := |raw| - 1;
    raw[..n] + [RawTask(raw[n].id, raw[n].lines + [line])]
  }

  lemma WithTaskIsPrinted(raw: seq<RawTask>, id: Bytes)
    ensures Printed(WithTask(raw, id)) == Printed(raw) + [Marker() + id]
  {
    assert WithTask(raw, id)[..|raw|] == raw;
  }

  lemma WithLineIsPrinted(raw: seq<RawTask>, line: Bytes)
    requires raw != []
    ensures Printed(WithLine(raw, line)) == Printed(raw) + [line]
  {
    var n := |raw| - 1;
    assert WithLine(raw, line)[..n] == raw[..n];
    Assoc(Printed(raw[..n]) + [Marker() + raw[n].id], raw[n].lines, [line]);
  }

  lemma WithTaskIsLoaded(raw: seq<RawTask>, id: Bytes, decode: Bytes -> Option<Record>)
    requires Loadable(raw, decode) && ValidId(id) && id !in Ids(raw)
    ensures Loadable(WithTask(raw, id), decode)
    ensures Loaded(WithTask(raw, id), decode) == Loaded(raw, decode) + [SavedTask(id, [])]
    ensures Ids(WithTask(raw, id)) == Ids(raw) + {id}
  {
    hide ValidId;
    var next := WithTask(raw, id);
    assert forall i | 0 <= i < |raw| :: next[i] == raw[i] && raw[i].id in Ids(raw);
    assert next[|raw|] == RawTask(id, []);
    assert Ids(next) == Ids(raw) + {id} by {
      forall x | x in Ids(raw) + {id} ensures x in Ids(next) {
        if x == id {
          assert next[|raw|].id == x;
        } else {
          var i :| 0 <= i < |raw| && raw[i].id == x;
          assert next[i].id == x;
        }
      }
    }
    assert Decoded([], decode) == [];
  }

  lemma WithLineIsLoaded(raw: seq<RawTask>, line: Bytes, decode: Bytes -> Option<Record>)
    requires raw != [] && Loadable(raw, decode)
    requires |raw[|raw| - 1].lines| < MAX_REQUESTS && decode(line).Some?
    ensures Loadable(WithLine(raw, line), decode) && Ids(WithLine(raw, line)) == Ids(raw)
    ensures var n, was := |raw| - 1, Loaded(raw, decode);
            Loaded(WithLine(raw, line), decode) ==
            was[..n] + [SavedTask(raw[n].id, was[n].records + [decode(line).value])]
  {
    hide ValidId;
    var n, next := |raw| - 1, WithLine(raw, line);
    assert forall i | 0 <= i < |raw| :: next[i].id == raw[i].id;
    assert forall i | 0 <= i < n :: next[i] == raw[i];
    assert Ids(next) == Ids(raw) by {
      assert forall x | x in Ids(raw) :: exists i | 0 <= i < |raw| :: raw[i].id == x;
      assert forall x | x in Ids(next) :: exists i | 0 <= i < |next| :: next[i].id == x;
    }
    assert Decoded(next[n].lines, decode) == Decoded(raw[n].lines, decode) + [decode(line).value];
  }

  lemma SignificantStep(lines: seq<Bytes>, line: Bytes)
    ensures Significant(lines + [line]) ==
            if ChopReturn(line) == [] || (Significant(lines) != [] && IsComment(ChopReturn(line)))
            then Significant(lines) else Significant(lines) + [ChopReturn(line)]
  {
    assert (lines + [line])[..|lines|] == lines;
  }

  lemma ShortLinesStep(lines: seq<Bytes>, line: Bytes)
    ensures ShortLines(lines + [line]) <==> ShortLines(lines) && |ChopReturn(line)| <= MAX_LINE
  {
    var all := lines + [line];
    assert all[|lines|] == line && forall i | 0 <= i < |lines| :: all[i] == lines[i];
  }

  /** The tasks after one more line. */
  function NextRaw(st: State, raw: seq<RawTask>, rawLine: Bytes): seq<RawTask> {
    var line := ChopReturn(rawLine);
    if line == [] || !st.seen || line == Version() then raw
    else if IsMarker(line) then WithTask(raw, line[7..])
    else if line[0] == HASH || raw == [] then raw
    else WithLine(raw, line)
  }

  lemma StillWellSplit(raw: seq<RawTask>, task: RawTask)
    requires WellSplit(raw) && AreRequests(task.lines)
    ensures WellSplit(raw + [task])
  {
    hide AreRequests;
    var all := raw + [task];
    assert all[|raw|] == task && forall i | 0 <= i < |raw| :: all[i] == raw[i];
  }

  lemma NoTasks()
    ensures Ids([]) == {} && Printed([]) == []
  {
  }

  lemma LastLoaded(raw: seq<RawTask>, decode: Bytes -> Option<Record>)
    requires raw != [] && Loadable(raw, decode)
    ensures var n := |raw| - 1;
            && |Loaded(raw, decode)| == |raw| && Loaded(raw, decode)[n].id == raw[n].id
            && |Loaded(raw, decode)[n].records| == |raw[n].lines|
  {
  }

  lemma StateIds(st: State, raw: seq<RawTask>, decode: Bytes -> Option<Record>)
    requires Loadable(raw, decode) && st == StateOf(raw, decode)
    ensures st.ids == Ids(raw) && |Loaded(raw, decode)| == |raw|
    ensures st.current.Some? <==> raw != []
    ensures raw != [] ==>
              && st.tasks + [st.current.value] == Loaded(raw, decode) && |st.tasks| == |raw| - 1
              && st.current.value.id == raw[|raw| - 1].id
              && |st.current.value.records| == |raw[|raw| - 1].lines|
  {
    hide Loadable, Ids;
    NoTasks();
    if raw != [] {
      LastLoaded(raw, decode);
    }
  }

  lemma AcceptedMarker(lines: seq<Bytes>, st: State, raw: seq<RawTask>, line: Bytes,
                       decode: Bytes -> Option<Record>)
    requires Explains(lines, st, raw, decode) && Next(st, line, decode).Some?
    requires st.seen && IsMarker(ChopReturn(line))
    ensures Explains(lines + [line], Next(st, line, decode).value, WithTask(raw, ChopReturn(line)[7..]), decode)
  {
    hide Version, Marker, Significant, Printed, ValidId, Loadable, Ids, ShortLines, Loaded, ChopReturn;
    MarkersDiffer();
    SignificantStep(lines, line);
    ShortLinesStep(lines, line);
    var cut := ChopReturn(line);
    StateIds(st, raw, decode);
    assert Marker() + cut[7..] == cut;
    WithTaskIsPrinted(raw, cut[7..]);
    WithTaskIsLoaded(raw, cut[7..], decode);
    Assoc([Version()], Printed(raw), [cut]);
    var next := WithTask(raw, cut[7..]);
    StillWellSplit(raw, RawTask(cut[7..], []));
    assert Loadable(next, decode) && WellSplit(next) && |next| <= MAX_TASKS + 1;
    assert Significant(lines + [line]) == [Version()] + Printed(next);
    assert Next(st, line, decode).value == StateOf(next, decode);
  }

  lemma AcceptedRequest(lines: seq<Bytes>, st: State, raw: seq<RawTask>, line: Bytes,
                        decode: Bytes -> Option<Record>)
    requires Explains(lines, st, raw, decode) && Next(st, line, decode).Some? && st.seen
    requires var cut := ChopReturn(line); cut != [] && cut != Version() && !IsMarker(cut) && cut[0] != HASH
    ensures raw != [] && Explains(lines + [line], Next(st, line, decode).value, WithLine(raw, ChopReturn(line)), decode)
  {
    hide Version, Marker, Significant, Printed, ValidId, Loadable, Ids, ShortLines, Loaded, ChopReturn;
    SignificantStep(lines, line);
    ShortLinesStep(lines, line);
    var cut := ChopReturn(line);
    StateIds(st, raw, decode);
    WithLineIsPrinted(raw, cut);
    WithLineIsLoaded(raw, cut, decode);
    Assoc([Version()], Printed(raw), [cut]);
  }

  /** A line the parser accepts keeps the reference reading in step with it. */
  lemma AcceptedLine(lines: seq<Bytes>, st: State, raw: seq<RawTask>, line: Bytes, decode: Bytes -> Option<Record>)
    requires Explains(lines, st, raw, decode) && Next(st, line, decode).Some?
    ensures Explains(lines + [line], Next(st, line, decode).value, NextRaw(st, raw, line), decode)
  {
    hide Version, Marker, Significant, Printed, ValidId, Loadable, Ids, ShortLines, Loaded, ChopReturn;
    var cut := ChopReturn(line);
    if st.seen && cut != [] && IsMarker(cut) {
      MarkersDiffer();
      AcceptedMarker(lines, st, raw, line, decode);
    } else if st.seen && cut != [] && cut[0] != HASH {
      MarkersDiffer();
      AcceptedRequest(lines, st, raw, line, decode);
    } else {
      SignificantStep(lines, line);
      ShortLinesStep(lines, line);
      NoTasks();
      assert [Version()] + [] == [] + [Version()] == [Version()];
    }
  }

  lemma PrintedSnoc(front: seq<RawTask>, task: RawTask)
    ensures Printed(front + [task]) == Printed(front) + [Marker() + task.id] + task.lines
  {
    assert (front + [task])[..|front|] == front;
  }

  lemma LastIsMarker(printed: seq<Bytes>, id: Bytes, before: seq<Bytes>, line: Bytes)
    requires printed + [Marker() + id] == before + [line]
    ensures IsMarker(line) && printed == before && line[7..] == id
  {
    MarkersDiffer();
    hide Marker;
    SnocInjective(printed, Marker() + id, before, line);
    assert (Marker() + id)[7..] == id;
  }

  lemma LastIsRequest(printed: seq<Bytes>, lines: seq<Bytes>, before: seq<Bytes>, line: Bytes)
    requires printed + lines == before + [line] && lines != []
    ensures printed + lines[..|lines| - 1] == before && lines == lines[..|lines| - 1] + [line]
  {
    var m := |lines| - 1;
    assert lines == lines[..m] + [lines[m]];
    Assoc(printed, lines[..m], [lines[m]]);
    SnocInjective(printed + lines[..m], lines[m], before, line);
  }

  lemma FewerRequests(lines: seq<Bytes>, line: Bytes)
    requires AreRequests(lines + [line])
    ensures AreRequests(lines) && line != [] && !IsMarker(line) && line != Version()
  {
    var all := lines + [line];
    assert all[|lines|] == line && forall i | 0 <= i < |lines| :: all[i] == lines[i];
  }

  /** A printed list of tasks, one line shorter. */
  lemma PrintedLast(raw: seq<RawTask>, before: seq<Bytes>, line: Bytes) returns (fewer: seq<RawTask>)
    requires Printed(raw) == before + [line] && WellSplit(raw)
    ensures WellSplit(fewer) && Printed(fewer) == before
    ensures if IsMarker(line) then raw == WithTask(fewer, line[7..])
            else fewer != [] && raw == WithLine(fewer, line) && line != [] && line != Version()
  {
    NoTasks();
    MarkersDiffer();
    hide Marker, Version, Printed, AreRequests;
    var n := |raw| - 1;
    var front, task := raw[..n], raw[n];
    assert raw == front + [task];
    PrintedSnoc(front, task);
    if task.lines == [] {
      fewer := front;
      assert Printed(front) + [Marker() + task.id] + [] == Printed(front) + [Marker() + task.id];
      LastIsMarker(Printed(front), task.id, before, line);
      assert task == RawTask(line[7..], []);
    } else {
      LastIsRequest(Printed(front) + [Marker() + task.id], task.lines, before, line);
      var shorter := RawTask(task.id, task.lines[..|task.lines| - 1]);
      fewer := front + [shorter];
      PrintedSnoc(front, shorter);
      FewerRequests(shorter.lines, line);
      assert task == RawTask(task.id, shorter.lines + [line]);
      assert fewer[..n] == front && fewer[n] == shorter;
    }
  }

  /** The limits hold of fewer tasks and lines too. */
  lemma FewerAreLoadable(raw: seq<RawTask>, fewer: seq<RawTask>, line: Bytes, decode: Bytes -> Option<Record>)
    requires Loadable(raw, decode)
    requires (IsMarker(line) && raw == WithTask(fewer, line[7..])) || (fewer != [] && raw == WithLine(fewer, line))
    ensures Loadable(fewer, decode) && |fewer| <= |raw|
    ensures IsMarker(line) && raw == WithTask(fewer, line[7..]) ==>
              ValidId(line[7..]) && line[7..] !in Ids(fewer) && |fewer| < |raw|
    ensures fewer != [] && raw == WithLine(fewer, line) ==>
              |fewer[|fewer| - 1].lines| < MAX_REQUESTS && decode(line).Some?
  {
    hide ValidId;
    forall i | 0 <= i < |fewer| ensures raw[i].id == fewer[i].id && LoadableLines(fewer[i].lines, decode) {
      if raw[i] != fewer[i] {
        assert forall k | 0 <= k < |fewer[i].lines| :: raw[i].lines[k] == fewer[i].lines[k];
      }
    }
    if IsMarker(line) && raw == WithTask(fewer, line[7..]) {
      assert raw[|fewer|] == RawTask(line[7..], []);
    } else {
      var n := |fewer| - 1;
      assert raw[n].lines[|fewer[n].lines|] == line;
    }
  }

  /** The text of `lines` says `raw`, within the limits. */
  ghost predicate Readable(lines: seq<Bytes>, raw: seq<RawTask>, decode: Bytes -> Option<Record>) {
    && ShortLines(lines) && Significant(lines) == [Version()] + Printed(raw)
    && WellSplit(raw) && Loadable(raw, decode) && |raw| <= MAX_TASKS + 1
  }

  lemma {:induction false} NothingYet(lines: seq<Bytes>, decode: Bytes -> Option<Record>)
    requires ShortLines(lines) && Significant(lines) == []
    ensures AfterLines(lines, decode) == Some(Initial())
  {
    hide ShortLines, Version, ChopReturn;
    if lines != [] {
      var n := |lines| - 1;
      assert lines == lines[..n] + [lines[n]];
      ShortLinesStep(lines[..n], lines[n]);
      SignificantStep(lines[..n], lines[n]);
      NothingYet(lines[..n], decode);
    }
  }

  /** The last line of `raw` takes the parser from the state of `fewer` to that of
      `raw`. */
  lemma LastLineIsRead(raw: seq<RawTask>, fewer: seq<RawTask>, line: Bytes, decode: Bytes -> Option<Record>)
    requires var cut := ChopReturn(line);
             && |cut| <= MAX_LINE && !IsComment(cut) && cut != Version()
             && (if IsMarker(cut) then raw == WithTask(fewer, cut[7..])
                 else fewer != [] && raw == WithLine(fewer, cut) && cut != [])
    requires Loadable(raw, decode) && |raw| <= MAX_TASKS + 1
    ensures Loadable(fewer, decode) && Next(StateOf(fewer, decode), line, decode) == Some(StateOf(raw, decode))
  {
    hide Version, Marker, ValidId, Loadable, Ids, Loaded, ChopReturn;
    MarkersDiffer();
    var cut := ChopReturn(line);
    FewerAreLoadable(raw, fewer, cut, decode);
    StateIds(StateOf(fewer, decode), fewer, decode);
    StateIds(StateOf(raw, decode), raw, decode);
    if IsMarker(cut) {
      WithTaskIsLoaded(fewer, cut[7..], decode);
    } else {
      WithLineIsLoaded(fewer, cut, decode);
    }
  }

  lemma {:induction false} ReadableIsRead(lines: seq<Bytes>, raw: seq<RawTask>, decode: Bytes -> Option<Record>)
    requires Readable(lines, raw, decode)
    ensures AfterLines(lines, decode) == Some(StateOf(raw, decode))
    decreases |lines|
  {
    hide ShortLines, Version, Marker, ChopReturn, Printed, Loadable, Significant, StateOf, Next, WellSplit;
    NothingSignificant();
    var n := |lines| - 1;
    var front, line := lines[..n], lines[n];
    var cut := ChopReturn(line);
    assert lines == front + [line];
    ShortLinesStep(front, line);
    SignificantStep(front, line);
    if cut == [] || (Significant(front) != [] && IsComment(cut)) {
      ReadableIsRead(front, raw, decode);
      QuietLine(raw, line, decode);
    } else if raw == [] {
      NoTasks();
      SnocInjective(Significant(front), cut, [], Version());
      NothingYet(front, decode);
      VersionLine(line, decode);
    } else {
      var before, fewer := LastOfPrinted(Significant(front), raw, cut);
      FewerAreLoadable(raw, fewer, cut, decode);
      ReadableIsRead(front, fewer, decode);
      LastLineIsRead(raw, fewer, line, decode);
    }
  }

  lemma NothingSignificant()
    ensures Significant([]) == []
  {
  }

  lemma QuietLine(raw: seq<RawTask>, line: Bytes, decode: Bytes -> Option<Record>)
    requires Loadable(raw, decode) && |ChopReturn(line)| <= MAX_LINE
    requires ChopReturn(line) == [] || IsComment(ChopReturn(line))
    ensures Next(StateOf(raw, decode), line, decode) == Some(StateOf(raw, decode))
  {
    hide Version, Marker, Loadable, Loaded, Ids;
  }

  lemma VersionLine(line: Bytes, decode: Bytes -> Option<Record>)
    requires ChopReturn(line) == Version()
    ensures Loadable([], decode) && Next(Initial(), line, decode) == Some(StateOf([], decode))
  {
  }

  lemma LastOfPrinted(front: seq<Bytes>, raw: seq<RawTask>, cut: Bytes)
    returns (before: seq<Bytes>, fewer: seq<RawTask>)
    requires front + [cut] == [Version()] + Printed(raw) && raw != [] && WellSplit(raw)
    ensures front == [Version()] + before && WellSplit(fewer) && Printed(fewer) == before
    ensures cut != Version()
    ensures if IsMarker(cut) then raw == WithTask(fewer, cut[7..])
            else fewer != [] && raw == WithLine(fewer, cut) && cut != []
  {
    MarkersDiffer();
    PrintedIsSome(raw);
    hide Version, Marker, Printed, WellSplit;
    var all := Printed(raw);
    before := all[..|all| - 1];
    assert all == before + [all[|all| - 1]];
    Assoc([Version()], before, [all[|all| - 1]]);
    SnocInjective(front, cut, [Version()] + before, all[|all| - 1]);
    fewer := PrintedLast(raw, before, cut);
  }

  lemma PrintedIsSome(raw: seq<RawTask>)
    requires raw != []
    ensures Printed(raw) != []
  {
  }

  lemma {:induction false} ReadIsExplained(lines: seq<Bytes>, decode: Bytes -> Option<Record>)
    returns (raw: seq<RawTask>)
    requires AfterLines(lines, decode).Some?
    ensures Explains(lines, AfterLines(lines, decode).value, raw, decode)
  {
    if lines == [] {
      raw := [];
    } else {
      hide Explains, Next;
      var n := |lines| - 1;
      assert lines == lines[..n] + [lines[n]];
      raw := ReadIsExplained(lines[..n], decode);
      var st := AfterLines(lines[..n], decode).value;
      AcceptedLine(lines[..n], st, raw, lines[n], decode);
      raw := NextRaw(st, raw, lines[n]);
    }
  }

  /** A printed list of tasks can be read in one way only. */
  lemma {:induction false} PrintedInjective(a: seq<RawTask>, b: seq<RawTask>)
    requires WellSplit(a) && WellSplit(b) && Printed(a) == Printed(b)
    ensures a == b
    decreases |Printed(a)|
  {
    NoTasks();
    if Printed(a) == [] {
      assert a == [] by {
        if a != [] {
          PrintedIsSome(a);
        }
      }
      if b != [] {
        PrintedIsSome(b);
      }
    } else {
      hide Printed, WellSplit, Marker;
      var n := |Printed(a)| - 1;
      var before, line := Printed(a)[..n], Printed(a)[n];
      assert Printed(a) == before + [line];
      var fewerA := PrintedLast(a, before, line);
      var fewerB := PrintedLast(b, before, line);
      PrintedInjective(fewerA, fewerB);
    }
  }

  lemma FinishedTasks(raw: seq<RawTask>, decode: Bytes -> Option<Record>)
    requires Loadable(raw, decode)
    ensures Finish(StateOf(raw, decode)) == if 0 < |raw| <= MAX_TASKS then Some(Loaded(raw, decode)) else None
  {
    hide Loadable, Ids;
    StateIds(StateOf(raw, decode), raw, decode);
  }

  /** Everything `parse` demands of a blob that says `raw`. */
  ghost predicate WithinLimits(text: Bytes, raw: seq<RawTask>, decode: Bytes -> Option<Record>) {
    |text| <= MAX_BLOB && ShortLines(Lines(text)) && Loadable(raw, decode) && 0 < |raw| <= MAX_TASKS
  }

  /** `parse` accepts a blob that lists tasks exactly when it is within the limits,
      and returns the tasks it lists: in order, under their markers, each request
      decoded. */
  lemma ParseExactly(text: Bytes, raw: seq<RawTask>, decode: Bytes -> Option<Record>)
    requires text != [] && Significant(Lines(text)) == [Version()] + Printed(raw) && WellSplit(raw)
    ensures Parsed(text, decode) == if WithinLimits(text, raw, decode) then Some(Loaded(raw, decode)) else None
  {
    hide ShortLines, Version, Printed, Loadable, Significant, WellSplit, Next, Loaded, Lines, Finish, AfterLines;
    if WithinLimits(text, raw, decode) {
      ReadableIsRead(Lines(text), raw, decode);
      FinishedTasks(raw, decode);
    } else if Parsed(text, decode).Some? {
      var other := ParsedBlob(text, decode);
      assert Printed(other) == Printed(raw) by {
        assert ([Version()] + Printed(other))[1..] == Printed(other);
        assert ([Version()] + Printed(raw))[1..] == Printed(raw);
      }
      PrintedInjective(raw, other);
    }
  }

  /** And every blob it accepts lists tasks. */
  lemma ParsedBlob(text: Bytes, decode: Bytes -> Option<Record>) returns (raw: seq<RawTask>)
    requires text != [] && Parsed(text, decode).Some?
    ensures Significant(Lines(text)) == [Version()] + Printed(raw) && WellSplit(raw)
    ensures WithinLimits(text, raw, decode) && Parsed(text, decode).value == Loaded(raw, decode)
  {
    hide ShortLines, Version, Printed, Loadable, Significant, WellSplit, Next, Loaded, Lines, AfterLines, StateOf;
    raw := ReadIsExplained(Lines(text), decode);
    FinishedTasks(raw, decode);
  }

  // ---------------------------------------------------------------------
  // Printing a blob and reading it back.

  function Terminated(lines: seq<Bytes>): Bytes {
    if lines == [] then [] else lines[0] + [NEWLINE] + Terminated(lines[1..])
  }

  predicate OneLine(line: Bytes) {
    NEWLINE !in line && RETURN !in line
  }

  lemma FirstTerminated(line: Bytes, rest: Bytes)
    requires OneLine(line)
    ensures Lines(line + [NEWLINE] + rest) == [line] + Lines(rest)
  {
    var text, n := line + [NEWLINE] + rest, |line|;
    assert text[n] == NEWLINE && forall k | 0 <= k < n :: text[k] == line[k];
    assert FindNewline(text) == Some(n);
    assert text[..n] == line && text[n + 1..] == rest;
    assert ChopReturn(line) == line;
  }

  lemma {:induction false} LinesOfTerminated(lines: seq<Bytes>)
    requires forall i | 0 <= i < |lines| :: OneLine(lines[i])
    ensures Lines(Terminated(lines)) == lines
  {
    if lines != [] {
      hide Lines;
      FirstTerminated(lines[0], Terminated(lines[1..]));
      LinesOfTerminated(lines[1..]);
    }
  }

  /** Lines that end in a newline, or in a return and a newline where `wide` says so. */
  function WithEndings(lines: seq<Bytes>, wide: seq<bool>): Bytes
    requires |lines| == |wide|
  {
    if lines == [] then []
    else
      lines[0] + (if wide[0] then [RETURN, NEWLINE] else [NEWLINE]) + WithEndings(lines[1..], wide[1..])
  }

  /** Either ending gives the same lines, and a last line needs none. */
  lemma {:induction false} LinesOfEnded(lines: seq<Bytes>, wide: seq<bool>, last: Bytes)
    requires |lines| == |wide| && forall i | 0 <= i < |lines| :: OneLine(lines[i])
    requires NEWLINE !in last
    ensures Lines(WithEndings(lines, wide) + last) == lines + if last == [] then [] else [last]
  {
    if lines == [] {
      assert WithEndings(lines, wide) + last == last;
    } else {
      var rest := WithEndings(lines[1..], wide[1..]) + last;
      LinesOfEnded(lines[1..], wide[1..], last);
      FirstEnded(lines[0], wide[0], rest);
      hide Lines;
      assert WithEndings(lines, wide) + last
          == lines[0] + (if wide[0] then [RETURN, NEWLINE] else [NEWLINE]) + rest;
    }
  }

  lemma FirstEnded(line: Bytes, back: bool, rest: Bytes)
    requires OneLine(line)
    ensures Lines(line + (if back then [RETURN, NEWLINE] else [NEWLINE]) + rest) == [line] + Lines(rest)
  {
    if !back {
      hide Lines;
      FirstTerminated(line, rest);
    } else {
      var text, n := line + [RETURN, NEWLINE] + rest, |line| + 1;
      assert text[n] == NEWLINE && forall k | 0 <= k < n :: text[k] == if k < |line| then line[k] else RETURN;
      assert FindNewline(text) == Some(n);
      assert text[..n] == line + [RETURN] && text[n + 1..] == rest;
    }
  }

  /** How a blob's lines end, and whether a return follows the last one, makes no
      difference to `parse`. */
  lemma EndingsDoNotMatter(lines: seq<Bytes>, wide: seq<bool>, last: Bytes, decode: Bytes -> Option<Record>)
    requires |lines| == |wide| && forall i | 0 <= i < |lines| :: OneLine(lines[i])
    requires OneLine(last) && last != []
    requires |WithEndings(lines, wide)| + |last| < MAX_BLOB
    ensures var text := Joined(lines + [last]);
            && Parsed(WithEndings(lines, wide) + last, decode) == Parsed(text, decode)
            && Parsed(WithEndings(lines, wide) + last + [RETURN], decode) == Parsed(text, decode)
  {
    var plain := seq(|lines|, _ => false);
    JoinedEnds(lines, plain, last);
    EndingsAreShort(lines, wide, plain);
    LinesOfEnded(lines, plain, last);
    LinesOfEnded(lines, wide, last);
    LinesOfEnded(lines, wide, last + [RETURN]);
    LastReturnIsDropped(lines, last, decode);
    hide *;
    var text, other := WithEndings(lines, plain) + last, WithEndings(lines, wide) + last;
    Assoc(WithEndings(lines, wide), last, [RETURN]);
    SameLines(other, text, decode);
    SameLines(other + [RETURN], text, decode);
  }

  lemma SameLines(a: Bytes, b: Bytes, decode: Bytes -> Option<Record>)
    requires a != [] && b != [] && |a| <= MAX_BLOB && |b| <= MAX_BLOB
    requires AfterLines(Lines(a), decode) == AfterLines(Lines(b), decode)
    ensures Parsed(a, decode) == Parsed(b, decode)
  {
    hide Lines, AfterLines, Finish;
  }

  lemma LastReturnIsDropped(lines: seq<Bytes>, last: Bytes, decode: Bytes -> Option<Record>)
    requires OneLine(last)
    ensures AfterLines(lines + [last + [RETURN]], decode) == AfterLines(lines + [last], decode)
  {
    hide Next;
    var a, b := lines + [last], lines + [last + [RETURN]];
    assert a[..|a| - 1] == lines == b[..|b| - 1];
    forall st ensures Next(st, last + [RETURN], decode) == Next(st, last, decode) {
      ReturnIsDropped(st, last, decode);
    }
  }

  lemma ReturnIsDropped(st: State, line: Bytes, decode: Bytes -> Option<Record>)
    requires OneLine(line)
    ensures Next(st, line + [RETURN], decode) == Next(st, line, decode)
  {
    assert ChopReturn(line + [RETURN]) == line == ChopReturn(line);
  }

  lemma {:induction false} JoinedEnds(lines: seq<Bytes>, plain: seq<bool>, last: Bytes)
    requires |lines| == |plain| && forall i | 0 <= i < |lines| :: !plain[i]
    ensures Joined(lines + [last]) == WithEndings(lines, plain) + last
  {
    if lines == [] {
      assert lines + [last] == [last];
      assert [] + last == last;
    } else {
      assert (lines + [last])[1..] == lines[1..] + [last];
      JoinedEnds(lines[1..], plain[1..], last);
      Assoc(lines[0] + [NEWLINE], WithEndings(lines[1..], plain[1..]), last);
    }
  }

  lemma {:induction false} EndingsAreShort(lines: seq<Bytes>, wide: seq<bool>, plain: seq<bool>)
    requires |lines| == |wide| == |plain| && forall i | 0 <= i < |lines| :: !plain[i]
    ensures |WithEndings(lines, plain)| <= |WithEndings(lines, wide)|
  {
    if lines != [] {
      EndingsAreShort(lines[1..], wide[1..], plain[1..]);
    }
  }

  lemma {:induction false} SignificantLines(lines: seq<Bytes>)
    requires forall i | 0 <= i < |lines| :: OneLine(lines[i]) && lines[i] != [] && !IsComment(lines[i])
    ensures Significant(lines) == lines
  {
    if lines != [] {
      hide Version, Marker;
      var n := |lines| - 1;
      SignificantLines(lines[..n]);
      assert ChopReturn(lines[n]) == lines[n];
      assert lines == lines[..n] + [lines[n]];
    }
  }

  function Joined(lines: seq<Bytes>): Bytes {
    if lines == [] then []
    else if |lines| == 1 then lines[0]
    else lines[0] + [NEWLINE] + Joined(lines[1..])
  }

  lemma {:induction false} JoinedIsTerminated(lines: seq<Bytes>)
    requires lines != []
    ensures Joined(lines) + [NEWLINE] == Terminated(lines)
  {
    if |lines| == 1 {
      assert Terminated(lines[1..]) == [];
    } else {
      JoinedIsTerminated(lines[1..]);
      Assoc(lines[0] + [NEWLINE], Joined(lines[1..]), [NEWLINE]);
    }
  }

  /** The blob `normalized_records` prints. */
  function CatalogBlob(id: Bytes, lines: seq<Bytes>): Bytes {
    Version() + [NEWLINE] + (Marker() + id + [NEWLINE] + (Joined(lines) + [NEWLINE]))
  }

  /** `TaskBlob::task`. */
  function FindTask(tasks: seq<SavedTask>, id: Bytes): Option<SavedTask> {
    if tasks == [] then None
    else if tasks[0].id == id then Some(tasks[0])
    else FindTask(tasks[1..], id)
  }

  /** `normalized_records`. */
  function NormalizedRecords(id: Bytes, lines: seq<Bytes>, decode: Bytes -> Option<Record>): Option<seq<Record>> {
    match Parsed(CatalogBlob(id, lines), decode)
    case None => None
    case Some(tasks) =>
      match FindTask(tasks, id)
      case None => None
      case Some(task) => Some(task.records)
  }

  /** A canonical request is a JSON object on one line. */
  predicate IsCanonical(line: Bytes) {
    OneLine(line) && line != [] && line[0] == 123
  }

  lemma LinesOfCatalog(id: Bytes, lines: seq<Bytes>)
    requires lines != [] && OneLine(id) && forall i | 0 <= i < |lines| :: OneLine(lines[i])
    ensures Lines(CatalogBlob(id, lines)) == [Version()] + ([Marker() + id] + lines)
  {
    MarkersDiffer();
    hide Version, Marker, Lines, Terminated, Joined;
    JoinedIsTerminated(lines);
    LinesOfTerminated(lines);
    FirstTerminated(Marker() + id, Terminated(lines));
    FirstTerminated(Version(), Marker() + id + [NEWLINE] + Terminated(lines));
  }

  lemma SignificantCatalog(id: Bytes, lines: seq<Bytes>)
    requires OneLine(id) && forall i | 0 <= i < |lines| :: IsCanonical(lines[i])
    ensures var all := [Version()] + ([Marker() + id] + lines); Significant(all) == all
  {
    MarkersDiffer();
    hide Version, Marker, Significant;
    var all := [Version()] + ([Marker() + id] + lines);
    forall i | 0 <= i < |all| ensures OneLine(all[i]) && all[i] != [] && !IsComment(all[i]) {
      assert i >= 2 ==> all[i] == lines[i - 2];
    }
    SignificantLines(all);
  }

  lemma CatalogIsPrinted(id: Bytes, lines: seq<Bytes>)
    requires forall i | 0 <= i < |lines| :: IsCanonical(lines[i])
    ensures Printed([RawTask(id, lines)]) == [Marker() + id] + lines && WellSplit([RawTask(id, lines)])
  {
    MarkersDiffer();
    hide Version, Marker, Printed;
    PrintedSnoc([], RawTask(id, lines));
    NoTasks();
    assert [] + [RawTask(id, lines)] == [RawTask(id, lines)];
    assert [] + [Marker() + id] + lines == [Marker() + id] + lines;
  }

  lemma {:induction false} FoundTask(tasks: seq<SavedTask>, id: Bytes)
    ensures FindTask(tasks, id).Some? ==> exists i | 0 <= i < |tasks| :: tasks[i].id == id
  {
    if tasks != [] && tasks[0].id != id {
      FoundTask(tasks[1..], id);
      if FindTask(tasks[1..], id).Some? {
        var i :| 0 <= i < |tasks[1..]| && tasks[1..][i].id == id;
        assert tasks[i + 1].id == id;
      }
    }
  }

  lemma SingleIsLoaded(id: Bytes, lines: seq<Bytes>, decode: Bytes -> Option<Record>)
    ensures Loadable([RawTask(id, lines)], decode) <==> ValidId(id) && LoadableLines(lines, decode)
    ensures Loadable([RawTask(id, lines)], decode) ==>
              Loaded([RawTask(id, lines)], decode) == [SavedTask(id, Decoded(lines, decode))]
  {
    hide ValidId, LoadableLines;
    assert [RawTask(id, lines)][0] == RawTask(id, lines);
  }

  lemma CatalogShortLines(id: Bytes, lines: seq<Bytes>)
    requires ValidId(id) && lines != [] && forall i | 0 <= i < |lines| :: IsCanonical(lines[i])
    ensures ShortLines([Version()] + ([Marker() + id] + lines)) <==>
            forall i | 0 <= i < |lines| :: |lines[i]| <= MAX_LINE
  {
    MarkersDiffer();
    hide Version, Marker;
    var all := [Version()] + ([Marker() + id] + lines);
    assert all[0] == Version() && all[1] == Marker() + id;
    assert forall i | 0 <= i < |lines| :: all[i + 2] == lines[i] && ChopReturn(lines[i]) == lines[i];
    assert forall i | 2 <= i < |all| :: all[i] == lines[i - 2];
  }

  /** Normalizing catalog requests, which prints a blob and parses it, decodes each
      of them in order, exactly when the id and the requests are within the limits.
      An id that would break the blob's lines is refused too. */
  lemma NormalizeExactly(id: Bytes, lines: seq<Bytes>, decode: Bytes -> Option<Record>)
    requires lines != [] && forall i | 0 <= i < |lines| :: IsCanonical(lines[i])
    ensures NormalizedRecords(id, lines, decode) ==
            if && ValidId(id) && LoadableLines(lines, decode) && |CatalogBlob(id, lines)| <= MAX_BLOB
               && (forall i | 0 <= i < |lines| :: |lines[i]| <= MAX_LINE)
            then Some(Decoded(lines, decode)) else None
  {
    MarkersDiffer();
    var text, raw := CatalogBlob(id, lines), [RawTask(id, lines)];
    assert text != [];
    if ValidId(id) {
      assert OneLine(id);
      LinesOfCatalog(id, lines);
      SignificantCatalog(id, lines);
      CatalogIsPrinted(id, lines);
      CatalogShortLines(id, lines);
      SingleIsLoaded(id, lines, decode);
      hide CatalogBlob, Version, Marker, Significant, Printed, Lines, WellSplit, Parsed, Loadable, Loaded, ValidId;
      ParseExactly(text, raw, decode);
    } else if Parsed(text, decode).Some? {
      hide CatalogBlob, Version, Marker, Significant, Printed, Lines, WellSplit, Parsed, ValidId;
      var other := ParsedBlob(text, decode);
      FoundTask(Parsed(text, decode).value, id);
    }
  }

  // ---------------------------------------------------------------------
  // The implementation.

  lemma {:induction false} NoRecovery(lines: seq<Bytes>, k: nat, decode: Bytes -> Option<Record>)
    requires k <= |lines| && AfterLines(lines[..k], decode).None?
    ensures AfterLines(lines, decode).None?
    decreases |lines| - k
  {
    hide Next;
    if k < |lines| {
      assert lines[..k + 1][..k] == lines[..k];
      NoRecovery(lines, k + 1, decode);
    } else {
      assert lines[..k] == lines;
    }
  }

  lemma AfterOneMore(lines: seq<Bytes>, i: nat, decode: Bytes -> Option<Record>)
    requires i < |lines| && AfterLines(lines[..i], decode).Some?
    ensures AfterLines(lines[..i + 1], decode) == Next(AfterLines(lines[..i], decode).value, lines[i], decode)
  {
    hide Next;
    assert lines[..i + 1][..i] == lines[..i];
  }

  /** `TaskBlob::parse`. */
  method Parse(text: Bytes, decode: Bytes -> Option<Record>) returns (r: Option<seq<SavedTask>>)
    ensures r == Parsed(text, decode)
  {
    if text == [] {
      return Some([]);
    }
    if |text| > MAX_BLOB {
      return None;
    }
    var lines := Lines(text);
    var tasks: seq<SavedTask> := [];
    var taskIds: set<Bytes> := {};
    var current: Option<SavedTask> := None;
    var versionSeen := false;
    for i := 0 to |lines|
      invariant current.None? ==> tasks == []
      invariant AfterLines(lines[..i], decode) == Some(State(tasks, taskIds, current, versionSeen))
    {
      hide Version, Marker, ValidId, Lines, ChopReturn, AfterLines, IsComment;
      MarkersDiffer();
      ghost var st := State(tasks, taskIds, current, versionSeen);
      AfterOneMore(lines, i, decode);
      if Next(st, lines[i], decode).None? {
        NoRecovery(lines, i + 1, decode);
      }
      var line := ChopReturn(lines[i]);
      if |line| > MAX_LINE {
        return None;
      }
      if line == [] {
        continue;
      }
      if !versionSeen {
        if line != Version() {
          return None;
        }
        versionSeen := true;
        continue;
      }
      if line == Version() {
        return None;
      }
      if IsMarker(line) {
        var id := line[7..];
        if !ValidId(id) || id in taskIds {
          return None;
        }
        taskIds := taskIds + {id};
        if current.Some? {
          if |tasks| >= MAX_TASKS {
            return None;
          }
          tasks := tasks + [current.value];
        }
        current := Some(SavedTask(id, []));
        continue;
      }
      if line[0] == HASH {
        continue;
      }
      if current.None? || |current.value.records| >= MAX_REQUESTS {
        return None;
      }
      var record := decode(line);
      if record.None? {
        return None;
      }
      current := Some(current.value.(records := current.value.records + [record.value]));
    }
    assert lines[..|lines|] == lines;
    if current.Some? {
      if |tasks| >= MAX_TASKS {
        return None;
      }
      tasks := tasks + [current.value];
    }
    if !versionSeen || tasks == [] {
      return None;
    }
    return Some(tasks);
  }
}
