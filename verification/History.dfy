/** The bounded per-channel history of an MCP client, addressed by absolute
    cursors, and the windowed search over it. Text is a sequence of UTF-16 code
    units. */
module History {
  import opened Common

  type Unit = u: int | 0 <= u < 0x1_0000
  type Units = seq<Unit>

  const MAX_HISTORY_UNITS: nat := 1_048_576
  const REPLACEMENT: Unit := 0xFFFD
  const MIN_OVERLAP: nat := 256
  const MAX_OVERLAP: nat := 4_096
  const MAX_EXPECT_UNITS: nat := 262_144

  // ---------------------------------------------------------------------
  // Lossy conversion of code units to text.

  predicate IsHigh(u: Unit) {
    0xD800 <= u <= 0xDBFF
  }

  predicate IsLow(u: Unit) {
    0xDC00 <= u <= 0xDFFF
  }

  /** `String::from_utf16_lossy`, with the result as code units again. */
  function Lossy(s: Units): Units {
    if s == [] then []
    else if IsHigh(s[0]) && |s| > 1 && IsLow(s[1]) then s[..2] + Lossy(s[2..])
    else [if IsHigh(s[0]) || IsLow(s[0]) then REPLACEMENT else s[0]] + Lossy(s[1..])
  }

  /** What lossy conversion makes of the unit at `i`: a surrogate survives
      exactly beside its partner. */
  function LossyUnit(s: Units, i: nat): Unit
    requires i < |s|
  {
    if IsHigh(s[i]) then if i + 1 < |s| && IsLow(s[i + 1]) then s[i] else REPLACEMENT
    else if IsLow(s[i]) then if i > 0 && IsHigh(s[i - 1]) then s[i] else REPLACEMENT
    else s[i]
  }

  lemma {:induction false} LossyPointwise(s: Units)
    ensures |Lossy(s)| == |s|
    ensures forall i | 0 <= i < |s| :: Lossy(s)[i] == LossyUnit(s, i)
    decreases |s|
  {
    if s != [] {
      var n := if IsHigh(s[0]) && |s| > 1 && IsLow(s[1]) then 2 else 1;
      var rest := s[n..];
      LossyPointwise(rest);
      forall i | n <= i < |s|
        ensures Lossy(s)[i] == LossyUnit(s, i)
      {
        assert Lossy(s)[i] == Lossy(rest)[i - n] == LossyUnit(rest, i - n);
        assert s[i] == rest[i - n] && (i + 1 < |s| ==> s[i + 1] == rest[i - n + 1]);
        assert i > n ==> s[i - 1] == rest[i - n - 1];
      }
    }
  }

  /** A search string: a Rust string, so well-formed UTF-16, that does not ask
      for U+FFFD itself. */
  predicate IsPattern(p: Units) {
    Lossy(p) == p && REPLACEMENT !in p
  }

  /** Searching the lossy text finds exactly the occurrences in the raw units,
      wherever the text was cut. */
  lemma OccurrencesSurviveLossy(s: Units, p: Units, i: nat)
    requires IsPattern(p)
    ensures OccursAt(Lossy(s), p, i) <==> OccursAt(s, p, i)
  {
    var t := Lossy(s);
    LossyPointwise(s);
    LossyPointwise(p);
    if OccursAt(s, p, i) {
      OccursPointwise(s, p, i);
      assert forall k | 0 <= k < |p| :: LossyUnit(s, i + k) == p[k] by {
        forall k | 0 <= k < |p| ensures LossyUnit(s, i + k) == p[k] {
          assert LossyUnit(p, k) == p[k] && s[i + k] == p[k];
          assert k + 1 < |p| ==> s[i + (k + 1)] == p[k + 1];
          assert k > 0 ==> s[i + (k - 1)] == p[k - 1];
        }
      }
      assert t[i..i + |p|] == p;
    }
    if OccursAt(t, p, i) {
      OccursPointwise(t, p, i);
      assert forall k | 0 <= k < |p| :: s[i + k] == p[k] by {
        forall k | 0 <= k < |p| ensures s[i + k] == p[k] {
          assert t[i + k] == LossyUnit(s, i + k) && p[k] in p;
        }
      }
      assert s[i..i + |p|] == p;
    }
  }

  lemma OccursInSlice(s: Units, p: Units, lo: nat, hi: nat, i: nat)
    requires lo <= hi <= |s|
    ensures OccursAt(s[lo..hi], p, i) <==> lo + i + |p| <= hi && OccursAt(s, p, lo + i)
  {
    if i + |p| <= hi - lo {
      var cut := s[lo..hi];
      assert forall k | i <= k < i + |p| :: cut[k] == s[lo + k];
      assert cut[i..i + |p|] == s[lo + i..lo + i + |p|];
    }
  }

  // ---------------------------------------------------------------------
  // The history as a view of one unbounded log.

  /** Everything ever received on a channel, and how much of it is gone. */
  datatype Log = Log(units: Units, earliest: nat) {
    predicate Valid() {
      earliest <= |units| <= earliest + MAX_HISTORY_UNITS
    }

    function Latest(): nat {
      |units|
    }

    function Appended(text: Units): Log {
      Log(units + text, Max(earliest, |units| + |text| - MAX_HISTORY_UNITS))
    }

    /** A new connection starts with an empty history at the checkpoint. */
    function Reconnected(): Log {
      Log(units, |units|)
    }
  }

  datatype Window = Window(cursor: nat, nextCursor: nat, earliest: nat, latest: nat,
                           truncated: bool, text: Units)

  datatype CursorError = Expired(earliest: nat, latest: nat) | Ahead(earliest: nat, latest: nat)

  function WindowOf(log: Log, cursor: nat, maxUnits: nat): Result<Window, CursorError>
    requires log.Valid()
  {
    if cursor < log.earliest then Err(Expired(log.earliest, log.Latest()))
    else if cursor > log.Latest() then Err(Ahead(log.earliest, log.Latest()))
    else
      var take := Min(log.Latest() - cursor, maxUnits);
      Ok(Window(cursor, cursor + take, log.earliest, log.Latest(), take < log.Latest() - cursor,
                Lossy(log.units[cursor..cursor + take])))
  }

  // ---------------------------------------------------------------------
  // Whole runs.

  datatype Op = Append(text: Units) | Reconnect | Read(maxUnits: nat)

  /** A reader that follows `next_cursor`: the texts it was given, one after the
      other, and the cursors its reads started at. */
  datatype Reader = Reader(log: Log, cursor: nat, got: Units, bounds: set<nat>, failed: bool)

  function Step(r: Reader, op: Op): Reader
    requires r.log.Valid()
  {
    match op
    case Append(text) => r.(log := r.log.Appended(text))
    case Reconnect => r.(log := r.log.Reconnected())
    case Read(maxUnits) =>
      match WindowOf(r.log, r.cursor, maxUnits)
      case Err(_) => r.(failed := true)
      case Ok(w) => r.(cursor := w.nextCursor, got := r.got + w.text, bounds := r.bounds + {r.cursor})
  }

  function Run(r: Reader, ops: seq<Op>): (r': Reader)
    requires r.log.Valid()
    ensures r'.log.Valid()
    decreases |ops|
  {
    if ops == [] then r else Run(Step(r, ops[0]), ops[1..])
  }

  /** A surrogate pair lies across position `b`. */
  predicate CutsPair(s: Units, b: nat) {
    0 < b < |s| && IsHigh(s[b - 1]) && IsLow(s[b])
  }

  /** What the reader is given for the unit at `j`, of what lies before `end`. */
  function UnitGiven(s: Units, bounds: set<nat>, end: nat, j: nat): Unit
    requires j < end <= |s|
  {
    if IsHigh(s[j]) && !(j + 1 < end && j + 1 !in bounds && CutsPair(s, j + 1)) then REPLACEMENT
    else if IsLow(s[j]) && !(j !in bounds && CutsPair(s, j)) then REPLACEMENT
    else s[j]
  }

  /** The reader has got the log from `start` up to its cursor. */
  ghost predicate HasRead(r: Reader, start: nat) {
    && start <= r.cursor <= r.log.Latest() && |r.got| == r.cursor - start
    && (forall b | b in r.bounds :: start <= b <= r.cursor)
    && (start < r.cursor ==> start in r.bounds)
    && forall j | start <= j < r.cursor :: r.got[j - start] == UnitGiven(r.log.units, r.bounds, r.cursor, j)
  }

  lemma AppendKeepsRead(r: Reader, start: nat, text: Units)
    requires HasRead(r, start)
    ensures HasRead(r.(log := r.log.Appended(text)), start)
  {
    var more := r.log.units + text;
    forall j | start <= j < r.cursor
      ensures UnitGiven(more, r.bounds, r.cursor, j) == UnitGiven(r.log.units, r.bounds, r.cursor, j)
    {
      assert more[j] == r.log.units[j] && (j + 1 < r.cursor ==> more[j + 1] == r.log.units[j + 1]);
    }
  }

  lemma WindowGives(r: Reader, start: nat, next: nat)
    requires HasRead(r, start) && r.cursor <= next <= r.log.Latest()
    ensures HasRead(r.(cursor := next, got := r.got + Lossy(r.log.units[r.cursor..next]),
                       bounds := r.bounds + {r.cursor}), start)
  {
    var u, c, bounds := r.log.units, r.cursor, r.bounds + {r.cursor};
    LossyPointwise(u[c..next]);
    hide Lossy, UnitGiven;
    var got := r.got + Lossy(u[c..next]);
    forall j | start <= j < next ensures got[j - start] == UnitGiven(u, bounds, next, j) {
      if j < c {
        assert got[j - start] == r.got[j - start] == UnitGiven(u, r.bounds, c, j);
        OldUnit(u, r.bounds, c, next, j);
      } else {
        assert got[j - start] == Lossy(u[c..next])[j - c];
        NewUnit(u, r.bounds, c, next, j);
      }
    }
  }

  lemma OldUnit(u: Units, bounds: set<nat>, c: nat, next: nat, j: nat)
    requires j < c <= next <= |u|
    ensures UnitGiven(u, bounds + {c}, next, j) == UnitGiven(u, bounds, c, j)
  {
  }

  lemma NewUnit(u: Units, bounds: set<nat>, c: nat, next: nat, j: nat)
    requires c <= j < next <= |u| && forall b | b in bounds :: b <= c
    ensures |Lossy(u[c..next])| == next - c
    ensures UnitGiven(u, bounds + {c}, next, j) == Lossy(u[c..next])[j - c]
  {
    var window := u[c..next];
    LossyPointwise(window);
    hide Lossy;
    assert Lossy(window)[j - c] == LossyUnit(window, j - c);
    assert window[j - c] == u[j] && (j + 1 < next ==> window[j - c + 1] == u[j + 1]);
    assert j > c ==> window[j - c - 1] == u[j - 1];
  }

  lemma StepKeepsRead(r: Reader, start: nat, op: Op)
    requires r.log.Valid() && HasRead(r, start)
    ensures Step(r, op).log.Valid() && HasRead(Step(r, op), start) && r.cursor <= Step(r, op).cursor
    ensures Step(r, op).failed && !r.failed ==> r.cursor < r.log.earliest
  {
    hide Lossy, UnitGiven;
    match op
    case Append(text) => AppendKeepsRead(r, start, text);
    case Reconnect =>
    case Read(maxUnits) =>
      if WindowOf(r.log, r.cursor, maxUnits).Ok? {
        WindowGives(r, start, WindowOf(r.log, r.cursor, maxUnits).value.nextCursor);
      }
  }

  lemma {:induction false} RunKeepsRead(r: Reader, start: nat, ops: seq<Op>)
    requires r.log.Valid() && HasRead(r, start)
    ensures HasRead(Run(r, ops), start) && r.cursor <= Run(r, ops).cursor
    ensures Run(r, ops).failed && !r.failed ==> r.cursor < Run(r, ops).log.earliest
    decreases |ops|
  {
    hide HasRead, Step;
    if ops != [] {
      StepKeepsRead(r, start, ops[0]);
      RunKeepsRead(Step(r, ops[0]), start, ops[1..]);
      StepGrows(r, ops[0]);
      EarliestGrows(Step(r, ops[0]), ops[1..]);
    }
  }

  lemma StepGrows(r: Reader, op: Op)
    requires r.log.Valid()
    ensures r.log.earliest <= Step(r, op).log.earliest && r.log.units <= Step(r, op).log.units
  {
    hide Lossy;
  }

  /** Following `next_cursor` across appends, evictions and reconnections gives the
      text of the log from the start cursor on, one unit for one, without gap or
      repeat: the texts together are the lossy text of that stretch if and only if
      no read ended inside a surrogate pair, and a pair cut by a read arrives as two
      U+FFFD. A read fails only on units that are gone. */
  lemma FollowedCursorYieldsLog(log: Log, start: nat, ops: seq<Op>)
    requires log.Valid() && start <= log.Latest()
    ensures var r := Run(Reader(log, start, [], {}, false), ops);
            && start <= r.cursor <= r.log.Latest() && |r.got| == r.cursor - start
            && (forall j | start <= j < r.cursor ::
                  r.got[j - start] == UnitGiven(r.log.units, r.bounds, r.cursor, j))
            && (r.got == Lossy(r.log.units[start..r.cursor]) <==>
                forall b | b in r.bounds && start < b < r.cursor :: !CutsPair(r.log.units, b))
            && (r.failed ==> start < r.log.earliest)
  {
    var first := Reader(log, start, [], {}, false);
    assert HasRead(first, start);
    hide Run, Lossy, UnitGiven, CutsPair;
    RunKeepsRead(first, start, ops);
    var r := Run(first, ops);
    if b :| b in r.bounds && start < b < r.cursor && CutsPair(r.log.units, b) {
      CutTextDiffers(r, start, b);
    } else {
      UncutTextIsWhole(r, start);
    }
  }

  lemma CutTextDiffers(r: Reader, start: nat, b: nat)
    requires HasRead(r, start) && b in r.bounds && start < b < r.cursor && CutsPair(r.log.units, b)
    ensures r.got != Lossy(r.log.units[start..r.cursor])
  {
    var u := r.log.units;
    var stretch := u[start..r.cursor];
    LossyPointwise(stretch);
    hide Lossy;
    assert r.got[b - 1 - start] == UnitGiven(u, r.bounds, r.cursor, b - 1) == REPLACEMENT;
    assert stretch[b - 1 - start] == u[b - 1] && stretch[b - start] == u[b];
    assert Lossy(stretch)[b - 1 - start] == u[b - 1];
  }

  lemma UncutTextIsWhole(r: Reader, start: nat)
    requires HasRead(r, start)
    requires forall b | b in r.bounds && start < b < r.cursor :: !CutsPair(r.log.units, b)
    ensures r.got == Lossy(r.log.units[start..r.cursor])
  {
    var u := r.log.units;
    var stretch := u[start..r.cursor];
    LossyPointwise(stretch);
    hide Lossy, UnitGiven, LossyUnit, CutsPair;
    forall i | 0 <= i < |stretch| ensures r.got[i] == Lossy(stretch)[i] {
      var j := start + i;
      assert r.got[j - start] == UnitGiven(u, r.bounds, r.cursor, j);
      assert Lossy(stretch)[i] == LossyUnit(stretch, i);
      UncutUnit(u, r.bounds, start, r.cursor, j);
    }
  }

  lemma UncutUnit(u: Units, bounds: set<nat>, start: nat, end: nat, j: nat)
    requires start <= j < end <= |u| && (start in bounds)
    requires forall b | b in bounds && start < b < end :: !CutsPair(u, b)
    ensures UnitGiven(u, bounds, end, j) == LossyUnit(u[start..end], j - start)
  {
    var stretch, i := u[start..end], j - start;
    assert stretch[i] == u[j] && (j + 1 < end ==> stretch[i + 1] == u[j + 1]);
    assert i > 0 ==> stretch[i - 1] == u[j - 1];
  }

  /** One character, read one unit at a time, arrives as two U+FFFD. */
  lemma PairIsLost()
    ensures var r := Run(Reader(Log([0xD83D, 0xDE00], 0), 0, [], {}, false), [Read(1), Read(1)]);
            && r.got == [REPLACEMENT, REPLACEMENT] && r.cursor == 2
            && Lossy(r.log.units) == r.log.units
  {
    var log := Log([0xD83D, 0xDE00], 0);
    var r := Reader(log, 0, [], {}, false);
    var one := Step(r, Read(1));
    assert log.units[0..1] == [0xD83D] && log.units[1..2] == [0xDE00];
    assert one == Reader(log, 1, [REPLACEMENT], {0}, false);
    var two := Step(one, Read(1));
    assert two.got == [REPLACEMENT, REPLACEMENT] && two.cursor == 2;
    assert [Read(1), Read(1)][1..] == [Read(1)] && [Read(1)][1..] == [];
    assert Run(one, [Read(1)]) == Run(two, []);
  }

  lemma {:induction false} EarliestGrows(r: Reader, ops: seq<Op>)
    requires r.log.Valid()
    ensures r.log.earliest <= Run(r, ops).log.earliest
    ensures r.log.units <= Run(r, ops).log.units
    decreases |ops|
  {
    if ops != [] {
      EarliestGrows(Step(r, ops[0]), ops[1..]);
    }
  }

  /** An append adds its text at the end and evicts only what does not fit: if
      anything goes, the history is full. */
  lemma AppendKeepsWhatFits(log: Log, text: Units)
    requires log.Valid()
    ensures var next := log.Appended(text);
            && next.units == log.units + text && next.Latest() == log.Latest() + |text|
            && log.earliest <= next.earliest <= next.Latest()
            && (next.earliest > log.earliest ==> next.Latest() - next.earliest == MAX_HISTORY_UNITS)
            && (next.earliest == log.earliest <==> next.Latest() - log.earliest <= MAX_HISTORY_UNITS)
  {
    assert |log.units + text| == |log.units| + |text|;
  }

  lemma StepRetains(r: Reader, op: Op, cursor: nat)
    requires r.log.Valid() && !op.Reconnect?
    requires r.log.earliest <= cursor || r.log.Latest() > cursor + MAX_HISTORY_UNITS
    ensures var next := Step(r, op).log;
            && next.Valid() && r.log.Latest() <= next.Latest()
            && (next.earliest <= cursor || next.Latest() > cursor + MAX_HISTORY_UNITS)
  {
    hide Lossy;
    if op.Append? {
      AppendKeepsWhatFits(r.log, op.text);
    }
  }

  lemma {:induction false} RunRetains(r: Reader, ops: seq<Op>, cursor: nat)
    requires r.log.Valid() && forall i | 0 <= i < |ops| :: !ops[i].Reconnect?
    requires r.log.earliest <= cursor || r.log.Latest() > cursor + MAX_HISTORY_UNITS
    ensures var log := Run(r, ops).log;
            log.earliest <= cursor || log.Latest() > cursor + MAX_HISTORY_UNITS
    decreases |ops|
  {
    hide Step;
    if ops != [] {
      StepRetains(r, ops[0], cursor);
      assert forall i | 0 <= i < |ops[1..]| :: ops[1..][i] == ops[i + 1];
      RunRetains(Step(r, ops[0]), ops[1..], cursor);
    }
  }

  /** Without a reconnection a retained cursor stays retained exactly as long as no more
      than 1,048,576 units lie behind it. */
  lemma CursorExpiresExactly(r: Reader, ops: seq<Op>, cursor: nat)
    requires r.log.Valid() && r.log.earliest <= cursor <= r.log.Latest()
    requires forall i | 0 <= i < |ops| :: !ops[i].Reconnect?
    ensures var log := Run(r, ops).log;
            && (log.earliest <= cursor <==> log.Latest() - cursor <= 1_048_576)
            && cursor <= log.Latest()
  {
    RunRetains(r, ops, cursor);
    EarliestGrows(r, ops);
  }

  /** A reconnection keeps the end of the log and nothing else. */
  lemma ReconnectKeepsEnd(log: Log, cursor: nat, maxUnits: nat)
    requires log.Valid()
    ensures var next := log.Reconnected();
            && next.units == log.units
            && (WindowOf(next, cursor, maxUnits).Ok? <==> cursor == log.Latest())
            && (cursor < log.Latest() ==> WindowOf(next, cursor, maxUnits) == Err(Expired(log.Latest(), log.Latest())))
  {
    hide Lossy;
  }

  /** A cursor that is retained at two times names the same unit both times,
      whatever happened in between. */
  lemma CursorNamesOneUnit(r: Reader, ops: seq<Op>, cursor: nat)
    requires r.log.Valid() && r.log.earliest <= cursor < r.log.Latest()
    requires Run(r, ops).log.earliest <= cursor
    ensures cursor < Run(r, ops).log.Latest()
    ensures WindowOf(Run(r, ops).log, cursor, 1).Ok?
    ensures Run(r, ops).log.units[cursor] == r.log.units[cursor]
    ensures WindowOf(Run(r, ops).log, cursor, 1).value.text == WindowOf(r.log, cursor, 1).value.text
  {
    EarliestGrows(r, ops);
    var before, after := r.log.units, Run(r, ops).log.units;
    assert after[cursor..cursor + 1] == [after[cursor]] == [before[cursor]] == before[cursor..cursor + 1];
  }

  // ---------------------------------------------------------------------
  // The search step.

  function Overlap(p: Units): nat {
    Max(MIN_OVERLAP, Min(|p|, MAX_OVERLAP))
  }

  /** Where the search continues after a truncated window without a match. */
  function NextSearch(cursor: nat, next: nat, p: Units): nat {
    Max(SatSub(next, Overlap(p)), cursor + 1)
  }

  /** An occurrence at `at` would lie in the units before `end`. */
  predicate Examined(p: Units, at: nat, end: nat) {
    at + |p| <= end
  }

  /** The patterns the windowed search cannot pass over. */
  predicate Fits(p: Units, maxUnits: nat) {
    |p| <= maxUnits && |p| <= MAX_OVERLAP + 1
  }

  /** A truncated window examines every start it leaves behind exactly when the
      pattern fits the window and is at most one unit longer than the largest
      overlap. */
  lemma StepSkipsNothing(p: Units, cursor: nat, end: nat, maxUnits: nat)
    requires end == cursor + maxUnits
    ensures (forall q | cursor <= q < NextSearch(cursor, end, p) :: Examined(p, q, end))
       <==> |p| <= maxUnits && |p| <= 4_097
  {
    var last := NextSearch(cursor, end, p) - 1;
    assert cursor <= last;
    if !Fits(p, maxUnits) {
      assert !Examined(p, last, end);
    }
  }

  /** Nothing found in a window, so nothing in the log where the window looked. */
  lemma WindowWithoutMatch(log: Log, cursor: nat, maxUnits: nat, p: Units)
    requires log.Valid() && IsPattern(p) && WindowOf(log, cursor, maxUnits).Ok?
    requires Find(WindowOf(log, cursor, maxUnits).value.text, p).None?
    ensures var next := WindowOf(log, cursor, maxUnits).value.nextCursor;
            forall q | cursor <= q && Examined(p, q, next) :: !OccursAt(log.units, p, q)
  {
    hide Lossy, LossyUnit, IsPattern, OccursAt;
    var w := WindowOf(log, cursor, maxUnits).value;
    forall q | cursor <= q && Examined(p, q, w.nextCursor)
      ensures !OccursAt(log.units, p, q)
    {
      OccursInSlice(log.units, p, cursor, w.nextCursor, q - cursor);
      OccurrencesSurviveLossy(log.units[cursor..w.nextCursor], p, q - cursor);
      assert !OccursAt(w.text, p, q - cursor);
    }
  }

  lemma WindowWithMatch(log: Log, cursor: nat, maxUnits: nat, p: Units)
    requires log.Valid() && IsPattern(p) && WindowOf(log, cursor, maxUnits).Ok?
    requires Find(WindowOf(log, cursor, maxUnits).value.text, p).Some?
    ensures var at := cursor + Find(WindowOf(log, cursor, maxUnits).value.text, p).value;
            && OccursAt(log.units, p, at) && at + |p| <= log.Latest()
            && forall q | cursor <= q < at :: !OccursAt(log.units, p, q)
  {
    WindowFacts(log, cursor, maxUnits, p);
    var w := WindowOf(log, cursor, maxUnits).value;
    var slice, found := log.units[cursor..w.nextCursor], Find(w.text, p).value;
    hide Lossy, IsPattern, OccursAt, WindowOf;
    forall i: nat
      ensures OccursAt(w.text, p, i) <==> cursor + i + |p| <= w.nextCursor && OccursAt(log.units, p, cursor + i)
    {
      OccursInSlice(log.units, p, cursor, w.nextCursor, i);
      OccurrencesSurviveLossy(slice, p, i);
    }
    assert OccursAt(w.text, p, found);
    forall q | cursor <= q < cursor + found
      ensures !OccursAt(log.units, p, q)
    {
      assert !OccursAt(w.text, p, q - cursor);
    }
  }

  /** A cursor is served exactly from the earliest retained unit to the end of the
      log; a window is as long as it can be, says so when it stops short of the end, and
      names the retained range. */
  lemma WindowFacts(log: Log, cursor: nat, maxUnits: nat, p: Units)
    requires log.Valid()
    ensures WindowOf(log, cursor, maxUnits).Ok? <==> log.earliest <= cursor <= log.Latest()
    ensures match WindowOf(log, cursor, maxUnits)
            case Err(Expired(e, l)) => cursor < e == log.earliest && l == log.Latest()
            case Err(Ahead(e, l)) => e == log.earliest && l == log.Latest() < cursor
            case Ok(w) =>
              && w.cursor == cursor && w.earliest == log.earliest && w.latest == log.Latest()
              && cursor <= w.nextCursor == Min(log.Latest(), cursor + maxUnits)
              && w.text == Lossy(log.units[cursor..w.nextCursor]) && |w.text| == w.nextCursor - cursor
              && (!w.truncated ==> w.nextCursor == log.Latest())
              && (w.truncated ==> w.nextCursor == cursor + maxUnits < log.Latest())
              && (w.truncated ==> cursor < NextSearch(cursor, w.nextCursor, p) <= log.Latest())
  {
    if WindowOf(log, cursor, maxUnits).Ok? {
      LossyPointwise(log.units[cursor..WindowOf(log, cursor, maxUnits).value.nextCursor]);
    }
    hide Lossy;
  }

  /** The starts passed over so far hold no occurrence, now or later. */
  ghost predicate NonePassed(log: Units, p: Units, start: nat, search: nat) {
    && (start < search ==> search - 1 + |p| <= |log|)
    && forall q | start <= q < search :: !OccursAt(log, p, q)
  }

  lemma NonePassedGrows(log: Log, p: Units, start: nat, search: nat, maxUnits: nat)
    requires log.Valid() && IsPattern(p) && NonePassed(log.units, p, start, search) && start <= search
    requires Fits(p, maxUnits)
    requires WindowOf(log, search, maxUnits).Ok?
    requires Find(WindowOf(log, search, maxUnits).value.text, p).None?
    ensures var w := WindowOf(log, search, maxUnits).value;
            && (w.truncated ==> NonePassed(log.units, p, start, NextSearch(search, w.nextCursor, p)))
            && (!w.truncated ==> forall q | start <= q :: !OccursAt(log.units, p, q))
  {
    hide Lossy, IsPattern, Find, NextSearch;
    var w := WindowOf(log, search, maxUnits).value;
    WindowFacts(log, search, maxUnits, p);
    WindowWithoutMatch(log, search, maxUnits, p);
    if w.truncated {
      StepSkipsNothing(p, search, w.nextCursor, maxUnits);
      assert Examined(p, NextSearch(search, w.nextCursor, p) - 1, w.nextCursor);
    } else {
      forall q | search <= q ensures !OccursAt(log.units, p, q) {
        assert Examined(p, q, w.nextCursor) <==> q + |p| <= |log.units|;
      }
    }
  }

  /** The window a match was found in, with the place of the match in it and in the
      log. */
  datatype Match = Match(startedCursor: nat, cursor: nat, text: Units, matchIndex: nat, matchCursor: nat,
                         nextCursor: nat)

  datatype ExpectError = Cursor(error: CursorError) | Timeout

  /** What `expect` owes its caller. For a pattern the search cannot pass over,
      a reported match is the leftmost one at or after the start cursor and a
      timeout means there is none; an expired cursor means that the unit at the
      start cursor is gone. */
  ghost predicate IsAnswer(log: Log, start: nat, p: Units, maxUnits: nat, r: Result<Match, ExpectError>) {
    match r
    case Ok(m) =>
      && m.startedCursor == start <= m.cursor <= m.matchCursor == m.cursor + m.matchIndex
      && m.matchCursor <= log.Latest()
      && m.text == Lossy(log.units[m.cursor..Min(log.Latest(), m.cursor + maxUnits)])
      && OccursAt(m.text, p, m.matchIndex)
      && m.nextCursor == m.matchCursor + |p|
      && OccursAt(log.units, p, m.matchCursor)
      && (Fits(p, maxUnits) ==> forall q | start <= q < m.matchCursor :: !OccursAt(log.units, p, q))
    case Err(Timeout) => Fits(p, maxUnits) ==> forall q | start <= q :: !OccursAt(log.units, p, q)
    case Err(Cursor(Expired(e, l))) => start < e == log.earliest && l == log.Latest()
    case Err(Cursor(Ahead(e, l))) => l == log.Latest() < start
  }

  /** The loop invariant of `expect`. */
  ghost predicate Searching(log: Log, start: nat, search: nat, p: Units, maxUnits: nat) {
    && start <= search <= Max(start, log.Latest())
    && (Fits(p, maxUnits) ==> NonePassed(log.units, p, start, search))
  }

  lemma SearchingSurvivesArrivals(log: Log, arrives: Units, start: nat, search: nat, p: Units, maxUnits: nat)
    requires Searching(log, start, search, p, maxUnits)
    ensures Searching(log.Appended(arrives), start, search, p, maxUnits)
  {
    var more := log.units + arrives;
    forall q | start <= q < search && q + |p| <= |log.units|
      ensures OccursAt(more, p, q) <==> OccursAt(log.units, p, q)
    {
      assert more[q..q + |p|] == log.units[q..q + |p|];
    }
  }

  /** One look at the history either settles the answer or, in a truncated
      window, moves the search closer to the end of the log. */
  ghost predicate Decided(log: Log, start: nat, search: nat, p: Units, maxUnits: nat)
    requires log.Valid()
  {
    var collected := WindowOf(log, search, maxUnits);
    if collected.Err? then IsAnswer(log, start, p, maxUnits, Err(Cursor(collected.error)))
    else
      var w := collected.value;
      var found := Find(w.text, p);
      if found.Some? then
        var at := search + found.value;
        IsAnswer(log, start, p, maxUnits, Ok(Match(start, search, w.text, found.value, at, at + |p|)))
      else if w.truncated then
        var next := NextSearch(search, w.nextCursor, p);
        search < next <= log.Latest() && Searching(log, start, next, p, maxUnits)
      else IsAnswer(log, start, p, maxUnits, Err(Timeout))
  }

  lemma LookDecides(log: Log, start: nat, search: nat, p: Units, maxUnits: nat)
    requires log.Valid() && IsPattern(p) && Searching(log, start, search, p, maxUnits)
    ensures Decided(log, start, search, p, maxUnits)
  {
    hide Lossy, IsPattern, Find, NextSearch, WindowOf, OccursAt, NonePassed;
    WindowFacts(log, search, maxUnits, p);
    UnfoldNonePassed(log.units, p, start, search);
    if WindowOf(log, search, maxUnits).Ok? {
      if Find(WindowOf(log, search, maxUnits).value.text, p).Some? {
        WindowWithMatch(log, search, maxUnits, p);
      } else if Fits(p, maxUnits) {
        NonePassedGrows(log, p, start, search, maxUnits);
      }
    }
  }

  lemma UnfoldNonePassed(log: Units, p: Units, start: nat, search: nat)
    ensures NonePassed(log, p, start, search) ==> forall q | start <= q < search :: !OccursAt(log, p, q)
  {
  }

  // ---------------------------------------------------------------------
  // The search of a fixed history, and the patterns it finds.

  /** `expect` when nothing arrives any more. */
  function Searched(log: Log, start: nat, search: nat, p: Units, maxUnits: nat): Result<Match, ExpectError>
    requires log.Valid()
    decreases SatSub(log.Latest(), search)
  {
    match WindowOf(log, search, maxUnits)
    case Err(e) => Err(Cursor(e))
    case Ok(w) =>
      match Find(w.text, p)
      case Some(offset) => Ok(Match(start, search, w.text, offset, search + offset, search + offset + |p|))
      case None =>
        if w.truncated then Searched(log, start, NextSearch(search, w.nextCursor, p), p, maxUnits)
        else Err(Timeout)
  }

  /** The answer names the leftmost occurrence from `start` on, or says that there is
      none. */
  ghost predicate IsLeftmost(log: Log, start: nat, p: Units, r: Result<Match, ExpectError>) {
    match r
    case Ok(m) =>
      && start <= m.matchCursor && OccursAt(log.units, p, m.matchCursor)
      && forall q | start <= q < m.matchCursor :: !OccursAt(log.units, p, q)
    case Err(e) => e == Timeout && forall q | start <= q :: !OccursAt(log.units, p, q)
  }

  lemma {:induction false} SearchAnswers(log: Log, start: nat, search: nat, p: Units, maxUnits: nat)
    requires log.Valid() && IsPattern(p) && Searching(log, start, search, p, maxUnits)
    ensures IsAnswer(log, start, p, maxUnits, Searched(log, start, search, p, maxUnits))
    decreases SatSub(log.Latest(), search)
  {
    hide WindowOf, Find, IsPattern, IsAnswer, NextSearch, Searching;
    LookDecides(log, start, search, p, maxUnits);
    if WindowOf(log, search, maxUnits).Ok? {
      var w := WindowOf(log, search, maxUnits).value;
      if Find(w.text, p).None? && w.truncated {
        SearchAnswers(log, start, NextSearch(search, w.nextCursor, p), p, maxUnits);
      }
    }
  }

  lemma FindsLeftmost(log: Log, start: nat, p: Units, maxUnits: nat)
    requires log.Valid() && log.earliest <= start <= log.Latest() && IsPattern(p)
    requires Fits(p, maxUnits) || |p| > MAX_HISTORY_UNITS
    ensures IsLeftmost(log, start, p, Searched(log, start, start, p, maxUnits))
  {
    hide IsPattern, Searched;
    SearchAnswers(log, start, start, p, maxUnits);
  }

  /** A window, or a rest of the log, that is shorter than the pattern. */
  lemma {:induction false} TooShortToMatch(log: Log, start: nat, search: nat, p: Units, maxUnits: nat)
    requires log.Valid() && log.earliest <= search <= log.Latest()
    requires maxUnits < |p| || log.Latest() - search < |p|
    ensures Searched(log, start, search, p, maxUnits) == Err(Timeout)
    decreases log.Latest() - search
  {
    hide Lossy, NextSearch;
    var w := WindowOf(log, search, maxUnits).value;
    LossyPointwise(log.units[search..w.nextCursor]);
    assert Find(w.text, p).None?;
    if w.truncated {
      WindowFacts(log, search, maxUnits, p);
      TooShortToMatch(log, start, NextSearch(search, w.nextCursor, p), p, maxUnits);
    }
  }

  function Padding(p: Units): Unit
    requires p != []
  {
    if p[0] == 97 then 98 else 97
  }

  /** A text in which the search passes over the pattern: the pattern's first 4,097
      units end the first window. */
  function PassedOver(p: Units, maxUnits: nat): (s: Units)
    requires MAX_OVERLAP + 1 < |p| <= maxUnits
    ensures |s| == maxUnits - MAX_OVERLAP - 1 + |p|
  {
    seq(maxUnits - MAX_OVERLAP - 1, _ => Padding(p)) + p
  }

  lemma PassedOverIsText(p: Units, maxUnits: nat)
    requires MAX_OVERLAP + 1 < |p| <= maxUnits && IsPattern(p)
    ensures Lossy(PassedOver(p, maxUnits)) == PassedOver(p, maxUnits)
  {
    var s, at := PassedOver(p, maxUnits), maxUnits - MAX_OVERLAP - 1;
    LossyPointwise(s);
    LossyPointwise(p);
    hide Lossy;
    assert forall k | 0 <= k < |p| :: s[at + k] == p[k];
    forall i | 0 <= i < |s| ensures Lossy(s)[i] == s[i] {
      assert Lossy(s)[i] == LossyUnit(s, i);
      if i >= at {
        assert LossyUnit(p, i - at) == Lossy(p)[i - at] == p[i - at] && p[i - at] in p;
        assert i + 1 < |s| ==> s[i + 1] == p[i - at + 1];
        assert i > at ==> s[i - 1] == p[i - at - 1];
      }
    }
  }

  lemma PaddingMisses(p: Units, maxUnits: nat, q: nat)
    requires MAX_OVERLAP + 1 < |p| <= maxUnits
    ensures !OccursAt(PassedOver(p, maxUnits)[..maxUnits], p, q)
  {
    var window := PassedOver(p, maxUnits)[..maxUnits];
    if q + |p| <= |window| {
      var slice := window[q..q + |p|];
      assert slice[0] == window[q] == Padding(p) != p[0];
    }
  }

  /** The first window of that text holds no occurrence. */
  lemma FirstWindowMisses(p: Units, maxUnits: nat)
    requires MAX_OVERLAP + 1 < |p| <= maxUnits && IsPattern(p)
    ensures Find(Lossy(PassedOver(p, maxUnits)[..maxUnits]), p).None?
  {
    hide Lossy, IsPattern, PassedOver, OccursAt;
    var window := PassedOver(p, maxUnits)[..maxUnits];
    forall q: nat ensures !OccursAt(Lossy(window), p, q) {
      OccurrencesSurviveLossy(window, p, q);
      PaddingMisses(p, maxUnits, q);
    }
  }

  /** For every pattern that is no longer than a history but does not fit the search
      there is a text that holds it and a search of that text that ends in a
      timeout. */
  lemma PatternIsMissed(p: Units, maxUnits: nat) returns (log: Log, at: nat)
    requires IsPattern(p) && p != [] && 1 <= maxUnits <= MAX_EXPECT_UNITS
    requires !Fits(p, maxUnits) && |p| <= MAX_HISTORY_UNITS
    ensures log.Valid() && log.earliest == 0 && Lossy(log.units) == log.units
    ensures OccursAt(log.units, p, at)
    ensures Searched(log, 0, 0, p, maxUnits) == Err(Timeout)
  {
    if |p| > maxUnits {
      log, at := Log(p, 0), 0;
      TooShortToMatch(log, 0, 0, p, maxUnits);
    } else {
      var s := PassedOver(p, maxUnits);
      log, at := Log(s, 0), maxUnits - MAX_OVERLAP - 1;
      assert s[at..at + |p|] == p;
      PassedOverIsText(p, maxUnits);
      FirstWindowMisses(p, maxUnits);
      hide Lossy, IsPattern, Find, PassedOver;
      assert s[0..maxUnits] == s[..maxUnits];
      var w := WindowOf(log, 0, maxUnits).value;
      assert w.truncated && NextSearch(0, w.nextCursor, p) == at + 1;
      TooShortToMatch(log, 0, at + 1, p, maxUnits);
    }
  }

  /** With the window sizes `expect` is called with, its search of a fixed history is
      right for every history and every retained start exactly for the patterns of at
      most 4,097 units that fit the window, and for those no history can hold. */
  lemma SearchFindsExactly(p: Units, maxUnits: nat)
    requires IsPattern(p) && p != [] && 1 <= maxUnits <= 262_144
    ensures (forall log: Log, start: nat | log.Valid() && log.earliest <= start <= log.Latest() ::
               IsLeftmost(log, start, p, Searched(log, start, start, p, maxUnits)))
       <==> (|p| <= maxUnits && |p| <= 4_097) || |p| > 1_048_576
  {
    hide IsPattern, Searched;
    if Fits(p, maxUnits) || |p| > MAX_HISTORY_UNITS {
      forall log: Log, start: nat | log.Valid() && log.earliest <= start <= log.Latest()
        ensures IsLeftmost(log, start, p, Searched(log, start, start, p, maxUnits))
      {
        FindsLeftmost(log, start, p, maxUnits);
      }
    } else {
      var log, at := PatternIsMissed(p, maxUnits);
      assert !IsLeftmost(log, 0, p, Searched(log, 0, 0, p, maxUnits));
    }
  }

  // ---------------------------------------------------------------------
  // The object.

  /** What happens between two looks at the history: some text may arrive, and
      the deadline may pass. */
  datatype Poll = Poll(arrives: Units, deadline: bool)

  /** The log after the arrivals of some polls. */
  function Arrived(log: Log, polls: seq<Poll>): Log {
    if polls == [] then log
    else Arrived(log, polls[..|polls| - 1]).Appended(polls[|polls| - 1].arrives)
  }

  lemma OneMoreArrives(log: Log, polls: seq<Poll>, i: nat)
    requires i < |polls|
    ensures Arrived(log, polls[..i + 1]) == Arrived(log, polls[..i]).Appended(polls[i].arrives)
  {
    assert polls[..i + 1][..i] == polls[..i];
  }

  lemma {:induction false} ArrivalsAddUp(log: Log, polls: seq<Poll>, i: nat)
    requires i <= |polls|
    ensures Arrived(log, polls[..i]).Latest() <= Arrived(log, polls).Latest()
    decreases |polls|
  {
    if i < |polls| {
      var n := |polls| - 1;
      assert polls[..n][..i] == polls[..i];
      ArrivalsAddUp(log, polls[..n], i);
    } else {
      assert polls[..i] == polls;
    }
  }

  class History {
    var earliest: nat
    var latest: nat
    var units: Units
    ghost var log: Units

    ghost predicate Valid()
      reads this
    {
      && latest == |log| && earliest <= latest
      && units == log[earliest..] && |units| <= MAX_HISTORY_UNITS
    }

    ghost function View(): Log
      reads this
    {
      Log(log, earliest)
    }

    lemma ViewIsValid()
      requires Valid()
      ensures View().Valid()
    {
    }

    /** `at_cursor`: the first connection starts at 0, a later one at the
        checkpoint of the one before. */
    constructor AtCursor(cursor: nat, ghost before: Units)
      requires cursor == |before|
      ensures Valid() && View() == Log(before, cursor)
      ensures forall previous: Log | previous.units == before :: View() == previous.Reconnected()
    {
      earliest, latest, units := cursor, cursor, [];
      log := before;
    }

    method Append(text: Units)
      requires Valid()
      modifies this
      ensures Valid() && View() == old(View()).Appended(text)
    {
      latest := latest + |text|;
      units := units + text;
      log := log + text;
      while |units| > MAX_HISTORY_UNITS
        invariant latest == |log| && earliest <= latest && units == log[earliest..]
        invariant log == old(log) + text
        invariant old(earliest) <= earliest
        invariant earliest == old(earliest) || |units| >= MAX_HISTORY_UNITS
      {
        units := units[1..];
        earliest := earliest + 1;
      }
      if units == [] {
        earliest := latest;
      }
    }

    method Collect(cursor: nat, maxUnits: nat) returns (r: Result<Window, CursorError>)
      requires Valid()
      ensures r == WindowOf(View(), cursor, maxUnits)
    {
      if cursor < earliest {
        return Err(Expired(earliest, latest));
      }
      if cursor > latest {
        return Err(Ahead(earliest, latest));
      }
      var offset := cursor - earliest;
      var available := SatSub(|units|, offset);
      var take: nat := Min(available, maxUnits);
      var selected := units[offset..][..take];
      assert selected == log[cursor..cursor + take];
      r := Ok(Window(cursor, cursor + take, earliest, latest, take < available, Lossy(selected)));
    }

    /** `expect` for a case-sensitive literal. It looks after each of the first
        `used` polls, and once more after the last one. A timeout comes only at a
        deadline or when there is nothing left to wait for; while the text from the
        start on fits one window, the first deadline ends the search. */
    method Expect(pattern: Units, cursor: Option<nat>, maxUnits: nat, polls: seq<Poll>)
      returns (r: Result<Match, ExpectError>, ghost used: nat)
      requires Valid() && IsPattern(pattern)
      modifies this
      ensures Valid() && used <= |polls| && View() == Arrived(old(View()), polls[..used])
      ensures var start := if cursor.Some? then cursor.value else old(latest);
              && IsAnswer(View(), start, pattern, maxUnits, r)
              && (polls == [] ==> r == Searched(old(View()), start, start, pattern, maxUnits))
              && (Arrived(old(View()), polls).Latest() <= start + maxUnits ==>
                    forall k | 0 <= k < used - 1 :: !polls[k].deadline)
      ensures r == Err(Timeout) ==> used == |polls| || (used > 0 && polls[used - 1].deadline)
    {
      hide Lossy, IsPattern, Find, WindowOf, NextSearch, IsAnswer, Valid, View, Arrived, Searched, Waiting;
      var start := if cursor.Some? then cursor.value else latest;
      var search: nat := start;
      var i: nat := 0;
      ghost var before, log := View(), View();
      ViewIsValid();
      WaitingBegins(log, polls, start, pattern, maxUnits);
      while true
        invariant Valid() && View() == log && log.Valid() && i <= |polls|
        invariant Waiting(before, log, polls, i, start, search, pattern, maxUnits)
        decreases |polls| - i, log.Latest() - search
      {
        var deadline := true;
        if i < |polls| {
          PollArrives(before, log, polls, i, start, search, pattern, maxUnits);
          Append(polls[i].arrives);
          log := log.Appended(polls[i].arrives);
          deadline := polls[i].deadline;
          i := i + 1;
        }
        used := i;
        ViewIsValid();
        LookSettles(before, log, polls, i, start, search, pattern, maxUnits);
        var collected := Collect(search, maxUnits);
        if collected.Err? {
          return Err(Cursor(collected.error)), used;
        }
        var w := collected.value;
        match Find(w.text, pattern)
        case Some(offset) =>
          return Ok(Match(start, search, w.text, offset, search + offset, search + offset + |pattern|)), used;
        case None =>
          if w.truncated {
            search := NextSearch(search, w.nextCursor, pattern);
            continue;
          }
          if deadline {
            return Err(Timeout), used;
          }
      }
    }
  }

  /** What one look makes of the search. */
  ghost predicate SearchGoesOn(log: Log, start: nat, search: nat, p: Units, maxUnits: nat)
    requires log.Valid()
  {
    var collected, r := WindowOf(log, search, maxUnits), Searched(log, start, search, p, maxUnits);
    if collected.Err? then r == Err(Cursor(collected.error))
    else
      var w := collected.value;
      var found := Find(w.text, p);
      if found.Some? then
        var at := search + found.value;
        r == Ok(Match(start, search, w.text, found.value, at, at + |p|))
      else if w.truncated then
        r == Searched(log, start, NextSearch(search, w.nextCursor, p), p, maxUnits)
      else r == Err(Timeout)
  }

  lemma SearchedStep(log: Log, start: nat, search: nat, p: Units, maxUnits: nat)
    requires log.Valid()
    ensures SearchGoesOn(log, start, search, p, maxUnits)
  {
    hide Lossy, Find, NextSearch;
  }

  /** Where the loop of `expect` stands between two looks: `log` is what has arrived
      with the first `i` polls. */
  ghost predicate Waiting(before: Log, log: Log, polls: seq<Poll>, i: nat, start: nat, search: nat, p: Units,
                          maxUnits: nat)
  {
    && before.Valid() && log.Valid() && i <= |polls| && log == Arrived(before, polls[..i])
    && Searching(log, start, search, p, maxUnits)
    && (polls == [] ==>
          Searched(before, start, start, p, maxUnits) == Searched(before, start, search, p, maxUnits))
    && (Arrived(before, polls).Latest() <= start + maxUnits ==>
          search == start && forall k | 0 <= k < i :: !polls[k].deadline)
  }

  lemma WaitingBegins(log: Log, polls: seq<Poll>, start: nat, p: Units, maxUnits: nat)
    requires log.Valid()
    ensures Waiting(log, log, polls, 0, start, start, p, maxUnits)
  {
    assert polls[..0] == [];
  }

  /** The same with poll `i` taken, before the look that follows it. */
  ghost predicate Looking(before: Log, log: Log, polls: seq<Poll>, i: nat, start: nat, search: nat, p: Units,
                          maxUnits: nat)
  {
    && before.Valid() && log.Valid() && i <= |polls| && log == Arrived(before, polls[..i])
    && Searching(log, start, search, p, maxUnits)
    && (polls == [] ==>
          Searched(before, start, start, p, maxUnits) == Searched(before, start, search, p, maxUnits))
    && (Arrived(before, polls).Latest() <= start + maxUnits ==>
          search == start && forall k | 0 <= k < i - 1 :: !polls[k].deadline)
  }

  lemma PollArrives(before: Log, log: Log, polls: seq<Poll>, i: nat, start: nat, search: nat, p: Units,
                    maxUnits: nat)
    requires Waiting(before, log, polls, i, start, search, p, maxUnits) && i < |polls|
    ensures Looking(before, log.Appended(polls[i].arrives), polls, i + 1, start, search, p, maxUnits)
  {
    hide Arrived, Searched, Searching;
    OneMoreArrives(before, polls, i);
    SearchingSurvivesArrivals(log, polls[i].arrives, start, search, p, maxUnits);
  }

  /** What a look owes the loop: an answer, a shorter search, or more waiting. */
  ghost predicate Settled(before: Log, log: Log, polls: seq<Poll>, i: nat, start: nat, search: nat, p: Units,
                          maxUnits: nat)
    requires before.Valid() && log.Valid()
  {
    var collected, expected := WindowOf(log, search, maxUnits), Searched(before, start, start, p, maxUnits);
    && i <= |polls| && log == Arrived(before, polls[..i])
    && (Arrived(before, polls).Latest() <= start + maxUnits ==> forall k | 0 <= k < i - 1 :: !polls[k].deadline)
    && if collected.Err? then IsOutcome(log, start, p, maxUnits, polls, Err(Cursor(collected.error)), expected)
       else
         var w := collected.value;
         var found := Find(w.text, p);
         if found.Some? then
           var at := search + found.value;
           IsOutcome(log, start, p, maxUnits, polls, Ok(Match(start, search, w.text, found.value, at, at + |p|)),
                     expected)
         else if w.truncated then
           var next := NextSearch(search, w.nextCursor, p);
           search < next <= log.Latest() && Waiting(before, log, polls, i, start, next, p, maxUnits)
         else
           && IsOutcome(log, start, p, maxUnits, polls, Err(Timeout), expected)
           && (i > 0 && !polls[i - 1].deadline ==> Waiting(before, log, polls, i, start, search, p, maxUnits))
  }

  ghost predicate IsOutcome(log: Log, start: nat, p: Units, maxUnits: nat, polls: seq<Poll>,
                            r: Result<Match, ExpectError>, expected: Result<Match, ExpectError>) {
    IsAnswer(log, start, p, maxUnits, r) && (polls == [] ==> r == expected)
  }

  lemma LookSettles(before: Log, log: Log, polls: seq<Poll>, i: nat, start: nat, search: nat, p: Units,
                    maxUnits: nat)
    requires Looking(before, log, polls, i, start, search, p, maxUnits)
          || (i == |polls| && Waiting(before, log, polls, i, start, search, p, maxUnits))
    requires IsPattern(p) && log.Valid()
    ensures before.Valid() && Settled(before, log, polls, i, start, search, p, maxUnits)
  {
    hide Lossy, IsPattern, Find, WindowOf, NextSearch, IsAnswer, Searched, Arrived;
    NothingArrives(before);
    if polls == [] {
      assert polls[..i] == [];
    }
    ArrivalsAddUp(before, polls, i);
    WindowFacts(log, search, maxUnits, p);
    LookDecides(log, start, search, p, maxUnits);
    SearchedStep(log, start, search, p, maxUnits);
    hide Searching;
  }

  lemma NothingArrives(log: Log)
    ensures Arrived(log, []) == log
  {
  }

  lemma {:induction false} ArrivedGrows(log: Log, polls: seq<Poll>, i: nat)
    requires i <= |polls|
    ensures Arrived(log, polls[..i]).units <= Arrived(log, polls).units
    decreases |polls|
  {
    if i < |polls| {
      var n := |polls| - 1;
      assert polls[..n][..i] == polls[..i];
      ArrivedGrows(log, polls[..n], i);
    } else {
      assert polls[..i] == polls;
    }
  }

  /** What arrives in time is found: when `expect` has answered a timeout after `used`
      polls, as its contract allows, a pattern that fits the search was not there at any
      look up to the first deadline. */
  lemma PresentIsNotTimedOut(before: Log, polls: seq<Poll>, used: nat, start: nat, p: Units, maxUnits: nat,
                             k: nat, q: nat)
    requires used <= |polls| && IsAnswer(Arrived(before, polls[..used]), start, p, maxUnits, Err(Timeout))
    requires used == |polls| || (used > 0 && polls[used - 1].deadline)
    requires Fits(p, maxUnits) && k <= |polls| && start <= q
    requires forall j | 0 <= j < k - 1 :: !polls[j].deadline
    ensures !OccursAt(Arrived(before, polls[..k]).units, p, q)
  {
    hide Arrived;
    assert k <= used;
    assert polls[..used][..k] == polls[..k];
    ArrivedGrows(before, polls[..used], k);
    var early, late := Arrived(before, polls[..k]).units, Arrived(before, polls[..used]).units;
    if OccursAt(early, p, q) {
      OccursLater(early, late, p, q);
    }
  }

  lemma OccursLater(early: Units, late: Units, p: Units, q: nat)
    requires early <= late && OccursAt(early, p, q)
    ensures OccursAt(late, p, q)
  {
    assert late[..|early|] == early;
    assert late[q..q + |p|] == early[q..q + |p|];
  }
}
