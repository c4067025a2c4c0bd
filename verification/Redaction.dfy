/** Hiding the shell bookkeeping of automated commands from other observers of
    a serial line, on whole texts and on a stream of chunks. */
module Redaction {
  import opened Common
  import opened Utf8

  const MAX_BUFFER: nat := 65536
  const SUFFIX: nat := 512

  /** "__linkr_rc_" followed by the token. */
  function Variable(token: Bytes): Bytes {
    [95, 95, 108, 105, 110, 107, 114, 95, 114, 99, 95] + token
  }

  /** "__LINKR_RC_", the token, and "__". */
  function Marker(token: Bytes): Bytes {
    [95, 95, 76, 73, 78, 75, 82, 95, 82, 67, 95] + token + [95, 95]
  }

  /** A token has passed the request parser: 8 to 64 letters or digits. */
  predicate IsToken(token: Bytes) {
    && 8 <= |token| <= 64
    && forall b | b in token :: 48 <= b <= 57 || 65 <= b <= 90 || 97 <= b <= 122
  }

  /** The names spelled out. */
  lemma NamesAre(token: Bytes)
    ensures Variable(token) == Ascii("__linkr_rc_") + token
    ensures Marker(token) == Ascii("__LINKR_RC_") + token + Ascii("__")
  {
  }

  // ---------------------------------------------------------------------
  // Batch redaction.

  function Ending(line: Bytes): Bytes {
    if |line| >= 2 && line[|line| - 2..] == [RETURN, NEWLINE] then [RETURN, NEWLINE]
    else if |line| >= 1 && line[|line| - 1] == NEWLINE then [NEWLINE]
    else []
  }

  /** `redact_internal_shell_line`. */
  function RedactLine(line: Bytes, token: Bytes): Bytes {
    if Contains(line, Variable(token)) then []
    else
      match Find(line, Marker(token))
      case None => line
      case Some(start) => if start == 0 then [] else line[..start] + Ending(line)
  }

  /** `redact_internal_shell_text`: every line, keeping its newline, is redacted
      on its own. */
  function RedactText(text: Bytes, token: Bytes): Bytes {
    if text == [] then []
    else
      match FindNewline(text)
      case None => RedactLine(text, token)
      case Some(e) => RedactLine(text[..e + 1], token) + RedactText(text[e + 1..], token)
  }

  // ---------------------------------------------------------------------
  // Streaming redaction, as functions.

  /** The redacted complete lines of a text, and the unfinished line after
      them. */
  function CompleteLines(text: Bytes, token: Bytes): Bytes
    decreases |text|
  {
    match FindNewline(text)
    case None => []
    case Some(e) => RedactLine(text[..e + 1], token) + CompleteLines(text[e + 1..], token)
  }

  function LastLine(text: Bytes): (r: Bytes)
    ensures NEWLINE !in r
  {
    match FindNewline(text)
    case None => text
    case Some(e) => LastLine(text[e + 1..])
  }

  function BoundaryDown(s: Bytes, i: nat): (b: nat)
    requires i <= |s|
    ensures b <= i && IsCharBoundary(s, b)
    ensures forall k | b < k <= i :: !IsCharBoundary(s, k)
  {
    if i == 0 || IsCharBoundary(s, i) then i else BoundaryDown(s, i - 1)
  }

  /** How much of an unfinished line is given up to keep the buffer small. */
  function Overflow(line: Bytes): (n: nat)
    ensures n <= |line|
  {
    if |line| > MAX_BUFFER then BoundaryDown(line, SatSub(|line|, SUFFIX)) else 0
  }

  /** What `push` shows, and what it keeps. */
  function Shown(pending: Bytes, text: Bytes, token: Bytes): Bytes {
    var line := LastLine(pending + text);
    CompleteLines(pending + text, token) + line[..Overflow(line)]
  }

  function Kept(pending: Bytes, text: Bytes): Bytes {
    var line := LastLine(pending + text);
    line[Overflow(line)..]
  }

  /** Everything shown for a list of chunks followed by `finish`. */
  function Streamed(pending: Bytes, chunks: seq<Bytes>, token: Bytes): Bytes
    decreases |chunks|
  {
    if chunks == [] then RedactLine(pending, token)
    else Shown(pending, chunks[0], token) + Streamed(Kept(pending, chunks[0]), chunks[1..], token)
  }

  /** No newline-free run is longer than the buffer. */
  predicate ShortLines(text: Bytes) {
    match FindNewline(text)
    case None => |text| <= MAX_BUFFER
    case Some(e) => e <= MAX_BUFFER && ShortLines(text[e + 1..])
  }

  // ---------------------------------------------------------------------
  // Streaming refines batch.

  lemma {:induction false} LinesResume(p: Bytes, t: Bytes, token: Bytes)
    ensures RedactText(p + t, token) == CompleteLines(p, token) + RedactText(LastLine(p) + t, token)
    decreases |p|
  {
    hide RedactLine;
    match FindNewline(p)
    case None =>
    case Some(e) =>
      var u, first, rest := p + t, p[..e + 1], p[e + 1..];
      NewlineStable(p, t);
      assert u[..e + 1] == first && u[e + 1..] == rest + t;
      LinesResume(rest, t, token);
      Assoc(RedactLine(first, token), CompleteLines(rest, token), RedactText(LastLine(rest) + t, token));
  }

  lemma {:induction false} ShortLinesResume(p: Bytes, t: Bytes)
    requires ShortLines(p + t)
    ensures ShortLines(LastLine(p) + t)
    decreases |p|
  {
    match FindNewline(p)
    case None =>
    case Some(e) =>
      NewlineStable(p, t);
      assert (p + t)[e + 1..] == p[e + 1..] + t;
      ShortLinesResume(p[e + 1..], t);
  }

  lemma ShortFirstLine(line: Bytes, t: Bytes)
    requires NEWLINE !in line && ShortLines(line + t)
    ensures |line| <= MAX_BUFFER
  {
    var r := FindNewline(line + t);
    if r.Some? {
      assert (line + t)[r.value] == NEWLINE;
      assert r.value >= |line|;
    }
  }

  lemma FinishIsBatch(line: Bytes, token: Bytes)
    requires NEWLINE !in line
    ensures RedactText(line, token) == RedactLine(line, token)
  {
    if line == [] {
      assert Variable(token)[0] == 95;
      assert Find(line, Marker(token)).None? by {
        assert |Marker(token)| > 0;
      }
    }
  }

  /** Streaming redaction shows exactly what batch redaction of the whole text
      shows, however the text is cut into chunks. */
  lemma {:induction false} StreamingRefinesBatch(pending: Bytes, chunks: seq<Bytes>, token: Bytes)
    requires NEWLINE !in pending
    requires ShortLines(pending + Flatten(chunks))
    ensures Streamed(pending, chunks, token) == RedactText(pending + Flatten(chunks), token)
    decreases |chunks|
  {
    hide RedactLine, RedactText, ShortLines, CompleteLines, LastLine;
    if chunks == [] {
      assert pending + Flatten(chunks) == pending;
      FinishIsBatch(pending, token);
    } else {
      var p, t := pending + chunks[0], Flatten(chunks[1..]);
      Assoc(pending, chunks[0], t);
      LinesResume(p, t, token);
      ShortLinesResume(p, t);
      ShortFirstLine(LastLine(p), t);
      assert LastLine(p)[..0] == [] && LastLine(p)[0..] == LastLine(p);
      assert Shown(pending, chunks[0], token) == CompleteLines(p, token);
      StreamingRefinesBatch(LastLine(p), chunks[1..], token);
    }
  }

  lemma {:induction false} LastLineIsText(text: Bytes)
    requires Valid(text)
    ensures Valid(LastLine(text))
    decreases |text|
  {
    if FindNewline(text).Some? {
      var e := FindNewline(text).value;
      AfterAsciiIsBoundary(text, e);
      SplitAtBoundary(text, e + 1);
      LastLineIsText(text[e + 1..]);
    }
  }

  lemma {:induction false} AfterAsciiIsBoundary(s: Bytes, i: nat)
    requires Valid(s) && i < |s| && s[i] < 128
    ensures IsCharBoundary(s, i + 1)
    decreases |s|
  {
    var n := ReadHead(s).len;
    if i >= n {
      AfterAsciiIsBoundary(s[n..], i - n);
    }
  }

  /** For text of any shape, what is kept between two chunks is text without a
      newline: the whole unfinished line, or, when that has more than 65,536 bytes,
      the shortest end of it that has at least 512 bytes and starts at a character. */
  lemma KeptIsBounded(pending: Bytes, text: Bytes)
    requires Valid(pending + text)
    ensures Valid(Kept(pending, text))
    ensures NEWLINE !in Kept(pending, text) && |Kept(pending, text)| <= 65_536
    ensures var line, kept := LastLine(pending + text), Kept(pending, text);
            && |kept| <= |line| && kept == line[|line| - |kept|..]
            && (|line| <= 65_536 ==> kept == line)
            && (|line| > 65_536 ==> 512 <= |kept| <= 515)
  {
    var line := LastLine(pending + text);
    LastLineIsText(pending + text);
    if |line| > MAX_BUFFER {
      var b := BoundaryNearby(line, |line| - SUFFIX);
      SplitAtBoundary(line, Overflow(line));
    } else {
      assert line[0..] == line;
    }
  }

  // ---------------------------------------------------------------------
  // What redaction achieves.

  predicate Clean(s: Bytes, token: Bytes) {
    !Contains(s, Variable(token)) && !Contains(s, Marker(token))
  }

  lemma PatternsHaveNoBreaks(token: Bytes)
    requires IsToken(token)
    ensures NEWLINE !in Variable(token) && RETURN !in Variable(token) && 0 < |Variable(token)| < 80
    ensures NEWLINE !in Marker(token) && RETURN !in Marker(token) && Marker(token) != []
  {
  }

  /** An occurrence of a pattern without line breaks does not reach over `a`'s
      final newline. */
  lemma NoOccurrenceAcross(a: Bytes, b: Bytes, pattern: Bytes, i: nat)
    requires pattern != [] && NEWLINE !in pattern
    requires a == [] || a[|a| - 1] == NEWLINE
    requires OccursAt(a + b, pattern, i)
    ensures OccursAt(a, pattern, i) || (i >= |a| && OccursAt(b, pattern, i - |a|))
  {
    var s := a + b;
    if i < |a| < i + |pattern| {
      StraddlingTakesLast(a, b, pattern, i);
    }
    assert i + |pattern| <= |a| ==> s[i..i + |pattern|] == a[i..i + |pattern|];
    assert i >= |a| ==> s[i..i + |pattern|] == b[i - |a|..i - |a| + |pattern|];
  }

  lemma StraddlingTakesLast(a: Bytes, b: Bytes, pattern: Bytes, i: nat)
    requires i < |a| < i + |pattern| && OccursAt(a + b, pattern, i)
    ensures a[|a| - 1] in pattern
  {
    OccursPointwise(a + b, pattern, i);
    assert pattern[|a| - 1 - i] == a[|a| - 1];
  }

  lemma AbsentFromBoth(a: Bytes, b: Bytes, pattern: Bytes)
    requires pattern != [] && NEWLINE !in pattern
    requires a == [] || a[|a| - 1] == NEWLINE
    ensures Contains(a + b, pattern) <==> Contains(a, pattern) || Contains(b, pattern)
  {
    var s := a + b;
    if i :| 0 <= i <= |s| && OccursAt(s, pattern, i) {
      NoOccurrenceAcross(a, b, pattern, i);
    }
    if i :| 0 <= i <= |a| && OccursAt(a, pattern, i) {
      assert s[i..i + |pattern|] == a[i..i + |pattern|];
      assert OccursAt(s, pattern, i);
    }
    if i :| 0 <= i <= |b| && OccursAt(b, pattern, i) {
      assert s[i + |a|..i + |a| + |pattern|] == b[i..i + |pattern|];
      assert OccursAt(s, pattern, i + |a|);
    }
  }

  /** A line without its tail: no occurrence in what is left but those before
      the cut. */
  lemma CutLine(line: Bytes, pattern: Bytes, start: nat, i: nat)
    requires start <= |line| && pattern != [] && NEWLINE !in pattern && RETURN !in pattern
    requires OccursAt(line[..start] + Ending(line), pattern, i)
    ensures i + |pattern| <= start && OccursAt(line, pattern, i)
  {
    var s := line[..start] + Ending(line);
    OccursPointwise(s, pattern, i);
    assert pattern[|pattern| - 1] == s[i + |pattern| - 1];
    assert s[i..i + |pattern|] == line[i..i + |pattern|];
  }

  lemma RedactedLineIsClean(line: Bytes, token: Bytes)
    requires IsToken(token)
    ensures Clean(RedactLine(line, token), token)
    ensures RedactLine(line, token) == line <==> Clean(line, token)
  {
    var v, m, r := Variable(token), Marker(token), RedactLine(line, token);
    PatternsHaveNoBreaks(token);
    if Clean(line, token) {
      assert Find(line, m).None?;
    } else if !Contains(line, v) && Find(line, m).Some? && Find(line, m).value > 0 {
      var start := Find(line, m).value;
      if i :| 0 <= i <= |r| && OccursAt(r, v, i) {
        CutLine(line, v, start, i);
      }
      if i :| 0 <= i <= |r| && OccursAt(r, m, i) {
        CutLine(line, m, start, i);
      }
    }
  }

  lemma RedactedLineKeepsNewline(line: Bytes, token: Bytes)
    requires line != [] && line[|line| - 1] == NEWLINE
    ensures var r := RedactLine(line, token); r == [] || r[|r| - 1] == NEWLINE
  {
  }

  /** The output before an exit marker is kept, with the line's ending; a line that
      begins with the marker, or names the variable anywhere, goes completely. */
  lemma OutputBeforeMarkerIsKept(output: Bytes, tail: Bytes, token: Bytes)
    requires var line := output + Marker(token) + tail;
             forall i | 0 <= i < |output| :: !OccursAt(line, Marker(token), i)
    ensures var line := output + Marker(token) + tail;
            RedactLine(line, token) ==
            if Contains(line, Variable(token)) || output == [] then []
            else if |line| >= 2 && line[|line| - 2..] == [RETURN, NEWLINE] then output + [RETURN, NEWLINE]
            else if line[|line| - 1] == NEWLINE then output + [NEWLINE]
            else output
  {
    var line := output + Marker(token) + tail;
    assert line[|output|..|output| + |Marker(token)|] == Marker(token);
    assert OccursAt(line, Marker(token), |output|);
    assert Find(line, Marker(token)) == Some(|output|);
    assert line[..|output|] == output && output + [] == output;
    hide Contains, Variable;
  }

  /** No bookkeeping reaches an observer, and text without bookkeeping, and no
      other text, passes unchanged. */
  lemma {:induction false} RedactedTextIsClean(text: Bytes, token: Bytes)
    requires IsToken(token)
    ensures Clean(RedactText(text, token), token)
    ensures RedactText(text, token) == text <==> Clean(text, token)
    decreases |text|
  {
    hide RedactLine, Contains, Variable, Marker;
    PatternsHaveNoBreaks(token);
    if text == [] || FindNewline(text).None? {
      RedactedLineIsClean(text, token);
      FinishIsBatch(text, token);
    } else {
      var e := FindNewline(text).value;
      var line, rest := text[..e + 1], text[e + 1..];
      RedactedLineIsClean(line, token);
      RedactedTextIsClean(rest, token);
      RedactedLineKeepsNewline(line, token);
      assert text == line + rest;
      AbsentFromBoth(line, rest, Variable(token));
      AbsentFromBoth(line, rest, Marker(token));
      AbsentFromBoth(RedactLine(line, token), RedactText(rest, token), Variable(token));
      AbsentFromBoth(RedactLine(line, token), RedactText(rest, token), Marker(token));
    }
  }

  // ---------------------------------------------------------------------
  // Long lines: exactly when the stream shows something else.

  /** A line that some `push` had to show in part before its newline came: what
      had been shown at the last such cut, and the rest of the line. */
  datatype Cut = Cut(shown: Bytes, rest: Bytes)

  /** The lines that are cut while the chunks are pushed. `shown` and `pending` are
      the two parts of the line at hand. The token plays no role. */
  function CutLines(shown: Bytes, pending: Bytes, chunks: seq<Bytes>): seq<Cut>
    decreases |chunks|
  {
    if chunks == [] then Closed(shown, pending)
    else
      var text := pending + chunks[0];
      var line := LastLine(text);
      var n := Overflow(line);
      match FindNewline(text)
      case None => CutLines(shown + line[..n], line[n..], chunks[1..])
      case Some(e) => Closed(shown, text[..e + 1]) + CutLines(line[..n], line[n..], chunks[1..])
  }

  function Closed(shown: Bytes, rest: Bytes): seq<Cut> {
    if shown == [] then [] else [Cut(shown, rest)]
  }

  /** Cutting the line does not change what is shown: it has no variable, and its
      first marker, if any, comes after the cut. A marker right at the cut does no
      harm in a line without an ending; with one, the ending is lost. */
  predicate Harmless(cut: Cut, token: Bytes) {
    var line := cut.shown + cut.rest;
    && !Contains(line, Variable(token))
    && match Find(line, Marker(token))
       case None => true
       case Some(start) => start > |cut.shown| || (start == |cut.shown| && Ending(line) == [])
  }

  predicate AllHarmless(cuts: seq<Cut>, token: Bytes) {
    forall i | 0 <= i < |cuts| :: Harmless(cuts[i], token)
  }

  /** What is shown of a line that was cut. */
  function ShownOf(cut: Cut, token: Bytes): Bytes {
    cut.shown + RedactLine(cut.rest, token)
  }

  /** The measure that tells stream and batch apart: a lost ending makes a text
      heavier, and so does anything shown that should not be. */
  function Weight(s: Bytes): int {
    if s == [] then 0 else Weight(s[..|s| - 1]) + if s[|s| - 1] == NEWLINE then -3 else 2
  }

  lemma {:induction false} WeightConcat(a: Bytes, b: Bytes)
    ensures Weight(a + b) == Weight(a) + Weight(b)
    decreases |b|
  {
    if b == [] {
      assert a + b == a;
    } else {
      assert (a + b)[..|a + b| - 1] == a + b[..|b| - 1];
      WeightConcat(a, b[..|b| - 1]);
    }
  }

  lemma {:induction false} WeightOfText(s: Bytes)
    requires NEWLINE !in s
    ensures Weight(s) == 2 * |s|
  {
    if s != [] {
      WeightOfText(s[..|s| - 1]);
    }
  }

  /** A newline stands at the end of the line or nowhere. */
  predicate IsLine(line: Bytes) {
    forall i | 0 <= i < |line| - 1 :: line[i] != NEWLINE
  }

  lemma WeightOfEnding(line: Bytes)
    ensures -3 <= Weight(Ending(line)) <= 0
    ensures Ending(line) != [] ==> Weight(Ending(line)) < 0
  {
    WeightConcat([RETURN], [NEWLINE]);
    assert [RETURN][..0] == [] && [NEWLINE][..0] == [] && [RETURN, NEWLINE] == [RETURN] + [NEWLINE];
    assert Weight([RETURN]) == 2 && Weight([NEWLINE]) == -3;
  }

  /** A line with its tail cut off weighs at most what is left of it. */
  lemma WeightOfCutTail(line: Bytes, start: nat)
    requires IsLine(line) && start < |line|
    ensures Weight(line[..start] + Ending(line)) == 2 * start + Weight(Ending(line))
  {
    hide Ending, Weight;
    WeightConcat(line[..start], Ending(line));
    WeightOfText(line[..start]);
  }

  lemma WeightOfLine(line: Bytes)
    requires IsLine(line) && |line| >= 3
    ensures Weight(line) >= 1
  {
    WeightOfText(line[..|line| - 1]);
  }

  lemma RedactedLineWeighs(rest: Bytes, token: Bytes)
    requires IsLine(rest) && |rest| >= 3
    ensures Weight(RedactLine(rest, token)) >= -1
  {
    hide Ending, Weight, Contains, Variable;
    NothingWeighs();
    WeightOfLine(rest);
    WeightOfEnding(rest);
    var found := Find(rest, Marker(token));
    if found.Some? && found.value > 0 {
      WeightOfCutTail(rest, found.value);
    }
  }

  lemma NothingWeighs()
    ensures Weight([]) == 0
  {
  }

  lemma RestFacts(cut: Cut, token: Bytes)
    requires |cut.rest| >= 2
    ensures var line := cut.shown + cut.rest;
            && Ending(line) == Ending(cut.rest)
            && (!Contains(line, Variable(token)) ==> !Contains(cut.rest, Variable(token)))
  {
    var line, c := cut.shown + cut.rest, |cut.shown|;
    assert line[|line| - 2..] == cut.rest[|cut.rest| - 2..];
    if Contains(cut.rest, Variable(token)) {
      var i :| 0 <= i <= |cut.rest| && OccursAt(cut.rest, Variable(token), i);
      assert line[c + i..c + i + |Variable(token)|] == cut.rest[i..i + |Variable(token)|];
      assert OccursAt(line, Variable(token), c + i);
    }
  }

  lemma OccursInRest(a: Bytes, b: Bytes, pattern: Bytes, i: nat)
    requires i <= |b|
    ensures OccursAt(b, pattern, i) <==> OccursAt(a + b, pattern, |a| + i)
  {
    if i + |pattern| <= |b| {
      assert (a + b)[|a| + i..|a| + i + |pattern|] == b[i..i + |pattern|];
    }
  }

  /** The first occurrence after the cut is the first one in the rest. */
  lemma FindInRest(a: Bytes, b: Bytes, pattern: Bytes)
    requires var found := Find(a + b, pattern); found.None? || found.value >= |a|
    ensures var found := Find(a + b, pattern);
            Find(b, pattern) == if found.None? then None else Some(found.value - |a|)
  {
    var whole, rest := Find(a + b, pattern), Find(b, pattern);
    if whole.Some? {
      OccursInRest(a, b, pattern, whole.value - |a|);
    }
    if rest.Some? {
      OccursInRest(a, b, pattern, rest.value);
    }
  }

  lemma HarmlessCutIsBatch(cut: Cut, token: Bytes)
    requires |cut.rest| >= 2 && cut.shown != [] && Harmless(cut, token)
    ensures ShownOf(cut, token) == RedactLine(cut.shown + cut.rest, token)
  {
    hide Contains, Ending;
    var line, c, m := cut.shown + cut.rest, |cut.shown|, Marker(token);
    RestFacts(cut, token);
    FindInRest(cut.shown, cut.rest, m);
    var found := Find(line, m);
    if found.Some? {
      assert line[..found.value] == cut.shown + cut.rest[..found.value - c];
      Assoc(cut.shown, cut.rest[..found.value - c], Ending(line));
      assert line[..c] + [] == line[..c] == cut.shown + [] == cut.shown;
    }
  }

  lemma HarmfulCutWeighs(cut: Cut, token: Bytes)
    requires IsLine(cut.shown + cut.rest) && |cut.rest| >= 3 && cut.shown != [] && !Harmless(cut, token)
    ensures Weight(ShownOf(cut, token)) > Weight(RedactLine(cut.shown + cut.rest, token))
  {
    var line, c, m, r := cut.shown + cut.rest, |cut.shown|, Marker(token), RedactLine(cut.rest, token);
    assert forall i | 0 <= i < |cut.rest| - 1 :: cut.rest[i] == line[c + i];
    assert forall i | 0 <= i < c :: cut.shown[i] == line[i];
    hide Contains, Ending, Weight, RedactLine, Variable;
    NothingWeighs();
    RestFacts(cut, token);
    WeightConcat(cut.shown, r);
    WeightOfText(cut.shown);
    RedactedLineWeighs(cut.rest, token);
    WeightOfEnding(line);
    RedactedCases(line, token);
    if !Contains(line, Variable(token)) {
      var s := Find(line, m).value;
      WeightOfCutTail(line, s);
      if s == c {
        FindInRest(cut.shown, cut.rest, m);
        RedactedCases(cut.rest, token);
      }
    }
  }

  lemma RedactedCases(line: Bytes, token: Bytes)
    ensures Contains(line, Variable(token)) ==> RedactLine(line, token) == []
    ensures !Contains(line, Variable(token)) ==>
              match Find(line, Marker(token))
              case None => RedactLine(line, token) == line
              case Some(start) =>
                start < |line|
                && RedactLine(line, token) == if start == 0 then [] else line[..start] + Ending(line)
  {
    hide Contains, Ending;
  }

  /** `a` is what should be shown, or weighs more. */
  ghost predicate Faithful(a: Bytes, b: Bytes, harmless: bool) {
    if harmless then a == b else Weight(a) > Weight(b)
  }

  lemma FaithfulConcat(a: Bytes, b: Bytes, c: Bytes, d: Bytes, p: bool, q: bool)
    requires Faithful(a, b, p) && Faithful(c, d, q)
    ensures Faithful(a + c, b + d, p && q)
  {
    hide Weight;
    WeightConcat(a, c);
    WeightConcat(b, d);
  }

  /** The line at hand is closed by `rest`. */
  lemma ClosedLine(shown: Bytes, rest: Bytes, token: Bytes)
    requires IsLine(shown + rest) && (shown != [] ==> |rest| >= 3)
    ensures Faithful(shown + RedactLine(rest, token), RedactLine(shown + rest, token),
                     AllHarmless(Closed(shown, rest), token))
  {
    hide RedactLine, Harmless;
    if shown == [] {
      assert shown + rest == rest && shown + RedactLine(rest, token) == RedactLine(rest, token);
    } else {
      var cut := Cut(shown, rest);
      assert AllHarmless([cut], token) <==> Harmless(cut, token) by {
        assert [cut][0] == cut;
      }
      if Harmless(cut, token) {
        HarmlessCutIsBatch(cut, token);
      } else {
        HarmfulCutWeighs(cut, token);
      }
    }
  }

  lemma AllHarmlessConcat(a: seq<Cut>, b: seq<Cut>, token: Bytes)
    ensures AllHarmless(a + b, token) <==> AllHarmless(a, token) && AllHarmless(b, token)
  {
    hide Harmless;
    var c := a + b;
    assert forall i | 0 <= i < |a| :: c[i] == a[i];
    assert forall i | 0 <= i < |b| :: c[|a| + i] == b[i];
  }

  /** The parts of the line at hand between two chunks. */
  predicate AtHand(shown: Bytes, pending: Bytes) {
    NEWLINE !in shown && NEWLINE !in pending && (shown != [] ==> |pending| >= SUFFIX)
  }

  lemma AtHandAfter(shown: Bytes, pending: Bytes, text: Bytes)
    requires AtHand(shown, pending)
    ensures var line := LastLine(pending + text);
            var n := Overflow(line);
            if FindNewline(pending + text).None? then
              line == pending + text && AtHand(shown + line[..n], line[n..])
            else AtHand(line[..n], line[n..])
  {
    hide BoundaryDown;
  }

  lemma FirstLineAtHand(shown: Bytes, pending: Bytes, text: Bytes)
    requires AtHand(shown, pending) && FindNewline(pending + text).Some?
    ensures var first := (pending + text)[..FindNewline(pending + text).value + 1];
            IsLine(shown + first) && (shown != [] ==> |first| >= 3)
  {
    var whole, e := pending + text, FindNewline(pending + text).value;
    assert forall k | 0 <= k < |pending| :: whole[k] == pending[k] && pending[k] in pending;
    var line := shown + whole[..e + 1];
    forall i | 0 <= i < |line| - 1 ensures line[i] != NEWLINE {
      if i < |shown| {
        assert line[i] == shown[i] && shown[i] in shown;
      } else {
        assert line[i] == whole[i - |shown|];
      }
    }
  }

  /** Whatever has been shown and kept of the line at hand: the rest of the stream
      completes the batch redaction when every cut is harmless, and outweighs it
      otherwise. */
  lemma {:induction false} StreamIsFaithful(shown: Bytes, pending: Bytes, chunks: seq<Bytes>, token: Bytes)
    requires AtHand(shown, pending)
    ensures Faithful(shown + Streamed(pending, chunks, token),
                     RedactText(shown + (pending + Flatten(chunks)), token),
                     AllHarmless(CutLines(shown, pending, chunks), token))
    decreases |chunks|
  {
    hide RedactLine, RedactText, CompleteLines, LastLine, Weight, AllHarmless, Harmless, Faithful, AtHand, Overflow;
    if chunks == [] {
      assert pending + Flatten(chunks) == pending;
      LastLineAtHand(shown, pending);
      ClosedLine(shown, pending, token);
      FinishIsBatch(shown + pending, token);
    } else {
      var text, tail := pending + chunks[0], Flatten(chunks[1..]);
      var line := LastLine(text);
      var n := Overflow(line);
      Assoc(pending, chunks[0], tail);
      AtHandAfter(shown, pending, chunks[0]);
      assert line[..n] + line[n..] == line;
      if FindNewline(text).None? {
        StreamIsFaithful(shown + line[..n], line[n..], chunks[1..], token);
        PassedOn(shown, pending, chunks, token);
      } else {
        StreamIsFaithful(line[..n], line[n..], chunks[1..], token);
        LineClosed(shown, pending, chunks, token);
      }
    }
  }

  lemma LastLineAtHand(shown: Bytes, pending: Bytes)
    requires AtHand(shown, pending)
    ensures IsLine(shown + pending) && NEWLINE !in shown + pending && (shown != [] ==> |pending| >= 3)
  {
  }

  /** A chunk without a newline: the parts of the line at hand move. */
  lemma PassedOn(shown: Bytes, pending: Bytes, chunks: seq<Bytes>, token: Bytes)
    requires chunks != [] && FindNewline(pending + chunks[0]).None?
    ensures var line := pending + chunks[0];
            var n := Overflow(line);
            var tail := Flatten(chunks[1..]);
            && shown + Streamed(pending, chunks, token)
               == (shown + line[..n]) + Streamed(line[n..], chunks[1..], token)
            && shown + (pending + Flatten(chunks)) == (shown + line[..n]) + (line[n..] + tail)
            && CutLines(shown, pending, chunks) == CutLines(shown + line[..n], line[n..], chunks[1..])
  {
    hide Overflow, RedactLine;
    var line := pending + chunks[0];
    var n, tail := Overflow(line), Flatten(chunks[1..]);
    assert Shown(pending, chunks[0], token) == line[..n];
    Assoc(shown, line[..n], Streamed(line[n..], chunks[1..], token));
    Assoc(pending, chunks[0], tail);
    assert line == line[..n] + line[n..];
    Assoc(line[..n], line[n..], tail);
    Assoc(shown, line[..n], line[n..] + tail);
  }

  /** A chunk with a newline: the line at hand is closed, whole lines follow, and
      the last line is at hand. */
  lemma LineClosed(shown: Bytes, pending: Bytes, chunks: seq<Bytes>, token: Bytes)
    requires chunks != [] && FindNewline(pending + chunks[0]).Some? && AtHand(shown, pending)
    requires var line := LastLine(pending + chunks[0]);
             var n := Overflow(line);
             Faithful(line[..n] + Streamed(line[n..], chunks[1..], token),
                      RedactText(line[..n] + (line[n..] + Flatten(chunks[1..])), token),
                      AllHarmless(CutLines(line[..n], line[n..], chunks[1..]), token))
    ensures Faithful(shown + Streamed(pending, chunks, token),
                     RedactText(shown + (pending + Flatten(chunks)), token),
                     AllHarmless(CutLines(shown, pending, chunks), token))
  {
    hide Overflow, RedactLine, RedactText, Weight, AllHarmless, Harmless, Faithful, AtHand;
    hide Streamed, CutLines, CompleteLines, LastLine, Closed, IsLine;
    var text, tail := pending + chunks[0], Flatten(chunks[1..]);
    var line, e := LastLine(text), FindNewline(text).value;
    var n, first, later := Overflow(line), text[..e + 1], text[e + 1..];
    var complete := CompleteLines(later, token);
    var streamed := Streamed(line[n..], chunks[1..], token);
    FirstLineAtHand(shown, pending, chunks[0]);
    ClosedLine(shown, first, token);
    var rest, batch := line[..n] + streamed, RedactText(line + tail, token);
    assert line == line[..n] + line[n..];
    Assoc(line[..n], line[n..], tail);
    SameIsFaithful(complete);
    FaithfulConcat(complete, complete, rest, batch, true,
                   AllHarmless(CutLines(line[..n], line[n..], chunks[1..]), token));
    FaithfulConcat(shown + RedactLine(first, token), RedactLine(shown + first, token),
                   complete + rest, complete + batch, AllHarmless(Closed(shown, first), token),
                   AllHarmless(CutLines(line[..n], line[n..], chunks[1..]), token));
    AllHarmlessConcat(Closed(shown, first), CutLines(line[..n], line[n..], chunks[1..]), token);
    CutLinesStep(shown, pending, chunks);
    StreamedParts(shown, pending, chunks, token);
    BatchParts(shown, pending, chunks, token);
  }

  lemma CutLinesStep(shown: Bytes, pending: Bytes, chunks: seq<Bytes>)
    requires chunks != [] && FindNewline(pending + chunks[0]).Some?
    ensures var text := pending + chunks[0];
            var n := Overflow(LastLine(text));
            CutLines(shown, pending, chunks) ==
            Closed(shown, text[..FindNewline(text).value + 1])
            + CutLines(LastLine(text)[..n], LastLine(text)[n..], chunks[1..])
  {
    hide Overflow, LastLine, Closed;
  }

  lemma SameIsFaithful(a: Bytes)
    ensures Faithful(a, a, true)
  {
  }

  lemma StreamedParts(shown: Bytes, pending: Bytes, chunks: seq<Bytes>, token: Bytes)
    requires chunks != [] && FindNewline(pending + chunks[0]).Some?
    ensures var text := pending + chunks[0];
            var line, e := LastLine(text), FindNewline(text).value;
            var n := Overflow(line);
            shown + Streamed(pending, chunks, token) ==
            (shown + RedactLine(text[..e + 1], token))
            + (CompleteLines(text[e + 1..], token) + (line[..n] + Streamed(line[n..], chunks[1..], token)))
  {
    hide Overflow, RedactLine, LastLine;
    var text := pending + chunks[0];
    var line, e := LastLine(text), FindNewline(text).value;
    var n := Overflow(line);
    var a, b, c := RedactLine(text[..e + 1], token), CompleteLines(text[e + 1..], token), line[..n];
    var d := Streamed(line[n..], chunks[1..], token);
    assert Streamed(pending, chunks, token) == ((a + b) + c) + d;
    hide Streamed, CompleteLines;
    Assoc(a, b, c);
    Assoc(a, b + c, d);
    Assoc(b, c, d);
    Assoc(shown, a, b + (c + d));
  }

  lemma BatchParts(shown: Bytes, pending: Bytes, chunks: seq<Bytes>, token: Bytes)
    requires chunks != [] && FindNewline(pending + chunks[0]).Some? && AtHand(shown, pending)
    ensures var text := pending + chunks[0];
            var e := FindNewline(text).value;
            RedactText(shown + (pending + Flatten(chunks)), token) ==
            RedactLine(shown + text[..e + 1], token)
            + (CompleteLines(text[e + 1..], token) + RedactText(LastLine(text) + Flatten(chunks[1..]), token))
  {
    hide RedactLine, RedactText, CompleteLines, LastLine;
    var text, tail := pending + chunks[0], Flatten(chunks[1..]);
    var e := FindNewline(text).value;
    var first, later := text[..e + 1], text[e + 1..];
    Assoc(pending, chunks[0], tail);
    var whole := shown + (text + tail);
    FirstNewline(shown, text, tail);
    assert text == first + later;
    Assoc(first, later, tail);
    Assoc(shown, first, later + tail);
    assert whole[..|shown| + e + 1] == shown + first && whole[|shown| + e + 1..] == later + tail;
    RedactTextStep(whole, token);
    LinesResume(later, tail, token);
    LastLineStep(text);
  }

  lemma RedactTextStep(text: Bytes, token: Bytes)
    requires FindNewline(text).Some?
    ensures var e := FindNewline(text).value;
            RedactText(text, token) == RedactLine(text[..e + 1], token) + RedactText(text[e + 1..], token)
  {
    hide RedactLine;
  }

  lemma LastLineStep(text: Bytes)
    requires FindNewline(text).Some?
    ensures LastLine(text) == LastLine(text[FindNewline(text).value + 1..])
  {
  }

  lemma FirstNewline(shown: Bytes, text: Bytes, tail: Bytes)
    requires NEWLINE !in shown && FindNewline(text).Some?
    ensures FindNewline(shown + (text + tail)) == Some(|shown| + FindNewline(text).value)
  {
    var e, whole := FindNewline(text).value, shown + (text + tail);
    assert whole[|shown| + e] == text[e];
    forall k | 0 <= k < |shown| + e ensures whole[k] != NEWLINE {
      if k < |shown| {
        assert whole[k] == shown[k] && shown[k] in shown;
      } else {
        assert whole[k] == text[k - |shown|];
      }
    }
  }

  /** Streaming shows exactly the batch redaction if and only if every line that some
      `push` had to cut is harmless, for every text and every chunking. */
  lemma StreamsBatchExactly(chunks: seq<Bytes>, token: Bytes)
    ensures Streamed([], chunks, token) == RedactText(Flatten(chunks), token)
       <==> AllHarmless(CutLines([], [], chunks), token)
  {
    hide Streamed, RedactText, AllHarmless, CutLines, Weight;
    StreamIsFaithful([], [], chunks, token);
    assert [] + ([] + Flatten(chunks)) == Flatten(chunks);
    assert [] + Streamed([], chunks, token) == Streamed([], chunks, token);
  }

  lemma CleanPart(a: Bytes, b: Bytes, c: Bytes, token: Bytes)
    requires Clean(a + b + c, token)
    ensures Clean(b, token)
  {
    hide Variable, Marker;
    PartIsSearched(a, b, c, Variable(token));
    PartIsSearched(a, b, c, Marker(token));
  }

  lemma PartIsSearched(a: Bytes, b: Bytes, c: Bytes, pattern: Bytes)
    ensures Contains(b, pattern) ==> Contains(a + b + c, pattern)
  {
    var whole := a + b + c;
    if i :| 0 <= i <= |b| && OccursAt(b, pattern, i) {
      assert whole[|a| + i..|a| + i + |pattern|] == b[i..i + |pattern|];
      assert OccursAt(whole, pattern, |a| + i);
    }
  }

  lemma {:induction false} CleanLines(text: Bytes, token: Bytes)
    requires IsToken(token) && Clean(text, token)
    ensures CompleteLines(text, token) + LastLine(text) == text
    decreases |text|
  {
    hide Clean, RedactLine, IsToken;
    if FindNewline(text).Some? {
      var e := FindNewline(text).value;
      var first, later := text[..e + 1], text[e + 1..];
      assert [] + first + later == text == first + later + [];
      CleanPart([], first, later, token);
      CleanPart(first, later, [], token);
      RedactedLineIsClean(first, token);
      CleanLines(later, token);
      Assoc(first, CompleteLines(later, token), LastLine(later));
    }
  }

  /** A text without bookkeeping passes unchanged, however long its lines are and
      however it is cut into chunks. */
  lemma {:induction false} CleanTextPasses(pending: Bytes, chunks: seq<Bytes>, token: Bytes)
    requires IsToken(token) && Clean(pending + Flatten(chunks), token)
    ensures Streamed(pending, chunks, token) == pending + Flatten(chunks)
    decreases |chunks|
  {
    hide Clean, RedactLine, CompleteLines, LastLine, IsToken, Overflow;
    if chunks == [] {
      assert pending + Flatten(chunks) == pending;
      RedactedLineIsClean(pending, token);
    } else {
      var text, tail := pending + chunks[0], Flatten(chunks[1..]);
      var complete, line := CompleteLines(text, token), LastLine(text);
      var n := Overflow(line);
      Assoc(pending, chunks[0], tail);
      assert [] + text + tail == text + tail;
      CleanPart([], text, tail, token);
      CleanLines(text, token);
      var shown := Shown(pending, chunks[0], token);
      assert shown + line[n..] == text by {
        Assoc(complete, line[..n], line[n..]);
        assert line[..n] + line[n..] == line;
      }
      Assoc(shown, line[n..], tail);
      assert shown + (line[n..] + tail) + [] == text + tail;
      CleanPart(shown, line[n..] + tail, [], token);
      CleanTextPasses(line[n..], chunks[1..], token);
    }
  }

  lemma {:induction false} QuietPushes(pending: Bytes, chunks: seq<Bytes>, later: seq<Bytes>, token: Bytes)
    requires NEWLINE !in pending + Flatten(chunks) && |pending + Flatten(chunks)| <= MAX_BUFFER
    ensures Streamed(pending, chunks + later, token) == Streamed(pending + Flatten(chunks), later, token)
    decreases |chunks|
  {
    hide RedactLine;
    if chunks == [] {
      assert chunks + later == later && pending + Flatten(chunks) == pending;
    } else {
      var text, tail, all := pending + chunks[0], Flatten(chunks[1..]), pending + Flatten(chunks);
      Assoc(pending, chunks[0], tail);
      assert forall b | b in text :: b in all;
      assert FindNewline(text).None?;
      assert text[..0] == [] && text[0..] == text && (chunks + later)[1..] == chunks[1..] + later;
      QuietPushes(text, chunks[1..], later, token);
    }
  }

  /** The leak that the buffer limit allows, in chunks as a reader delivers them: a
      bookkeeping line that outgrows the buffer before its newline comes. */
  lemma LongLineLeaks(filler: Bytes, token: Bytes)
    requires IsToken(token) && NEWLINE !in filler && |filler| == 16_384
    requires forall b | b in filler :: b < 128
    ensures var chunks := [Variable(token), filler, filler, filler, filler];
            && |Variable(token)| < 80
            && RedactText(Flatten(chunks), token) == []
            && Variable(token) <= Streamed([], chunks, token)
  {
    PatternsHaveNoBreaks(token);
    hide FindNewline, Find, Variable, Marker, Streamed, Shown, RedactText, RedactLine, Flatten, Overflow;
    var v := Variable(token);
    var pending := v + filler + filler + filler;
    FillerBlock(v, filler);
    FourChunks(v, filler);
    assert [] + pending == pending;
    QuietPushes([], [v, filler, filler, filler], [filler], token);
    assert [v, filler, filler, filler] + [filler] == [v, filler, filler, filler, filler];
    FlattenSnoc([v, filler, filler, filler], filler);
    var line := pending + filler;
    assert Flatten([v, filler, filler, filler, filler]) == line;
    LastIsShown(pending, filler, token);
    LeakedPrefix(v, line, line[..Overflow(line)], Streamed(pending, [filler], token));
    VariableLineIsRedacted(line, token);
  }

  lemma LeakedPrefix(v: Bytes, line: Bytes, cut: Bytes, shown: Bytes)
    requires v <= line && cut <= line && |v| <= |cut| && cut <= shown
    ensures v <= shown
  {
    assert cut == line[..|cut|] && shown[..|cut|] == cut;
    assert shown[..|v|] == line[..|v|] == v;
  }

  lemma VariableLineIsRedacted(line: Bytes, token: Bytes)
    requires Variable(token) <= line && NEWLINE !in line
    ensures RedactText(line, token) == []
  {
    hide Variable, Marker;
    FinishIsBatch(line, token);
    assert OccursAt(line, Variable(token), 0);
  }

  lemma FourChunks(v: Bytes, filler: Bytes)
    ensures Flatten([v, filler, filler, filler]) == v + filler + filler + filler
  {
    FlattenSnoc([], v);
    FlattenSnoc([v], filler);
    FlattenSnoc([v, filler], filler);
    FlattenSnoc([v, filler, filler], filler);
    assert [] + [v] == [v] && [v] + [filler] == [v, filler];
    assert [v, filler] + [filler] == [v, filler, filler];
    assert [v, filler, filler] + [filler] == [v, filler, filler, filler];
    var none: Bytes := [];
    assert Flatten<Byte>([]) == none && none + v == v;
  }

  lemma FillerBlock(v: Bytes, filler: Bytes)
    requires NEWLINE !in filler && |filler| == 16_384 && forall b | b in filler :: b < 128
    requires NEWLINE !in v && 0 < |v| < 80
    ensures var pending := v + filler + filler + filler;
            && NEWLINE !in pending && |pending| <= MAX_BUFFER && FindNewline(pending + filler).None?
            && NEWLINE !in pending + filler && v <= pending + filler && |v| <= Overflow(pending + filler)
  {
    hide FindNewline, Overflow;
    var block := filler + filler + filler + filler;
    var line := v + filler + filler + filler + filler;
    assert line == v + block;
    assert forall b | b in block :: b in filler;
    OutgrownLine(v, block);
  }

  lemma OutgrownLine(head: Bytes, filler: Bytes)
    requires NEWLINE !in head && |head| <= MAX_BUFFER - SUFFIX
    requires NEWLINE !in filler && |filler| == MAX_BUFFER && forall b | b in filler :: b < 128
    ensures FindNewline(head + filler).None? && NEWLINE !in head + filler
    ensures head != [] ==> Overflow(head + filler) == |head| + MAX_BUFFER - SUFFIX
  {
    var line, k := head + filler, |filler| - SUFFIX;
    assert line[|head| + k] == filler[k] && filler[k] in filler;
    assert forall b | b in line :: b in head || b in filler;
  }

  lemma LastIsShown(pending: Bytes, text: Bytes, token: Bytes)
    requires FindNewline(pending + text).None?
    ensures (pending + text)[..Overflow(pending + text)] <= Streamed(pending, [text], token)
  {
    var line := pending + text;
    assert [text][1..] == [];
    assert Shown(pending, text, token) == line[..Overflow(line)];
  }

  // ---------------------------------------------------------------------
  // The object.

  class ObserverRedaction<Peer> {
    const owner: Peer
    const token: Bytes
    var pending: Bytes

    constructor (owner: Peer, token: Bytes)
      ensures this.owner == owner && this.token == token && pending == []
    {
      this.owner := owner;
      this.token := token;
      pending := [];
    }

    method Push(text: Bytes) returns (visible: Bytes)
      modifies this
      ensures visible == Shown(old(pending), text, token)
      ensures pending == Kept(old(pending), text)
    {
      hide RedactLine;
      pending := pending + text;
      ghost var whole := pending;
      visible := [];
      while FindNewline(pending).Some?
        invariant CompleteLines(whole, token) == visible + CompleteLines(pending, token)
        invariant LastLine(whole) == LastLine(pending)
        decreases |pending|
      {
        var end := FindNewline(pending).value;
        var line := pending[..end + 1];
        Assoc(visible, RedactLine(line, token), CompleteLines(pending[end + 1..], token));
        pending := pending[end + 1..];
        visible := visible + RedactLine(line, token);
      }
      assert pending == LastLine(whole);
      assert pending[..0] == [] && pending[0..] == pending;
      if |pending| > MAX_BUFFER {
        var split: nat := SatSub(|pending|, SUFFIX);
        while split > 0 && !IsCharBoundary(pending, split)
          invariant split <= |pending|
          invariant BoundaryDown(pending, split) == Overflow(pending)
        {
          split := split - 1;
        }
        visible := visible + pending[..split];
        pending := pending[split..];
      }
    }

    /** `finish` consumes the object; the buffer is left empty. */
    method Finish() returns (visible: Bytes)
      modifies this
      ensures visible == RedactLine(old(pending), token) && pending == []
    {
      visible := RedactLine(pending, token);
      pending := [];
    }
  }
}
