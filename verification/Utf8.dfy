/** Incremental UTF-8 decoding, as done by the serial broker and by the log
    download gateway. Text is represented by its UTF-8 bytes. */
module Utf8 {
  import opened Common

  /** What a decoder finds at the front of a non-empty byte string: a complete
      character, an ill-formed part to be replaced, or the beginning of a
      character whose remaining bytes have not arrived. */
  datatype Head = Char(len: nat) | Bad(len: nat) | Partial

  /** Outcome of validating a byte string. A missing `errorLen` means the input
      ended inside a character. */
  datatype Check = AllValid | Invalid(validUpTo: nat, errorLen: Option<nat>)

  /** U+FFFD. */
  const REPLACEMENT: Bytes := [0xEF, 0xBF, 0xBD]

  predicate IsContinuation(b: Byte) {
    0x80 <= b <= 0xBF
  }

  function Width(first: Byte): nat {
    if first <= 0x7F then 1
    else if 0xC2 <= first <= 0xDF then 2
    else if 0xE0 <= first <= 0xEF then 3
    else if 0xF0 <= first <= 0xF4 then 4
    else 0
  }

  predicate SecondFits(first: Byte, second: Byte) {
    if first == 0xE0 then 0xA0 <= second <= 0xBF
    else if first == 0xED then 0x80 <= second <= 0x9F
    else if first == 0xF0 then 0x90 <= second <= 0xBF
    else if first == 0xF4 then 0x80 <= second <= 0x8F
    else IsContinuation(second)
  }

  /** One step of the standard validator. */
  function ReadHead(s: Bytes): (h: Head)
    requires s != []
    ensures h.Char? ==> 1 <= h.len <= 4 && h.len <= |s|
    ensures h.Bad? ==> 1 <= h.len <= 3 && h.len <= |s|
    ensures h.Partial? ==> |s| <= 3
  {
    var w := Width(s[0]);
    if w == 0 then Bad(1)
    else if w == 1 then Char(1)
    else if |s| == 1 then Partial
    else if !SecondFits(s[0], s[1]) then Bad(1)
    else if w == 2 then Char(2)
    else if |s| == 2 then Partial
    else if !IsContinuation(s[2]) then Bad(2)
    else if w == 3 then Char(3)
    else if |s| == 3 then Partial
    else if !IsContinuation(s[3]) then Bad(3)
    else Char(4)
  }

  // ---------------------------------------------------------------------
  // The reference: well-formed sequences (Table 3-7 of the Unicode Standard)
  // and maximal subparts (section 3.9).

  predicate WellFormedChar(w: Bytes) {
    match |w|
    case 1 => w[0] <= 0x7F
    case 2 => 0xC2 <= w[0] <= 0xDF && IsContinuation(w[1])
    case 3 =>
      && (|| (w[0] == 0xE0 && 0xA0 <= w[1] <= 0xBF)
          || (0xE1 <= w[0] <= 0xEC && IsContinuation(w[1]))
          || (w[0] == 0xED && 0x80 <= w[1] <= 0x9F)
          || (0xEE <= w[0] <= 0xEF && IsContinuation(w[1])))
      && IsContinuation(w[2])
    case 4 =>
      && (|| (w[0] == 0xF0 && 0x90 <= w[1] <= 0xBF)
          || (0xF1 <= w[0] <= 0xF3 && IsContinuation(w[1]))
          || (w[0] == 0xF4 && 0x80 <= w[1] <= 0x8F))
      && IsContinuation(w[2]) && IsContinuation(w[3])
    case _ => false
  }

  /** `p` can be completed to one well-formed character. */
  ghost predicate Completable(p: Bytes) {
    exists w :: WellFormedChar(w) && p < w
  }

  /** The least completion of a completable prefix. */
  function Completion(p: Bytes): Bytes
    requires p != []
  {
    var second: Byte :=
      if |p| >= 2 then p[1] else if p[0] == 0xE0 then 0xA0 else if p[0] == 0xF0 then 0x90 else 0x80;
    var third: Byte := if |p| >= 3 then p[2] else 0x80;
    match Width(p[0])
    case 2 => [p[0], second]
    case 3 => [p[0], second, third]
    case _ => [p[0], second, third, 0x80]
  }

  lemma CompletionIsWellFormed(p: Bytes)
    requires p != [] && ReadHead(p).Partial?
    ensures p < Completion(p) && WellFormedChar(Completion(p))
  {
    var w := Completion(p);
    assert |p| < |w| && w[0] == p[0];
    assert |p| >= 2 ==> w[1] == p[1];
    assert |p| >= 3 ==> w[2] == p[2];
  }

  lemma CompletableIsPartial(p: Bytes)
    requires p != []
    ensures Completable(p) <==> ReadHead(p).Partial?
  {
    if ReadHead(p).Partial? {
      CompletionIsWellFormed(p);
    }
    if w: Bytes :| WellFormedChar(w) && p < w {
      assert |p| >= 2 ==> p[1] == w[1];
      assert |p| >= 3 ==> p[2] == w[2];
    }
  }

  /** `ReadHead` is the decoding the Unicode Standard asks for: it takes a
      character exactly when one is there, ... */
  lemma CharIsWellFormed(s: Bytes, n: nat)
    requires s != []
    ensures ReadHead(s) == Char(n) <==> n <= |s| && WellFormedChar(s[..n])
  {
  }

  /** ... waits exactly when all it has can still be completed, and otherwise
      rejects the maximal subpart: the longest completable prefix, or one byte. */
  lemma HeadIsMaximalSubpart(s: Bytes, n: nat)
    requires s != []
    ensures ReadHead(s) == Partial <==> Completable(s)
    ensures ReadHead(s) == Bad(n) <==>
              && (forall k: nat | k <= |s| :: !WellFormedChar(s[..k]))
              && !Completable(s)
              && 1 <= n <= |s| && (n == 1 || Completable(s[..n]))
              && (forall k | n < k <= |s| :: !Completable(s[..k]))
  {
    hide WellFormedChar;
    CompletableIsPartial(s);
    forall k: nat | 1 <= k <= |s|
      ensures Completable(s[..k]) <==> ReadHead(s[..k]).Partial?
    {
      CompletableIsPartial(s[..k]);
    }
    forall k: nat {
      CharIsWellFormed(s, k);
    }
    match ReadHead(s)
    case Char(m) =>
      assert WellFormedChar(s[..m]);
    case Partial =>
    case Bad(m) =>
      assert m >= 2 ==> ReadHead(s[..m]).Partial?;
      assert forall k | m < k <= |s| :: !ReadHead(s[..k]).Partial?;
  }

  // ---------------------------------------------------------------------
  // Decoding functions.

  predicate Valid(s: Bytes) {
    s == [] || (ReadHead(s).Char? && Valid(s[ReadHead(s).len..]))
  }

  function ValidUpTo(s: Bytes): (n: nat)
    ensures n <= |s|
  {
    if s == [] || !ReadHead(s).Char? then 0
    else ReadHead(s).len + ValidUpTo(s[ReadHead(s).len..])
  }

  /** `std::str::from_utf8`. */
  function FromUtf8(s: Bytes): Check {
    var v := ValidUpTo(s);
    if v == |s| then AllValid
    else
      match ReadHead(s[v..])
      case Bad(n) => Invalid(v, Some(n))
      case _ => Invalid(v, None)
  }

  /** One-shot lossy decoding: every ill-formed part, including an unfinished
      character at the end, becomes one U+FFFD. */
  function Lossy(s: Bytes): Bytes {
    if s == [] then []
    else
      match ReadHead(s)
      case Char(n) => s[..n] + Lossy(s[n..])
      case Bad(n) => REPLACEMENT + Lossy(s[n..])
      case Partial => REPLACEMENT
  }

  /** Lossy decoding that stops before an unfinished character. */
  function DecodedText(s: Bytes): Bytes {
    if s == [] then []
    else
      match ReadHead(s)
      case Char(n) => s[..n] + DecodedText(s[n..])
      case Bad(n) => REPLACEMENT + DecodedText(s[n..])
      case Partial => []
  }

  /** The unfinished character `DecodedText` leaves behind. */
  function Unfinished(s: Bytes): (rest: Bytes)
    ensures rest != [] ==> ReadHead(rest).Partial?
  {
    if s == [] then []
    else
      match ReadHead(s)
      case Char(n) => Unfinished(s[n..])
      case Bad(n) => Unfinished(s[n..])
      case Partial => s
  }

  // ---------------------------------------------------------------------
  // Facts about the decoding functions.

  lemma HeadStable(s: Bytes, t: Bytes)
    requires s != [] && !ReadHead(s).Partial?
    ensures ReadHead(s + t) == ReadHead(s)
  {
  }

  lemma {:induction false} ValidPrefixDecodes(s: Bytes, t: Bytes)
    requires Valid(s)
    ensures DecodedText(s + t) == s + DecodedText(t)
    ensures Unfinished(s + t) == Unfinished(t)
    ensures Lossy(s + t) == s + Lossy(t)
    ensures Valid(s + t) == Valid(t)
    decreases |s|
  {
    if s == [] {
      assert s + t == t;
    } else {
      var n, u := ReadHead(s).len, s + t;
      HeadStable(s, t);
      assert u[n..] == s[n..] + t && u[..n] == s[..n] && s == s[..n] + s[n..];
      ValidPrefixDecodes(s[n..], t);
      Assoc(s[..n], s[n..], DecodedText(t));
      Assoc(s[..n], s[n..], Lossy(t));
    }
  }

  lemma FirstCharIsValid(s: Bytes)
    requires s != [] && ReadHead(s).Char?
    ensures Valid(s[..ReadHead(s).len])
  {
    HeadOfPrefix(s, ReadHead(s).len);
  }

  lemma {:induction false} ValidUpToIsValid(s: Bytes)
    ensures Valid(s[..ValidUpTo(s)])
    ensures ValidUpTo(s) < |s| ==> !ReadHead(s[ValidUpTo(s)..]).Char?
    decreases |s|
  {
    hide Valid, ReadHead, DecodedText, Unfinished, Lossy;
    if s == [] || !ReadHead(s).Char? {
      ReplacementIsValid();
    } else {
      var n, rest := ReadHead(s).len, s[ReadHead(s).len..];
      var v := ValidUpTo(rest);
      ValidUpToIsValid(rest);
      FirstCharIsValid(s);
      ValidPrefixDecodes(s[..n], rest[..v]);
      assert s[..n + v] == s[..n] + rest[..v];
      assert s[n + v..] == rest[v..];
    }
  }

  lemma HeadOfPrefix(s: Bytes, k: nat)
    requires s != [] && ReadHead(s).Char? && ReadHead(s).len <= k <= |s|
    ensures ReadHead(s[..k]) == ReadHead(s)
  {
  }

  /** What has been decoded stays decoded: more input only continues from the
      unfinished character. */
  lemma {:induction false} DecodingResumes(s: Bytes, t: Bytes)
    ensures Lossy(s + t) == DecodedText(s) + Lossy(Unfinished(s) + t)
    decreases |s|
  {
    if s == [] {
      assert s + t == t && Unfinished(s) + t == t;
    } else if ReadHead(s).Partial? {
      assert DecodedText(s) == [];
    } else {
      var n, u := ReadHead(s).len, s + t;
      HeadStable(s, t);
      assert u[n..] == s[n..] + t && u[..n] == s[..n];
      DecodingResumes(s[n..], t);
      var first := if ReadHead(s).Char? then s[..n] else REPLACEMENT;
      assert Lossy(u) == first + Lossy(u[n..]);
      assert DecodedText(s) == first + DecodedText(s[n..]);
      Assoc(first, DecodedText(s[n..]), Lossy(Unfinished(s) + t));
    }
  }

  /** The valid prefix the validator finds decodes to itself. */
  lemma ValidPrefixStep(s: Bytes, v: nat)
    requires v == ValidUpTo(s)
    ensures DecodedText(s) == s[..v] + DecodedText(s[v..])
    ensures Unfinished(s) == Unfinished(s[v..])
    ensures Lossy(s) == s[..v] + Lossy(s[v..])
  {
    hide DecodedText, Unfinished, Lossy, Valid;
    ValidUpToIsValid(s);
    ValidPrefixDecodes(s[..v], s[v..]);
    assert s == s[..v] + s[v..];
  }

  lemma ValidatorReport(s: Bytes)
    ensures FromUtf8(s).Invalid? ==>
              var v, length := FromUtf8(s).validUpTo, FromUtf8(s).errorLen;
              v < |s| && (length.Some? ==> 1 <= length.value <= |s| - v)
  {
    ValidUpToIsValid(s);
  }

  lemma BadHeadStep(w: Bytes, n: nat)
    requires w != [] && ReadHead(w) == Bad(n)
    ensures DecodedText(w) == REPLACEMENT + DecodedText(w[n..])
    ensures Unfinished(w) == Unfinished(w[n..])
    ensures Lossy(w) == REPLACEMENT + Lossy(w[n..])
  {
  }

  lemma BadPartStep(s: Bytes, v: nat, n: nat)
    requires v == ValidUpTo(s) < |s| && ReadHead(s[v..]) == Bad(n)
    ensures DecodedText(s) == (s[..v] + REPLACEMENT) + DecodedText(s[v + n..])
    ensures Unfinished(s) == Unfinished(s[v + n..])
    ensures Lossy(s) == (s[..v] + REPLACEMENT) + Lossy(s[v + n..])
  {
    ValidPrefixStep(s, v);
    var w, rest := s[v..], s[v + n..];
    assert w[n..] == rest;
    BadHeadStep(w, n);
    Assoc(s[..v], REPLACEMENT, DecodedText(rest));
    Assoc(s[..v], REPLACEMENT, Lossy(rest));
  }

  /** Both decoders after the validator has rejected `n` bytes at `v`. */
  lemma RejectedStep(s: Bytes, v: nat, n: nat)
    requires FromUtf8(s) == Invalid(v, Some(n))
    ensures v + n <= |s|
    ensures DecodedText(s) == (s[..v] + REPLACEMENT) + DecodedText(s[v + n..])
    ensures Unfinished(s) == Unfinished(s[v + n..])
    ensures Lossy(s) == (s[..v] + REPLACEMENT) + Lossy(s[v + n..])
  {
    hide DecodedText, Unfinished, Lossy;
    ValidUpToIsValid(s);
    BadPartStep(s, v, n);
  }

  /** Both decoders when the validator has nothing to reject. */
  lemma FinalStep(s: Bytes)
    ensures FromUtf8(s) == AllValid ==> DecodedText(s) == s && Unfinished(s) == [] && Lossy(s) == s
    ensures FromUtf8(s).Invalid? && FromUtf8(s).errorLen.None? ==>
              var v := FromUtf8(s).validUpTo;
              && v < |s| && DecodedText(s) == s[..v] && Unfinished(s) == s[v..]
              && Lossy(s) == s[..v] + REPLACEMENT
  {
    var v := ValidUpTo(s);
    ValidUpToIsValid(s);
    ValidPrefixStep(s, v);
    NothingLeft();
    if v == |s| {
      assert s[..v] == s && s[v..] == [];
    }
  }

  lemma {:induction false} LossyIsValid(s: Bytes)
    ensures Valid(Lossy(s))
    decreases |s|
  {
    ReplacementIsValid();
    if s != [] && !ReadHead(s).Partial? {
      var n := ReadHead(s).len;
      var first, rest := if ReadHead(s).Char? then s[..n] else REPLACEMENT, Lossy(s[n..]);
      LossyIsValid(s[n..]);
      if ReadHead(s).Char? {
        FirstCharIsValid(s);
      }
      ValidPrefixDecodes(first, rest);
    }
  }

  /** Lossy decoding leaves text alone exactly when it is well formed, and its
      result always is. */
  lemma LossyIsWellFormed(s: Bytes)
    ensures Valid(Lossy(s))
    ensures Lossy(s) == s <==> Valid(s)
  {
    LossyIsValid(s);
    if Valid(s) {
      ValidPrefixDecodes(s, []);
      assert s + [] == s;
    }
  }

  /** Well-formed text is kept and each ill-formed part after it becomes one U+FFFD,
      whatever follows: a part no character begins with, or an unfinished character at
      the end. Only the latter is held back by a decoder that waits for more. */
  lemma LossyReplaces(text: Bytes, part: Bytes, more: Bytes)
    requires Valid(text) && part != []
    requires ReadHead(part + more) == Bad(|part|) || (more == [] && ReadHead(part).Partial?)
    ensures Lossy(text + (part + more)) == text + (REPLACEMENT + Lossy(more))
    ensures if ReadHead(part + more) == Bad(|part|) then
              && DecodedText(text + (part + more)) == text + (REPLACEMENT + DecodedText(more))
              && Unfinished(text + (part + more)) == Unfinished(more)
            else DecodedText(text + (part + more)) == text && Unfinished(text + (part + more)) == part
  {
    var rest := part + more;
    ValidPrefixDecodes(text, rest);
    NothingLeft();
    if ReadHead(rest) == Bad(|part|) {
      assert rest[|part|..] == more;
      BadHeadStep(rest, |part|);
    } else {
      assert rest == part;
      PartialStep(part);
      assert REPLACEMENT + Lossy([]) == REPLACEMENT && text + [] == text;
    }
  }

  lemma PartialStep(s: Bytes)
    requires s != [] && ReadHead(s).Partial?
    ensures Lossy(s) == REPLACEMENT && DecodedText(s) == [] && Unfinished(s) == s
  {
  }

  /** The replacement is the three bytes of U+FFFD. */
  lemma ReplacementIsUFFFD()
    ensures |REPLACEMENT| == 3
    ensures 4096 * (REPLACEMENT[0] as int - 0xE0) + 64 * (REPLACEMENT[1] as int - 0x80)
            + (REPLACEMENT[2] as int - 0x80) == 0xFFFD
  {
  }

  /** A decoder only ever emits well-formed text. */
  lemma {:induction false} DecodedTextIsValid(s: Bytes)
    ensures Valid(DecodedText(s))
    decreases |s|
  {
    ReplacementIsValid();
    if s != [] && !ReadHead(s).Partial? {
      var n := ReadHead(s).len;
      var first, rest := if ReadHead(s).Char? then s[..n] else REPLACEMENT, DecodedText(s[n..]);
      DecodedTextIsValid(s[n..]);
      if ReadHead(s).Char? {
        FirstCharIsValid(s);
      }
      ValidPrefixDecodes(first, rest);
    }
  }

  lemma AtMostThreePending(s: Bytes)
    ensures |Unfinished(s)| <= 3
  {
  }

  lemma NothingLeft()
    ensures DecodedText([]) == [] && Unfinished([]) == [] && Lossy([]) == []
  {
  }

  lemma ReplacementIsValid()
    ensures Valid([]) && Valid(REPLACEMENT)
  {
    assert REPLACEMENT[3..] == [];
  }

  // ---------------------------------------------------------------------
  // Character boundaries.

  /** `str::is_char_boundary`. */
  predicate IsCharBoundary(s: Bytes, i: nat)
    requires i <= |s|
  {
    i == 0 || i == |s| || !IsContinuation(s[i])
  }

  lemma {:induction false} SplitAtBoundary(s: Bytes, i: nat)
    requires Valid(s) && i <= |s| && IsCharBoundary(s, i)
    ensures Valid(s[..i]) && Valid(s[i..])
    decreases |s|
  {
    hide Valid, ReadHead, DecodedText, Unfinished, Lossy;
    if i == 0 {
      ReplacementIsValid();
      assert s[i..] == s && s[..i] == [];
    } else {
      var n := BoundaryIsAfterFirst(s, i);
      var first, rest := s[..n], s[n..];
      SplitAtBoundary(rest, i - n);
      GlueSplit(first, rest, i - n);
      assert s == first + rest;
    }
  }

  lemma BoundaryIsAfterFirst(s: Bytes, i: nat) returns (n: nat)
    requires Valid(s) && 0 < i <= |s| && IsCharBoundary(s, i)
    ensures 0 < n <= i && Valid(s[..n]) && Valid(s[n..]) && IsCharBoundary(s[n..], i - n)
  {
    n := ReadHead(s).len;
    FirstCharIsValid(s);
  }

  lemma GlueSplit(first: Bytes, rest: Bytes, i: nat)
    requires Valid(first) && i <= |rest| && Valid(rest[..i]) && Valid(rest[i..])
    ensures Valid((first + rest)[..|first| + i]) && Valid((first + rest)[|first| + i..])
  {
    hide Valid, ReadHead, DecodedText, Unfinished, Lossy;
    ValidPrefixDecodes(first, rest[..i]);
    assert (first + rest)[..|first| + i] == first + rest[..i];
    assert (first + rest)[|first| + i..] == rest[i..];
  }

  /** In text, stepping back three bytes always reaches a boundary. */
  lemma {:induction false} BoundaryNearby(s: Bytes, i: nat) returns (b: nat)
    requires Valid(s) && i <= |s|
    ensures i - 3 <= b <= i && IsCharBoundary(s, b)
    decreases |s|
  {
    if s == [] || i < ReadHead(s).len {
      b := 0;
    } else {
      var n := ReadHead(s).len;
      b := BoundaryNearby(s[n..], i - n);
      b := b + n;
    }
  }

  // ---------------------------------------------------------------------
  // The loop that both decoders run.

  /** The first `used` bytes have been decoded to `output`. */
  ghost predicate Progress(bytes: Bytes, output: Bytes, used: nat) {
    && used <= |bytes|
    && DecodedText(bytes) == output + DecodedText(bytes[used..])
    && Unfinished(bytes) == Unfinished(bytes[used..])
    && Lossy(bytes) == output + Lossy(bytes[used..])
  }

  lemma NoProgress(bytes: Bytes)
    ensures Progress(bytes, [], 0)
  {
    hide DecodedText, Unfinished, Lossy;
    assert bytes[0..] == bytes;
  }

  lemma AllProgress(bytes: Bytes, output: Bytes)
    requires Progress(bytes, output, |bytes|)
    ensures DecodedText(bytes) == output && Unfinished(bytes) == [] && Lossy(bytes) == output
  {
    NothingLeft();
    hide DecodedText, Unfinished, Lossy;
    assert bytes[|bytes|..] == [];
  }

  /** The validator accepts the remaining bytes. */
  lemma AcceptedProgress(bytes: Bytes, output: Bytes, used: nat)
    requires Progress(bytes, output, used) && FromUtf8(bytes[used..]) == AllValid
    ensures Progress(bytes, output + bytes[used..], |bytes|)
  {
    hide FromUtf8, DecodedText, Unfinished, Lossy;
    FinalStep(bytes[used..]);
    NothingLeft();
    assert bytes[|bytes|..] == [];
  }

  /** The validator stops at an unfinished character. */
  lemma StoppedProgress(bytes: Bytes, output: Bytes, used: nat, v: nat)
    requires Progress(bytes, output, used) && FromUtf8(bytes[used..]) == Invalid(v, None)
    ensures used + v < |bytes|
    ensures DecodedText(bytes) == output + bytes[used..used + v]
    ensures Unfinished(bytes) == bytes[used + v..]
    ensures Lossy(bytes) == output + bytes[used..used + v] + REPLACEMENT
  {
    hide FromUtf8, DecodedText, Unfinished, Lossy;
    var rest := bytes[used..];
    FinalStep(rest);
    assert rest[..v] == bytes[used..used + v] && rest[v..] == bytes[used + v..];
    Assoc(output, rest[..v], REPLACEMENT);
  }

  /** The validator rejects `n` bytes after `v` good ones. */
  lemma RejectedProgress(bytes: Bytes, output: Bytes, used: nat, v: nat, n: nat)
    requires Progress(bytes, output, used) && FromUtf8(bytes[used..]) == Invalid(v, Some(n))
    ensures n > 0 && used + v + n <= |bytes|
    ensures Progress(bytes, output + bytes[used..used + v] + REPLACEMENT, used + v + n)
  {
    hide FromUtf8, DecodedText, Unfinished, Lossy;
    ValidatorReport(bytes[used..]);
    RejectedStep(bytes[used..], v, n);
    var rest, later := bytes[used..], bytes[used + v + n..];
    assert rest[..v] == bytes[used..used + v] && rest[v + n..] == later;
    Assoc(output, rest[..v], REPLACEMENT);
    Assoc(output, rest[..v] + REPLACEMENT, DecodedText(later));
    Assoc(output, rest[..v] + REPLACEMENT, Lossy(later));
  }

  // ---------------------------------------------------------------------
  // The broker's decoder.

  /** `decode_utf8_stream`: the decoded text and the number of bytes used. */
  method DecodeUtf8Stream(bytes: Bytes) returns (output: Bytes, offset: nat)
    ensures output == DecodedText(bytes)
    ensures offset <= |bytes| && bytes[offset..] == Unfinished(bytes)
  {
    hide *;
    output := [];
    offset := 0;
    NoProgress(bytes);
    while offset < |bytes|
      invariant offset <= |bytes| && Progress(bytes, output, offset)
    {
      ghost var was, start := output, offset;
      ValidatorReport(bytes[offset..]);
      match FromUtf8(bytes[offset..])
      case AllValid =>
        AcceptedProgress(bytes, output, offset);
        output := output + bytes[offset..];
        offset := |bytes|;
      case Invalid(valid, errorLen) =>
        if valid > 0 {
          output := output + bytes[offset..offset + valid];
          offset := offset + valid;
        }
        assert output == was + bytes[start..start + valid];
        match errorLen
        case Some(length) =>
          RejectedProgress(bytes, was, start, valid, length);
          output := output + REPLACEMENT;
          offset := offset + length;
        case None =>
          StoppedProgress(bytes, was, start, valid);
          return;
    }
    AllProgress(bytes, output);
  }

  /** The texts `read_serial` broadcasts: what each batch completes, unless that is
      nothing, and the rest when the port ends. */
  function Broadcasts(pending: Bytes, batches: seq<Bytes>): seq<Bytes>
    decreases |batches|
  {
    if batches == [] then if pending == [] then [] else [Lossy(pending)]
    else
      var bytes := pending + batches[0];
      (if DecodedText(bytes) == [] then [] else [DecodedText(bytes)])
      + Broadcasts(Unfinished(bytes), batches[1..])
  }

  lemma FlattenOne(text: Bytes)
    ensures Flatten([text]) == text && Flatten<Byte>([]) == []
  {
    assert [text][1..] == [];
  }

  /** Whatever the batches are, the texts together are the one-shot lossy decoding of
      all bytes, and each of them is well-formed text. */
  lemma {:induction false} BroadcastsAreLossy(pending: Bytes, batches: seq<Bytes>)
    ensures Flatten(Broadcasts(pending, batches)) == Lossy(pending + Flatten(batches))
    ensures forall text | text in Broadcasts(pending, batches) :: Valid(text) && text != []
    decreases |batches|
  {
    hide DecodedText, Unfinished, Lossy, Valid;
    NothingLeft();
    if batches == [] {
      assert pending + Flatten(batches) == pending;
      FlattenOne(Lossy(pending));
      LossyIsWellFormed(pending);
      LossyIsSome(pending);
    } else {
      var bytes, tail := pending + batches[0], Flatten(batches[1..]);
      var text, later := DecodedText(bytes), Broadcasts(Unfinished(bytes), batches[1..]);
      Assoc(pending, batches[0], tail);
      DecodingResumes(bytes, tail);
      DecodedTextIsValid(bytes);
      BroadcastsAreLossy(Unfinished(bytes), batches[1..]);
      FlattenOne(text);
      FlattenConcat([text], later);
      assert [] + later == later;
    }
  }

  lemma BroadcastsStep(pending: Bytes, batches: seq<Bytes>)
    requires batches != []
    ensures var bytes := pending + batches[0];
            Broadcasts(pending, batches) ==
            (if DecodedText(bytes) == [] then [] else [DecodedText(bytes)])
            + Broadcasts(Unfinished(bytes), batches[1..])
  {
    hide DecodedText, Unfinished, Lossy;
  }

  lemma BroadcastsEnd(pending: Bytes)
    ensures Broadcasts(pending, []) == if pending == [] then [] else [Lossy(pending)]
  {
    hide DecodedText, Unfinished, Lossy;
  }

  lemma LossyIsSome(s: Bytes)
    ensures s != [] ==> Lossy(s) != []
  {
  }

  /** The decoding part of `read_serial`, with the texts it broadcasts. */
  method ReadSerial(batches: seq<Bytes>) returns (sent: seq<Bytes>)
    ensures sent == Broadcasts([], batches)
  {
    hide Lossy, DecodedText, Unfinished, Broadcasts;
    var pending: Bytes := [];
    sent := [];
    NothingLeft();
    assert batches[0..] == batches;
    for i := 0 to |batches|
      invariant |pending| <= 3
      invariant Broadcasts([], batches) == sent + Broadcasts(pending, batches[i..])
    {
      assert batches[i..][0] == batches[i] && batches[i..][1..] == batches[i + 1..];
      BroadcastsStep(pending, batches[i..]);
      pending := pending + batches[i];
      AtMostThreePending(pending);
      ghost var later := Broadcasts(Unfinished(pending), batches[i + 1..]);
      var text, consumed := DecodeUtf8Stream(pending);
      pending := pending[consumed..];
      Assoc(sent, if text == [] then [] else [text], later);
      if text != [] {
        sent := sent + [text];
      }
    }
    assert batches[|batches|..] == [];
    BroadcastsEnd(pending);
    if pending != [] {
      sent := sent + [Lossy(pending)];
    }
  }

  // ---------------------------------------------------------------------
  // The gateway's decoder.

  /** The byte vector that the gateway drains in place. */
  class Pending {
    var bytes: Bytes

    constructor ()
      ensures bytes == []
    {
      bytes := [];
    }

    method Extend(more: Bytes)
      modifies this
      ensures bytes == old(bytes) + more
    {
      bytes := bytes + more;
    }

    /** `drain_lossy_utf8`. */
    method DrainLossyUtf8(eof: bool) returns (output: Bytes)
      modifies this
      ensures eof ==> output == Lossy(old(bytes)) && bytes == []
      ensures !eof ==> output == DecodedText(old(bytes)) && bytes == Unfinished(old(bytes))
    {
      hide *;
      output := [];
      var consumed := 0;
      NoProgress(bytes);
      while consumed < |bytes|
        invariant bytes == old(bytes) && consumed <= |bytes| && Progress(bytes, output, consumed)
      {
        ghost var was, start := output, consumed;
        ValidatorReport(bytes[consumed..]);
        match FromUtf8(bytes[consumed..])
        case AllValid =>
          AcceptedProgress(bytes, output, consumed);
          output := output + bytes[consumed..];
          consumed := |bytes|;
        case Invalid(valid, errorLen) =>
          if valid > 0 {
            output := output + bytes[consumed..consumed + valid];
            consumed := consumed + valid;
          }
          assert output == was + bytes[start..start + valid];
          match errorLen
          case Some(length) =>
            RejectedProgress(bytes, was, start, valid, length);
            output := output + REPLACEMENT;
            consumed := consumed + length;
          case None =>
            StoppedProgress(bytes, was, start, valid);
            if eof {
              output := output + REPLACEMENT;
              consumed := |bytes|;
            }
            bytes := bytes[consumed..];
            return;
      }
      AllProgress(bytes, output);
      bytes := bytes[consumed..];
    }
  }

  /** The driving loop of `lossy_text_stream_body`: the reads of all files run
      through one pending buffer, so a character may span two files. */
  method LossyTextStreamBody(files: seq<seq<Bytes>>) returns (outputs: seq<Bytes>)
    ensures Flatten(outputs) == Lossy(Flatten(Flatten(files)))
  {
    hide Lossy, DecodedText, Unfinished;
    var pending := new Pending();
    outputs := [];
    ghost var tail := Flatten(Flatten(files));
    ghost var whole := Lossy(tail);
    assert files[0..] == files && pending.bytes + tail == tail;
    for f := 0 to |files|
      invariant |pending.bytes| <= 3 && tail == Flatten(Flatten(files[f..]))
      invariant Flatten(outputs) + Lossy(pending.bytes + tail) == whole
    {
      var blocks := files[f];
      ghost var later := Flatten(files[f + 1..]);
      assert files[f..][1..] == files[f + 1..];
      FlattenConcat(blocks, later);
      assert blocks[0..] == blocks;
      for r := 0 to |blocks|
        invariant |pending.bytes| <= 3 && tail == Flatten(blocks[r..]) + Flatten(later)
        invariant Flatten(outputs) + Lossy(pending.bytes + tail) == whole
      {
        assert blocks[r..][1..] == blocks[r + 1..];
        tail := Flatten(blocks[r + 1..]) + Flatten(later);
        Assoc(blocks[r], Flatten(blocks[r + 1..]), Flatten(later));
        Assoc(pending.bytes, blocks[r], tail);
        pending.Extend(blocks[r]);
        DecodingResumes(pending.bytes, tail);
        AtMostThreePending(pending.bytes);
        var output := pending.DrainLossyUtf8(false);
        Assoc(Flatten(outputs), output, Lossy(pending.bytes + tail));
        if output != [] {
          FlattenSnoc(outputs, output);
          outputs := outputs + [output];
        }
      }
      assert tail == Flatten(later);
    }
    assert tail == [] && pending.bytes + tail == pending.bytes;
    var output := pending.DrainLossyUtf8(true);
    if output != [] {
      FlattenSnoc(outputs, output);
      outputs := outputs + [output];
    }
  }
}
