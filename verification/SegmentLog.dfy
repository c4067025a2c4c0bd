/** The segment files of one recorded serial session: rotation, the index
    beside each segment, and the order in which a download reads them. */
module SegmentLog {
  import opened Common

  /** One index line; `lineBytes` is the length of its JSON text. */
  datatype IndexEntry = IndexEntry(segment: nat, sequence: nat, offset: nat, length: nat, lineBytes: nat)

  /** The two files of a segment. Segment number `n` is the element `n - 1`. */
  datatype Segment = Segment(raw: Bytes, index: seq<IndexEntry>)

  type Segments = seq<Segment>

  /** The writer's view of a session that is being recorded. */
  datatype Active = Active(segment: nat, segmentBytes: nat, sequence: nat,
                           bytes: nat, records: nat, failed: bool)

  const FRESH_FILES: Segments := [Segment([], [])]
  const FRESH: Active := Active(1, 0, 0, 0, 0, false)

  // ---------------------------------------------------------------------
  // Writing one record.

  predicate Rotates(active: Active, length: nat, limit: nat) {
    active.segmentBytes > 0 && active.segmentBytes + length > limit
  }

  function EntryFor(active: Active, length: nat, line: nat, limit: nat): IndexEntry {
    if Rotates(active, length, limit) then
      IndexEntry(active.segment + 1, active.sequence + 1, 0, length, line)
    else IndexEntry(active.segment, active.sequence + 1, active.segmentBytes, length, line)
  }

  function Opened(files: Segments, active: Active, length: nat, limit: nat): Segments {
    if Rotates(active, length, limit) then files + FRESH_FILES else files
  }

  function Extended(files: Segments, bytes: Bytes, entry: IndexEntry): (r: Segments)
    requires files != []
    ensures |r| == |files|
  {
    var last := files[|files| - 1];
    files[|files| - 1 := Segment(last.raw + bytes, last.index + [entry])]
  }

  function Written(files: Segments, active: Active, bytes: Bytes, line: nat, limit: nat): (r: Segments)
    requires files != []
    ensures r != []
  {
    Extended(Opened(files, active, |bytes|, limit), bytes, EntryFor(active, |bytes|, line, limit))
  }

  function Advanced(active: Active, length: nat, limit: nat): Active {
    var rotate := Rotates(active, length, limit);
    Active(active.segment + if rotate then 1 else 0,
           (if rotate then 0 else active.segmentBytes) + length,
           active.sequence + 1, active.bytes + length, active.records + 1, active.failed)
  }

  // ---------------------------------------------------------------------
  // What the files say about the records.

  function Raws(files: Segments): Bytes {
    if files == [] then [] else Raws(files[..|files| - 1]) + files[|files| - 1].raw
  }

  function Entries(files: Segments): seq<IndexEntry> {
    if files == [] then [] else Entries(files[..|files| - 1]) + files[|files| - 1].index
  }

  function NonEmptyRecords(index: seq<IndexEntry>): nat {
    if index == [] then 0
    else NonEmptyRecords(index[..|index| - 1]) + if index[|index| - 1].length > 0 then 1 else 0
  }

  /** The entry names exactly these bytes of the segment files. */
  predicate Locates(files: Segments, e: IndexEntry, bytes: Bytes) {
    && 1 <= e.segment <= |files|
    && e.length == |bytes|
    && e.offset + e.length <= |files[e.segment - 1].raw|
    && files[e.segment - 1].raw[e.offset..e.offset + e.length] == bytes
  }

  /** `e` starts where `previous` ends, or at the start of the next segment: there
      exactly when the segment holds something already and would outgrow the limit. */
  predicate Continues(e: IndexEntry, previous: IndexEntry, limit: nat) {
    var end := previous.offset + previous.length;
    if end > 0 && end + e.length > limit then e.segment == previous.segment + 1 && e.offset == 0
    else e.segment == previous.segment && e.offset == end
  }

  predicate SegmentOk(s: Segment, number: nat, limit: nat) {
    && (|s.raw| > limit ==> NonEmptyRecords(s.index) == 1)
    && (s.raw == [] ==> NonEmptyRecords(s.index) == 0)
    && forall e | e in s.index :: e.segment == number
  }

  /** Each entry locates its own record and continues where the one before ends. */
  ghost predicate EntriesTile(files: Segments, entries: seq<IndexEntry>, records: seq<Bytes>, limit: nat) {
    && |entries| == |records|
    && (forall k | 0 <= k < |records| ::
          Locates(files, entries[k], records[k]) && entries[k].sequence == k + 1)
    && forall k | 0 < k < |records| :: Continues(entries[k], entries[k - 1], limit)
  }

  /** The index entries of all segments in order tile the raw files and locate
      exactly the accepted records. */
  ghost predicate Tiles(files: Segments, active: Active, records: seq<Bytes>, limit: nat) {
    var entries := Entries(files);
    && |files| == active.segment > 0
    && |files[|files| - 1].raw| == active.segmentBytes
    && Raws(files) == Flatten(records)
    && active.bytes == |Raws(files)| && active.records == active.sequence == |records|
    && EntriesTile(files, entries, records, limit)
    && (if records == [] then active.segment == 1 && active.segmentBytes == 0
        else
          var last := entries[|entries| - 1];
          last.segment == active.segment && last.offset + last.length == active.segmentBytes)
    && (records != [] ==> entries[0].segment == 1 && entries[0].offset == 0)
    && (forall i | 0 <= i < |files| :: SegmentOk(files[i], i + 1, limit))
  }

  lemma FreshTiles(limit: nat)
    ensures Tiles(FRESH_FILES, FRESH, [], limit)
  {
    assert FRESH_FILES[..0] == [];
  }

  lemma ExtendedContents(files: Segments, bytes: Bytes, entry: IndexEntry)
    requires files != []
    ensures Raws(Extended(files, bytes, entry)) == Raws(files) + bytes
    ensures Entries(Extended(files, bytes, entry)) == Entries(files) + [entry]
  {
    var n := |files| - 1;
    var r := Extended(files, bytes, entry);
    assert r[..n] == files[..n];
    Assoc(Raws(files[..n]), files[n].raw, bytes);
    Assoc(Entries(files[..n]), files[n].index, [entry]);
  }

  lemma OpenedContents(files: Segments, active: Active, length: nat, limit: nat)
    ensures Raws(Opened(files, active, length, limit)) == Raws(files)
    ensures Entries(Opened(files, active, length, limit)) == Entries(files)
  {
    var r := Opened(files, active, length, limit);
    if Rotates(active, length, limit) {
      assert r[..|r| - 1] == files && r[|r| - 1] == Segment([], []);
    }
  }

  lemma LocatedStays(files: Segments, active: Active, bytes: Bytes, line: nat, limit: nat,
                     e: IndexEntry, record: Bytes)
    requires files != [] && Locates(files, e, record)
    ensures Locates(Written(files, active, bytes, line, limit), e, record)
  {
    var r := Written(files, active, bytes, line, limit);
    var i := e.segment - 1;
    assert files[i].raw <= r[i].raw;
    assert r[i].raw[e.offset..e.offset + e.length] == files[i].raw[e.offset..e.offset + e.length];
  }

  lemma NewIsLocated(files: Segments, active: Active, bytes: Bytes, line: nat, limit: nat)
    requires |files| == active.segment > 0 && |files[|files| - 1].raw| == active.segmentBytes
    ensures Locates(Written(files, active, bytes, line, limit),
                    EntryFor(active, |bytes|, line, limit), bytes)
  {
    var r := Written(files, active, bytes, line, limit);
    var raw := Opened(files, active, |bytes|, limit)[|r| - 1].raw;
    assert r[|r| - 1].raw == raw + bytes;
    assert (raw + bytes)[|raw|..|raw| + |bytes|] == bytes;
  }

  lemma SegmentsStayOk(files: Segments, active: Active, bytes: Bytes, line: nat, limit: nat)
    requires |files| == active.segment > 0 && |files[|files| - 1].raw| == active.segmentBytes
    requires forall i | 0 <= i < |files| :: SegmentOk(files[i], i + 1, limit)
    ensures var r := Written(files, active, bytes, line, limit);
            forall i | 0 <= i < |r| :: SegmentOk(r[i], i + 1, limit)
  {
    var ready := Opened(files, active, |bytes|, limit);
    var entry := EntryFor(active, |bytes|, line, limit);
    var r := Written(files, active, bytes, line, limit);
    var n := |r| - 1;
    assert SegmentOk(ready[n], n + 1, limit);
    assert r[n].index[..|r[n].index| - 1] == ready[n].index;
    forall i | 0 <= i < n ensures SegmentOk(r[i], i + 1, limit) {
      assert r[i] == files[i];
    }
  }

  lemma EntriesStayLocated(files: Segments, active: Active, records: seq<Bytes>, limit: nat,
                           bytes: Bytes, line: nat)
    requires Tiles(files, active, records, limit)
    ensures var r := Written(files, active, bytes, line, limit);
            var after := Entries(files) + [EntryFor(active, |bytes|, line, limit)];
            forall k | 0 <= k < |records| + 1 ::
              Locates(r, after[k], (records + [bytes])[k]) && after[k].sequence == k + 1
  {
    hide Raws, Entries, SegmentOk, Written, Locates;
    var before := Entries(files);
    NewIsLocated(files, active, bytes, line, limit);
    forall k | 0 <= k < |records|
      ensures Locates(Written(files, active, bytes, line, limit), before[k], records[k])
    {
      LocatedStays(files, active, bytes, line, limit, before[k], records[k]);
    }
  }

  lemma EntriesContinue(files: Segments, active: Active, records: seq<Bytes>, limit: nat,
                        bytes: Bytes, line: nat)
    requires Tiles(files, active, records, limit)
    ensures var after := Entries(files) + [EntryFor(active, |bytes|, line, limit)];
            && (forall k | 0 < k < |records| + 1 :: Continues(after[k], after[k - 1], limit))
            && after[0].segment == 1 && after[0].offset == 0
  {
    hide Raws, Entries, SegmentOk, Locates;
    var before := Entries(files);
    assert forall k | 0 < k < |records| :: Continues(before[k], before[k - 1], limit);
  }

  /** Writing a record keeps the tiling. */
  lemma WriteKeepsTiles(files: Segments, active: Active, records: seq<Bytes>, limit: nat,
                        bytes: Bytes, line: nat)
    requires Tiles(files, active, records, limit)
    ensures Tiles(Written(files, active, bytes, line, limit), Advanced(active, |bytes|, limit),
                  records + [bytes], limit)
  {
    hide Raws, Entries, SegmentOk, Written, Locates, Continues;
    WrittenContents(files, active, bytes, line, limit);
    FlattenSnoc(records, bytes);
    EntriesStayLocated(files, active, records, limit, bytes, line);
    EntriesContinue(files, active, records, limit, bytes, line);
    SegmentsStayOk(files, active, bytes, line, limit);
    LastSegment(files, active, bytes, line, limit);
  }

  lemma WrittenContents(files: Segments, active: Active, bytes: Bytes, line: nat, limit: nat)
    requires files != []
    ensures Raws(Written(files, active, bytes, line, limit)) == Raws(files) + bytes
    ensures Entries(Written(files, active, bytes, line, limit))
         == Entries(files) + [EntryFor(active, |bytes|, line, limit)]
  {
    OpenedContents(files, active, |bytes|, limit);
    ExtendedContents(Opened(files, active, |bytes|, limit), bytes, EntryFor(active, |bytes|, line, limit));
  }

  lemma LastSegment(files: Segments, active: Active, bytes: Bytes, line: nat, limit: nat)
    requires |files| == active.segment > 0 && |files[|files| - 1].raw| == active.segmentBytes
    ensures var r, a := Written(files, active, bytes, line, limit), Advanced(active, |bytes|, limit);
            |r| == a.segment && |r[|r| - 1].raw| == a.segmentBytes
  {
  }

  // ---------------------------------------------------------------------
  // Any sequence of accepted records.

  /** The state after accepting `records`, whatever their index lines weigh. */
  function Recorded(records: seq<Bytes>, lines: seq<nat>, limit: nat): (r: (Segments, Active))
    requires |records| == |lines|
    ensures r.0 != []
  {
    if records == [] then (FRESH_FILES, FRESH)
    else
      var n := |records| - 1;
      var before := Recorded(records[..n], lines[..n], limit);
      (Written(before.0, before.1, records[n], lines[n], limit), Advanced(before.1, |records[n]|, limit))
  }

  lemma {:induction false} RecordsAreTiled(records: seq<Bytes>, lines: seq<nat>, limit: nat)
    requires |records| == |lines|
    ensures var (files, active) := Recorded(records, lines, limit); Tiles(files, active, records, limit)
    decreases |records|
  {
    hide Tiles;
    if records == [] {
      FreshTiles(limit);
    } else {
      var n := |records| - 1;
      var before := Recorded(records[..n], lines[..n], limit);
      RecordsAreTiled(records[..n], lines[..n], limit);
      WriteKeepsTiles(before.0, before.1, records[..n], limit, records[n], lines[n]);
      assert records[..n] + [records[n]] == records;
    }
  }

  // ---------------------------------------------------------------------
  // File names and download order.

  /** Byte-wise comparison of file names. */
  predicate Less(a: Bytes, b: Bytes) {
    b != [] && (a == [] || a[0] < b[0] || (a[0] == b[0] && Less(a[1..], b[1..])))
  }

  function Digits(n: nat, width: nat): Bytes {
    if width == 0 then [] else Digits(n / 10, width - 1) + [48 + n % 10]
  }

  function Length(n: nat): nat {
    if n < 10 then 1 else 1 + Length(n / 10)
  }

  /** "rx-", the number padded to six digits, and ".bin". */
  function RawName(segment: nat): Bytes {
    [114, 120, 45] + Digits(segment, Max(6, Length(segment))) + [46, 98, 105, 110]
  }

  lemma {:induction false} LessDigits(n: nat, m: nat, width: nat, s: Bytes, t: Bytes)
    requires n < m && Length(m) <= width
    ensures Less(Digits(n, width) + s, Digits(m, width) + t)
    decreases width
  {
    var x, y: Byte := 48 + n % 10, 48 + m % 10;
    var a, b := Digits(n / 10, width - 1), Digits(m / 10, width - 1);
    assert Digits(n, width) + s == a + ([x] + s);
    assert Digits(m, width) + t == b + ([y] + t);
    if n / 10 < m / 10 {
      LessDigits(n / 10, m / 10, width - 1, [x] + s, [y] + t);
    } else {
      assert n / 10 == m / 10 && x < y;
      LessAfterPrefix(a, [x] + s, [y] + t);
    }
  }

  lemma {:induction false} LessAfterPrefix(p: Bytes, a: Bytes, b: Bytes)
    ensures Less(p + a, p + b) <==> Less(a, b)
  {
    if p == [] {
      assert p + a == a && p + b == b;
    } else {
      assert (p + a)[1..] == p[1..] + a && (p + b)[1..] == p[1..] + b;
      LessAfterPrefix(p[1..], a, b);
    }
  }

  lemma {:induction false} LengthMonotone(n: nat, m: nat)
    requires n <= m
    ensures Length(n) <= Length(m)
    decreases m
  {
    if n >= 10 {
      LengthMonotone(n / 10, m / 10);
    }
  }

  lemma SixDigits()
    ensures Length(999_999) == 6 && Length(1_000_000) == 7
  {
    assert Length(9) == 1;
    assert Length(99) == 2;
    assert Length(999) == 3;
    assert Length(9_999) == 4;
    assert Length(99_999) == 5;
    assert Length(10) == 2;
    assert Length(100) == 3;
    assert Length(1_000) == 4;
    assert Length(10_000) == 5;
    assert Length(100_000) == 6;
  }

  lemma NamesInOrder(n: nat, m: nat)
    requires n < m < 1_000_000
    ensures Less(RawName(n), RawName(m))
  {
    SixDigits();
    LengthMonotone(n, 999_999);
    LengthMonotone(m, 999_999);
    var prefix: Bytes, suffix: Bytes := [114, 120, 45], [46, 98, 105, 110];
    LessDigits(n, m, 6, suffix, suffix);
    LessAfterPrefix(prefix, Digits(n, 6) + suffix, Digits(m, 6) + suffix);
    Assoc(prefix, Digits(n, 6), suffix);
    Assoc(prefix, Digits(m, 6), suffix);
  }

  lemma {:induction false} FirstDigit(n: nat, width: nat)
    requires width > 0
    ensures Digits(n, width) != []
    ensures width == 1 ==> Digits(n, width)[0] == 48 + n % 10
    ensures width > 1 ==> Digits(n, width)[0] == Digits(n / 10, width - 1)[0]
  {
    if width > 1 {
      FirstDigit(n / 10, width - 1);
    }
  }

  lemma FirstDigits()
    ensures Digits(1_000_000, 7) != [] && Digits(1_000_000, 7)[0] == 49
    ensures Digits(999_999, 6) != [] && Digits(999_999, 6)[0] == 57
  {
    hide Digits;
    FirstDigit(1_000_000, 7);
    FirstDigit(100_000, 6);
    FirstDigit(10_000, 5);
    FirstDigit(1_000, 4);
    FirstDigit(100, 3);
    FirstDigit(10, 2);
    FirstDigit(1, 1);
    FirstDigit(999_999, 6);
    FirstDigit(99_999, 5);
    FirstDigit(9_999, 4);
    FirstDigit(999, 3);
    FirstDigit(99, 2);
    FirstDigit(9, 1);
  }

  /** The name of segment 1,000,000 sorts before that of segment 999,999. */
  lemma MillionOutOfOrder()
    ensures Less(RawName(1_000_000), RawName(999_999))
  {
    hide Digits, Length;
    SixDigits();
    FirstDigits();
    var prefix: Bytes, suffix: Bytes := [114, 120, 45], [46, 98, 105, 110];
    var a, b := Digits(1_000_000, 7), Digits(999_999, 6);
    assert Less(a + suffix, b + suffix);
    LessAfterPrefix(prefix, a + suffix, b + suffix);
    Assoc(prefix, a, suffix);
    Assoc(prefix, b, suffix);
  }

  lemma {:induction false} LessIsAsymmetric(a: Bytes, b: Bytes)
    requires Less(a, b)
    ensures !Less(b, a)
  {
    if a != [] && a[0] == b[0] {
      LessIsAsymmetric(a[1..], b[1..]);
    }
  }

  /** Sorting the names of `n` segments puts them in segment order exactly when
      there are fewer than 1,000,000 of them. */
  lemma NamesSortNumerically(n: nat)
    ensures (forall i, j | 1 <= i < j <= n :: Less(RawName(i), RawName(j))) <==> n < 1_000_000
  {
    hide Less, RawName;
    if n < 1_000_000 {
      forall i, j | 1 <= i < j <= n ensures Less(RawName(i), RawName(j)) {
        NamesInOrder(i, j);
      }
    } else {
      MillionOutOfOrder();
      LessIsAsymmetric(RawName(1_000_000), RawName(999_999));
    }
  }

  /** The segment numbers in the order a directory listing sorted by name gives
      them. */
  ghost predicate SortedListing(order: seq<nat>, n: nat) {
    && |order| == n
    && (forall i | 0 <= i < n :: 1 <= order[i] <= n)
    && (forall i, j | 0 <= i < j < n :: Less(RawName(order[i]), RawName(order[j])))
  }

  lemma {:induction false} AtLeast(order: seq<nat>, n: nat, i: nat)
    requires |order| == n && i < n && (forall k | 0 <= k < n :: 1 <= order[k] <= n)
    requires forall k | 0 < k < n :: order[k - 1] < order[k]
    ensures order[i] >= i + 1
  {
    if i > 0 {
      AtLeast(order, n, i - 1);
    }
  }

  lemma {:induction false} AtMost(order: seq<nat>, n: nat, i: nat)
    requires |order| == n && i < n && (forall k | 0 <= k < n :: 1 <= order[k] <= n)
    requires forall k | 0 < k < n :: order[k - 1] < order[k]
    ensures order[i] <= i + 1
    decreases n - i
  {
    if i + 1 < n {
      AtMost(order, n, i + 1);
      assert order[i] < order[i + 1];
    }
  }

  lemma ListingIsNumeric(order: seq<nat>, n: nat)
    requires n < 1_000_000 && SortedListing(order, n)
    ensures forall i | 0 <= i < n :: order[i] == i + 1
  {
    hide Less, RawName;
    forall k | 0 < k < n
      ensures order[k - 1] < order[k]
    {
      var a, b := order[k - 1], order[k];
      assert Less(RawName(a), RawName(b));
      LessIsAsymmetric(RawName(a), RawName(b));
      if b < a {
        NamesInOrder(b, a);
      }
    }
    forall i | 0 <= i < n
      ensures order[i] == i + 1
    {
      AtLeast(order, n, i);
      AtMost(order, n, i);
    }
  }

  /** `read_matching`: the raw files one after the other. */
  function Download(files: Segments, order: seq<nat>): Bytes
    requires forall i | 0 <= i < |order| :: 1 <= order[i] <= |files|
  {
    if order == [] then []
    else
      var n := |order| - 1;
      Download(files, order[..n]) + files[order[n] - 1].raw
  }

  lemma {:induction false} DownloadInOrder(files: Segments, order: seq<nat>, k: nat)
    requires k <= |order| == |files| && forall i | 0 <= i < |order| :: order[i] == i + 1
    ensures Download(files, order[..k]) == Raws(files[..k])
  {
    if k > 0 {
      DownloadInOrder(files, order, k - 1);
      assert order[..k][..k - 1] == order[..k - 1] && files[..k][..k - 1] == files[..k - 1];
    }
  }

  /** Below 1,000,000 segments the download is the concatenation of the accepted
      records. */
  lemma DownloadIsRecorded(files: Segments, active: Active, records: seq<Bytes>, limit: nat, order: seq<nat>)
    requires Tiles(files, active, records, limit)
    requires |files| < 1_000_000 && SortedListing(order, |files|)
    ensures Download(files, order) == Flatten(records)
  {
    ListingIsNumeric(order, |files|);
    DownloadInOrder(files, order, |files|);
    assert order[..|files|] == order && files[..|files|] == files;
  }
}
