/** The binary format of the persistent configuration: a header and the
    selected catalog items in strictly increasing order. */
module ConfigCodec {
  import opened Common

  const MAGIC: Bytes := [76, 82, 67, 70]
  const VERSION: Byte := 1
  const HEADER_SIZE: nat := 12
  const ENTRY_SIZE: nat := 4
  const MAX_ENTRIES: nat := 23
  const MAX_ENCODED_SIZE: nat := 104

  const POWER: Byte := 1
  const SWITCH: Byte := 2
  const GPIO: Byte := 3

  datatype Code = Done | NotApplicable | EmptySelection | NoSpace | Malformed

  datatype Entry = Entry(domain: Byte, itemId: Byte, value: Byte)

  datatype Item = Item(domain: Byte, itemId: Byte)

  const CATALOG: seq<Item> := [
    Item(POWER, 1), Item(POWER, 2), Item(POWER, 3), Item(POWER, 4),
    Item(SWITCH, 1), Item(SWITCH, 2), Item(SWITCH, 3), Item(SWITCH, 4),
    Item(GPIO, 7), Item(GPIO, 8), Item(GPIO, 9), Item(GPIO, 10), Item(GPIO, 11),
    Item(GPIO, 12), Item(GPIO, 13), Item(GPIO, 14), Item(GPIO, 15), Item(GPIO, 16),
    Item(GPIO, 17), Item(GPIO, 18), Item(GPIO, 19), Item(GPIO, 20), Item(GPIO, 29)]

  // ---------------------------------------------------------------------
  // Valid selections.

  predicate InCatalog(e: Entry) {
    || (e.domain == POWER && 1 <= e.itemId <= 4)
    || (e.domain == SWITCH && 1 <= e.itemId <= 4)
    || (e.domain == GPIO && (7 <= e.itemId <= 20 || e.itemId == 29))
  }

  predicate ValidEntry(e: Entry) {
    InCatalog(e) && e.value < if e.domain == GPIO then 4 else 2
  }

  predicate Follows(e: Entry, previous: Entry) {
    e.domain > previous.domain || (e.domain == previous.domain && e.itemId > previous.itemId)
  }

  predicate ValidSelection(s: seq<Entry>) {
    && s != []
    && (forall i | 0 <= i < |s| :: ValidEntry(s[i]))
    && (forall i | 0 < i < |s| :: Follows(s[i], s[i - 1]))
  }

  /** Position of an item in the catalog. */
  function Rank(e: Entry): (r: nat)
    requires InCatalog(e)
    ensures r < |CATALOG| && CATALOG[r] == Item(e.domain, e.itemId)
  {
    if e.domain == POWER then e.itemId - 1
    else if e.domain == SWITCH then e.itemId + 3
    else if e.itemId == 29 then 22
    else e.itemId + 1
  }

  lemma CatalogIsRanked(e: Entry)
    ensures InCatalog(e) <==> Item(e.domain, e.itemId) in CATALOG
  {
    if InCatalog(e) {
      assert CATALOG[Rank(e)] in CATALOG;
    }
  }

  lemma {:induction false} RanksIncrease(s: seq<Entry>, i: nat)
    requires ValidSelection(s) && i < |s|
    ensures i <= Rank(s[i])
  {
    hide CATALOG;
    if i > 0 {
      RanksIncrease(s, i - 1);
      assert Follows(s[i], s[i - 1]) && ValidEntry(s[i]) && ValidEntry(s[i - 1]);
    }
  }

  /** A strictly increasing selection cannot exceed the catalog, so it always
      fits the entry array and the encoded-size limit. */
  lemma SelectionFits(s: seq<Entry>)
    requires ValidSelection(s)
    ensures |s| <= MAX_ENTRIES
    ensures |EncodeOf(s)| <= MAX_ENCODED_SIZE
  {
    RanksIncrease(s, |s| - 1);
  }

  /** An entry is valid exactly for a catalog item with a value of its domain: off or on
      for power, one of two positions for a switch, and two bits for a pin. */
  lemma ValidEntriesAre(e: Entry)
    ensures ValidEntry(e) <==>
              && Item(e.domain, e.itemId) in CATALOG
              && e.value in (if e.domain == 3 then {0, 1, 2, 3} else {0, 1})
  {
    CatalogIsRanked(e);
  }

  /** A selection is valid exactly when its entries are valid and their items stand in
      the order of the catalog, none of them twice. */
  lemma ValidSelectionsAre(s: seq<Entry>)
    ensures ValidSelection(s) <==>
              && s != [] && (forall i | 0 <= i < |s| :: ValidEntry(s[i]))
              && forall i, j | 0 <= i < j < |s| :: Before(s[i], s[j])
  {
    if s != [] && forall i | 0 <= i < |s| :: ValidEntry(s[i]) {
      forall i | 0 < i < |s| ensures Follows(s[i], s[i - 1]) <==> Before(s[i - 1], s[i]) {
        FollowsIsBefore(s[i], s[i - 1]);
      }
      if ValidSelection(s) {
        forall i, j | 0 <= i < j < |s| ensures Before(s[i], s[j]) {
          StandsBefore(s, i, j);
        }
      }
    }
  }

  /** Somewhere in the catalog the item of `a` stands before that of `b`. */
  ghost predicate Before(a: Entry, b: Entry) {
    exists m, n | 0 <= m < n < |CATALOG| ::
      CATALOG[m] == Item(a.domain, a.itemId) && CATALOG[n] == Item(b.domain, b.itemId)
  }

  lemma RankIsUnique(e: Entry, m: nat)
    requires InCatalog(e) && m < |CATALOG| && CATALOG[m] == Item(e.domain, e.itemId)
    ensures m == Rank(e)
  {
  }

  lemma BeforeIsRanked(a: Entry, b: Entry)
    requires InCatalog(a) && InCatalog(b)
    ensures Before(a, b) <==> Rank(a) < Rank(b)
  {
    var i, j := Rank(a), Rank(b);
    hide CATALOG, Rank;
    if m, n :| 0 <= m < n < |CATALOG| && CATALOG[m] == Item(a.domain, a.itemId)
               && CATALOG[n] == Item(b.domain, b.itemId) {
      RankIsUnique(a, m);
      RankIsUnique(b, n);
    }
    assert CATALOG[i] == Item(a.domain, a.itemId) && CATALOG[j] == Item(b.domain, b.itemId);
  }

  lemma FollowsIsBefore(e: Entry, previous: Entry)
    requires InCatalog(e) && InCatalog(previous)
    ensures Follows(e, previous) <==> Before(previous, e)
  {
    BeforeIsRanked(previous, e);
    hide CATALOG, Before;
  }

  lemma {:induction false} StandsBefore(s: seq<Entry>, i: nat, j: nat)
    requires ValidSelection(s) && i < j < |s|
    ensures Before(s[i], s[j])
    decreases j
  {
    hide CATALOG, Before;
    BeforeIsRanked(s[i], s[j]);
    BeforeIsRanked(s[j - 1], s[j]);
    FollowsIsBefore(s[j], s[j - 1]);
    if i < j - 1 {
      StandsBefore(s, i, j - 1);
      BeforeIsRanked(s[i], s[j - 1]);
    }
  }

  // ---------------------------------------------------------------------
  // The format.

  function EncodedSize(n: nat): nat {
    HEADER_SIZE + n * ENTRY_SIZE
  }

  function Low(n: nat): Byte {
    n % 256
  }

  function High(n: nat): Byte {
    n / 256 % 256
  }

  function U16(low: nat, high: nat): nat {
    low + 256 * high
  }

  function Header(n: nat): Bytes {
    MAGIC + [VERSION, ENTRY_SIZE, Low(n), 0, Low(EncodedSize(n)), High(EncodedSize(n)), 0, 0]
  }

  predicate HasMagic(b: Bytes)
    requires |b| >= HEADER_SIZE
  {
    b[0] == MAGIC[0] && b[1] == MAGIC[1] && b[2] == MAGIC[2] && b[3] == MAGIC[3]
  }

  function EncodeEntries(s: seq<Entry>): (r: Bytes)
    ensures |r| == |s| * ENTRY_SIZE
  {
    if s == [] then []
    else
      var last := s[|s| - 1];
      EncodeEntries(s[..|s| - 1]) + [last.domain, last.itemId, last.value, 0]
  }

  function EncodeOf(s: seq<Entry>): (r: Bytes)
    ensures |r| == EncodedSize(|s|)
  {
    Header(|s|) + EncodeEntries(s)
  }

  function EntryAt(b: Bytes, i: nat): Entry
    requires EncodedSize(i + 1) <= |b|
  {
    Entry(b[EncodedSize(i)], b[EncodedSize(i) + 1], b[EncodedSize(i) + 2])
  }

  predicate EntryOk(b: Bytes, i: nat)
    requires EncodedSize(i + 1) <= |b|
  {
    && b[EncodedSize(i) + 3] == 0
    && ValidEntry(EntryAt(b, i))
    && (i > 0 ==> Follows(EntryAt(b, i), EntryAt(b, i - 1)))
  }

  /** The entry count announced by an acceptable header. */
  function DecodeHeader(b: Bytes): (r: Result<nat, Code>)
    ensures r.Ok? ==> 1 <= r.value <= MAX_ENTRIES && |b| == EncodedSize(r.value)
  {
    if |b| < HEADER_SIZE || !HasMagic(b) then Err(Malformed)
    else if b[4] != VERSION then Err(NotApplicable)
    else if b[5] != ENTRY_SIZE || b[6] > MAX_ENTRIES || b[7] != 0 || b[10] != 0 || b[11] != 0 then
      Err(Malformed)
    else if U16(b[8], b[9]) != EncodedSize(b[6]) || |b| != EncodedSize(b[6]) then Err(Malformed)
    else if b[6] == 0 then Err(EmptySelection)
    else Ok(b[6])
  }

  function DecodeEntries(b: Bytes, n: nat): (r: Result<seq<Entry>, Code>)
    requires |b| == EncodedSize(n)
    ensures r.Ok? <==> forall i | 0 <= i < n :: EntryOk(b, i)
    ensures r.Ok? ==> |r.value| == n && forall i | 0 <= i < n :: r.value[i] == EntryAt(b, i)
    ensures r.Err? ==> r.error == Malformed
  {
    if forall i | 0 <= i < n :: EntryOk(b, i) then
      Ok(seq(n, i requires 0 <= i < n => EntryAt(b, i)))
    else Err(Malformed)
  }

  function DecodeOf(b: Bytes): Result<seq<Entry>, Code> {
    match DecodeHeader(b)
    case Err(e) => Err(e)
    case Ok(n) => DecodeEntries(b, n)
  }

  // ---------------------------------------------------------------------
  // The round trip.

  lemma {:induction false} EncodedEntry(s: seq<Entry>, i: nat)
    requires i < |s|
    ensures EncodeEntries(s)[i * ENTRY_SIZE..(i + 1) * ENTRY_SIZE]
         == [s[i].domain, s[i].itemId, s[i].value, 0]
  {
    var front, last := s[..|s| - 1], s[|s| - 1];
    var head, tail := EncodeEntries(front), [last.domain, last.itemId, last.value, 0];
    assert EncodeEntries(s) == head + tail;
    if i < |s| - 1 {
      EncodedEntry(front, i);
      assert (head + tail)[i * ENTRY_SIZE..(i + 1) * ENTRY_SIZE]
          == head[i * ENTRY_SIZE..(i + 1) * ENTRY_SIZE];
    } else {
      assert (head + tail)[|head|..|head| + |tail|] == tail;
    }
  }

  /** The encoding, byte by byte. */
  predicate IsEncoding(b: Bytes, s: seq<Entry>) {
    && |b| == EncodedSize(|s|)
    && IsHeader(b, |s|)
    && forall i | 0 <= i < |s| :: EntryAt(b, i) == s[i] && b[EncodedSize(i) + 3] == 0
  }

  predicate IsHeader(b: Bytes, n: nat)
    requires |b| >= HEADER_SIZE
  {
    && HasMagic(b) && b[4] == VERSION && b[5] == ENTRY_SIZE && b[6] == Low(n) && b[7] == 0
    && b[8] == Low(EncodedSize(n)) && b[9] == High(EncodedSize(n)) && b[10] == 0 && b[11] == 0
  }

  lemma EncodedEntryBytes(s: seq<Entry>, i: nat)
    requires i < |s|
    ensures EntryAt(EncodeOf(s), i) == s[i] && EncodeOf(s)[EncodedSize(i) + 3] == 0
  {
    hide EncodeEntries, Header;
    EncodedEntry(s, i);
    var entries, at := EncodeEntries(s), i * ENTRY_SIZE;
    var cut := entries[at..at + ENTRY_SIZE];
    assert entries[at] == cut[0] && entries[at + 1] == cut[1] && entries[at + 2] == cut[2]
        && entries[at + 3] == cut[3];
  }

  lemma EncodeIsEncoding(s: seq<Entry>)
    ensures IsEncoding(EncodeOf(s), s)
  {
    hide EncodeEntries;
    forall i | 0 <= i < |s|
      ensures EntryAt(EncodeOf(s), i) == s[i] && EncodeOf(s)[EncodedSize(i) + 3] == 0
    {
      EncodedEntryBytes(s, i);
    }
  }

  lemma HeaderBytes(b: Bytes, n: nat)
    requires |b| == 12 + 4 * n && n <= 23 && IsHeader(b, n)
    ensures b[..12] == [76, 82, 67, 70, 1, 4, n, 0, 12 + 4 * n, 0, 0, 0]
  {
    assert b[..4] == MAGIC;
    assert b[0] == b[..4][0] && b[1] == b[..4][1] && b[2] == b[..4][2] && b[3] == b[..4][3];
  }

  /** The header of an encoding, byte for byte: "LRCF", version 1, entries of 4 bytes,
      the number of entries, and the total size. */
  lemma EncodedHeader(s: seq<Entry>)
    requires ValidSelection(s)
    ensures var b := EncodeOf(s);
            && |b| == 12 + 4 * |s| && |s| <= 23
            && b[..12] == [76, 82, 67, 70, 1, 4, |s|, 0, 12 + 4 * |s|, 0, 0, 0]
  {
    SelectionFits(s);
    EncodeIsEncoding(s);
    var b := EncodeOf(s);
    assert |b| == 12 + 4 * |s| && IsHeader(b, |s|);
    hide *;
    HeaderBytes(b, |s|);
  }

  /** And each entry: its domain, item, value and a zero. */
  lemma EncodedEntryIs(s: seq<Entry>, i: nat)
    requires i < |s|
    ensures var b := EncodeOf(s);
            && 16 + 4 * i <= |b|
            && b[12 + 4 * i] == s[i].domain && b[13 + 4 * i] == s[i].itemId && b[14 + 4 * i] == s[i].value
            && b[15 + 4 * i] == 0
  {
    EncodedEntryBytes(s, i);
    hide EncodeOf;
  }

  lemma EncodingIsUnique(b: Bytes, c: Bytes, s: seq<Entry>)
    requires IsEncoding(b, s) && IsEncoding(c, s)
    ensures b == c
  {
    forall k | HEADER_SIZE <= k < |b|
      ensures b[k] == c[k]
    {
      var i := (k - HEADER_SIZE) / ENTRY_SIZE;
      assert EntryAt(b, i) == s[i] == EntryAt(c, i);
      assert b[EncodedSize(i) + 3] == c[EncodedSize(i) + 3];
    }
  }

  lemma HeaderIsDecoded(b: Bytes, n: nat)
    requires |b| >= HEADER_SIZE
    ensures DecodeHeader(b) == Ok(n) <==> 1 <= n <= MAX_ENTRIES && |b| == EncodedSize(n) && IsHeader(b, n)
  {
    hide HasMagic;
    TwoBytes(b[8], b[9], EncodedSize(b[6]));
    hide U16, Low, High;
    assert b[6] == Low(b[6]) by {
      assert b[6] % 256 == b[6];
    }
    assert n <= MAX_ENTRIES ==> Low(n) == n;
  }

  lemma TwoBytes(low: Byte, high: Byte, n: nat)
    requires n < 0x1_0000
    ensures U16(low, high) == n <==> low == Low(n) && high == High(n)
  {
  }

  /** What a refused header is told, byte by byte: a foreign version is not applicable, an
      otherwise perfect header without entries is empty, and all the rest is malformed. */
  lemma HeaderErrorsAre(b: Bytes)
    ensures var named := |b| >= 12 && b[..4] == Ascii("LRCF");
            var plain := named && b[4..8] == [1, 4, 0, 0] && b[8..12] == [12, 0, 0, 0] && |b| == 12;
            && (DecodeHeader(b) == Err(NotApplicable) <==> named && b[4] != 1)
            && (DecodeHeader(b) == Err(EmptySelection) <==> plain)
            && (DecodeHeader(b).Err? ==> DecodeHeader(b).error in {NotApplicable, EmptySelection, Malformed})
  {
    assert Ascii("LRCF") == MAGIC;
    if |b| >= 12 {
      assert b[..4] == [b[0], b[1], b[2], b[3]] && b[4..8] == [b[4], b[5], b[6], b[7]];
      assert b[8..12] == [b[8], b[9], b[10], b[11]];
    }
  }

  lemma SelectionIsDecoded(b: Bytes, s: seq<Entry>)
    requires IsEncoding(b, s) && ValidSelection(s)
    ensures DecodeOf(b) == Ok(s)
  {
    hide DecodeHeader, DecodeEntries, IsHeader, EncodeOf;
    SelectionFits(s);
    HeaderIsDecoded(b, |s|);
    forall i | 0 <= i < |s|
      ensures EntryOk(b, i)
    {
      assert EntryAt(b, i) == s[i];
      if i > 0 {
        assert EntryAt(b, i - 1) == s[i - 1] && Follows(s[i], s[i - 1]);
      }
    }
    assert DecodeEntries(b, |s|).value == s;
  }

  lemma DecodedIsSelection(b: Bytes, s: seq<Entry>)
    requires DecodeOf(b) == Ok(s)
    ensures IsEncoding(b, s) && ValidSelection(s)
  {
    hide DecodeHeader, DecodeEntries, IsHeader;
    HeaderIsDecoded(b, |s|);
    forall i | 0 <= i < |s|
      ensures EntryAt(b, i) == s[i] && b[EncodedSize(i) + 3] == 0
      ensures ValidEntry(s[i]) && (i > 0 ==> Follows(s[i], s[i - 1]))
    {
      assert EntryOk(b, i);
    }
  }

  /** A buffer of any length is accepted with a selection exactly when the
      selection is valid and the buffer is its encoding. */
  lemma DecodeExactly(b: Bytes, s: seq<Entry>)
    ensures DecodeOf(b) == Ok(s) <==> ValidSelection(s) && b == EncodeOf(s)
  {
    hide EncodeOf, DecodeOf, IsEncoding, ValidSelection;
    EncodeIsEncoding(s);
    if DecodeOf(b) == Ok(s) {
      DecodedIsSelection(b, s);
      EncodingIsUnique(b, EncodeOf(s), s);
    }
    if ValidSelection(s) {
      SelectionIsDecoded(EncodeOf(s), s);
    }
  }

  // ---------------------------------------------------------------------
  // The implementation.

  method FindItem(domain: Byte, itemId: Byte) returns (found: bool)
    ensures found <==> InCatalog(Entry(domain, itemId, 0))
  {
    CatalogIsRanked(Entry(domain, itemId, 0));
    for i := 0 to |CATALOG|
      invariant Item(domain, itemId) !in CATALOG[..i]
    {
      if CATALOG[i].domain == domain && CATALOG[i].itemId == itemId {
        return true;
      }
      assert CATALOG[..i + 1] == CATALOG[..i] + [CATALOG[i]];
    }
    assert CATALOG[..|CATALOG|] == CATALOG;
    return false;
  }

  method SwitchValueValid(itemId: Byte, value: Byte) returns (ok: bool)
    ensures ok <==> 1 <= itemId <= 4 && value < 2
  {
    match itemId
    case 1 => ok := value == 0 || value == 1;
    case 2 => ok := value == 0 || value == 1;
    case 3 => ok := value == 0 || value == 1;
    case 4 => ok := value == 0 || value == 1;
    case _ => ok := false;
  }

  method ValidateEntry(e: Entry) returns (code: Code)
    ensures code == if ValidEntry(e) then Done else Malformed
  {
    var found := FindItem(e.domain, e.itemId);
    if !found {
      return Malformed;
    }
    match e.domain
    case 1 => code := if e.value == 0 || e.value == 1 then Done else Malformed;
    case 2 =>
      var ok := SwitchValueValid(e.itemId, e.value);
      code := if ok then Done else Malformed;
    case 3 => code := if e.value / 4 == 0 then Done else Malformed;
    case _ => code := Malformed;
  }

  /** Clears the bytes to be written and fills in the header. */
  method PutHeader(buffer: array<Byte>, n: nat, totalSize: nat)
    requires n <= MAX_ENTRIES && totalSize == EncodedSize(n) <= buffer.Length
    modifies buffer
    ensures IsHeader(buffer[..totalSize], n)
    ensures forall k | HEADER_SIZE <= k < totalSize :: buffer[k] == 0
    ensures forall k | totalSize <= k < buffer.Length :: buffer[k] == old(buffer[k])
  {
    ClearBytes(buffer, totalSize);
    buffer[0], buffer[1], buffer[2], buffer[3] := MAGIC[0], MAGIC[1], MAGIC[2], MAGIC[3];
    buffer[4], buffer[5], buffer[6] := VERSION, ENTRY_SIZE, n % 256;
    buffer[8], buffer[9] := totalSize % 256, totalSize / 256 % 256;
  }

  method ClearBytes(buffer: array<Byte>, n: nat)
    requires n <= buffer.Length
    modifies buffer
    ensures forall k | 0 <= k < n :: buffer[k] == 0
    ensures forall k | n <= k < buffer.Length :: buffer[k] == old(buffer[k])
  {
    forall i | 0 <= i < n {
      buffer[i] := 0;
    }
  }

  /** Only the header bytes matter to a header. */
  lemma HeaderKept(b: Bytes, c: Bytes, n: nat)
    requires |b| == |c| >= HEADER_SIZE && IsHeader(b, n)
    requires forall k | 0 <= k < HEADER_SIZE :: b[k] == c[k]
    ensures IsHeader(c, n)
  {
  }

  lemma OneEntryWritten(b: Bytes, c: Bytes, n: nat, i: nat, e: Entry)
    requires i < n && |b| == |c| == EncodedSize(n) && IsHeader(b, n)
    requires EntryAt(c, i) == e
    requires forall k | 0 <= k < |b| && !(EncodedSize(i) <= k < EncodedSize(i) + 3) :: c[k] == b[k]
    ensures IsHeader(c, n)
    ensures EntryAt(c, i) == e
    ensures forall k | 0 <= k < i :: EntryAt(c, k) == EntryAt(b, k)
    ensures forall k | 0 <= k < n :: c[EncodedSize(k) + 3] == b[EncodedSize(k) + 3]
  {
    hide IsHeader;
    HeaderKept(b, c, n);
  }

  /** Fills in the entries after the header. */
  method PutEntries(buffer: array<Byte>, entries: array<Entry>, n: nat, totalSize: nat)
    requires n <= entries.Length && totalSize == EncodedSize(n) <= buffer.Length
    requires IsHeader(buffer[..totalSize], n)
    requires forall k | HEADER_SIZE <= k < totalSize :: buffer[k] == 0
    modifies buffer
    ensures IsEncoding(buffer[..totalSize], entries[..n])
    ensures forall k | totalSize <= k < buffer.Length :: buffer[k] == old(buffer[k])
  {
    hide IsHeader;
    for i := 0 to n
      invariant IsHeader(buffer[..totalSize], n)
      invariant forall k | 0 <= k < i :: EntryAt(buffer[..totalSize], k) == entries[k]
      invariant forall k | 0 <= k < n :: buffer[..totalSize][EncodedSize(k) + 3] == 0
      invariant forall k | totalSize <= k < buffer.Length :: buffer[k] == old(buffer[k])
    {
      ghost var before := buffer[..totalSize];
      var offset := HEADER_SIZE + i * ENTRY_SIZE;
      buffer[offset] := entries[i].domain;
      buffer[offset + 1] := entries[i].itemId;
      buffer[offset + 2] := entries[i].value;
      ghost var after := buffer[..totalSize];
      OneEntryWritten(before, after, n, i, entries[i]);
    }
  }

  /** Checks the header and reads the entry count from it. */
  method ReadHeader(buffer: array<Byte>) returns (r: Result<nat, Code>)
    ensures r == DecodeHeader(buffer[..])
  {
    if buffer.Length < HEADER_SIZE || buffer[0] != MAGIC[0] || buffer[1] != MAGIC[1] ||
       buffer[2] != MAGIC[2] || buffer[3] != MAGIC[3] {
      return Err(Malformed);
    }
    if buffer[4] != VERSION {
      return Err(NotApplicable);
    }
    if buffer[5] != ENTRY_SIZE || buffer[6] > MAX_ENTRIES ||
       buffer[7] != 0 || buffer[10] != 0 || buffer[11] != 0 {
      return Err(Malformed);
    }
    var totalSize := U16(buffer[8], buffer[9]);
    var expectedSize := HEADER_SIZE + buffer[6] * ENTRY_SIZE;
    if totalSize != expectedSize || buffer.Length != totalSize {
      return Err(Malformed);
    }
    if buffer[6] == 0 {
      return Err(EmptySelection);
    }
    return Ok(buffer[6]);
  }

  /** Reads the entries after the header, giving up at the first bad one. */
  method ReadEntries(buffer: array<Byte>, n: nat, decoded: array<Entry>) returns (ok: bool)
    requires buffer.Length == EncodedSize(n) && n <= decoded.Length
    modifies decoded
    ensures ok <==> DecodeEntries(buffer[..], n).Ok?
    ensures ok ==> decoded[..n] == DecodeEntries(buffer[..], n).value
  {
    hide EntryOk, ValidEntry, Follows;
    ghost var b := buffer[..];
    for i := 0 to n
      invariant forall k | 0 <= k < i :: EntryOk(b, k) && decoded[k] == EntryAt(b, k)
    {
      var offset := HEADER_SIZE + i * ENTRY_SIZE;
      decoded[i] := Entry(buffer[offset], buffer[offset + 1], buffer[offset + 2]);
      EntryOkMeans(b, i);
      var code := ValidateEntry(decoded[i]);
      if buffer[offset + 3] != 0 || code != Done || (i > 0 && !Follows(decoded[i], decoded[i - 1])) {
        return false;
      }
    }
    return true;
  }

  lemma EntryOkMeans(b: Bytes, i: nat)
    requires EncodedSize(i + 1) <= |b|
    ensures EntryOk(b, i) <==>
              && b[EncodedSize(i) + 3] == 0
              && ValidEntry(EntryAt(b, i))
              && (i > 0 ==> Follows(EntryAt(b, i), EntryAt(b, i - 1)))
  {
  }

  /** The snapshot structure: a count and a fixed array of entries. */
  class Snapshot {
    var entryCount: nat
    const entries: array<Entry>

    constructor ()
      ensures fresh(entries) && entries.Length == MAX_ENTRIES && entryCount == 0
    {
      entries := new Entry[MAX_ENTRIES](_ => Entry(0, 0, 0));
      entryCount := 0;
    }

    function Selected(): seq<Entry>
      requires entryCount <= entries.Length
      reads this, entries
    {
      entries[..entryCount]
    }

    method Validate() returns (code: Code)
      requires entries.Length == MAX_ENTRIES
      ensures code == Done <==> entryCount <= MAX_ENTRIES && ValidSelection(Selected())
      ensures code == EmptySelection <==> entryCount == 0
      ensures code in {Done, EmptySelection, Malformed}
    {
      if entryCount == 0 {
        return EmptySelection;
      }
      if entryCount > MAX_ENTRIES {
        return Malformed;
      }
      for i := 0 to entryCount
        invariant forall k | 0 <= k < i :: ValidEntry(entries[k])
        invariant forall k | 0 < k < i :: Follows(entries[k], entries[k - 1])
      {
        var code' := ValidateEntry(entries[i]);
        if code' != Done {
          assert !ValidEntry(Selected()[i]);
          return Malformed;
        }
        if i > 0 && !Follows(entries[i], entries[i - 1]) {
          assert !Follows(Selected()[i], Selected()[i - 1]);
          return Malformed;
        }
      }
      return Done;
    }

    method Encode(buffer: array<Byte>) returns (code: Code, encodedSize: nat)
      requires entries.Length == MAX_ENTRIES
      modifies buffer
      ensures code == Done <==>
                && entryCount <= MAX_ENTRIES && ValidSelection(Selected())
                && |EncodeOf(Selected())| <= buffer.Length
      ensures code == Done ==>
                && encodedSize == |EncodeOf(Selected())|
                && buffer[..encodedSize] == EncodeOf(Selected())
                && buffer[encodedSize..] == old(buffer[encodedSize..])
      ensures code == EmptySelection <==> entryCount == 0
      ensures code == NoSpace ==> entryCount <= MAX_ENTRIES && ValidSelection(Selected())
      ensures code in {Done, EmptySelection, NoSpace, Malformed}
      ensures code != Done ==> encodedSize == 0 && buffer[..] == old(buffer[..])
    {
      hide IsEncoding, EncodeOf, ValidSelection, IsHeader;
      encodedSize := 0;
      code := Validate();
      if code != Done {
        return;
      }
      var totalSize := HEADER_SIZE + entryCount * ENTRY_SIZE;
      if buffer.Length < totalSize {
        code := NoSpace;
        return;
      }
      PutHeader(buffer, entryCount, totalSize);
      PutEntries(buffer, entries, entryCount, totalSize);
      encodedSize := totalSize;
      EncodeIsEncoding(Selected());
      EncodingIsUnique(buffer[..totalSize], EncodeOf(Selected()), Selected());
    }

    method Decode(buffer: array<Byte>) returns (code: Code)
      requires entries.Length == MAX_ENTRIES
      modifies this, entries
      ensures match DecodeOf(buffer[..])
              case Ok(s) => code == Done && entryCount == |s| <= MAX_ENTRIES && Selected() == s
              case Err(e) => code == e && entryCount == 0
    {
      hide DecodeHeader, DecodeEntries;
      entryCount := 0;
      var header := ReadHeader(buffer);
      if header.Err? {
        return header.error;
      }
      var n := header.value;
      var decoded := new Entry[MAX_ENTRIES](_ => Entry(0, 0, 0));
      var ok := ReadEntries(buffer, n, decoded);
      if !ok {
        return Malformed;
      }
      ghost var b, s := buffer[..], decoded[..n];
      entryCount := n;
      forall i | 0 <= i < MAX_ENTRIES {
        entries[i] := decoded[i];
      }
      assert entries[..n] == s && buffer[..] == b;
      code := Done;
    }
  }
}
