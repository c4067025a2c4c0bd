/** Small vocabulary shared by every module: options, results, bytes and the
    concatenation of a list of sequences. */
module Common {

  datatype Option<+T> = None | Some(value: T)

  datatype Result<+T, +E> = Ok(value: T) | Err(error: E)

  type Byte = b: int | 0 <= b < 256
  type Bytes = seq<Byte>

  function Min(a: int, b: int): int {
    if a <= b then a else b
  }

  function Max(a: int, b: int): int {
    if a <= b then b else a
  }

  /** Rust's `saturating_sub` on unsigned integers. */
  function SatSub(a: nat, b: nat): nat {
    if b <= a then a - b else 0
  }

  /** The bytes of a text of ASCII characters. */
  function Ascii(text: string): Bytes
    requires forall i | 0 <= i < |text| :: text[i] as int < 128
  {
    seq(|text|, i requires 0 <= i < |text| => text[i] as int)
  }

  function Flatten<T>(parts: seq<seq<T>>): seq<T> {
    if parts == [] then [] else parts[0] + Flatten(parts[1..])
  }

  lemma Assoc<T>(a: seq<T>, b: seq<T>, c: seq<T>)
    ensures (a + b) + c == a + (b + c)
  {
  }

  lemma SnocInjective<T>(a: seq<T>, x: T, b: seq<T>, y: T)
    requires a + [x] == b + [y]
    ensures a == b && x == y
  {
    assert |a| == |b| && (a + [x])[|a|] == (b + [y])[|b|];
    assert (a + [x])[..|a|] == (b + [y])[..|b|];
  }

  lemma {:induction false} FlattenConcat<T>(a: seq<seq<T>>, b: seq<seq<T>>)
    ensures Flatten(a + b) == Flatten(a) + Flatten(b)
  {
    if a == [] {
      assert a + b == b;
    } else {
      assert (a + b)[1..] == a[1..] + b;
      FlattenConcat(a[1..], b);
    }
  }

  lemma FlattenSnoc<T>(a: seq<seq<T>>, last: seq<T>)
    ensures Flatten(a + [last]) == Flatten(a) + last
  {
    FlattenConcat(a, [last]);
    assert [last][1..] == [];
    assert Flatten([last]) == last;
  }

  // ---------------------------------------------------------------------
  // Searching.

  predicate OccursAt<T(==)>(s: seq<T>, pattern: seq<T>, i: nat) {
    i + |pattern| <= |s| && s[i..i + |pattern|] == pattern
  }

  predicate Contains<T(==)>(s: seq<T>, pattern: seq<T>) {
    exists i | 0 <= i <= |s| :: OccursAt(s, pattern, i)
  }

  /** `str::find`: the leftmost occurrence. */
  function Find<T(==)>(s: seq<T>, pattern: seq<T>, from: nat := 0): (r: Option<nat>)
    requires from <= |s|
    ensures r.Some? ==> from <= r.value && OccursAt(s, pattern, r.value)
    ensures r.Some? ==> forall i | from <= i < r.value :: !OccursAt(s, pattern, i)
    ensures r.None? ==> forall i | from <= i :: !OccursAt(s, pattern, i)
    decreases |s| - from
  {
    if OccursAt(s, pattern, from) then Some(from)
    else if from == |s| then None
    else Find(s, pattern, from + 1)
  }

  lemma OccursPointwise<T>(s: seq<T>, pattern: seq<T>, i: nat)
    requires OccursAt(s, pattern, i)
    ensures forall k | 0 <= k < |pattern| :: pattern[k] == s[i + k]
  {
    var cut := s[i..i + |pattern|];
    assert forall k | 0 <= k < |cut| :: cut[k] == s[i + k];
  }

  // ---------------------------------------------------------------------
  // Lines.

  const NEWLINE: Byte := 10
  const RETURN: Byte := 13

  /** The length of the first line without its newline, if a newline is there. */
  function FindNewline(s: Bytes): (r: Option<nat>)
    ensures r.Some? ==> r.value < |s| && s[r.value] == NEWLINE
    ensures r.Some? ==> forall k | 0 <= k < r.value :: s[k] != NEWLINE
    ensures r.None? ==> NEWLINE !in s
  {
    if s == [] then None
    else if s[0] == NEWLINE then Some(0)
    else
      match FindNewline(s[1..])
      case None => None
      case Some(e) => Some(e + 1)
  }

  lemma NewlineStable(s: Bytes, t: Bytes)
    ensures FindNewline(s).Some? ==> FindNewline(s + t) == FindNewline(s)
  {
    var u := s + t;
    assert forall k | 0 <= k < |s| :: u[k] == s[k];
    assert FindNewline(s).Some? ==> u[FindNewline(s).value] == NEWLINE;
  }
}
