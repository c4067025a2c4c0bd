/** Stored task blobs: the nesting bound on request bodies, and the line format
    of tasks. */
module TaskBlob {
  import opened Common

  datatype Json =
    | Null
    | Bool(b: bool)
    | Number(text: string)
    | Text(text: string)
    | Array(values: seq<Json>)
    | Object(keys: seq<string>, values: seq<Json>)

  // ---------------------------------------------------------------------
  // Nesting depth.

  /** Container nesting depth: 0 for a scalar. */
  function Depth(v: Json): nat {
    match v
    case Array(values) => 1 + MaxDepth(values)
    case Object(_, values) => 1 + MaxDepth(values)
    case _ => 0
  }

  function MaxDepth(values: seq<Json>): nat {
    if values == [] then 0 else Max(Depth(values[0]), MaxDepth(values[1..]))
  }

  lemma {:induction false} MaxDepthIsMax(values: seq<Json>, bound: nat)
    ensures MaxDepth(values) > bound <==> exists i | 0 <= i < |values| :: Depth(values[i]) > bound
  {
    if values != [] {
      MaxDepthIsMax(values[1..], bound);
      assert forall i | 1 <= i < |values| :: values[i] == values[1..][i - 1];
      if Depth(values[0]) <= bound && MaxDepth(values[1..]) > bound {
        var i :| 0 <= i < |values[1..]| && Depth(values[1..][i]) > bound;
        assert Depth(values[i + 1]) > bound;
      }
    }
  }

  /** Values waiting to be visited, each with the depth it stands at. */
  type Pending = seq<(Json, nat)>

  function Nodes(v: Json): nat {
    match v
    case Array(values) => 1 + AllNodes(values)
    case Object(_, values) => 1 + AllNodes(values)
    case _ => 1
  }

  function AllNodes(values: seq<Json>): nat {
    if values == [] then 0 else Nodes(values[0]) + AllNodes(values[1..])
  }

  function PendingNodes(pending: Pending): nat {
    if pending == [] then 0 else Nodes(pending[0].0) + PendingNodes(pending[1..])
  }

  lemma {:induction false} PendingNodesConcat(a: Pending, b: Pending)
    ensures PendingNodes(a + b) == PendingNodes(a) + PendingNodes(b)
  {
    if a == [] {
      assert a + b == b;
    } else {
      assert (a + b)[1..] == a[1..] + b;
      PendingNodesConcat(a[1..], b);
    }
  }

  function Children(values: seq<Json>, depth: nat): Pending {
    seq(|values|, i requires 0 <= i < |values| => (values[i], depth))
  }

  lemma {:induction false} ChildrenNodes(values: seq<Json>, depth: nat)
    ensures PendingNodes(Children(values, depth)) == AllNodes(values)
  {
    if values != [] {
      assert Children(values, depth)[1..] == Children(values[1..], depth);
      ChildrenNodes(values[1..], depth);
    }
  }

  predicate Deep(entry: (Json, nat), maximum: nat) {
    entry.1 + Depth(entry.0) > maximum
  }

  ghost predicate AnyDeep(pending: Pending, maximum: nat) {
    exists e | e in pending :: Deep(e, maximum)
  }

  /** Visiting a container that is not itself too deep replaces it by its
      children. */
  lemma VisitContainer(rest: Pending, v: Json, depth: nat, maximum: nat)
    requires (v.Array? || v.Object?) && depth < maximum
    ensures AnyDeep(rest + [(v, depth)], maximum)
       <==> AnyDeep(rest + Children(v.values, depth + 1), maximum)
    ensures PendingNodes(rest + Children(v.values, depth + 1)) < PendingNodes(rest + [(v, depth)])
  {
    var children := Children(v.values, depth + 1);
    PendingNodesConcat(rest, children);
    PendingNodesConcat(rest, [(v, depth)]);
    ChildrenNodes(v.values, depth + 1);
    MaxDepthIsMax(v.values, maximum - depth - 1);
    assert PendingNodes([(v, depth)]) == Nodes(v);
    if i :| 0 <= i < |v.values| && Depth(v.values[i]) > maximum - depth - 1 {
      assert children[i] in rest + children && Deep(children[i], maximum);
    }
    if e :| e in children && Deep(e, maximum) {
      var i :| 0 <= i < |children| && children[i] == e;
      assert Depth(v.values[i]) > maximum - depth - 1;
      assert Deep((v, depth), maximum) && (v, depth) in rest + [(v, depth)];
    }
  }

  /** `json_depth_exceeds`, with its explicit stack. */
  method JsonDepthExceeds(value: Json, maximum: nat) returns (exceeds: bool)
    ensures exceeds <==> Depth(value) > maximum
  {
    var pending: Pending := [(value, 0)];
    assert AnyDeep(pending, maximum) <==> Deep((value, 0), maximum);
    while pending != []
      invariant Depth(value) > maximum <==> AnyDeep(pending, maximum)
      invariant forall i | 0 <= i < |pending| :: pending[i].1 <= maximum
      decreases PendingNodes(pending)
    {
      var (current, depth) := pending[|pending| - 1];
      var rest := pending[..|pending| - 1];
      assert pending == rest + [(current, depth)];
      match current
      case Array(values) =>
        if depth >= maximum {
          assert Deep(pending[|pending| - 1], maximum);
          return true;
        }
        VisitContainer(rest, current, depth, maximum);
        pending := rest + Children(values, depth + 1);
      case Object(_, values) =>
        if depth >= maximum {
          assert Deep(pending[|pending| - 1], maximum);
          return true;
        }
        VisitContainer(rest, current, depth, maximum);
        pending := rest + Children(values, depth + 1);
      case _ =>
        VisitScalar(rest, current, depth, maximum);
        pending := rest;
    }
    return false;
  }

  lemma VisitScalar(rest: Pending, v: Json, depth: nat, maximum: nat)
    requires !v.Array? && !v.Object? && depth <= maximum
    ensures AnyDeep(rest + [(v, depth)], maximum) <==> AnyDeep(rest, maximum)
    ensures PendingNodes(rest) < PendingNodes(rest + [(v, depth)])
  {
    PendingNodesConcat(rest, [(v, depth)]);
    assert PendingNodes([(v, depth)]) == Nodes(v);
  }

  // ---------------------------------------------------------------------
  // Request records.

  const MAX_METHOD: nat := 8
  const MAX_PATH: nat := 96
  const MAX_BODY: nat := 192
  const MAX_WAIT: nat := 60000
  const MAX_DEPTH: nat := 16

  /** A request line as decoded from JSON, its strings as UTF-8 bytes; the body is a
      string that holds JSON again. */
  datatype RawRecord = RawRecord(verb: Bytes, path: Bytes, body: Bytes, waitMs: nat)

  datatype Record = Record(path: Bytes, body: Json, waitMs: nat)

  predicate IsPathByte(b: Byte) {
    0x21 <= b < 0x7F && b !in {47, 92, 37, 63, 35}
  }

  /** "PUT" */
  const PUT: Bytes := [80, 85, 84]
  /** "/api/v1/power/" */
  const POWER: Bytes := [47, 97, 112, 105, 47, 118, 49, 47, 112, 111, 119, 101, 114, 47]
  /** "/api/v1/gpio/" */
  const GPIO: Bytes := [47, 97, 112, 105, 47, 118, 49, 47, 103, 112, 105, 111, 47]
  /** "/api/v1/switch/" */
  const SWITCH: Bytes := [47, 97, 112, 105, 47, 118, 49, 47, 115, 119, 105, 116, 99, 104, 47]

  lemma PrefixesAre()
    ensures PUT == Ascii("PUT") && POWER == Ascii("/api/v1/power/")
    ensures GPIO == Ascii("/api/v1/gpio/") && SWITCH == Ascii("/api/v1/switch/")
  {
  }

  /** What follows the first allowed prefix. */
  function Identifier(path: Bytes): Option<Bytes> {
    if POWER <= path then Some(path[|POWER|..])
    else if GPIO <= path then Some(path[|GPIO|..])
    else if SWITCH <= path then Some(path[|SWITCH|..])
    else None
  }

  /** `valid_request_path`. */
  predicate IsRequestPath(path: Bytes) {
    match Identifier(path)
    case None => false
    case Some(id) => id !in {[], [46], [46, 46]} && forall b | b in id :: IsPathByte(b)
  }

  /** A path segment that names one item. */
  predicate IsSegment(id: Bytes) {
    id != [] && id != [46] && id != [46, 46] && forall b | b in id :: 0x21 <= b <= 0x7E && b !in {47, 92, 37, 63, 35}
  }

  /** A request path is exactly one of the three prefixes with one such segment. */
  lemma RequestPathsAre(path: Bytes)
    ensures IsRequestPath(path) <==>
              exists id | IsSegment(id) :: path == POWER + id || path == GPIO + id || path == SWITCH + id
  {
    PrefixesDiffer();
    hide POWER, GPIO, SWITCH;
    if IsRequestPath(path) {
      var id := Identifier(path).value;
      assert IsSegment(id) && (path == POWER + id || path == GPIO + id || path == SWITCH + id);
    }
    if id :| IsSegment(id) && (path == POWER + id || path == GPIO + id || path == SWITCH + id) {
      OnlyPrefix(path, id);
    }
  }

  lemma PrefixesDiffer()
    ensures |POWER| == 14 && |GPIO| == 13 && |SWITCH| == 15
    ensures POWER[8] == 112 && GPIO[8] == 103 && SWITCH[8] == 115
  {
  }

  lemma OnlyPrefix(path: Bytes, id: Bytes)
    requires path == POWER + id || path == GPIO + id || path == SWITCH + id
    ensures Identifier(path) == Some(id)
  {
    PrefixesDiffer();
    hide POWER, GPIO, SWITCH;
    assert path[8] == if path == POWER + id then 112 else if path == GPIO + id then 103 else 115;
    assert POWER <= path ==> path[8] == POWER[8];
    assert GPIO <= path ==> path[8] == GPIO[8];
    assert SWITCH <= path ==> path[8] == SWITCH[8];
  }

  /** The limits `parse_record` puts on a decoded request. */
  predicate IsAllowed(raw: RawRecord, body: Json) {
    && raw.verb == PUT && |raw.path| <= MAX_PATH && IsRequestPath(raw.path)
    && |raw.body| <= MAX_BODY && raw.waitMs <= MAX_WAIT && Depth(body) <= MAX_DEPTH
  }

  /** `parse_record`, given what the line and its body decode to. */
  method ParseRecord(raw: Option<RawRecord>, body: Option<Json>) returns (r: Option<Record>)
    ensures r.Some? <==> raw.Some? && body.Some? && IsAllowed(raw.value, body.value)
    ensures r.Some? ==> r.value == Record(raw.value.path, body.value, raw.value.waitMs)
  {
    hide IsRequestPath;
    if raw.None? {
      return None;
    }
    var record := raw.value;
    if |record.verb| > MAX_METHOD || record.verb != PUT {
      return None;
    }
    if |record.path| > MAX_PATH || !IsRequestPath(record.path) {
      return None;
    }
    if |record.body| > MAX_BODY || record.waitMs > MAX_WAIT || body.None? {
      return None;
    }
    var deep := JsonDepthExceeds(body.value, MAX_DEPTH);
    if deep {
      return None;
    }
    return Some(Record(record.path, body.value, record.waitMs));
  }
}
