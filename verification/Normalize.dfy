/** Serialising possibly cyclic object graphs (onboard/runtime.py, _normalize). */
module Normalize {
  import opened Prelude

  const MAX_DEPTH := 12
  /** With "-" already replaced by "_". */
  const SECRET_NAMES :=
    {"api_key", "apikey", "authorization", "auth_token", "access_token", "secret", "token", "x_api_key"}
  const TRANSPORT_NAMES := {"headers", "extra_headers", "http_headers"}

  datatype Scalar = Nothing | Bool(b: bool) | Number(num: int, den: int) | Text(text: string)

  /** An object by identity. A mapping's keys have been through str(), so they may repeat. */
  datatype Node =
    | Leaf(value: Scalar)
    | Blob(data: Bytes)
    | Mapping(typeName: string, items: seq<(string, nat)>)
    | Sequence(typeName: string, refs: seq<nat>)

  type Graph = map<nat, Node>

  datatype Out =
    | Plain(value: Scalar)
    | BytesSummary(length: nat, sha256: string)
    | Truncated
    | Cycle(typeName: string)
    | Object(fields: map<string, Out>)
    | Array(items: seq<Out>)

  /** str.lower and SHA-256. */
  datatype Library = Library(lower: string -> string, sha256: Bytes -> string)

  const REDACTED := Plain(Text("[redacted credential]"))
  const OMITTED := Plain(Text("[omitted transport metadata]"))

  function Underscored(s: string): string {
    if s == "" then "" else [if s[0] == '-' then '_' else s[0]] + Underscored(s[1..])
  }

  predicate IsSecret(lib: Library, key: string) {
    Underscored(lib.lower(key)) in SECRET_NAMES
  }

  predicate IsTransport(lib: Library, key: string) {
    Underscored(lib.lower(key)) in TRANSPORT_NAMES
  }

  predicate IsHidden(lib: Library, key: string) {
    IsSecret(lib, key) || IsTransport(lib, key)
  }

  predicate RefsIn(n: Node, ids: set<nat>) {
    && (n.Mapping? ==> forall i :: 0 <= i < |n.items| ==> n.items[i].1 in ids)
    && (n.Sequence? ==> forall i :: 0 <= i < |n.refs| ==> n.refs[i] in ids)
  }

  predicate Closed(g: Graph) {
    forall v :: v in g ==> RefsIn(g[v], g.Keys)
  }

  // ---- The specification ----

  function Norm(lib: Library, g: Graph, v: nat, seen: set<nat>, depth: nat): Out
    requires Closed(g) && v in g
    decreases MAX_DEPTH + 1 - depth, 0
  {
    match g[v]
    case Leaf(value) => Plain(value)
    case Blob(data) => BytesSummary(|data|, lib.sha256(data))
    case Mapping(name, items) =>
      if depth >= MAX_DEPTH then Truncated
      else if v in seen then Cycle(name)
      else Object(NormFields(lib, g, items, seen + {v}, depth + 1))
    case Sequence(name, refs) =>
      if depth >= MAX_DEPTH then Truncated
      else if v in seen then Cycle(name)
      else Array(NormAll(lib, g, refs, seen + {v}, depth + 1))
  }

  function NormField(lib: Library, g: Graph, key: string, v: nat, seen: set<nat>, depth: nat): Out
    requires Closed(g) && v in g
    decreases MAX_DEPTH + 1 - depth, 1
  {
    if IsSecret(lib, key) then REDACTED
    else if IsTransport(lib, key) then OMITTED
    else Norm(lib, g, v, seen, depth)
  }

  function NormFields(
    lib: Library, g: Graph, items: seq<(string, nat)>, seen: set<nat>, depth: nat): map<string, Out>
    requires Closed(g) && forall i :: 0 <= i < |items| ==> items[i].1 in g
    decreases MAX_DEPTH + 1 - depth, 2, |items|
  {
    if items == [] then map[]
    else
      var last := items[|items| - 1];
      NormFields(lib, g, items[..|items| - 1], seen, depth)
        [last.0 := NormField(lib, g, last.0, last.1, seen, depth)]
  }

  function NormAll(lib: Library, g: Graph, refs: seq<nat>, seen: set<nat>, depth: nat): (outs: seq<Out>)
    requires Closed(g) && forall i :: 0 <= i < |refs| ==> refs[i] in g
    ensures |outs| == |refs|
    ensures forall i :: 0 <= i < |refs| ==> outs[i] == Norm(lib, g, refs[i], seen, depth)
    decreases MAX_DEPTH + 1 - depth, 2, |refs|
  {
    if refs == [] then []
    else NormAll(lib, g, refs[..|refs| - 1], seen, depth) + [Norm(lib, g, refs[|refs| - 1], seen, depth)]
  }

  // ---- The traversal with its shared `seen` set ----

  class Normalizer {
    const lib: Library
    const graph: Graph
    var seen: set<nat>

    constructor (lib: Library, graph: Graph)
      ensures this.lib == lib && this.graph == graph && seen == {}
    {
      this.lib := lib;
      this.graph := graph;
      seen := {};
    }

    /** _normalize: adds the node while its parts are visited and takes it out again on the way back. */
    method Visit(v: nat, depth: nat) returns (out: Out)
      requires Closed(graph) && v in graph
      modifies this`seen
      ensures seen == old(seen)
      ensures out == Norm(lib, graph, v, old(seen), depth)
      decreases MAX_DEPTH + 1 - depth, 0
    {
      var node := graph[v];
      if node.Leaf? { return Plain(node.value); }
      if node.Blob? { return BytesSummary(|node.data|, lib.sha256(node.data)); }
      if depth >= MAX_DEPTH { return Truncated; }
      if v in seen { return Cycle(node.typeName); }
      assert RefsIn(node, graph.Keys);
      ghost var before := seen;
      seen := seen + {v};
      if node.Mapping? {
        var fields := VisitItems(node.items, depth + 1);
        out := Object(fields);
      } else {
        var items := VisitRefs(node.refs, depth + 1);
        out := Array(items);
      }
      seen := seen - {v};
      assert seen == before;
    }

    method VisitItems(items: seq<(string, nat)>, depth: nat) returns (result: map<string, Out>)
      requires Closed(graph) && forall i :: 0 <= i < |items| ==> items[i].1 in graph
      requires depth <= MAX_DEPTH
      modifies this`seen
      ensures seen == old(seen)
      ensures result == NormFields(lib, graph, items, old(seen), depth)
      decreases MAX_DEPTH + 1 - depth, 1
    {
      result := map[];
      var i := 0;
      while i < |items|
        invariant 0 <= i <= |items| && seen == old(seen)
        invariant result == NormFields(lib, graph, items[..i], old(seen), depth)
      {
        var (key, v) := items[i];
        assert items[..i + 1][..i] == items[..i];
        if IsSecret(lib, key) {
          result := result[key := REDACTED];
        } else if IsTransport(lib, key) {
          result := result[key := OMITTED];
        } else {
          var out := Visit(v, depth);
          result := result[key := out];
        }
        i := i + 1;
      }
      assert items[..i] == items;
    }

    method VisitRefs(refs: seq<nat>, depth: nat) returns (result: seq<Out>)
      requires Closed(graph) && forall i :: 0 <= i < |refs| ==> refs[i] in graph
      requires depth <= MAX_DEPTH
      modifies this`seen
      ensures seen == old(seen)
      ensures result == NormAll(lib, graph, refs, old(seen), depth)
      decreases MAX_DEPTH + 1 - depth, 1
    {
      result := [];
      var i := 0;
      while i < |refs|
        invariant 0 <= i <= |refs| && seen == old(seen)
        invariant result == NormAll(lib, graph, refs[..i], old(seen), depth)
      {
        assert refs[..i + 1][..i] == refs[..i];
        var out := Visit(refs[i], depth);
        result := result + [out];
        i := i + 1;
      }
      assert refs[..i] == refs;
    }
  }

  // ---- Where markers appear ----

  datatype Step = Key(name: string) | Index(i: nat)

  function LastUnder(items: seq<(string, nat)>, k: string): (r: Option<nat>)
    ensures r.Some? ==> exists i :: 0 <= i < |items| && items[i] == (k, r.value)
  {
    if items == [] then None
    else if items[|items| - 1].0 == k then Some(items[|items| - 1].1)
    else
      var r := LastUnder(items[..|items| - 1], k);
      assert r.Some? ==> exists i :: 0 <= i < |items| - 1 && items[..|items| - 1][i] == (k, r.value) && items[i] == (k, r.value);
      r
  }

  /** The node stored last under a key that is not hidden. */
  function Child(lib: Library, n: Node, step: Step): Option<nat> {
    match (n, step)
    case (Mapping(_, items), Key(k)) => if IsHidden(lib, k) then None else LastUnder(items, k)
    case (Sequence(_, refs), Index(i)) => if i < |refs| then Some(refs[i]) else None
    case _ => None
  }

  /** The nodes met along a path, the start included; None when the path leads nowhere. */
  function Trail(lib: Library, g: Graph, v: nat, path: seq<Step>): (r: Option<seq<nat>>)
    requires Closed(g) && v in g
    ensures r.Some? ==> |r.value| == |path| + 1 && r.value[0] == v
    ensures r.Some? ==> forall i :: 0 <= i < |r.value| ==> r.value[i] in g
    decreases |path|
  {
    if path == [] then Some([v])
    else
      var child := Child(lib, g[v], path[0]);
      if child.None? then None
      else
        assert RefsIn(g[v], g.Keys);
        var rest := Trail(lib, g, child.value, path[1..]);
        if rest.None? then None else Some([v] + rest.value)
  }

  /** What stands at a path of the output. */
  function OutAt(out: Out, path: seq<Step>): Option<Out>
    decreases |path|
  {
    if path == [] then Some(out)
    else match (out, path[0])
      case (Object(fields), Key(k)) => if k in fields then OutAt(fields[k], path[1..]) else None
      case (Array(items), Index(i)) => if i < |items| then OutAt(items[i], path[1..]) else None
      case _ => None
  }

  predicate IsComposite(n: Node) {
    n.Mapping? || n.Sequence?
  }

  ghost predicate IsAncestor(nodes: seq<nat>, i: nat, seen: set<nat>)
    requires i < |nodes|
  {
    nodes[i] in seen || nodes[i] in nodes[..i]
  }

  /** No node before the end of the trail is its own ancestor, counting `seen` as ancestors. */
  ghost predicate SimpleBeforeEnd(nodes: seq<nat>, seen: set<nat>) {
    forall i :: 0 <= i < |nodes| - 1 ==> !IsAncestor(nodes, i, seen)
  }

  ghost predicate EndIsAncestor(nodes: seq<nat>, seen: set<nat>)
    requires nodes != []
  {
    IsAncestor(nodes, |nodes| - 1, seen)
  }

  /** The path ends, at a depth below the limit, in a node that is its own ancestor there first. */
  ghost predicate ClosesCycle(
    lib: Library, g: Graph, v: nat, seen: set<nat>, depth: nat, path: seq<Step>, name: string)
    requires Closed(g) && v in g
  {
    var trail := Trail(lib, g, v, path);
    trail.Some? && depth + |path| < MAX_DEPTH
    && IsComposite(g[trail.value[|path|]]) && g[trail.value[|path|]].typeName == name
    && SimpleBeforeEnd(trail.value, seen) && EndIsAncestor(trail.value, seen)
  }

  lemma {:induction false} FieldsAt(
    lib: Library, g: Graph, items: seq<(string, nat)>, seen: set<nat>, depth: nat, k: string)
    requires Closed(g) && forall i :: 0 <= i < |items| ==> items[i].1 in g
    ensures k in NormFields(lib, g, items, seen, depth) <==> LastUnder(items, k).Some?
    ensures LastUnder(items, k).Some? ==>
      LastUnder(items, k).value in g
      && NormFields(lib, g, items, seen, depth)[k] == NormField(lib, g, k, LastUnder(items, k).value, seen, depth)
  {
    hide NormField;
    if items == [] {
    } else {
      FieldsAt(lib, g, items[..|items| - 1], seen, depth, k);
    }
  }

  /** One step down the output is one step down the graph, unless the output stops here. */
  lemma DownOneStep(lib: Library, g: Graph, v: nat, seen: set<nat>, depth: nat, path: seq<Step>)
    requires Closed(g) && v in g && path != []
    ensures var out := OutAt(Norm(lib, g, v, seen, depth), path);
      var child := Child(lib, g[v], path[0]);
      if !IsComposite(g[v]) || depth >= MAX_DEPTH || v in seen then out.None?
      else if child.None? then out.None? || (out.value.Plain?)
      else child.value in g && out == OutAt(Norm(lib, g, child.value, seen + {v}, depth + 1), path[1..])
  {
    assert RefsIn(g[v], g.Keys);
    if g[v].Mapping? && path[0].Key? {
      FieldsAt(lib, g, g[v].items, seen + {v}, depth + 1, path[0].name);
    }
  }

  lemma StartIsAncestor(nodes: seq<nat>, seen: set<nat>)
    requires nodes != []
    ensures IsAncestor(nodes, 0, seen) <==> nodes[0] in seen
  {
  }

  lemma AncestorCons(v: nat, rest: seq<nat>, i: nat, seen: set<nat>)
    requires i < |rest|
    ensures IsAncestor([v] + rest, i + 1, seen) <==> IsAncestor(rest, i, seen + {v})
  {
    assert ([v] + rest)[..i + 1] == [v] + rest[..i];
  }

  lemma TrailCons(v: nat, rest: seq<nat>, seen: set<nat>)
    requires rest != []
    ensures v !in seen ==>
      (SimpleBeforeEnd([v] + rest, seen) <==> SimpleBeforeEnd(rest, seen + {v}))
      && (EndIsAncestor([v] + rest, seen) <==> EndIsAncestor(rest, seen + {v}))
    ensures v in seen ==> !SimpleBeforeEnd([v] + rest, seen)
  {
    hide IsAncestor;
    var nodes := [v] + rest;
    StartIsAncestor(nodes, seen);
    if v !in seen {
      forall i | 0 <= i < |rest| ensures IsAncestor(nodes, i + 1, seen) <==> IsAncestor(rest, i, seen + {v}) {
        AncestorCons(v, rest, i, seen);
      }
      if SimpleBeforeEnd(nodes, seen) {
        forall i | 0 <= i < |rest| - 1 ensures !IsAncestor(rest, i, seen + {v}) {
          assert !IsAncestor(nodes, i + 1, seen);
        }
      }
      if SimpleBeforeEnd(rest, seen + {v}) {
        forall i | 0 <= i < |nodes| - 1 ensures !IsAncestor(nodes, i, seen) {
          if i > 0 { assert !IsAncestor(rest, i - 1, seen + {v}); }
        }
      }
    }
  }

  lemma {:induction false} CycleMarkersFrom(
    lib: Library, g: Graph, v: nat, seen: set<nat>, depth: nat, path: seq<Step>, name: string)
    requires Closed(g) && v in g
    ensures OutAt(Norm(lib, g, v, seen, depth), path) == Some(Cycle(name))
      <==> ClosesCycle(lib, g, v, seen, depth, path, name)
    decreases |path|
  {
    if path == [] {
    } else {
      DownOneStep(lib, g, v, seen, depth, path);
      var child := Child(lib, g[v], path[0]);
      var trail := Trail(lib, g, v, path);
      assert RefsIn(g[v], g.Keys);
      if child.Some? && depth < MAX_DEPTH && v !in seen {
        CycleMarkersFrom(lib, g, child.value, seen + {v}, depth + 1, path[1..], name);
      }
      if trail.Some? {
        TrailCons(v, trail.value[1..], seen);
        assert trail.value == [v] + trail.value[1..];
      }
      hide Norm, OutAt;
    }
  }

  /** Main result: a cycle marker is emitted at a path exactly where a node first is its own ancestor. */
  lemma CycleMarkersAreExact(lib: Library, g: Graph, root: nat, path: seq<Step>, name: string)
    requires Closed(g) && root in g
    ensures OutAt(Norm(lib, g, root, {}, 0), path) == Some(Cycle(name))
      <==> ClosesCycle(lib, g, root, {}, 0, path, name)
  {
    CycleMarkersFrom(lib, g, root, {}, 0, path, name);
  }

  // ---- Markers in the JSON that is written ----

  /** JSON, where markers and summaries are ordinary objects. */
  datatype Doc = Atom(value: Scalar) | Record(fields: map<string, Doc>) | Items(items: seq<Doc>)

  const CYCLE_KEY := "_cycle"

  function Marker(name: string): Doc {
    Record(map[CYCLE_KEY := Atom(Text(name))])
  }

  function Render(out: Out): Doc {
    match out
    case Plain(value) => Atom(value)
    case BytesSummary(length, sha256) =>
      Record(map["_type" := Atom(Text("bytes")), "length" := Atom(Number(length, 1)), "sha256" := Atom(Text(sha256))])
    case Truncated => Record(map["_truncated" := Atom(Text("maximum serialization depth reached"))])
    case Cycle(name) => Marker(name)
    case Object(fields) => Record(map k | k in fields :: Render(fields[k]))
    case Array(items) => Items(seq(|items|, i requires 0 <= i < |items| => Render(items[i])))
  }

  function DocAt(doc: Doc, path: seq<Step>): Option<Doc>
    decreases |path|
  {
    if path == [] then Some(doc)
    else match (doc, path[0])
      case (Record(fields), Key(k)) => if k in fields then DocAt(fields[k], path[1..]) else None
      case (Items(items), Index(i)) => if i < |items| then DocAt(items[i], path[1..]) else None
      case _ => None
  }

  /** Inside a marker or summary there are only atoms. */
  lemma {:induction false} RenderedAt(out: Out, path: seq<Step>)
    ensures OutAt(out, path).Some? ==> DocAt(Render(out), path) == Some(Render(OutAt(out, path).value))
    ensures OutAt(out, path).None? ==> DocAt(Render(out), path).None? || DocAt(Render(out), path).value.Atom?
    decreases |path|
  {
    if path == [] {
    } else if out.Object? && path[0].Key? && path[0].name in out.fields {
      RenderedAt(out.fields[path[0].name], path[1..]);
    } else if out.Array? && path[0].Index? && path[0].i < |out.items| {
      RenderedAt(out.items[path[0].i], path[1..]);
    }
  }

  /** The output of a mapping that only looks like a marker. */
  function Lookalike(name: string): Out {
    Object(map[CYCLE_KEY := Plain(Text(name))])
  }

  lemma LookalikeRenders(name: string)
    ensures Render(Lookalike(name)) == Marker(name)
  {
    assert Render(Lookalike(name)).fields == Marker(name).fields;
  }

  lemma MarkerSources(out: Out, name: string)
    ensures Render(out) == Marker(name) <==> out == Cycle(name) || out == Lookalike(name)
  {
    LookalikeRenders(name);
    if Render(out) == Marker(name) && out.Object? {
      var fields := out.fields;
      assert Render(out).fields.Keys == fields.Keys && Marker(name).fields.Keys == {CYCLE_KEY};
      assert Render(fields[CYCLE_KEY]) == Marker(name).fields[CYCLE_KEY];
      assert fields == map[CYCLE_KEY := Plain(Text(name))];
    } else if out.BytesSummary? {
      assert "_type" in Render(out).fields && "_type" !in Marker(name).fields;
    } else if out.Truncated? {
      assert "_truncated" in Render(out).fields && "_truncated" !in Marker(name).fields;
    } else if out.Cycle? {
      assert Render(out).fields[CYCLE_KEY] == Atom(Text(out.typeName));
    }
  }

  /** A mapping that holds one text under "_cycle" and nothing else. */
  ghost predicate IsLookalike(g: Graph, n: Node, name: string) {
    && n.Mapping?
    && (forall i :: 0 <= i < |n.items| ==> n.items[i].0 == CYCLE_KEY)
    && LastUnder(n.items, CYCLE_KEY).Some?
    && LastUnder(n.items, CYCLE_KEY).value in g
    && g[LastUnder(n.items, CYCLE_KEY).value] == Leaf(Text(name))
  }

  lemma {:induction false} LastUnderFinds(items: seq<(string, nat)>, i: nat)
    requires i < |items|
    ensures LastUnder(items, items[i].0).Some?
  {
    if i == |items| - 1 {
    } else {
      LastUnderFinds(items[..|items| - 1], i);
    }
  }

  lemma UnderSomeKey(items: seq<(string, nat)>, k: string)
    requires LastUnder(items, k).Some? && forall i :: 0 <= i < |items| ==> items[i].0 == CYCLE_KEY
    ensures k == CYCLE_KEY
  {
    var i :| 0 <= i < |items| && items[i] == (k, LastUnder(items, k).value);
  }

  lemma OnlyCycleKey(items: seq<(string, nat)>)
    ensures (forall k :: LastUnder(items, k).Some? ==> k == CYCLE_KEY)
      <==> (forall i :: 0 <= i < |items| ==> items[i].0 == CYCLE_KEY)
  {
    hide LastUnder;
    if forall i :: 0 <= i < |items| ==> items[i].0 == CYCLE_KEY {
      forall k | LastUnder(items, k).Some? ensures k == CYCLE_KEY {
        UnderSomeKey(items, k);
      }
    } else {
      var i :| 0 <= i < |items| && items[i].0 != CYCLE_KEY;
      LastUnderFinds(items, i);
    }
  }

  lemma PlainIsLeaf(lib: Library, g: Graph, v: nat, seen: set<nat>, depth: nat, value: Scalar)
    requires Closed(g) && v in g
    ensures Norm(lib, g, v, seen, depth) == Plain(value) <==> g[v] == Leaf(value)
  {
    hide NormFields, NormAll;
  }

  lemma VisibleField(lib: Library, g: Graph, key: string, v: nat, seen: set<nat>, depth: nat)
    requires Closed(g) && v in g && !IsHidden(lib, key)
    ensures NormField(lib, g, key, v, seen, depth) == Norm(lib, g, v, seen, depth)
  {
  }

  lemma NormOfLookalike(lib: Library, g: Graph, v: nat, seen: set<nat>, depth: nat, name: string)
    requires Closed(g) && v in g && !IsHidden(lib, CYCLE_KEY)
    ensures Norm(lib, g, v, seen, depth) == Lookalike(name)
      <==> IsLookalike(g, g[v], name) && depth < MAX_DEPTH && v !in seen
  {
    if g[v].Mapping? && depth < MAX_DEPTH && v !in seen {
      assert RefsIn(g[v], g.Keys);
      var items, below := g[v].items, seen + {v};
      var fields := NormFields(lib, g, items, below, depth + 1);
      forall k ensures k in fields <==> LastUnder(items, k).Some? {
        FieldsAt(lib, g, items, below, depth + 1, k);
      }
      FieldsAt(lib, g, items, below, depth + 1, CYCLE_KEY);
      hide NormFields, IsHidden;
      OnlyCycleKey(items);
      assert fields == map[CYCLE_KEY := Plain(Text(name))]
        <==> fields.Keys == {CYCLE_KEY} && fields[CYCLE_KEY] == Plain(Text(name));
      if CYCLE_KEY in fields {
        PlainIsLeaf(lib, g, LastUnder(items, CYCLE_KEY).value, below, depth + 1, Text(name));
        VisibleField(lib, g, CYCLE_KEY, LastUnder(items, CYCLE_KEY).value, below, depth + 1);
      }
    }
  }

  /** The path ends above the depth limit in a first visit of a mapping that looks like a marker. */
  ghost predicate ReachesLookalike(
    lib: Library, g: Graph, v: nat, seen: set<nat>, depth: nat, path: seq<Step>, name: string)
    requires Closed(g) && v in g
  {
    var trail := Trail(lib, g, v, path);
    trail.Some? && depth + |path| < MAX_DEPTH && IsLookalike(g, g[trail.value[|path|]], name)
    && SimpleBeforeEnd(trail.value, seen) && !EndIsAncestor(trail.value, seen)
  }

  lemma {:induction false} LookalikesFrom(
    lib: Library, g: Graph, v: nat, seen: set<nat>, depth: nat, path: seq<Step>, name: string)
    requires Closed(g) && v in g && !IsHidden(lib, CYCLE_KEY)
    ensures OutAt(Norm(lib, g, v, seen, depth), path) == Some(Lookalike(name))
      <==> ReachesLookalike(lib, g, v, seen, depth, path, name)
    decreases |path|
  {
    hide Norm, IsLookalike, IsHidden;
    if path == [] {
      NormOfLookalike(lib, g, v, seen, depth, name);
    } else {
      DownOneStep(lib, g, v, seen, depth, path);
      var child := Child(lib, g[v], path[0]);
      var trail := Trail(lib, g, v, path);
      assert RefsIn(g[v], g.Keys);
      if child.Some? && depth < MAX_DEPTH && v !in seen {
        LookalikesFrom(lib, g, child.value, seen + {v}, depth + 1, path[1..], name);
      }
      if trail.Some? {
        TrailCons(v, trail.value[1..], seen);
        assert trail.value == [v] + trail.value[1..];
      }
      hide OutAt;
    }
  }

  lemma CycleKeyIsVisible(lib: Library)
    requires lib.lower(CYCLE_KEY) == CYCLE_KEY
    ensures !IsHidden(lib, CYCLE_KEY)
  {
    assert Underscored(CYCLE_KEY) == CYCLE_KEY;
  }

  /**
   * Main result: in the JSON that is written, a marker object stands at a path exactly where a cycle
   * was cut or where a mapping that holds just that text under "_cycle" was written out.
   */
  lemma WrittenMarkersAreExact(lib: Library, g: Graph, root: nat, path: seq<Step>, name: string)
    requires Closed(g) && root in g && lib.lower(CYCLE_KEY) == CYCLE_KEY
    ensures DocAt(Render(Norm(lib, g, root, {}, 0)), path) == Some(Marker(name))
      <==> ClosesCycle(lib, g, root, {}, 0, path, name) || ReachesLookalike(lib, g, root, {}, 0, path, name)
  {
    CycleKeyIsVisible(lib);
    hide Norm, Render, IsHidden, ClosesCycle, ReachesLookalike;
    var out := Norm(lib, g, root, {}, 0);
    RenderedAt(out, path);
    CycleMarkersFrom(lib, g, root, {}, 0, path, name);
    LookalikesFrom(lib, g, root, {}, 0, path, name);
    if OutAt(out, path).Some? {
      MarkerSources(OutAt(out, path).value, name);
    }
  }

  // ---- Hidden values do not matter ----

  /** The same node but for what is stored under hidden keys. */
  ghost predicate SameButHidden(lib: Library, m: Node, n: Node) {
    match (m, n)
    case (Mapping(a, xs), Mapping(b, ys)) =>
      a == b && |xs| == |ys|
      && forall i :: 0 <= i < |xs| ==>
        xs[i].0 == ys[i].0 && (IsHidden(lib, xs[i].0) || xs[i].1 == ys[i].1)
    case _ => m == n
  }

  ghost predicate VisibleRefsIn(lib: Library, n: Node, region: set<nat>) {
    && (n.Mapping? ==>
          forall i :: 0 <= i < |n.items| && !IsHidden(lib, n.items[i].0) ==> n.items[i].1 in region)
    && (n.Sequence? ==> forall i :: 0 <= i < |n.refs| ==> n.refs[i] in region)
  }

  /** On `region`, which visible references do not leave, the graphs differ only under hidden keys. */
  ghost predicate AgreeOn(lib: Library, g: Graph, h: Graph, region: set<nat>) {
    && Closed(g) && Closed(h)
    && forall v :: v in region ==>
      && v in g && v in h && SameButHidden(lib, g[v], h[v])
      && VisibleRefsIn(lib, g[v], region)
  }

  lemma {:induction false} AgreeingFields(
    lib: Library, g: Graph, h: Graph, region: set<nat>,
    xs: seq<(string, nat)>, ys: seq<(string, nat)>, seen: set<nat>, depth: nat)
    requires AgreeOn(lib, g, h, region) && |xs| == |ys|
    requires forall i :: 0 <= i < |xs| ==>
      && xs[i].1 in g && ys[i].1 in h && xs[i].0 == ys[i].0
      && (IsHidden(lib, xs[i].0) || (xs[i].1 == ys[i].1 && xs[i].1 in region))
    ensures NormFields(lib, g, xs, seen, depth) == NormFields(lib, h, ys, seen, depth)
    decreases MAX_DEPTH + 1 - depth, 2, |xs|
  {
    if xs == [] {
    } else {
      var x, y := xs[|xs| - 1], ys[|ys| - 1];
      AgreeingFields(lib, g, h, region, xs[..|xs| - 1], ys[..|ys| - 1], seen, depth);
      if !IsHidden(lib, x.0) {
        HiddenValuesFrom(lib, g, h, region, x.1, seen, depth);
      }
      hide Norm;
    }
  }

  lemma {:induction false} HiddenValuesFrom(
    lib: Library, g: Graph, h: Graph, region: set<nat>, v: nat, seen: set<nat>, depth: nat)
    requires AgreeOn(lib, g, h, region) && v in region
    ensures Norm(lib, g, v, seen, depth) == Norm(lib, h, v, seen, depth)
    decreases MAX_DEPTH + 1 - depth, 0
  {
    assert SameButHidden(lib, g[v], h[v]) && RefsIn(g[v], g.Keys) && RefsIn(h[v], h.Keys);
    if IsComposite(g[v]) && depth < MAX_DEPTH && v !in seen {
      if g[v].Mapping? {
        AgreeingFields(lib, g, h, region, g[v].items, h[v].items, seen + {v}, depth + 1);
      } else {
        forall i | 0 <= i < |g[v].refs|
          ensures Norm(lib, g, g[v].refs[i], seen + {v}, depth + 1)
               == Norm(lib, h, g[v].refs[i], seen + {v}, depth + 1)
        {
          HiddenValuesFrom(lib, g, h, region, g[v].refs[i], seen + {v}, depth + 1);
        }
      }
    }
  }

  /** Main result: the output does not depend on what is stored under hidden keys. */
  lemma HiddenValuesDoNotMatter(lib: Library, g: Graph, h: Graph, region: set<nat>, root: nat)
    requires AgreeOn(lib, g, h, region) && root in region
    ensures Norm(lib, g, root, {}, 0) == Norm(lib, h, root, {}, 0)
  {
    HiddenValuesFrom(lib, g, h, region, root, {}, 0);
  }

  // ---- What stands at the end of a path ----

  function Elements(nodes: seq<nat>): set<nat> {
    set n | n in nodes
  }

  lemma ElementsCons(v: nat, rest: seq<nat>, seen: set<nat>, n: nat)
    requires n <= |rest|
    ensures seen + Elements(([v] + rest)[..n + 1]) == seen + {v} + Elements(rest[..n])
  {
    assert ([v] + rest)[..n + 1] == [v] + rest[..n];
  }

  lemma TrailUnfolds(lib: Library, g: Graph, v: nat, path: seq<Step>)
    requires Closed(g) && v in g && path != [] && Trail(lib, g, v, path).Some?
    ensures Child(lib, g[v], path[0]).Some? && Child(lib, g[v], path[0]).value in g
    ensures var rest := Trail(lib, g, Child(lib, g[v], path[0]).value, path[1..]);
      rest.Some? && Trail(lib, g, v, path) == Some([v] + rest.value)
    ensures IsComposite(g[v])
  {
    hide IsHidden;
    assert RefsIn(g[v], g.Keys);
  }

  lemma DescendNowhere(lib: Library, g: Graph, v: nat, seen: set<nat>, depth: nat)
    requires Closed(g) && v in g
    ensures Trail(lib, g, v, []) == Some([v])
    ensures OutAt(Norm(lib, g, v, seen, depth), [])
      == Some(Norm(lib, g, v, seen + Elements([v][..0]), depth))
  {
    hide Norm;
    assert seen + Elements([v][..0]) == seen;
  }

  lemma StartIsNew(v: nat, rest: seq<nat>, seen: set<nat>)
    requires rest != [] && SimpleBeforeEnd([v] + rest, seen)
    ensures v !in seen
  {
    assert !IsAncestor([v] + rest, 0, seen);
  }

  /** Main result: above the depth limit, a path that closes no cycle leads to its last node's own output. */
  lemma {:induction false} Descend(lib: Library, g: Graph, v: nat, seen: set<nat>, depth: nat, path: seq<Step>)
    requires Closed(g) && v in g && Trail(lib, g, v, path).Some? && depth + |path| <= MAX_DEPTH
    requires SimpleBeforeEnd(Trail(lib, g, v, path).value, seen)
    ensures var trail := Trail(lib, g, v, path).value;
      OutAt(Norm(lib, g, v, seen, depth), path)
      == Some(Norm(lib, g, trail[|path|], seen + Elements(trail[..|path|]), depth + |path|))
    decreases |path|
  {
    hide *;
    if path == [] {
      DescendNowhere(lib, g, v, seen, depth);
    } else {
      TrailUnfolds(lib, g, v, path);
      var child := Child(lib, g[v], path[0]).value;
      var rest := Trail(lib, g, child, path[1..]).value;
      StartIsNew(v, rest, seen);
      TrailCons(v, rest, seen);
      DownOneStep(lib, g, v, seen, depth, path);
      Descend(lib, g, child, seen + {v}, depth + 1, path[1..]);
      ElementsCons(v, rest, seen, |path| - 1);
    }
  }

  /** Main result: a scalar or byte string at the end of such a path is written as it is, or as its length and digest. */
  lemma LeavesAreReached(lib: Library, g: Graph, root: nat, path: seq<Step>)
    requires Closed(g) && root in g && Trail(lib, g, root, path).Some? && |path| <= 12
    requires SimpleBeforeEnd(Trail(lib, g, root, path).value, {})
    ensures var end := g[Trail(lib, g, root, path).value[|path|]];
      var out := OutAt(Norm(lib, g, root, {}, 0), path);
      && (end.Leaf? ==> out == Some(Plain(end.value)))
      && (end.Blob? ==> out == Some(BytesSummary(|end.data|, lib.sha256(end.data))))
  {
    Descend(lib, g, root, {}, 0, path);
  }

  /** Main result: a composite node met twelve levels down is cut off, and nothing above is. */
  lemma {:induction false} TruncatedFrom(lib: Library, g: Graph, v: nat, seen: set<nat>, depth: nat, path: seq<Step>)
    requires Closed(g) && v in g && depth <= 12
    ensures OutAt(Norm(lib, g, v, seen, depth), path) == Some(Truncated) <==>
      var trail := Trail(lib, g, v, path);
      trail.Some? && depth + |path| == 12 && IsComposite(g[trail.value[|path|]]) && SimpleBeforeEnd(trail.value, seen)
    decreases |path|
  {
    if path == [] {
    } else {
      DownOneStep(lib, g, v, seen, depth, path);
      var child := Child(lib, g[v], path[0]);
      var trail := Trail(lib, g, v, path);
      assert RefsIn(g[v], g.Keys);
      if child.Some? && depth < MAX_DEPTH && v !in seen {
        TruncatedFrom(lib, g, child.value, seen + {v}, depth + 1, path[1..]);
      }
      if trail.Some? {
        TrailCons(v, trail.value[1..], seen);
        assert trail.value == [v] + trail.value[1..];
      }
      hide Norm, OutAt;
    }
  }

  // ---- Which keys are hidden ----

  lemma {:induction false} UnderscoredAt(s: string, i: nat)
    requires i < |s|
    ensures |Underscored(s)| == |s| && Underscored(s)[i] == if s[i] == '-' then '_' else s[i]
  {
    if i == 0 {
      if |s| > 1 { UnderscoredAt(s[1..], 0); }
    } else {
      UnderscoredAt(s[1..], i - 1);
    }
  }

  /** Main result: which keys are masked as credentials, which as transport data, and that all others are visited. */
  lemma WhichKeysAreHidden(lib: Library, g: Graph, key: string, v: nat, seen: set<nat>, depth: nat)
    requires Closed(g) && v in g
    ensures var name := Underscored(lib.lower(key));
      var secret := name in {"api_key", "apikey", "authorization", "auth_token", "access_token", "secret", "token", "x_api_key"};
      var transport := name in {"headers", "extra_headers", "http_headers"};
      && !(secret && transport)
      && NormField(lib, g, key, v, seen, depth) ==
           if secret then Plain(Text("[redacted credential]"))
           else if transport then Plain(Text("[omitted transport metadata]"))
           else Norm(lib, g, v, seen, depth)
  {
    hide Norm, Underscored;
  }

  lemma EmptyUnderscored()
    ensures Underscored("") == ""
  {
  }

  lemma UnderscoredIs(s: string, t: string)
    requires |s| == |t| && forall i :: 0 <= i < |s| ==> t[i] == if s[i] == '-' then '_' else s[i]
    ensures Underscored(s) == t
  {
    hide Underscored;
    if s == "" {
      EmptyUnderscored();
    } else {
      UnderscoredAt(s, 0);
      forall i | 0 <= i < |s| ensures Underscored(s)[i] == t[i] {
        UnderscoredAt(s, i);
      }
      assert Underscored(s) == t;
    }
  }

  /** Hyphens count as underscores, and case is lowered before. */
  lemma SpelledWithHyphens(lib: Library)
    requires lib.lower("X-API-Key") == "x-api-key" && lib.lower("Http-Headers") == "http-headers"
    ensures IsSecret(lib, "X-API-Key") && IsTransport(lib, "Http-Headers")
  {
    hide Underscored;
    UnderscoredIs("x-api-key", "x_api_key");
    UnderscoredIs("http-headers", "http_headers");
  }

  /** Summaries and cut-offs as they are written. */
  lemma RenderedSummaries(n: nat, digest: string, name: string)
    ensures Render(BytesSummary(n, digest)).fields
      == map["_type" := Atom(Text("bytes")), "length" := Atom(Number(n, 1)), "sha256" := Atom(Text(digest))]
    ensures Render(Truncated).fields == map["_truncated" := Atom(Text("maximum serialization depth reached"))]
    ensures Render(Cycle(name)).fields == map["_cycle" := Atom(Text(name))]
  {
  }
}
