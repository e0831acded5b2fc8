/** Paths through the device graph (src/bin/11.rs): three-letter device
    names packed into 15-bit ids, the adjacency lists read from the input,
    Kahn's topological sort, and path counting along that order. */
module Reactor {
  import opened Text
  import opened Arith

  /** Number of ids a three-letter name can take (`1 << 15`). */
  const N: nat := 0x8000

  // ---------------------------------------------------------------------
  // Node names

  predicate IsLower(c: char) { 'a' <= c <= 'z' }

  predicate IsNodeName(s: string) { |s| == 3 && IsLower(s[0]) && IsLower(s[1]) && IsLower(s[2]) }

  function Letter(c: char): (d: nat)
    requires IsLower(c)
    ensures d < 26
  {
    (c as int - 'a' as int) as nat
  }

  /** `hash`: the three letters, five bits each, the first one highest. */
  function Hash(s: string): (h: nat)
    requires IsNodeName(s)
    ensures h < N
    ensures h / 1024 == Letter(s[0]) && h / 32 % 32 == Letter(s[1]) && h % 32 == Letter(s[2])
  {
    Unpack(Letter(s[0]), Letter(s[1]), Letter(s[2]));
    Letter(s[0]) * 1024 + Letter(s[1]) * 32 + Letter(s[2])
  }

  /** The three five-bit fields of a packed id can be read back. */
  lemma Unpack(a: nat, b: nat, c: nat)
    requires a < 32 && b < 32 && c < 32
    ensures var n := a * 1024 + b * 32 + c;
            n < N && n / 1024 == a && n / 32 % 32 == b && n % 32 == c
  {
    var n := a * 1024 + b * 32 + c;
    DivModUnique(n, 1024, a, b * 32 + c);
    assert n == (a * 32 + b) * 32 + c;
    DivModUnique(n, 32, a * 32 + b, c);
    DivModUnique(a * 32 + b, 32, a, b);
  }

  /** The shifts and the bitwise or of `hash` are the sum used by `Hash`,
      because the three five-bit fields do not overlap. */
  lemma HashIsBitPacking(a: bv16, b: bv16, c: bv16)
    requires a < 32 && b < 32 && c < 32
    ensures ((a << 10) | (b << 5) | c) as int == a as int * 1024 + b as int * 32 + c as int
  {
  }

  /** `node_id_to_str`: each five-bit field back to a letter from `a`. */
  function NodeName(n: nat): (s: string)
    requires n < N
    ensures |s| == 3
  {
    [('a' as int + n / 1024 % 32) as char, ('a' as int + n / 32 % 32) as char, ('a' as int + n % 32) as char]
  }

  lemma NameRoundTrip(s: string)
    requires IsNodeName(s)
    ensures NodeName(Hash(s)) == s
  {
  }

  /** Every id whose three fields name letters comes from a name. */
  lemma IdRoundTrip(n: nat)
    requires n < N && n / 1024 < 26 && n / 32 % 32 < 26 && n % 32 < 26
    ensures IsNodeName(NodeName(n)) && Hash(NodeName(n)) == n
  {
    var q, b, c := n / 32, n / 32 % 32, n % 32;
    assert n == q * 32 + c;
    assert q == q / 32 * 32 + b;
    assert n == q / 32 * 1024 + (b * 32 + c);
    DivModUnique(n, 1024, q / 32, b * 32 + c);
    var s := NodeName(n);
    assert Letter(s[0]) == n / 1024 && Letter(s[1]) == b && Letter(s[2]) == c;
  }

  // ---------------------------------------------------------------------
  // Reading the graph

  /** One input line: a device and the devices its outputs go to. */
  datatype Entry = Entry(source: nat, targets: seq<nat>)

  predicate ValidEntry(e: Entry) { e.source < N && forall i :: 0 <= i < |e.targets| ==> e.targets[i] < N }

  predicate ValidEntries(es: seq<Entry>) { forall i :: 0 <= i < |es| ==> ValidEntry(es[i]) }

  function HashAll(ws: seq<string>): (hs: seq<nat>)
    requires forall w <- ws :: IsNodeName(w)
    ensures |hs| == |ws| && forall i :: 0 <= i < |ws| ==> hs[i] == Hash(ws[i])
  {
    if ws == [] then [] else [Hash(ws[0])] + HashAll(ws[1..])
  }

  /** `name: target target …`; `None` without a colon, or unless the name
      and every target are three lowercase letters. */
  function ParseLine(line: string): (r: Option<Entry>)
    ensures r.Some? ==> ValidEntry(r.value) && ':' in line
    ensures r.Some? ==> LetterId(r.value.source) && forall i :: 0 <= i < |r.value.targets| ==> LetterId(r.value.targets[i])
  {
    match SplitOnce(line, ':')
    case None => None
    case Some((name, rest)) =>
      var ws := Words(rest);
      if IsNodeName(name) && forall w <- ws :: IsNodeName(w) then Some(Entry(Hash(name), HashAll(ws))) else None
  }

  /** An id whose three five-bit fields are letters. */
  predicate LetterId(n: nat) { n < N && n / 1024 < 26 && n / 32 % 32 < 26 && n % 32 < 26 }

  /** The targets written as ` name name …`. */
  function TargetsText(ts: seq<nat>): string
    requires forall i :: 0 <= i < |ts| ==> LetterId(ts[i])
  {
    if ts == [] then [] else assert LetterId(ts[0]); [' '] + NodeName(ts[0]) + TargetsText(ts[1..])
  }

  /** An entry written back as its input line `name: target target …`. */
  function EntryText(e: Entry): string
    requires LetterId(e.source) && forall i :: 0 <= i < |e.targets| ==> LetterId(e.targets[i])
  {
    NodeName(e.source) + ":" + TargetsText(e.targets)
  }

  lemma {:induction false} TargetsWords(ts: seq<nat>)
    requires forall i :: 0 <= i < |ts| ==> LetterId(ts[i])
    ensures var ws := Words(TargetsText(ts));
      (forall w <- ws :: IsNodeName(w)) && HashAll(ws) == ts
  {
    if ts != [] {
      TargetsWords(ts[1..]);
      IdRoundTrip(ts[0]);
      var name, rest := NodeName(ts[0]), TargetsText(ts[1..]);
      assert rest == [] || IsSpace(rest[0]);
      WordsCons(name, rest);
      var ws := Words(TargetsText(ts));
      assert ws == [name] + Words(rest);
      assert ws[1..] == Words(rest);
    }
  }

  /** A line written from an entry whose ids are letter names reads back as
      that entry. */
  lemma ParseLineRoundTrip(e: Entry)
    requires LetterId(e.source) && forall i :: 0 <= i < |e.targets| ==> LetterId(e.targets[i])
    ensures ParseLine(EntryText(e)) == Some(e)
  {
    var name := NodeName(e.source);
    IdRoundTrip(e.source);
    SplitOnceAt(name, ':', TargetsText(e.targets));
    assert EntryText(e) == name + [':'] + TargetsText(e.targets);
    TargetsWords(e.targets);
  }

  function Sources(es: seq<Entry>): (ns: seq<nat>)
    ensures |ns| == |es| && forall i :: 0 <= i < |es| ==> ns[i] == es[i].source
  {
    if es == [] then [] else Sources(es[..|es| - 1]) + [es[|es| - 1].source]
  }

  predicate Distinct(s: seq<nat>)
  {
    forall i, j :: 0 <= i < j < |s| ==> s[i] != s[j]
  }

  /** The inputs the source runs on: every line parses, and each device has
      one line (the debug assertion that its list is still empty). */
  predicate WellFormedInput(input: string)
  {
    (forall l <- Lines(input) :: ParseLine(l).Some?) && Distinct(Sources(Entries(input)))
  }

  function Entries(input: string): (es: seq<Entry>)
    requires forall l <- Lines(input) :: ParseLine(l).Some?
    ensures |es| == |Lines(input)| && ValidEntries(es)
    ensures forall i :: 0 <= i < |es| ==> es[i] == ParseLine(Lines(input)[i]).value
  {
    var ls := Lines(input);
    seq(|ls|, i requires 0 <= i < |ls| => ParseLine(ls[i]).value)
  }

  /** The adjacency lists after the lines are read in order: each line
      extends its device's list. */
  function Adjacency(es: seq<Entry>): (adj: seq<seq<nat>>)
    requires ValidEntries(es)
    ensures |adj| == N
  {
    if es == [] then seq(N, _ => [])
    else
      var e := es[|es| - 1];
      var adj := Adjacency(es[..|es| - 1]);
      adj[e.source := adj[e.source] + e.targets]
  }

  /** With one line per device, a device's list is exactly its line's
      targets, and a device without a line has no outputs. */
  lemma {:induction false} AdjacencyOfDistinct(es: seq<Entry>)
    requires (ValidEntries(es)) && Distinct(Sources(es))
    ensures forall i :: 0 <= i < |es| ==> Adjacency(es)[es[i].source] == es[i].targets
    ensures forall v :: 0 <= v < N && v !in Sources(es) ==> Adjacency(es)[v] == []
  {
    if es != [] {
      var init := es[..|es| - 1];
      assert Sources(init) == Sources(es)[..|es| - 1];
      AdjacencyOfDistinct(init);
      var last := es[|es| - 1];
      forall i | 0 <= i < |es| - 1 ensures es[i].source != last.source {
        assert Sources(es)[i] == es[i].source && Sources(es)[|es| - 1] == last.source;
      }
      assert last.source !in Sources(init);
    }
  }

  /** Every entry's targets are valid ids, so the adjacency has only valid ids. */
  lemma {:induction false} AdjacencyValid(es: seq<Entry>)
    requires ValidEntries(es)
    ensures ValidEdges(Adjacency(es))
  {
    if es != [] {
      AdjacencyValid(es[..|es| - 1]);
    }
  }

  /** `parse_input`: the devices in line order and their adjacency lists. */
  method ParseInput(input: string) returns (nodes: seq<nat>, edges: array<seq<nat>>)
    requires forall l <- Lines(input) :: ParseLine(l).Some?
    ensures fresh(edges) && edges.Length == N
    ensures nodes == Sources(Entries(input)) && edges[..] == Adjacency(Entries(input))
  {
    var lines := Lines(input);
    ghost var es := Entries(input);
    nodes := [];
    edges := new seq<nat>[N](_ => []);
    for k := 0 to |lines|
      invariant nodes == Sources(es[..k]) && edges[..] == Adjacency(es[..k])
    {
      var e := ParseLine(lines[k]).value;
      EntryStep(input, k);
      ghost var before := edges[..];
      nodes := nodes + [e.source];
      edges[e.source] := edges[e.source] + e.targets;
      assert edges[..] == before[e.source := before[e.source] + e.targets];
    }
    assert es[..|lines|] == es;
  }

  /** Reading line `k` extends the devices and the adjacency lists read so far. */
  lemma EntryStep(input: string, k: nat)
    requires forall l <- Lines(input) :: ParseLine(l).Some?
    requires k < |Lines(input)|
    ensures var es := Entries(input);
            var e := ParseLine(Lines(input)[k]).value;
            e.source < N
            && Sources(es[..k + 1]) == Sources(es[..k]) + [e.source]
            && Adjacency(es[..k + 1]) == Adjacency(es[..k])[e.source := Adjacency(es[..k])[e.source] + e.targets]
  {
    var es := Entries(input);
    assert es[..k + 1][..k] == es[..k];
  }

  // ---------------------------------------------------------------------
  // The graph and its in-degrees

  /** What `topological_sort` relies on: ids below `N`, distinct devices,
      and no outputs from an id that is not a device. */
  predicate Graph(nodes: seq<nat>, edges: seq<seq<nat>>)
  {
    ValidEdges(edges)
    && Bounded(nodes)
    && Distinct(nodes)
    && (forall u :: 0 <= u < N && u !in nodes ==> edges[u] == [])
  }

  lemma ParsedGraph(input: string)
    requires WellFormedInput(input)
    ensures Graph(Sources(Entries(input)), Adjacency(Entries(input)))
  {
    AdjacencyOfDistinct(Entries(input));
    AdjacencyValid(Entries(input));
  }

  /** Every entry is a valid id. */
  predicate Bounded(s: seq<nat>)
  {
    forall i :: 0 <= i < |s| ==> s[i] < N
  }

  /** Every adjacency list holds valid ids. */
  predicate ValidEdges(edges: seq<seq<nat>>)
  {
    |edges| == N && forall u :: 0 <= u < N ==> Bounded(edges[u])
  }

  function Occ(v: nat, s: seq<nat>): nat { multiset(s)[v] }

  function Elems(s: seq<nat>): set<nat> { set x | x in s }

  /** Edges into `v` from the devices not in `done`, with multiplicity. */
  function InDegree(nodes: seq<nat>, edges: seq<seq<nat>>, done: set<nat>, v: nat): nat
    requires |edges| == N && Bounded(nodes)
  {
    if nodes == [] then 0
    else
      var u := nodes[|nodes| - 1];
      InDegree(nodes[..|nodes| - 1], edges, done, v) + if u in done then 0 else Occ(v, edges[u])
  }

  /** The devices with an edge into `v`. */
  function Preds(nodes: seq<nat>, edges: seq<seq<nat>>, v: nat): set<nat>
  {
    set u | u in nodes && u < |edges| && v in edges[u]
  }

  /** The ids Kahn's algorithm can reach: devices and their targets. */
  predicate InUniverse(nodes: seq<nat>, edges: seq<seq<nat>>, v: nat)
  {
    v in nodes || Preds(nodes, edges, v) != {}
  }

  lemma {:induction false} InDegreeDone(nodes: seq<nat>, edges: seq<seq<nat>>, done: set<nat>, x: nat, v: nat)
    requires |edges| == N && (Bounded(nodes)) && Distinct(nodes) && x !in done
    ensures InDegree(nodes, edges, done, v) == InDegree(nodes, edges, done + {x}, v) + if x in nodes then Occ(v, edges[x]) else 0
  {
    if nodes != [] {
      var init := nodes[..|nodes| - 1];
      InDegreeDone(init, edges, done, x, v);
      assert nodes == init + [nodes[|nodes| - 1]];
      assert x in nodes <==> x in init || x == nodes[|nodes| - 1];
      assert x == nodes[|nodes| - 1] ==> x !in init;
    }
  }

  lemma {:induction false} InDegreeCovers(nodes: seq<nat>, edges: seq<seq<nat>>, done: set<nat>, v: nat, u: nat)
    requires |edges| == N && (Bounded(nodes)) && u in nodes && u !in done
    ensures InDegree(nodes, edges, done, v) >= Occ(v, edges[u])
  {
    var init := nodes[..|nodes| - 1];
    assert nodes == init + [nodes[|nodes| - 1]];
    if u != nodes[|nodes| - 1] {
      InDegreeCovers(init, edges, done, v, u);
    }
  }

  lemma {:induction false} InDegreeWitness(nodes: seq<nat>, edges: seq<seq<nat>>, done: set<nat>, v: nat) returns (u: nat)
    requires |edges| == N && (Bounded(nodes)) && InDegree(nodes, edges, done, v) > 0
    ensures u in nodes && u !in done && v in edges[u]
  {
    var init := nodes[..|nodes| - 1];
    var last := nodes[|nodes| - 1];
    if last !in done && Occ(v, edges[last]) > 0 {
      u := last;
    } else {
      u := InDegreeWitness(init, edges, done, v);
      assert u in nodes;
    }
  }

  /** A zero in-degree means every predecessor is done. */
  lemma PredsDone(nodes: seq<nat>, edges: seq<seq<nat>>, done: set<nat>, v: nat)
    requires |edges| == N && (Bounded(nodes)) && InDegree(nodes, edges, done, v) == 0
    ensures Preds(nodes, edges, v) <= done
  {
    forall u | u in Preds(nodes, edges, v) ensures u in done {
      if u !in done {
        InDegreeCovers(nodes, edges, done, v, u);
      }
    }
  }

  lemma {:induction false} DistinctBound(s: seq<nat>, n: nat)
    requires Distinct(s) && forall x <- s :: x < n
    ensures |s| <= n
    decreases n
  {
    if s != [] {
      assert s[0] in s;
      if n - 1 in s {
        var i :| 0 <= i < |s| && s[i] == n - 1;
        var t := s[..i] + s[i + 1..];
        forall j | 0 <= j < |t| ensures t[j] < n - 1 {
          var j' := if j < i then j else j + 1;
          assert t[j] == s[j'] && s[j'] in s && j' != i;
        }
        assert Distinct(t) by {
          forall a, b | 0 <= a < b < |t| ensures t[a] != t[b] {
            var a' := if a < i then a else a + 1;
            var b' := if b < i then b else b + 1;
            assert t[a] == s[a'] && t[b] == s[b'];
          }
        }
        DistinctBound(t, n - 1);
        assert |t| == |s| - 1;
      } else {
        forall x | x in s ensures x < n - 1 {
          assert x != n - 1;
        }
        DistinctBound(s, n - 1);
      }
    }
  }

  // ---------------------------------------------------------------------
  // Kahn's algorithm

  /** `rank` strictly decreases along every edge: a witness that the graph
      has no cycle. */
  predicate Ranked(edges: seq<seq<nat>>, rank: seq<nat>)
  {
    ValidEdges(edges) && |rank| == N
    && forall u, i :: 0 <= u < N && 0 <= i < |edges[u]| ==> rank[edges[u][i]] < rank[u]
  }

  ghost predicate Acyclic(edges: seq<seq<nat>>)
  {
    exists rank :: Ranked(edges, rank)
  }

  /** The in-degree count of `topological_sort`: one increment per listed target. */
  method InDegrees(nodes: seq<nat>, edges: seq<seq<nat>>) returns (inDegree: array<nat>)
    requires Graph(nodes, edges)
    ensures fresh(inDegree) && inDegree.Length == N
    ensures forall v :: 0 <= v < N ==> inDegree[v] == InDegree(nodes, edges, {}, v)
  {
    inDegree := new nat[N](_ => 0);
    for i := 0 to |nodes|
      invariant forall v :: 0 <= v < N ==> inDegree[v] == InDegree(nodes[..i], edges, {}, v)
    {
      assert nodes[..i + 1][..i] == nodes[..i];
      var targets := edges[nodes[i]];
      for j := 0 to |targets|
        invariant forall v :: 0 <= v < N ==> inDegree[v] == InDegree(nodes[..i], edges, {}, v) + Occ(v, targets[..j])
      {
        assert targets[..j + 1] == targets[..j] + [targets[j]];
        assert targets[j] in edges[nodes[i]];
        inDegree[targets[j]] := inDegree[targets[j]] + 1;
      }
      assert targets[..|targets|] == targets;
    }
    assert nodes[..|nodes|] == nodes;
  }

  /** The devices of `nodes` whose entry in `deg` is zero, keeping their order. */
  function ZeroIn(nodes: seq<nat>, deg: seq<nat>): (r: seq<nat>)
    requires Bounded(nodes) && |deg| == N
    ensures |r| <= |nodes|
  {
    if nodes == [] then []
    else ZeroIn(nodes[..|nodes| - 1], deg) + (if deg[nodes[|nodes| - 1]] == 0 then [nodes[|nodes| - 1]] else [])
  }

  /** The devices of in-degree zero, in input order: the initial queue. */
  method Roots(nodes: seq<nat>, inDegree: array<nat>) returns (q: seq<nat>)
    requires Bounded(nodes) && Distinct(nodes) && inDegree.Length == N
    ensures q == ZeroIn(nodes, inDegree[..])
    ensures Distinct(q) && Bounded(q) && forall x <- q :: x in nodes && inDegree[x] == 0
    ensures forall k :: 0 <= k < |nodes| && inDegree[nodes[k]] == 0 ==> nodes[k] in q
  {
    q := [];
    for i := 0 to |nodes|
      invariant q == ZeroIn(nodes[..i], inDegree[..])
      invariant Distinct(q) && Bounded(q) && forall x <- q :: x in nodes[..i] && inDegree[x] == 0
      invariant forall k :: 0 <= k < i && inDegree[nodes[k]] == 0 ==> nodes[k] in q
    {
      assert nodes[..i + 1][..i] == nodes[..i];
      if inDegree[nodes[i]] == 0 {
        q := q + [nodes[i]];
      }
    }
    assert nodes[..|nodes|] == nodes;
  }

  /** `topological_sort`: in-degrees over the devices' lists, a queue seeded
      with the devices of in-degree zero, then repeatedly output the front
      and release the targets whose in-degree drops to zero. */
  method TopologicalSort(nodes: seq<nat>, edges: seq<seq<nat>>) returns (ordered: seq<nat>)
    requires Graph(nodes, edges)
    ensures Distinct(ordered) && Bounded(ordered)
    ensures forall k :: 0 <= k < |ordered| ==> Preds(nodes, edges, ordered[k]) <= Elems(ordered[..k])
    ensures Acyclic(edges) ==> forall v :: 0 <= v < N && InUniverse(nodes, edges, v) ==> v in ordered
  {
    var inDegree := InDegrees(nodes, edges);
    var q: seq<nat> := Roots(nodes, inDegree);
    ordered := [];
    StartState(nodes, edges, inDegree[..], q);
    while q != []
      invariant KahnState(nodes, edges, inDegree[..], ordered, q, [])
      decreases N - |ordered|
    {
      DistinctBound(ordered + q, N);
      var x := q[0];
      PopStep(nodes, edges, inDegree[..], ordered, q);
      q := q[1..];
      ordered := ordered + [x];
      q := Release(nodes, edges, inDegree, ordered, q, edges[x]);
    }
    assert ordered + q == ordered;
    if Acyclic(edges) {
      var rank :| Ranked(edges, rank);
      forall v | 0 <= v < N && InUniverse(nodes, edges, v) ensures v in ordered {
        AllOutput(nodes, edges, ordered, rank, v);
      }
    }
  }

  /** The inner loop of `topological_sort`: decrements the in-degree of each
      target of the last output device and queues those that reach zero. */
  method Release(nodes: seq<nat>, edges: seq<seq<nat>>, inDegree: array<nat>, ordered: seq<nat>, q: seq<nat>,
                 targets: seq<nat>) returns (q': seq<nat>)
    requires KahnState(nodes, edges, inDegree[..], ordered, q, targets)
    modifies inDegree
    ensures KahnState(nodes, edges, inDegree[..], ordered, q', [])
  {
    q' := q;
    for j := 0 to |targets|
      invariant KahnState(nodes, edges, inDegree[..], ordered, q', targets[j..])
    {
      var v := targets[j];
      ghost var deg := inDegree[..];
      ReleaseStep(nodes, edges, deg, ordered, q', targets[j..]);
      inDegree[v] := inDegree[v] - 1;
      assert inDegree[..] == deg[v := deg[v] - 1];
      if inDegree[v] == 0 {
        q' := q' + [v];
      }
      assert targets[j..][1..] == targets[j + 1..];
    }
  }

  /** The loop invariant of Kahn's algorithm, with `deg` the in-degree array
      and `pending` the targets of the last output device not yet released. */
  ghost predicate KahnState(nodes: seq<nat>, edges: seq<seq<nat>>, deg: seq<nat>, ordered: seq<nat>, q: seq<nat>, pending: seq<nat>)
  {
    Graph(nodes, edges) && |deg| == N
    && Distinct(ordered + q) && Bounded(ordered + q) && Bounded(pending)
    && (forall i :: 0 <= i < |ordered + q| ==> deg[(ordered + q)[i]] == 0)
    && (forall v :: 0 <= v < N ==> deg[v] == InDegree(nodes, edges, Elems(ordered), v) + Occ(v, pending))
    && (forall k :: 0 <= k < |ordered| ==> Preds(nodes, edges, ordered[k]) <= Elems(ordered[..k]))
    && (forall y <- q :: Preds(nodes, edges, y) <= Elems(ordered))
    && (forall v :: 0 <= v < N && deg[v] == 0 && InUniverse(nodes, edges, v) ==> v in ordered + q)
  }

  lemma StartState(nodes: seq<nat>, edges: seq<seq<nat>>, deg: seq<nat>, q: seq<nat>)
    requires Graph(nodes, edges) && |deg| == N
    requires forall v :: 0 <= v < N ==> deg[v] == InDegree(nodes, edges, {}, v)
    requires Distinct(q) && Bounded(q) && forall x <- q :: x in nodes && deg[x] == 0
    requires forall k :: 0 <= k < |nodes| && deg[nodes[k]] == 0 ==> nodes[k] in q
    ensures KahnState(nodes, edges, deg, [], q, [])
  {
    assert Elems([]) == {} && [] + q == q;
    forall v | 0 <= v < N ensures deg[v] == InDegree(nodes, edges, Elems([]), v) + Occ(v, []) {
    }
    forall v | 0 <= v < N && deg[v] == 0 && InUniverse(nodes, edges, v)
      ensures v in q
    {
      if v !in nodes {
        var u :| u in Preds(nodes, edges, v);
        InDegreeCovers(nodes, edges, {}, v, u);
      }
    }
    forall x <- q ensures Preds(nodes, edges, x) <= {} {
      PredsDone(nodes, edges, {}, x);
    }
  }

  /** Moving the front of the queue to the output keeps the invariant, with
      its targets still to release. */
  lemma PopStep(nodes: seq<nat>, edges: seq<seq<nat>>, deg: seq<nat>, ordered: seq<nat>, q: seq<nat>)
    requires KahnState(nodes, edges, deg, ordered, q, []) && q != []
    ensures q[0] < N && KahnState(nodes, edges, deg, ordered + [q[0]], q[1..], edges[q[0]])
  {
    var x := q[0];
    assert (ordered + q)[|ordered|] == x;
    var done := Elems(ordered);
    assert x !in done by {
      forall i | 0 <= i < |ordered| ensures ordered[i] != x {
        assert (ordered + q)[i] == ordered[i];
      }
    }
    forall i | 0 <= i < |edges[x]| ensures edges[x][i] < N {
      assert edges[x][i] in edges[x];
    }
    var ordered' := ordered + [x];
    assert ordered + q == ordered' + q[1..];
    assert Elems(ordered') == done + {x};
    forall v | 0 <= v < N
      ensures deg[v] == InDegree(nodes, edges, Elems(ordered'), v) + Occ(v, edges[x])
    {
      InDegreeDone(nodes, edges, done, x, v);
    }
    forall k | 0 <= k < |ordered'|
      ensures Preds(nodes, edges, ordered'[k]) <= Elems(ordered'[..k])
    {
      if k < |ordered| {
        assert ordered'[..k] == ordered[..k];
      } else {
        assert ordered'[..k] == ordered;
      }
    }
    forall y <- q[1..] ensures Preds(nodes, edges, y) <= Elems(ordered') {
      assert y in q;
    }
  }

  /** Releasing one pending target: its in-degree is positive, and after the
      decrement the invariant holds again, with the target queued when it
      reached zero. */
  lemma ReleaseStep(nodes: seq<nat>, edges: seq<seq<nat>>, deg: seq<nat>, ordered: seq<nat>, q: seq<nat>, pending: seq<nat>)
    requires KahnState(nodes, edges, deg, ordered, q, pending) && pending != []
    ensures var v := pending[0];
      v < N && deg[v] > 0
      && var deg' := deg[v := deg[v] - 1];
      KahnState(nodes, edges, deg', ordered, if deg'[v] == 0 then q + [v] else q, pending[1..])
  {
    var v := pending[0];
    var rest := pending[1..];
    assert pending == [v] + rest;
    assert v < N;
    assert multiset(pending) == multiset{v} + multiset(rest);
    assert deg[v] > 0;
    var deg' := deg[v := deg[v] - 1];
    var q' := if deg'[v] == 0 then q + [v] else q;
    assert Bounded(rest) by {
      forall i | 0 <= i < |rest| ensures rest[i] < N {
        assert rest[i] == pending[i + 1];
      }
    }
    forall u | 0 <= u < N
      ensures deg'[u] == InDegree(nodes, edges, Elems(ordered), u) + Occ(u, rest)
    {
    }
    if deg'[v] == 0 {
      assert v !in ordered + q by {
        forall i | 0 <= i < |ordered + q| ensures (ordered + q)[i] != v {
        }
      }
      assert ordered + q' == (ordered + q) + [v];
      PredsDone(nodes, edges, Elems(ordered), v);
      QueueOne(nodes, edges, deg', ordered, q, v);
    }
  }

  /** The part of the invariant about the queue, once `v` joins it. */
  lemma QueueOne(nodes: seq<nat>, edges: seq<seq<nat>>, deg: seq<nat>, ordered: seq<nat>, q: seq<nat>, v: nat)
    requires |deg| == N && v < N && deg[v] == 0 && v !in ordered + q
    requires Distinct(ordered + q) && Bounded(ordered + q)
    requires forall i :: 0 <= i < |ordered + q| ==> deg[(ordered + q)[i]] == 0
    requires forall y <- q :: Preds(nodes, edges, y) <= Elems(ordered)
    requires Preds(nodes, edges, v) <= Elems(ordered)
    ensures Distinct(ordered + (q + [v])) && Bounded(ordered + (q + [v]))
    ensures forall i :: 0 <= i < |ordered + (q + [v])| ==> deg[(ordered + (q + [v]))[i]] == 0
    ensures forall y <- q + [v] :: Preds(nodes, edges, y) <= Elems(ordered)
  {
    var s := ordered + q;
    assert ordered + (q + [v]) == s + [v];
    forall i | 0 <= i < |s| ensures s[i] != v {
      assert s[i] in s;
    }
  }

  function MaxOf(s: seq<nat>): (m: nat)
    ensures forall i :: 0 <= i < |s| ==> s[i] <= m
  {
    if s == [] then 0
    else
      var m := MaxOf(s[1..]);
      assert forall i :: 1 <= i < |s| ==> s[i] == s[1..][i - 1];
      if s[0] > m then s[0] else m
  }

  /** On an acyclic graph, once the queue is empty every id of the universe
      has been output: one that was not would have a predecessor that was
      not, of higher rank, and so on without end. */
  lemma AllOutput(nodes: seq<nat>, edges: seq<seq<nat>>, ordered: seq<nat>, rank: seq<nat>, v: nat)
    requires Graph(nodes, edges) && Ranked(edges, rank)
    requires forall w :: 0 <= w < N && InDegree(nodes, edges, Elems(ordered), w) == 0 && InUniverse(nodes, edges, w) ==> w in ordered
    requires v < N && InUniverse(nodes, edges, v)
    ensures v in ordered
    decreases MaxOf(rank) - rank[v]
  {
    if v !in ordered {
      var u := InDegreeWitness(nodes, edges, Elems(ordered), v);
      assert rank[v] < rank[u] <= MaxOf(rank);
      AllOutput(nodes, edges, ordered, rank, u);
    }
  }

  // ---------------------------------------------------------------------
  // Counting paths

  /** The order `count_ways` walks: distinct ids, each device before all of
      its targets. */
  predicate TopoOrder(o: seq<nat>, edges: seq<seq<nat>>)
  {
    ValidEdges(edges) && Distinct(o) && Bounded(o)
    && forall i, j :: 0 <= i < |o| && 0 <= j < |edges[o[i]]| ==> edges[o[i]][j] in o[i + 1..]
  }

  /** What `TopologicalSort` promises on an acyclic graph is a topological
      order of every id that has an edge. */
  lemma KahnIsTopo(nodes: seq<nat>, edges: seq<seq<nat>>, o: seq<nat>)
    requires Graph(nodes, edges) && Distinct(o) && Bounded(o)
    requires forall k :: 0 <= k < |o| ==> Preds(nodes, edges, o[k]) <= Elems(o[..k])
    requires forall v :: 0 <= v < N && InUniverse(nodes, edges, v) ==> v in o
    ensures TopoOrder(o, edges)
    ensures forall v :: 0 <= v < N && v !in o ==> edges[v] == []
  {
    forall i, j | 0 <= i < |o| && 0 <= j < |edges[o[i]]| ensures edges[o[i]][j] in o[i + 1..] {
      var u, c := o[i], edges[o[i]][j];
      assert u in nodes;
      assert c < N && c in edges[u];
      assert u in Preds(nodes, edges, c);
      assert InUniverse(nodes, edges, c);
      var k :| 0 <= k < |o| && o[k] == c;
      assert u in Elems(o[..k]);
      var i' :| 0 <= i' < k && o[..k][i'] == u;
      assert o[i'] == u;
      assert i' == i;
      assert o[i + 1..][k - i - 1] == c;
    }
    forall v | 0 <= v < N && v !in o ensures edges[v] == [] {
    }
  }

  /** Reference count of the paths from `x` to `end`: one for stopping at `end`
      plus the paths through each listed target, an edge listed twice counted
      twice. The ranks make the recursion well founded. */
  function PathsFrom(edges: seq<seq<nat>>, rank: seq<nat>, x: nat, end: nat): nat
    requires Ranked(edges, rank) && x < N
    decreases rank[x], 1
  {
    (if x == end then 1 else 0) + PathsVia(edges, rank, edges[x], end, rank[x])
  }

  /** The paths to `end` starting with one of the ids `cs`, all ranked below `bound`. */
  function PathsVia(edges: seq<seq<nat>>, rank: seq<nat>, cs: seq<nat>, end: nat, bound: nat): nat
    requires Ranked(edges, rank) && Bounded(cs)
    requires forall i :: 0 <= i < |cs| ==> rank[cs[i]] < bound
    decreases bound, 0, |cs|
  {
    if cs == [] then 0
    else PathsFrom(edges, rank, cs[0], end) + PathsVia(edges, rank, cs[1..], end, bound)
  }

  ghost function ChosenRank(edges: seq<seq<nat>>): (rank: seq<nat>)
    requires Acyclic(edges)
    ensures Ranked(edges, rank)
  {
    var rank :| Ranked(edges, rank); rank
  }

  /** The number of paths from `x` to `end` in an acyclic graph. */
  ghost function Paths(edges: seq<seq<nat>>, x: nat, end: nat): nat
    requires Acyclic(edges) && x < N
  {
    PathsFrom(edges, ChosenRank(edges), x, end)
  }

  /** A path from `x` to another id `e` only goes down in rank. */
  lemma {:induction false} PathsDescend(edges: seq<seq<nat>>, rank: seq<nat>, x: nat, e: nat)
    requires Ranked(edges, rank) && x < N && e < N
    requires PathsFrom(edges, rank, x, e) > 0 && x != e
    ensures rank[e] < rank[x]
    decreases rank[x], 1
  {
    ViaDescend(edges, rank, edges[x], e, rank[x]);
  }

  lemma {:induction false} ViaDescend(edges: seq<seq<nat>>, rank: seq<nat>, cs: seq<nat>, e: nat, bound: nat)
    requires Ranked(edges, rank) && Bounded(cs) && e < N
    requires forall i :: 0 <= i < |cs| ==> rank[cs[i]] < bound
    requires PathsVia(edges, rank, cs, e, bound) > 0
    ensures rank[e] < bound
    decreases bound, 0, |cs|
  {
    if PathsFrom(edges, rank, cs[0], e) > 0 {
      if cs[0] != e {
        PathsDescend(edges, rank, cs[0], e);
      }
    } else {
      ViaDescend(edges, rank, cs[1..], e, bound);
    }
  }

  /** In an acyclic graph two distinct ids are not both reachable from each other. */
  lemma NoRoundTrip(edges: seq<seq<nat>>, a: nat, b: nat)
    requires Acyclic(edges) && a < N && b < N && a != b
    ensures Paths(edges, a, b) == 0 || Paths(edges, b, a) == 0
  {
    var rank := ChosenRank(edges);
    if Paths(edges, a, b) > 0 && Paths(edges, b, a) > 0 {
      PathsDescend(edges, rank, a, b);
      PathsDescend(edges, rank, b, a);
    }
  }

  /** The invariant of `count_ways`: the ways recorded at each id, weighted
      by the paths that still leave it (none for an id already processed,
      unless it is `end` itself). */
  function Mass(edges: seq<seq<nat>>, rank: seq<nat>, ways: seq<nat>, done: set<nat>, end: nat): nat
    requires Ranked(edges, rank) && |ways| <= N
  {
    if ways == [] then 0
    else
      var v := |ways| - 1;
      Mass(edges, rank, ways[..v], done, end)
      + ways[v] * (if v in done then (if v == end then 1 else 0) else PathsFrom(edges, rank, v, end))
  }

  /** Initially the only way recorded is the one at `start`. */
  lemma {:induction false} MassStart(edges: seq<seq<nat>>, rank: seq<nat>, ways: seq<nat>, start: nat, end: nat)
    requires Ranked(edges, rank) && |ways| <= N && start < N
    requires forall v :: 0 <= v < |ways| ==> ways[v] == if v == start then 1 else 0
    ensures Mass(edges, rank, ways, {}, end) == if start < |ways| then PathsFrom(edges, rank, start, end) else 0
  {
    if ways != [] {
      MassStart(edges, rank, ways[..|ways| - 1], start, end);
    }
  }

  /** Adding `d` ways at an unprocessed id `c` adds `d` times its paths. */
  lemma {:induction false} MassBump(edges: seq<seq<nat>>, rank: seq<nat>, ways: seq<nat>, done: set<nat>, end: nat, c: nat, d: nat)
    requires Ranked(edges, rank) && |ways| <= N && c < |ways| && c !in done
    ensures Mass(edges, rank, ways[c := ways[c] + d], done, end)
      == Mass(edges, rank, ways, done, end) + d * PathsFrom(edges, rank, c, end)
  {
    var v := |ways| - 1;
    var ways' := ways[c := ways[c] + d];
    if c < v {
      assert ways'[..v] == ways[..v][c := ways[c] + d];
      MassBump(edges, rank, ways[..v], done, end, c, d);
    } else {
      assert ways'[..v] == ways[..v];
      var p := PathsFrom(edges, rank, c, end);
      assert (ways[c] + d) * p == ways[c] * p + d * p;
    }
  }

  /** Ids outside `ways` do not matter. */
  lemma {:induction false} MassUnchanged(edges: seq<seq<nat>>, rank: seq<nat>, ways: seq<nat>, done: set<nat>, done': set<nat>, end: nat)
    requires Ranked(edges, rank) && |ways| <= N
    requires forall v :: 0 <= v < |ways| ==> (v in done <==> v in done')
    ensures Mass(edges, rank, ways, done, end) == Mass(edges, rank, ways, done', end)
  {
    if ways != [] {
      MassUnchanged(edges, rank, ways[..|ways| - 1], done, done', end);
    }
  }

  /** Marking `x` processed moves its ways from its own paths onto the paths
      through its targets. */
  lemma {:induction false} MassMoveDone(edges: seq<seq<nat>>, rank: seq<nat>, ways: seq<nat>, done: set<nat>, end: nat, x: nat)
    requires Ranked(edges, rank) && |ways| <= N && x < |ways| && x !in done
    ensures Mass(edges, rank, ways, done, end)
      == Mass(edges, rank, ways, done + {x}, end) + ways[x] * PathsVia(edges, rank, edges[x], end, rank[x])
  {
    var v := |ways| - 1;
    if x < v {
      MassMoveDone(edges, rank, ways[..v], done, end, x);
    } else {
      MassUnchanged(edges, rank, ways[..v], done, done + {x}, end);
      var p := PathsVia(edges, rank, edges[x], end, rank[x]);
      var e := if x == end then 1 else 0;
      assert ways[x] * (e + p) == ways[x] * e + ways[x] * p;
    }
  }

  /** Once every id holding ways is processed, the mass is the ways at `end`. */
  lemma {:induction false} MassFinal(edges: seq<seq<nat>>, rank: seq<nat>, ways: seq<nat>, done: set<nat>, end: nat)
    requires Ranked(edges, rank) && |ways| <= N
    requires forall v :: 0 <= v < |ways| && ways[v] != 0 ==> v in done
    ensures Mass(edges, rank, ways, done, end) == if end < |ways| then ways[end] else 0
  {
    if ways != [] {
      MassFinal(edges, rank, ways[..|ways| - 1], done, end);
    }
  }

  /** The device at position `i` is not among those before it. */
  lemma NotYetDone(o: seq<nat>, s: nat, i: nat)
    requires Distinct(o) && s <= i < |o|
    ensures o[i] !in Elems(o[s..i])
  {
  }

  /** The targets of the device at position `i` come later in the order. */
  lemma ChildrenLater(o: seq<nat>, edges: seq<seq<nat>>, s: nat, i: nat)
    requires TopoOrder(o, edges) && s <= i < |o|
    ensures forall j :: 0 <= j < |edges[o[i]]| ==>
      edges[o[i]][j] != o[i] && edges[o[i]][j] !in Elems(o[s..i + 1]) && edges[o[i]][j] in o[s..]
  {
    forall j | 0 <= j < |edges[o[i]]|
      ensures edges[o[i]][j] != o[i] && edges[o[i]][j] !in Elems(o[s..i + 1]) && edges[o[i]][j] in o[s..]
    {
      var c := edges[o[i]][j];
      assert c in o[i + 1..];
      var k :| 0 <= k < |o| - i - 1 && o[i + 1..][k] == c;
      assert o[i + 1 + k] == c;
      assert o[s..][i + 1 + k - s] == c;
    }
  }

  /** The inner loop of `count_ways` at device `node`: the ways recorded so far,
      weighted by their remaining paths, plus the ways of `node` times the
      paths through its targets still `pending`, make up `total`. */
  ghost predicate Propagating(edges: seq<seq<nat>>, rank: seq<nat>, ways: seq<nat>, done: set<nat>, end: nat, node: nat, pending: seq<nat>, total: nat)
  {
    Ranked(edges, rank) && |ways| == N && node < N && Bounded(pending)
    && (forall i :: 0 <= i < |pending| ==> rank[pending[i]] < rank[node])
    && Mass(edges, rank, ways, done, end) + ways[node] * PathsVia(edges, rank, pending, end, rank[node]) == total
  }

  /** Starting on device `x` once it is marked processed. */
  lemma EnterNode(edges: seq<seq<nat>>, rank: seq<nat>, ways: seq<nat>, done: set<nat>, end: nat, x: nat, total: nat)
    requires Ranked(edges, rank) && |ways| == N && x < N && x !in done
    requires Mass(edges, rank, ways, done, end) == total
    ensures Propagating(edges, rank, ways, done + {x}, end, x, edges[x], total)
  {
    MassMoveDone(edges, rank, ways, done, end, x);
  }

  /** With no target left, the mass alone is the total. */
  lemma LeaveNode(edges: seq<seq<nat>>, rank: seq<nat>, ways: seq<nat>, done: set<nat>, end: nat, node: nat, total: nat)
    requires Propagating(edges, rank, ways, done, end, node, [], total)
    ensures Mass(edges, rank, ways, done, end) == total
  {
    assert PathsVia(edges, rank, [], end, rank[node]) == 0;
  }

  /** Adding the ways of `node` to its next target keeps the total. */
  lemma PushStep(edges: seq<seq<nat>>, rank: seq<nat>, ways: seq<nat>, done: set<nat>, end: nat, node: nat, pending: seq<nat>, total: nat)
    requires Propagating(edges, rank, ways, done, end, node, pending, total)
    requires pending != [] && pending[0] !in done && pending[0] != node
    ensures var c := pending[0];
      Propagating(edges, rank, ways[c := ways[c] + ways[node]], done, end, node, pending[1..], total)
  {
    var c, w := pending[0], ways[node];
    var p, q := PathsFrom(edges, rank, c, end), PathsVia(edges, rank, pending[1..], end, rank[node]);
    MassBump(edges, rank, ways, done, end, c, w);
    assert w * (p + q) == w * p + w * q;
  }

  /** The inner loop of `count_ways`: each target in turn receives the
      current ways of `node`. */
  function Pushed(ways: seq<nat>, node: nat, targets: seq<nat>): (r: seq<nat>)
    requires node < |ways| && forall k :: 0 <= k < |targets| ==> targets[k] < |ways|
    ensures |r| == |ways|
    decreases |targets|
  {
    if targets == [] then ways
    else
      var c := targets[0];
      Pushed(ways[c := ways[c] + ways[node]], node, targets[1..])
  }

  /** Pushing to targets that are neither processed nor `node` itself keeps the total. */
  lemma {:induction false} PushedMass(edges: seq<seq<nat>>, rank: seq<nat>, ways: seq<nat>, done: set<nat>, end: nat, node: nat, targets: seq<nat>, total: nat)
    requires Propagating(edges, rank, ways, done, end, node, targets, total)
    requires forall k :: 0 <= k < |targets| ==> targets[k] !in done && targets[k] != node
    ensures Mass(edges, rank, Pushed(ways, node, targets), done, end) == total
    decreases |targets|
  {
    if targets == [] {
      LeaveNode(edges, rank, ways, done, end, node, total);
    } else {
      var c := targets[0];
      PushStep(edges, rank, ways, done, end, node, targets, total);
      PushedMass(edges, rank, ways[c := ways[c] + ways[node]], done, end, node, targets[1..], total);
    }
  }

  /** Pushing only gives ways to the targets. */
  lemma {:induction false} PushedSupport(ways: seq<nat>, node: nat, targets: seq<nat>, v: nat)
    requires node < |ways| && v < |ways| && forall k :: 0 <= k < |targets| ==> targets[k] < |ways|
    ensures Pushed(ways, node, targets)[v] != 0 ==> ways[v] != 0 || v in targets
    decreases |targets|
  {
    if targets != [] {
      var c := targets[0];
      PushedSupport(ways[c := ways[c] + ways[node]], node, targets[1..], v);
    }
  }

  /** The inner loop of `count_ways`, in place. */
  method Spread(ways: array<nat>, node: nat, targets: seq<nat>)
    requires node < ways.Length && forall k :: 0 <= k < |targets| ==> targets[k] < ways.Length
    modifies ways
    ensures ways[..] == Pushed(old(ways[..]), node, targets)
  {
    for j := 0 to |targets|
      invariant Pushed(ways[..], node, targets[j..]) == Pushed(old(ways[..]), node, targets)
    {
      var c := targets[j];
      assert targets[j..][1..] == targets[j + 1..];
      ways[c] := ways[c] + ways[node];
    }
    assert targets[|targets|..] == [];
  }

  /** One step of the outer loop of `count_ways` keeps its invariant: the
      weighted ways still make up `total`, and only ids from `start`'s place
      on hold ways. */
  lemma CountStep(edges: seq<seq<nat>>, rank: seq<nat>, ordered: seq<nat>, s: nat, i: nat, before: seq<nat>, after: seq<nat>, end: nat, total: nat)
    requires TopoOrder(ordered, edges) && Ranked(edges, rank) && s <= i < |ordered| && |before| == N
    requires Mass(edges, rank, before, Elems(ordered[s..i]), end) == total
    requires forall v :: 0 <= v < N && before[v] != 0 ==> v in ordered[s..]
    requires after == Pushed(before, ordered[i], edges[ordered[i]])
    ensures Mass(edges, rank, after, Elems(ordered[s..i + 1]), end) == total
    ensures forall v :: 0 <= v < N && after[v] != 0 ==> v in ordered[s..]
  {
    var node := ordered[i];
    var done := Elems(ordered[s..i]);
    assert ordered[s..i + 1] == ordered[s..i] + [node];
    assert Elems(ordered[s..i + 1]) == done + {node};
    NotYetDone(ordered, s, i);
    EnterNode(edges, rank, before, done, end, node, total);
    ChildrenLater(ordered, edges, s, i);
    PushedMass(edges, rank, before, done + {node}, end, node, edges[node], total);
    forall v | 0 <= v < N && after[v] != 0 ensures v in ordered[s..] {
      PushedSupport(before, node, edges[node], v);
    }
  }

  /** The outer loop of `count_ways`: every device of `order` in turn pushes
      its ways to its targets. */
  function Walked(ways: seq<nat>, edges: seq<seq<nat>>, order: seq<nat>): (r: seq<nat>)
    requires |ways| == N && ValidEdges(edges) && Bounded(order)
    ensures |r| == N
    decreases |order|
  {
    if order == [] then ways
    else Walked(Pushed(ways, order[0], edges[order[0]]), edges, order[1..])
  }

  /** Walking the rest of a topological order from a state whose weighted
      ways make up `total` leaves exactly `total` ways at `end`. */
  lemma {:induction false} WalkedMass(edges: seq<seq<nat>>, rank: seq<nat>, ordered: seq<nat>, s: nat, i: nat, ways: seq<nat>, end: nat, total: nat)
    requires TopoOrder(ordered, edges) && Ranked(edges, rank) && s <= i <= |ordered| && |ways| == N && end < N
    requires Mass(edges, rank, ways, Elems(ordered[s..i]), end) == total
    requires forall v :: 0 <= v < N && ways[v] != 0 ==> v in ordered[s..]
    ensures Walked(ways, edges, ordered[i..])[end] == total
    decreases |ordered| - i
  {
    if i == |ordered| {
      MassFinal(edges, rank, ways, Elems(ordered[s..]), end);
      assert ordered[s..i] == ordered[s..];
    } else {
      var after := Pushed(ways, ordered[i], edges[ordered[i]]);
      CountStep(edges, rank, ordered, s, i, ways, after, end, total);
      WalkedMass(edges, rank, ordered, s, i + 1, after, end, total);
      assert ordered[i..][1..] == ordered[i + 1..];
    }
  }

  /** `count_ways`: one way at `start`, then, from `start`'s place in the order
      on, each device adds its ways to each of its targets. On a topological
      order of an acyclic graph this is the number of paths; when `start` is
      not in the order, only the empty path can count. */
  method CountWays(ordered: seq<nat>, edges: seq<seq<nat>>, start: nat, end: nat) returns (r: nat)
    requires ValidEdges(edges) && Bounded(ordered) && start < N && end < N
    ensures start !in ordered ==> r == if start == end then 1 else 0
    ensures TopoOrder(ordered, edges) && Acyclic(edges) && (start !in ordered ==> edges[start] == [])
      ==> r == Paths(edges, start, end)
  {
    var ways := new nat[N](_ => 0);
    ways[start] := 1;
    ghost var init := ways[..];
    var i := 0;
    while i < |ordered| && ordered[i] != start
      invariant i <= |ordered| && start !in ordered[..i]
    {
      assert ordered[..i + 1] == ordered[..i] + [ordered[i]];
      i := i + 1;
    }
    assert ordered[..|ordered|] == ordered;
    ghost var s := i;
    while i < |ordered|
      invariant s <= i <= |ordered| && ways.Length == N
      invariant Walked(ways[..], edges, ordered[i..]) == Walked(init, edges, ordered[s..])
    {
      var node := ordered[i];
      assert ordered[i..][1..] == ordered[i + 1..];
      Spread(ways, node, edges[node]);
      i := i + 1;
    }
    assert ordered[|ordered|..] == [];
    r := ways[end];
    if TopoOrder(ordered, edges) && Acyclic(edges) {
      var rank := ChosenRank(edges);
      if start in ordered {
        MassStart(edges, rank, init, start, end);
        assert Elems(ordered[s..s]) == {};
        WalkedMass(edges, rank, ordered, s, s, init, end, PathsFrom(edges, rank, start, end));
      } else if edges[start] == [] {
        assert PathsVia(edges, rank, edges[start], end, rank[start]) == 0;
      }
    }
  }

  // ---------------------------------------------------------------------
  // The two parts

  /** Parses the input and sorts its devices; on an acyclic graph the order is
      topological and every id it leaves out has no outputs. */
  method SortedGraph(input: string) returns (ordered: seq<nat>, edges: seq<seq<nat>>)
    requires WellFormedInput(input)
    ensures edges == Adjacency(Entries(input)) && ValidEdges(edges) && Bounded(ordered)
    ensures Acyclic(edges) ==> TopoOrder(ordered, edges) && forall v :: 0 <= v < N && v !in ordered ==> edges[v] == []
  {
    var nodes, adjacency := ParseInput(input);
    ParsedGraph(input);
    edges := adjacency[..];
    ordered := TopologicalSort(nodes, edges);
    if Acyclic(edges) {
      KahnIsTopo(nodes, edges, ordered);
    }
  }

  /** `part_one`: the number of paths from `you` to `out`. */
  method PartOne(input: string) returns (r: Option<nat>)
    requires WellFormedInput(input)
    ensures r.Some?
    ensures var g := Adjacency(Entries(input));
      Acyclic(g) ==> r.value == Paths(g, Hash("you"), Hash("out"))
  {
    var ordered, edges := SortedGraph(input);
    var n := CountWays(ordered, edges, Hash("you"), Hash("out"));
    r := Some(n);
  }

  /** The paths along three legs, one after another. */
  function Legs(a: nat, b: nat, c: nat): nat { a * b * c }

  /** `part_two`: the paths from `svr` to `out` through both `dac` and `fft`.
      At most one of the two can lie before the other, so the count is the
      product of the three legs in the order that has paths. */
  method PartTwo(input: string) returns (r: Option<nat>)
    requires WellFormedInput(input) && Acyclic(Adjacency(Entries(input)))
    ensures var g := Adjacency(Entries(input));
      var svr, dac, fft, out := Hash("svr"), Hash("dac"), Hash("fft"), Hash("out");
      r == Some(if Paths(g, fft, dac) == 0
        then Legs(Paths(g, svr, dac), Paths(g, dac, fft), Paths(g, fft, out))
        else Legs(Paths(g, svr, fft), Paths(g, fft, dac), Paths(g, dac, out)))
  {
    var ordered, edges := SortedGraph(input);
    var svr, dac, fft, out := Hash("svr"), Hash("dac"), Hash("fft"), Hash("out");
    var dacFft := CountWays(ordered, edges, dac, fft);
    var fftDac := CountWays(ordered, edges, fft, dac);
    if fftDac == 0 {
      var head := CountWays(ordered, edges, svr, dac);
      var tail := CountWays(ordered, edges, fft, out);
      r := Some(Legs(head, dacFft, tail));
    } else {
      NoRoundTrip(edges, dac, fft);
      assert dacFft == 0;
      var head := CountWays(ordered, edges, svr, fft);
      var tail := CountWays(ordered, edges, dac, out);
      r := Some(Legs(head, fftDac, tail));
    }
  }
}
