/** The Aho-Corasick automaton of the redactor: a trie with sorted edge slices, completed
    breadth-first with failure and output links.

    `paths[i]` is the ghost label of node i: the byte string that leads to it from the root.
    Every link is specified by labels alone, so the specification does not repeat the
    breadth-first search that computes it. */
module Matcher {
  import opened Text

  const MAX_NODES: nat := 0x1_0000

  datatype Edge = Edge(b: Byte, node: nat)
  datatype Node = Node(edges: seq<Edge>, fail: nat, outputLink: nat, terminal: nat, output: nat)
  datatype Automaton = Automaton(nodes: seq<Node>, maxPattern: nat)

  const LEAF: Node := Node([], 0, 0, 0, 0)

  // ----- sorted edge slices -----

  predicate Sorted(edges: seq<Edge>) {
    forall i, j :: 0 <= i < j < |edges| ==> edges[i].b < edges[j].b
  }

  method SearchEdges(edges: seq<Edge>, b: Byte) returns (index: nat)
    requires Sorted(edges)
    ensures index <= |edges|
    ensures forall k :: 0 <= k < index ==> edges[k].b < b
    ensures forall k :: index <= k < |edges| ==> b <= edges[k].b
  {
    var lo, hi := 0, |edges|;
    while lo < hi
      invariant 0 <= lo <= hi <= |edges|
      invariant forall k :: 0 <= k < lo ==> edges[k].b < b
      invariant forall k :: hi <= k < |edges| ==> b <= edges[k].b
    {
      var mid := (lo + hi) / 2;
      if edges[mid].b < b {
        lo := mid + 1;
      } else {
        hi := mid;
      }
    }
    index := lo;
  }

  method FindEdge(edges: seq<Edge>, b: Byte) returns (next: nat, ok: bool)
    requires Sorted(edges)
    ensures ok ==> Edge(b, next) in edges
    ensures !ok ==> next == 0 && forall e :: e in edges ==> e.b != b
  {
    var index := SearchEdges(edges, b);
    if index < |edges| && edges[index].b == b {
      return edges[index].node, true;
    }
    return 0, false;
  }

  method InsertEdge(edges: seq<Edge>, e: Edge) returns (r: seq<Edge>)
    requires Sorted(edges) && forall x :: x in edges ==> x.b != e.b
    ensures Sorted(r)
    ensures forall x :: x in r <==> x in edges || x == e
  {
    var index := SearchEdges(edges, e.b);
    r := edges[..index] + [e] + edges[index..];
    forall x | x in edges ensures x in r {
      var k :| 0 <= k < |edges| && edges[k] == x;
      assert x == if k < index then r[k] else r[k + 1];
    }
    assert r[index] == e;
  }

  // ----- the trie -----

  ghost predicate EdgesLead(edges: seq<Edge>, paths: seq<Bytes>, i: nat)
    requires i < |paths|
  {
    forall e :: e in edges ==> 0 < e.node < |paths| && paths[e.node] == paths[i] + [e.b]
  }

  ghost predicate Distinct(paths: seq<Bytes>) {
    paths == [] || (Distinct(paths[..|paths| - 1]) && paths[|paths| - 1] !in paths[..|paths| - 1])
  }

  lemma {:induction false} DistinctPair(paths: seq<Bytes>, i: nat, j: nat)
    requires Distinct(paths) && i < j < |paths|
    ensures paths[i] != paths[j]
  {
    var last := |paths| - 1;
    if j < last {
      DistinctPair(paths[..last], i, j);
    } else {
      assert paths[..last][i] == paths[i];
    }
  }

  lemma DistinctAt(paths: seq<Bytes>, i: nat, j: nat)
    requires Distinct(paths) && i < |paths| && j < |paths|
    ensures paths[i] == paths[j] ==> i == j
  {
    if i < j {
      DistinctPair(paths, i, j);
    } else if j < i {
      DistinctPair(paths, j, i);
    }
  }

  lemma {:induction false} DistinctFromIndices(paths: seq<Bytes>)
    requires forall i, j :: 0 <= i < j < |paths| ==> paths[i] != paths[j]
    ensures Distinct(paths)
  {
    if paths != [] {
      DistinctFromIndices(paths[..|paths| - 1]);
    }
  }

  lemma DistinctSnoc(paths: seq<Bytes>, x: Bytes)
    requires Distinct(paths) && x !in paths
    ensures Distinct(paths + [x])
  {
    assert (paths + [x])[..|paths|] == paths;
  }

  ghost predicate IsChildOf(nodes: seq<Node>, p: nat, i: nat)
    requires p < |nodes|
  {
    exists e :: e in nodes[p].edges && e.node == i
  }

  ghost predicate HasParent(nodes: seq<Node>, i: nat) {
    exists p :: 0 <= p < |nodes| && IsChildOf(nodes, p, i)
  }

  /** Labels are distinct, edges extend them by one byte and every node but the root hangs
      off an edge. */
  ghost predicate Trie(nodes: seq<Node>, paths: seq<Bytes>) {
    && 0 < |nodes| == |paths|
    && paths[0] == []
    && Distinct(paths)
    && (forall i :: 0 <= i < |nodes| ==> Sorted(nodes[i].edges) && EdgesLead(nodes[i].edges, paths, i))
    && (forall i :: 0 < i < |nodes| ==> HasParent(nodes, i))
  }

  /** An edge exists exactly when the longer label does. */
  lemma EdgeForLabel(nodes: seq<Node>, paths: seq<Bytes>, i: nat, j: nat, b: Byte)
    requires Trie(nodes, paths) && i < |paths| && j < |paths|
    requires paths[j] == paths[i] + [b]
    ensures Edge(b, j) in nodes[i].edges
  {
    assert HasParent(nodes, j);
    var p :| 0 <= p < |nodes| && IsChildOf(nodes, p, j);
    var e :| e in nodes[p].edges && e.node == j;
    assert paths[p] + [e.b] == paths[i] + [b];
    assert paths[p] == (paths[p] + [e.b])[..|paths[j]| - 1] == paths[i];
    DistinctAt(paths, p, i);
    assert e.b == (paths[p] + [e.b])[|paths[j]| - 1] == b;
  }

  lemma NoEdgeNoLabel(nodes: seq<Node>, paths: seq<Bytes>, i: nat, b: Byte)
    requires Trie(nodes, paths) && i < |paths|
    requires forall e :: e in nodes[i].edges ==> e.b != b
    ensures paths[i] + [b] !in paths
  {
    forall j | 0 <= j < |paths| ensures paths[j] != paths[i] + [b] {
      if paths[j] == paths[i] + [b] {
        EdgeForLabel(nodes, paths, i, j, b);
        assert false;
      }
    }
  }

  lemma RootIsUnique(nodes: seq<Node>, paths: seq<Bytes>, i: nat)
    requires Trie(nodes, paths) && i < |paths|
    ensures paths[i] == [] ==> i == 0
  {
    DistinctAt(paths, i, 0);
  }

  lemma ParentLabel(nodes: seq<Node>, paths: seq<Bytes>, j: nat) returns (p: nat, b: Byte)
    requires Trie(nodes, paths) && 0 < j < |paths|
    ensures p < |paths| && paths[j] == paths[p] + [b]
  {
    assert HasParent(nodes, j);
    p :| 0 <= p < |nodes| && IsChildOf(nodes, p, j);
    var e :| e in nodes[p].edges && e.node == j;
    b := e.b;
  }

  ghost predicate PrefixOfSome(w: Bytes, pats: set<Bytes>) {
    exists p :: p in pats && w <= p
  }

  ghost predicate Marked(nodes: seq<Node>, paths: seq<Bytes>, pats: set<Bytes>)
    requires |nodes| == |paths|
  {
    forall i :: 0 <= i < |paths| ==> nodes[i].terminal == if paths[i] in pats then |paths[i]| else 0
  }

  /** The nodes spell exactly the prefixes of the patterns, and `terminal` marks the patterns. */
  ghost predicate Spells(nodes: seq<Node>, paths: seq<Bytes>, pats: set<Bytes>)
    requires |nodes| == |paths|
  {
    && (forall p :: p in pats ==> p in paths)
    && (forall i :: 0 < i < |paths| ==> PrefixOfSome(paths[i], pats))
    && Marked(nodes, paths, pats)
  }

  // ----- links, specified by labels -----

  /** Node i is the longest suffix of the text that the trie spells. */
  ghost predicate LongestSuffix(paths: seq<Bytes>, text: Bytes, i: nat) {
    && i < |paths|
    && IsSuffix(paths[i], text)
    && forall j :: 0 <= j < |paths| && IsSuffix(paths[j], text) ==> |paths[j]| <= |paths[i]|
  }

  ghost predicate LongestProperSuffix(paths: seq<Bytes>, text: Bytes, i: nat) {
    && i < |paths|
    && IsProperSuffix(paths[i], text)
    && forall j :: 0 <= j < |paths| && IsProperSuffix(paths[j], text) ==> |paths[j]| <= |paths[i]|
  }

  /** Node j is the longest pattern that is a proper suffix of the label of i; 0 if none is. */
  ghost predicate OutputLinkOk(paths: seq<Bytes>, pats: set<Bytes>, i: nat, j: nat)
    requires i < |paths|
  {
    && j < |paths|
    && (j != 0 ==> paths[j] in pats && IsProperSuffix(paths[j], paths[i]))
    && (forall p :: p in pats && IsProperSuffix(p, paths[i]) ==> |p| <= |paths[j]|)
  }

  /** n is the length of the longest pattern that is a suffix of t; 0 if none is. */
  ghost predicate LongestPatternSuffix(pats: set<Bytes>, t: Bytes, n: nat) {
    && (n > 0 ==> n <= |t| && t[|t| - n..] in pats)
    && (forall p :: p in pats && IsSuffix(p, t) ==> |p| <= n)
  }

  ghost predicate Linked(node: Node, paths: seq<Bytes>, pats: set<Bytes>, i: nat)
    requires i < |paths|
  {
    && (if i == 0 then node.fail == 0 else LongestProperSuffix(paths, paths[i], node.fail))
    && OutputLinkOk(paths, pats, i, node.outputLink)
    && LongestPatternSuffix(pats, paths[i], node.output)
  }

  /** Everything the redactor relies on. */
  ghost predicate Correct(m: Automaton, paths: seq<Bytes>, pats: set<Bytes>) {
    && Trie(m.nodes, paths)
    && Spells(m.nodes, paths, pats)
    && (forall i :: 0 <= i < |paths| ==> Linked(m.nodes[i], paths, pats, i))
    && Bounded(pats, m.maxPattern)
    && (m.maxPattern > 0 ==> exists p :: p in pats && |p| == m.maxPattern)
  }

  /** The state after a text determines the state after one more byte: only suffixes of the
      current label matter. */
  lemma SuffixStaysInLabel(nodes: seq<Node>, paths: seq<Bytes>, text: Bytes, i: nat, b: Byte, j: nat)
    requires Trie(nodes, paths) && LongestSuffix(paths, text, i)
    requires j < |paths| && IsSuffix(paths[j], text + [b])
    ensures IsSuffix(paths[j], paths[i] + [b])
  {
    if j != 0 {
      var p, c := ParentLabel(nodes, paths, j);
      SuffixSnoc(paths[p], text, c, b);
      SuffixesNest(paths[p], paths[i], text);
      SuffixSnoc(paths[p], paths[i], c, b);
    }
  }

  lemma LongestSuffixAfter(nodes: seq<Node>, paths: seq<Bytes>, text: Bytes, i: nat, b: Byte, next: nat)
    requires Trie(nodes, paths) && LongestSuffix(paths, text, i)
    requires LongestSuffix(paths, paths[i] + [b], next)
    ensures LongestSuffix(paths, text + [b], next)
  {
    SuffixSnoc(paths[i], text, b, b);
    SuffixTransitive(paths[next], paths[i] + [b], text + [b]);
    forall j | 0 <= j < |paths| && IsSuffix(paths[j], text + [b]) ensures |paths[j]| <= |paths[next]| {
      SuffixStaysInLabel(nodes, paths, text, i, b, j);
    }
  }

  /** Labels of the form u + [b] with u a suffix of `word` are no longer than `bound` + 1. */
  ghost predicate NoLonger(paths: seq<Bytes>, word: Bytes, b: Byte, bound: nat) {
    forall j :: 0 <= j < |paths| && IsSuffix(paths[j], word + [b]) ==> |paths[j]| <= bound + 1
  }

  lemma NoLongerStart(paths: seq<Bytes>, word: Bytes, b: Byte)
    ensures NoLonger(paths, word, b, |word|)
  {
  }

  /** Following one failure link where no edge leads on loses nothing. */
  lemma FailStep(nodes: seq<Node>, paths: seq<Bytes>, word: Bytes, b: Byte, s: nat, f: nat)
    requires Trie(nodes, paths) && s < |paths| && IsSuffix(paths[s], word)
    requires NoLonger(paths, word, b, |paths[s]|)
    requires forall e :: e in nodes[s].edges ==> e.b != b
    requires LongestProperSuffix(paths, paths[s], f)
    ensures IsSuffix(paths[f], word) && NoLonger(paths, word, b, |paths[f]|)
  {
    SuffixTransitive(paths[f], paths[s], word);
    forall j | 0 <= j < |paths| && IsSuffix(paths[j], word + [b]) ensures |paths[j]| <= |paths[f]| + 1 {
      if j != 0 {
        var p, c := ParentLabel(nodes, paths, j);
        SuffixSnoc(paths[p], word, c, b);
        SuffixesNest(paths[p], paths[s], word);
        if |paths[p]| == |paths[s]| {
          assert paths[p] == paths[s];
          DistinctAt(paths, p, s);
          EdgeForLabel(nodes, paths, s, j, b);
          assert false;
        }
      }
    }
  }

  /** An edge found at a suffix beyond which nothing is spelled is the longest suffix. */
  lemma EdgeIsLongest(nodes: seq<Node>, paths: seq<Bytes>, word: Bytes, b: Byte, s: nat, next: nat)
    requires Trie(nodes, paths) && s < |paths| && IsSuffix(paths[s], word)
    requires NoLonger(paths, word, b, |paths[s]|) && Edge(b, next) in nodes[s].edges
    ensures LongestSuffix(paths, word + [b], next)
  {
    SuffixSnoc(paths[s], word, b, b);
  }

  /** Nothing leads on from the root either: only the empty label is a suffix. */
  lemma RootIsLongest(nodes: seq<Node>, paths: seq<Bytes>, word: Bytes, b: Byte)
    requires Trie(nodes, paths) && NoLonger(paths, word, b, 0)
    requires forall e :: e in nodes[0].edges ==> e.b != b
    ensures LongestSuffix(paths, word + [b], 0)
  {
    forall j | 0 <= j < |paths| && IsSuffix(paths[j], word + [b]) ensures |paths[j]| <= 0 {
      if |paths[j]| == 1 {
        assert paths[j] == paths[0] + [paths[j][0]];
        SuffixSnoc([], word, paths[j][0], b);
        assert [] + [paths[j][0]] == paths[j];
        EdgeForLabel(nodes, paths, 0, j, b);
        assert false;
      }
    }
  }

  /** One transition of the automaton; the strictly shorter failure labels make it terminate. */
  method Advance(m: Automaton, state: nat, b: Byte, ghost paths: seq<Bytes>, ghost pats: set<Bytes>)
    returns (next: nat)
    requires Correct(m, paths, pats) && state < |m.nodes|
    ensures LongestSuffix(paths, paths[state] + [b], next)
  {
    hide OutputLinkOk, LongestPatternSuffix, LongestSuffix, NoLonger, Distinct, HasParent;
    var s: nat := state;
    ghost var word := paths[state];
    NoLongerStart(paths, word, b);
    while s != 0
      invariant s < |m.nodes| && IsSuffix(paths[s], word)
      invariant NoLonger(paths, word, b, |paths[s]|)
      decreases |paths[s]|
    {
      var to, ok := FindEdge(m.nodes[s].edges, b);
      if ok {
        EdgeIsLongest(m.nodes, paths, word, b, s, to);
        return to;
      }
      assert Linked(m.nodes[s], paths, pats, s);
      FailStep(m.nodes, paths, word, b, s, m.nodes[s].fail);
      s := m.nodes[s].fail;
    }
    var to, ok := FindEdge(m.nodes[0].edges, b);
    if ok {
      EdgeIsLongest(m.nodes, paths, word, b, 0, to);
      return to;
    }
    RootIsLongest(m.nodes, paths, word, b);
    return 0;
  }

  // ----- phase one: the trie -----

  method AddNode(nodes: seq<Node>, state: nat, b: Byte, ghost paths: seq<Bytes>)
    returns (r: seq<Node>, ghost paths': seq<Bytes>)
    requires Trie(nodes, paths) && state < |nodes|
    requires forall e :: e in nodes[state].edges ==> e.b != b
    ensures paths' == paths + [paths[state] + [b]]
    ensures Trie(r, paths')
    ensures forall i :: 0 <= i < |nodes| ==> r[i].(edges := []) == nodes[i].(edges := [])
    ensures r[|nodes|] == LEAF
  {
    var edges := InsertEdge(nodes[state].edges, Edge(b, |nodes|));
    r := nodes[state := nodes[state].(edges := edges)] + [LEAF];
    paths' := paths + [paths[state] + [b]];
    NoEdgeNoLabel(nodes, paths, state, b);
    DistinctSnoc(paths, paths[state] + [b]);
    forall i | 0 < i < |r| ensures HasParent(r, i) {
      if i < |nodes| {
        assert HasParent(nodes, i);
        var p :| 0 <= p < |nodes| && IsChildOf(nodes, p, i);
        var e :| e in nodes[p].edges && e.node == i;
        assert e in r[p].edges;
        assert IsChildOf(r, p, i);
      } else {
        assert Edge(b, i) in r[state].edges;
        assert IsChildOf(r, state, i);
      }
    }
  }

  /** All prefixes of all patterns, the root's empty label included. */
  ghost function Prefixes(pats: set<Bytes>): set<Bytes> {
    {[]} + set p, k | p in pats && 0 <= k <= |p| :: p[..k]
  }

  ghost predicate Plain(nodes: seq<Node>) {
    forall i :: 0 <= i < |nodes| ==>
      nodes[i].fail == 0 && nodes[i].outputLink == 0 && nodes[i].output == nodes[i].terminal
  }

  /** A finished trie before any link is computed. */
  ghost predicate Unlinked(nodes: seq<Node>, paths: seq<Bytes>, pats: set<Bytes>) {
    Trie(nodes, paths) && Spells(nodes, paths, pats) && Plain(nodes)
  }

  /** The same while a further pattern is being threaded through the trie. */
  ghost predicate Threading(nodes: seq<Node>, paths: seq<Bytes>, pats: set<Bytes>, pattern: Bytes) {
    && Trie(nodes, paths)
    && (forall p :: p in pats ==> p in paths)
    && (forall i :: 0 < i < |paths| ==> PrefixOfSome(paths[i], pats + {pattern}))
    && Marked(nodes, paths, pats)
    && Plain(nodes)
  }

  lemma LabelsArePrefixes(paths: seq<Bytes>, pats: set<Bytes>)
    requires |paths| > 0 && paths[0] == []
    requires forall i :: 0 < i < |paths| ==> PrefixOfSome(paths[i], pats)
    ensures forall i :: 0 <= i < |paths| ==> paths[i] in Prefixes(pats)
  {
    forall i | 0 < i < |paths| ensures paths[i] in Prefixes(pats) {
      assert PrefixOfSome(paths[i], pats);
      var p :| p in pats && paths[i] <= p;
      assert p[..|paths[i]|] == paths[i];
    }
  }

  lemma {:induction false} DistinctFits(paths: seq<Bytes>, s: set<Bytes>)
    requires Distinct(paths) && forall i :: 0 <= i < |paths| ==> paths[i] in s
    ensures |paths| <= |s|
  {
    if paths != [] {
      var last := |paths| - 1;
      DistinctFits(paths[..last], s - {paths[last]});
    }
  }

  lemma {:induction false} CoverFits(paths: seq<Bytes>, s: set<Bytes>)
    requires forall x :: x in s ==> x in paths
    ensures |s| <= |paths|
  {
    if paths != [] {
      CoverFits(paths[1..], s - {paths[0]});
    } else {
      assert s == {};
    }
  }

  /** Prefixes of spelled labels are spelled. */
  lemma {:induction false} PrefixSpelled(nodes: seq<Node>, paths: seq<Bytes>, p: Bytes, k: nat)
    requires Trie(nodes, paths) && p in paths && k <= |p|
    ensures p[..k] in paths
    decreases |p|
  {
    if k == |p| {
      assert p[..k] == p;
    } else {
      var j :| 0 <= j < |paths| && paths[j] == p;
      var q, c := ParentLabel(nodes, paths, j);
      PrefixSpelled(nodes, paths, paths[q], k);
      assert paths[q][..k] == p[..k];
    }
  }

  lemma NodeCount(nodes: seq<Node>, paths: seq<Bytes>, pats: set<Bytes>)
    requires Trie(nodes, paths) && Spells(nodes, paths, pats)
    ensures |nodes| == |Prefixes(pats)|
  {
    LabelsArePrefixes(paths, pats);
    DistinctFits(paths, Prefixes(pats));
    forall x | x in Prefixes(pats) ensures x in paths {
      if x != [] {
        var p, k :| p in pats && 0 <= k <= |p| && p[..k] == x;
        PrefixSpelled(nodes, paths, p, k);
      } else {
        assert paths[0] == x;
      }
    }
    CoverFits(paths, Prefixes(pats));
  }

  /** Running out of nodes proves there really are too many prefixes. */
  lemma TooManyPrefixes(nodes: seq<Node>, paths: seq<Bytes>, pats: set<Bytes>, pattern: Bytes, k: nat, all: set<Bytes>)
    requires Threading(nodes, paths, pats, pattern) && pats + {pattern} <= all
    requires k <= |pattern| && pattern[..k] !in paths
    ensures |nodes| < |Prefixes(all)|
  {
    forall i | 0 < i < |paths| ensures PrefixOfSome(paths[i], all) {
      assert PrefixOfSome(paths[i], pats + {pattern});
      var p :| p in pats + {pattern} && paths[i] <= p;
    }
    LabelsArePrefixes(paths, all);
    DistinctSnoc(paths, pattern[..k]);
    DistinctFits(paths + [pattern[..k]], Prefixes(all));
  }

  /** One byte of a pattern: follow its edge, or grow the trie by it. */
  method ThreadByte(nodes: seq<Node>, state: nat, pattern: Bytes, k: nat,
                    ghost paths: seq<Bytes>, ghost pats: set<Bytes>, ghost all: set<Bytes>)
    returns (ok: bool, r: seq<Node>, next: nat, ghost paths': seq<Bytes>)
    requires Threading(nodes, paths, pats, pattern) && pats + {pattern} <= all
    requires k < |pattern| && state < |paths| && paths[state] == pattern[..k]
    requires |nodes| <= MAX_NODES
    ensures ok ==> Threading(r, paths', pats, pattern) && |r| <= MAX_NODES
    ensures ok ==> next < |paths'| && paths'[next] == pattern[..k + 1]
    ensures !ok ==> MAX_NODES < |Prefixes(all)|
  {
    hide Distinct, HasParent, Prefixes, PrefixOfSome, Marked, Plain;
    var b := pattern[k];
    assert pattern[..k + 1] == pattern[..k] + [b];
    var found;
    next, found := FindEdge(nodes[state].edges, b);
    if found {
      return true, nodes, next, paths;
    }
    NoEdgeNoLabel(nodes, paths, state, b);
    if |nodes| >= MAX_NODES {
      TooManyPrefixes(nodes, paths, pats, pattern, k + 1, all);
      return false, nodes, next, paths;
    }
    r, paths' := AddNode(nodes, state, b, paths);
    ThreadingGrows(nodes, paths, r, paths', pats, pattern, k);
    return true, r, |nodes|, paths';
  }

  lemma ThreadingGrows(nodes: seq<Node>, paths: seq<Bytes>, nodes': seq<Node>, paths': seq<Bytes>,
                       pats: set<Bytes>, pattern: Bytes, k: nat)
    requires Threading(nodes, paths, pats, pattern) && Trie(nodes', paths') && |nodes| == |paths| && |nodes'| == |paths'|
    requires k < |pattern| && pattern[..k + 1] !in paths && paths' == paths + [pattern[..k + 1]]
    requires forall i :: 0 <= i < |nodes| ==> nodes'[i].(edges := []) == nodes[i].(edges := [])
    requires nodes'[|nodes|] == LEAF
    ensures Threading(nodes', paths', pats, pattern)
  {
    hide Trie, Distinct;
    var all := pats + {pattern};
    assert pattern in all && pattern[..k + 1] <= pattern;
    assert PrefixOfSome(pattern[..k + 1], all);
    forall i | 0 < i < |paths'| ensures PrefixOfSome(paths'[i], all) {
      if i < |paths| {
        assert PrefixOfSome(paths[i], all);
      }
    }
    forall i | 0 <= i < |nodes'| ensures
        && nodes'[i].fail == 0 && nodes'[i].outputLink == 0 && nodes'[i].output == nodes'[i].terminal
        && nodes'[i].terminal == if paths'[i] in pats then |paths'[i]| else 0
    {
      if i < |nodes| {
        assert nodes'[i].(edges := []) == nodes[i].(edges := []);
        assert paths'[i] == paths[i];
      }
    }
  }

  method InsertPattern(nodes: seq<Node>, pattern: Bytes, ghost paths: seq<Bytes>, ghost pats: set<Bytes>, ghost all: set<Bytes>)
    returns (ok: bool, r: seq<Node>, ghost paths': seq<Bytes>)
    requires Unlinked(nodes, paths, pats) && pats + {pattern} <= all && |nodes| <= MAX_NODES
    ensures ok ==> Unlinked(r, paths', pats + {pattern}) && |r| <= MAX_NODES
    ensures !ok ==> MAX_NODES < |Prefixes(all)|
  {
    r, paths', ok := nodes, paths, true;
    var state: nat, k := 0, 0;
    assert pattern[..0] == [];
    while k < |pattern|
      invariant 0 <= k <= |pattern|
      invariant Threading(r, paths', pats, pattern) && |r| <= MAX_NODES
      invariant state < |paths'| && paths'[state] == pattern[..k]
    {
      ok, r, state, paths' := ThreadByte(r, state, pattern, k, paths', pats, all);
      if !ok {
        return;
      }
      k := k + 1;
    }
    assert pattern[..k] == pattern;
    ghost var before := r;
    if |pattern| > r[state].terminal {
      r := r[state := r[state].(terminal := |pattern|, output := |pattern|)];
    }
    MarkPattern(before, paths', pats, pattern, state, r);
    ok := true;
  }

  /** Marking the last node turns a threaded pattern into a spelled one. */
  lemma MarkPattern(nodes: seq<Node>, paths: seq<Bytes>, pats: set<Bytes>, pattern: Bytes, state: nat, r: seq<Node>)
    requires Threading(nodes, paths, pats, pattern) && state < |paths| && paths[state] == pattern
    requires r == if |pattern| > nodes[state].terminal
                  then nodes[state := nodes[state].(terminal := |pattern|, output := |pattern|)]
                  else nodes
    ensures Unlinked(r, paths, pats + {pattern})
  {
    forall i | 0 <= i < |r| ensures r[i].edges == nodes[i].edges
        && r[i].terminal == if paths[i] in pats + {pattern} then |paths[i]| else 0
    {
      if paths[i] == pattern {
        DistinctAt(paths, i, state);
      }
    }
    SameEdgesTrie(nodes, r, paths);
  }

  /** The trie is a matter of edges only. */
  lemma SameEdgesTrie(nodes: seq<Node>, r: seq<Node>, paths: seq<Bytes>)
    requires Trie(nodes, paths) && |r| == |nodes|
    requires forall i :: 0 <= i < |r| ==> r[i].edges == nodes[i].edges
    ensures Trie(r, paths)
  {
    forall i | 0 < i < |r| ensures HasParent(r, i) {
      assert HasParent(nodes, i);
      var p :| 0 <= p < |nodes| && IsChildOf(nodes, p, i);
      var e :| e in nodes[p].edges && e.node == i;
      assert e in r[p].edges;
      assert IsChildOf(r, p, i);
    }
  }

  ghost function Elements(patterns: seq<Bytes>): set<Bytes> {
    set p | p in patterns
  }

  method BuildTrie(patterns: seq<Bytes>)
    returns (ok: bool, nodes: seq<Node>, maxPattern: nat, ghost paths: seq<Bytes>)
    ensures ok <==> |Prefixes(Elements(patterns))| <= MAX_NODES
    ensures ok ==> Unlinked(nodes, paths, Elements(patterns))
    ensures ok ==> Bounded(Elements(patterns), maxPattern)
    ensures ok && maxPattern > 0 ==> exists p :: p in patterns && |p| == maxPattern
  {
    hide Unlinked, Prefixes;
    nodes, maxPattern, paths := [LEAF], 0, [[]];
    LoneRoot(Elements(patterns[..0]));
    ghost var all := Elements(patterns);
    var n := 0;
    while n < |patterns|
      invariant 0 <= n <= |patterns|
      invariant Unlinked(nodes, paths, Elements(patterns[..n]))
      invariant Bounded(Elements(patterns[..n]), maxPattern)
      invariant maxPattern > 0 ==> exists p :: p in patterns && |p| == maxPattern
      invariant |nodes| <= MAX_NODES
    {
      var pattern := patterns[n];
      if |pattern| > maxPattern {
        maxPattern := |pattern|;
      }
      assert Elements(patterns[..n + 1]) == Elements(patterns[..n]) + {pattern};
      var added;
      added, nodes, paths := InsertPattern(nodes, pattern, paths, Elements(patterns[..n]), all);
      if !added {
        return false, nodes, maxPattern, paths;
      }
      n := n + 1;
    }
    assert patterns[..n] == patterns;
    UnlinkedCount(nodes, paths, all);
    ok := true;
  }

  lemma LoneRoot(pats: set<Bytes>)
    requires pats == {}
    ensures Unlinked([LEAF], [[]], pats)
  {
    hide Distinct;
    var none: seq<Bytes>, nodes := [], [LEAF];
    assert Distinct(none) by { DistinctFromIndices(none); }
    var paths := none + [[]];
    DistinctSnoc(none, []);
    assert Trie(nodes, paths);
    assert paths == [[]];
  }

  lemma UnlinkedCount(nodes: seq<Node>, paths: seq<Bytes>, pats: set<Bytes>)
    requires Unlinked(nodes, paths, pats)
    ensures |nodes| == |Prefixes(pats)|
  {
    NodeCount(nodes, paths, pats);
  }

  // ----- phase two: breadth-first failure and output links -----

  ghost predicate SameShape(nodes: seq<Node>, r: seq<Node>) {
    && |r| == |nodes|
    && forall i :: 0 <= i < |r| ==> r[i].edges == nodes[i].edges && r[i].terminal == nodes[i].terminal
  }

  /** The failure of a child is one transition from the failure of its parent. */
  lemma FailureIsTransition(nodes: seq<Node>, paths: seq<Bytes>, state: nat, b: Byte, f0: nat, f: nat)
    requires Trie(nodes, paths) && 0 < state < |paths|
    requires LongestProperSuffix(paths, paths[state], f0)
    requires LongestSuffix(paths, paths[f0] + [b], f)
    ensures LongestProperSuffix(paths, paths[state] + [b], f)
  {
    var word := paths[state] + [b];
    SuffixSnoc(paths[f0], paths[state], b, b);
    SuffixTransitive(paths[f], paths[f0] + [b], word);
    forall j | 0 <= j < |paths| && IsProperSuffix(paths[j], word) ensures |paths[j]| <= |paths[f]| {
      if j != 0 {
        var p, c := ParentLabel(nodes, paths, j);
        SuffixSnoc(paths[p], paths[state], c, b);
        assert IsProperSuffix(paths[p], paths[state]);
        SuffixesNest(paths[p], paths[f0], paths[state]);
        SuffixSnoc(paths[p], paths[f0], c, b);
      }
    }
  }

  method FailureOf(nodes: seq<Node>, state: nat, e: Edge, ghost paths: seq<Bytes>, ghost pats: set<Bytes>)
    returns (failure: nat)
    requires Trie(nodes, paths) && 0 < state < |nodes| && e in nodes[state].edges
    requires forall i :: 0 <= i < |nodes| && |paths[i]| <= |paths[state]| ==> Linked(nodes[i], paths, pats, i)
    ensures LongestProperSuffix(paths, paths[e.node], failure)
  {
    hide OutputLinkOk, LongestPatternSuffix, LongestSuffix, NoLonger, Distinct, HasParent;
    assert Linked(nodes[state], paths, pats, state);
    ghost var f0 := nodes[state].fail;
    ghost var word := paths[f0];
    NoLongerStart(paths, word, e.b);
    failure := nodes[state].fail;
    var settled := false;
    while failure != 0 && !settled
      invariant failure < |nodes|
      invariant settled ==> LongestSuffix(paths, word + [e.b], failure) && failure != 0
      invariant !settled ==> IsSuffix(paths[failure], word) && |paths[failure]| <= |word|
      invariant !settled ==> NoLonger(paths, word, e.b, |paths[failure]|)
      decreases !settled, |paths[failure]|
    {
      var next, ok := FindEdge(nodes[failure].edges, e.b);
      if ok {
        EdgeIsLongest(nodes, paths, word, e.b, failure, next);
        failure := next;
        settled := true;
      } else {
        assert Linked(nodes[failure], paths, pats, failure);
        FailStep(nodes, paths, word, e.b, failure, nodes[failure].fail);
        failure := nodes[failure].fail;
      }
    }
    if failure == 0 {
      var next, ok := FindEdge(nodes[0].edges, e.b);
      if ok {
        EdgeIsLongest(nodes, paths, word, e.b, 0, next);
        assert |paths[next]| == 1 && |paths[e.node]| == |paths[state]| + 1;
        RootIsUnique(nodes, paths, state);
      } else {
        RootIsLongest(nodes, paths, word, e.b);
      }
      if ok && next != e.node {
        failure := next;
      }
    }
    FailureIsTransition(nodes, paths, state, e.b, f0, failure);
  }

  lemma BelowFailure(paths: seq<Bytes>, word: Bytes, f: nat, p: Bytes)
    requires LongestProperSuffix(paths, word, f) && p in paths && IsProperSuffix(p, word)
    ensures IsSuffix(p, paths[f])
  {
    SuffixesNest(p, paths[f], word);
  }

  lemma ChildOutputLink(paths: seq<Bytes>, pats: set<Bytes>, c: nat, f: nat, link: nat)
    requires forall p :: p in pats ==> p in paths
    requires c < |paths| && LongestProperSuffix(paths, paths[c], f) && OutputLinkOk(paths, pats, f, link)
    ensures OutputLinkOk(paths, pats, c, if paths[f] in pats && paths[f] != [] then f else link)
  {
    var to := if paths[f] in pats && paths[f] != [] then f else link;
    if to == link && link != 0 {
      SuffixTransitive(paths[link], paths[f], paths[c]);
    }
    forall p | p in pats && IsProperSuffix(p, paths[c]) ensures |p| <= |paths[to]| {
      BelowFailure(paths, paths[c], f, p);
      if |p| == |paths[f]| {
        assert p == paths[f];
      } else {
        assert IsProperSuffix(p, paths[f]);
      }
    }
  }

  lemma ChildOutput(paths: seq<Bytes>, pats: set<Bytes>, c: nat, f: nat, n: nat, own: nat)
    requires forall p :: p in pats ==> p in paths
    requires c < |paths| && LongestProperSuffix(paths, paths[c], f) && LongestPatternSuffix(pats, paths[f], n)
    requires own == if paths[c] in pats then |paths[c]| else 0
    ensures LongestPatternSuffix(pats, paths[c], if n > own then n else own)
  {
    var word, m := paths[c], if n > own then n else own;
    assert word[|word| - |word|..] == word;
    if n > 0 {
      assert word[|word| - n..] == paths[f][|paths[f]| - n..];
    }
    forall p | p in pats && IsSuffix(p, word) ensures |p| <= m {
      if |p| == |word| {
        assert p == word;
      } else {
        BelowFailure(paths, word, f, p);
      }
    }
  }

  /** Root and first-level nodes are linked as they come out of phase one. */
  lemma ShallowLinked(nodes: seq<Node>, paths: seq<Bytes>, pats: set<Bytes>, i: nat)
    requires Unlinked(nodes, paths, pats) && i < |nodes| && |paths[i]| <= 1
    ensures Linked(nodes[i], paths, pats, i)
  {
    hide Distinct, EdgesLead, Sorted, HasParent;
    var word := paths[i];
    RootIsUnique(nodes, paths, i);
    assert word[|word| - |word|..] == word;
    forall p | p in pats && IsSuffix(p, word) ensures |p| <= nodes[i].output {
      if |p| == |word| {
        assert p == word;
      }
    }
  }

  // The queue of the search: distinct nodes in order of depth. A node is queued exactly when
  // its parent has been expanded.
  ghost predicate QueueOk(nodes: seq<Node>, paths: seq<Bytes>, queue: seq<nat>, head: nat, expanded: set<nat>)
    requires |nodes| == |paths|
  {
    && head <= |queue|
    && (forall k :: 0 <= k < |queue| ==> 0 < queue[k] < |nodes|)
    && (forall k, l :: 0 <= k < l < |queue| ==> queue[k] != queue[l] && |paths[queue[k]]| <= |paths[queue[l]]|)
    && (forall k :: 0 <= head < k < |queue| ==> |paths[queue[k]]| <= |paths[queue[head]]| + 1)
    && (forall p :: p in expanded <==> p == 0 || p in queue[..head])
  }

  ghost predicate Queued(nodes: seq<Node>, queue: seq<nat>, expanded: set<nat>) {
    forall p, i :: 0 <= p < |nodes| && IsChildOf(nodes, p, i) ==> (i in queue <==> p in expanded)
  }

  lemma {:induction false} ShallowQueued(nodes: seq<Node>, paths: seq<Bytes>, queue: seq<nat>, head: nat, expanded: set<nat>, x: nat)
    requires Trie(nodes, paths) && QueueOk(nodes, paths, queue, head, expanded) && Queued(nodes, queue, expanded)
    requires 0 < x < |nodes| && (head < |queue| ==> |paths[x]| <= |paths[queue[head]]|)
    ensures x in queue
    decreases |paths[x]|
  {
    assert HasParent(nodes, x);
    var p :| 0 <= p < |nodes| && IsChildOf(nodes, p, x);
    assert |paths[x]| == |paths[p]| + 1;
    if p != 0 {
      ShallowQueued(nodes, paths, queue, head, expanded, p);
      var k :| 0 <= k < |queue| && queue[k] == p;
      if k < head {
        assert queue[..head][k] == p;
      }
    }
  }

  function Targets(edges: seq<Edge>, n: nat): seq<nat>
    requires n <= |edges|
  {
    seq(n, k requires 0 <= k < n => edges[k].node)
  }

  lemma TargetsSnoc(queue: seq<nat>, edges: seq<Edge>, n: nat)
    requires n < |edges|
    ensures queue + Targets(edges, n + 1) == queue + Targets(edges, n) + [edges[n].node]
  {
    var s, t := queue + Targets(edges, n + 1), queue + Targets(edges, n) + [edges[n].node];
    assert |s| == |t|;
    assert forall k :: 0 <= k < |s| ==> s[k] == t[k];
  }

  /** The children of an unexpanded node are new to the queue and pairwise distinct. */
  lemma ChildrenAreNew(nodes: seq<Node>, paths: seq<Bytes>, queue: seq<nat>, head: nat, expanded: set<nat>)
    requires Trie(nodes, paths) && QueueOk(nodes, paths, queue, head, expanded) && Queued(nodes, queue, expanded)
    requires head < |queue|
    ensures queue[head] !in expanded
    ensures forall e :: e in nodes[queue[head]].edges ==> e.node !in queue
    ensures forall k, l :: 0 <= k < l < |nodes[queue[head]].edges|
                      ==> nodes[queue[head]].edges[k].node != nodes[queue[head]].edges[l].node
  {
    var state := queue[head];
    forall e | e in nodes[state].edges ensures e.node !in queue {
      assert IsChildOf(nodes, state, e.node);
    }
    var edges := nodes[state].edges;
    forall k, l | 0 <= k < l < |edges| ensures edges[k].node != edges[l].node {
      assert edges[k] in edges && edges[l] in edges;
      assert paths[edges[k].node][|paths[state]|] == edges[k].b;
      assert paths[edges[l].node][|paths[state]|] == edges[l].b;
    }
  }

  /** Appending all children of the head keeps the queue in order of depth. */
  lemma QueueStaysOrdered(nodes: seq<Node>, paths: seq<Bytes>, queue: seq<nat>, head: nat, expanded: set<nat>, queue': seq<nat>)
    requires Trie(nodes, paths) && QueueOk(nodes, paths, queue, head, expanded) && Queued(nodes, queue, expanded)
    requires head < |queue|
    requires var edges := nodes[queue[head]].edges; queue' == queue + Targets(edges, |edges|)
    ensures QueueOk(nodes, paths, queue', head + 1, expanded + {queue[head]})
  {
    var state := queue[head];
    var edges := nodes[state].edges;
    ChildrenAreNew(nodes, paths, queue, head, expanded);
    forall k | |queue| <= k < |queue'|
      ensures 0 < queue'[k] < |nodes| && |paths[queue'[k]]| == |paths[state]| + 1 && queue'[k] !in queue
    {
      assert edges[k - |queue|] in edges;
    }
    forall k, l | 0 <= k < l < |queue'| ensures queue'[k] != queue'[l] && |paths[queue'[k]]| <= |paths[queue'[l]]| {
      if k < |queue| <= l {
        assert queue[k] in queue;
      }
    }
    assert queue'[..head + 1] == queue[..head] + [state];
  }

  /** ... and its closure exact. */
  lemma QueueStaysClosed(nodes: seq<Node>, paths: seq<Bytes>, queue: seq<nat>, expanded: set<nat>, state: nat, queue': seq<nat>)
    requires Trie(nodes, paths) && Queued(nodes, queue, expanded) && state < |nodes| && state !in expanded
    requires var edges := nodes[state].edges; queue' == queue + Targets(edges, |edges|)
    ensures Queued(nodes, queue', expanded + {state})
  {
    var edges := nodes[state].edges;
    forall p: nat, i: nat | p < |nodes| && IsChildOf(nodes, p, i)
      ensures i in queue' <==> p in expanded + {state}
    {
      var e :| e in nodes[p].edges && e.node == i;
      if p == state {
        var k :| 0 <= k < |edges| && edges[k] == e;
        assert queue'[|queue| + k] == i;
      } else if i in Targets(edges, |edges|) {
        var k :| 0 <= k < |edges| && edges[k].node == i;
        assert edges[k] in edges;
        SameParent(nodes, paths, p, state, e, edges[k]);
      }
    }
  }

  lemma SameParent(nodes: seq<Node>, paths: seq<Bytes>, p: nat, q: nat, e: Edge, f: Edge)
    requires Trie(nodes, paths) && p < |nodes| && q < |nodes|
    requires e in nodes[p].edges && f in nodes[q].edges && e.node == f.node
    ensures p == q
  {
    var word := paths[e.node];
    assert paths[p] == word[..|word| - 1] == paths[q];
    DistinctAt(paths, p, q);
  }

  ghost predicate LinkedSoFar(nodes: seq<Node>, r: seq<Node>, paths: seq<Bytes>, pats: set<Bytes>, queue: seq<nat>)
    requires |nodes| == |paths|
  {
    SameShape(nodes, r) && AllLinked(r, paths, pats, queue) && RestPlain(r, queue)
  }

  ghost predicate AllLinked(r: seq<Node>, paths: seq<Bytes>, pats: set<Bytes>, queue: seq<nat>)
    requires |r| == |paths|
  {
    forall i :: 0 <= i < |r| && (i == 0 || i in queue) ==> Linked(r[i], paths, pats, i)
  }

  ghost predicate RestPlain(r: seq<Node>, queue: seq<nat>) {
    forall i :: 0 < i < |r| && i !in queue ==> r[i].output == r[i].terminal
  }

  method LinkChild(nodes: seq<Node>, child: nat, failure: nat,
                   ghost nodes0: seq<Node>, ghost paths: seq<Bytes>, ghost pats: set<Bytes>, ghost queue: seq<nat>)
    returns (r: seq<Node>)
    requires Trie(nodes0, paths) && Spells(nodes0, paths, pats)
    requires LinkedSoFar(nodes0, nodes, paths, pats, queue)
    requires 0 < child < |nodes| && child !in queue
    requires LongestProperSuffix(paths, paths[child], failure) && (failure == 0 || failure in queue)
    ensures LinkedSoFar(nodes0, r, paths, pats, queue + [child])
  {
    var f, node := nodes[failure], nodes[child];
    node := node.(fail := failure);
    if f.terminal > 0 {
      node := node.(outputLink := failure);
    } else {
      node := node.(outputLink := f.outputLink);
    }
    if f.output > node.output {
      node := node.(output := f.output);
    }
    ChildLinked(paths, pats, child, failure, f, node);
    LinkedGrows(nodes, paths, pats, queue, child, node);
    RestShrinks(nodes0, nodes, queue, child, node);
    r := nodes[child := node];
  }

  lemma ChildLinked(paths: seq<Bytes>, pats: set<Bytes>, child: nat, failure: nat, f: Node, node: Node)
    requires forall p :: p in pats ==> p in paths
    requires 0 < child < |paths| && LongestProperSuffix(paths, paths[child], failure)
    requires OutputLinkOk(paths, pats, failure, f.outputLink)
    requires LongestPatternSuffix(pats, paths[failure], f.output)
    requires f.terminal == if paths[failure] in pats then |paths[failure]| else 0
    requires node.terminal == if paths[child] in pats then |paths[child]| else 0
    requires node.fail == failure && node.outputLink == if f.terminal > 0 then failure else f.outputLink
    requires node.output == if f.output > node.terminal then f.output else node.terminal
    ensures Linked(node, paths, pats, child)
  {
    ChildOutputLink(paths, pats, child, failure, f.outputLink);
    ChildOutput(paths, pats, child, failure, f.output, node.terminal);
  }

  lemma RestShrinks(nodes0: seq<Node>, nodes: seq<Node>, queue: seq<nat>, child: nat, node: Node)
    requires SameShape(nodes0, nodes) && RestPlain(nodes, queue) && child < |nodes|
    requires node.edges == nodes[child].edges && node.terminal == nodes[child].terminal
    ensures SameShape(nodes0, nodes[child := node])
    ensures RestPlain(nodes[child := node], queue + [child])
  {
    var r := nodes[child := node];
    forall i | 0 < i < |r| && i !in queue + [child] ensures r[i].output == r[i].terminal {
      assert i != child by { assert (queue + [child])[|queue|] == child; }
    }
  }

  lemma LinkedGrows(nodes: seq<Node>, paths: seq<Bytes>, pats: set<Bytes>, queue: seq<nat>, child: nat, node: Node)
    requires |nodes| == |paths| && AllLinked(nodes, paths, pats, queue)
    requires child < |nodes| && Linked(node, paths, pats, child)
    ensures AllLinked(nodes[child := node], paths, pats, queue + [child])
  {
    var r := nodes[child := node];
    forall i | 0 <= i < |r| && (i == 0 || i in queue + [child]) ensures Linked(r[i], paths, pats, i) {
      if i != child {
        assert i == 0 || i in queue;
      }
    }
  }

  method LinkChildren(nodes: seq<Node>, queue: seq<nat>, head: nat,
                      ghost nodes0: seq<Node>, ghost paths: seq<Bytes>, ghost pats: set<Bytes>, ghost expanded: set<nat>)
    returns (r: seq<Node>, queue': seq<nat>)
    requires Trie(nodes0, paths) && Spells(nodes0, paths, pats)
    requires QueueOk(nodes0, paths, queue, head, expanded) && head < |queue|
    requires Queued(nodes0, queue, expanded)
    requires LinkedSoFar(nodes0, nodes, paths, pats, queue)
    ensures QueueOk(nodes0, paths, queue', head + 1, expanded + {queue[head]}) && queue <= queue'
    ensures Queued(nodes0, queue', expanded + {queue[head]})
    ensures LinkedSoFar(nodes0, r, paths, pats, queue')
  {
    hide Linked, Spells, Queued, RestPlain;
    var state := queue[head];
    r, queue' := nodes, queue;
    forall i | 0 < i < |nodes0| && |paths[i]| <= |paths[state]| ensures i in queue {
      ShallowQueued(nodes0, paths, queue, head, expanded, i);
    }
    ChildrenAreNew(nodes0, paths, queue, head, expanded);
    var edges := nodes[state].edges;
    var n := 0;
    while n < |edges|
      invariant 0 <= n <= |edges|
      invariant queue' == queue + Targets(edges, n)
      invariant LinkedSoFar(nodes0, r, paths, pats, queue')
    {
      var e := edges[n];
      assert e in nodes0[state].edges;
      SameEdgesTrie(nodes0, r, paths);
      var failure := FailureOf(r, state, e, paths, pats);
      assert e.node !in queue';
      r := LinkChild(r, e.node, failure, nodes0, paths, pats, queue');
      queue' := queue' + [e.node];
      TargetsSnoc(queue, edges, n);
      n := n + 1;
    }
    QueueStaysOrdered(nodes0, paths, queue, head, expanded, queue');
    QueueStaysClosed(nodes0, paths, queue, expanded, state, queue');
  }

  lemma QueueFits(paths: seq<Bytes>, queue: seq<nat>)
    requires Distinct(paths)
    requires forall k :: 0 <= k < |queue| ==> queue[k] < |paths|
    requires forall k, l :: 0 <= k < l < |queue| ==> queue[k] != queue[l]
    ensures |queue| <= |paths|
  {
    var labels := seq(|queue|, k requires 0 <= k < |queue| => paths[queue[k]]);
    forall k, l | 0 <= k < l < |queue| ensures labels[k] != labels[l] {
      if labels[k] == labels[l] {
        DistinctAt(paths, queue[k], queue[l]);
        assert false;
      }
    }
    DistinctFromIndices(labels);
    DistinctFits(labels, Elements(paths));
    CoverFits(paths, Elements(paths));
  }

  method LinkFailures(nodes: seq<Node>, ghost paths: seq<Bytes>, ghost pats: set<Bytes>) returns (r: seq<Node>)
    requires Unlinked(nodes, paths, pats)
    ensures SameShape(nodes, r)
    ensures forall i :: 0 <= i < |r| ==> Linked(r[i], paths, pats, i)
  {
    var queue: seq<nat> := Targets(nodes[0].edges, |nodes[0].edges|);
    r := nodes;
    ghost var expanded: set<nat> := {0};
    StartQueue(nodes, paths, queue);
    StartLinked(nodes, paths, pats, queue);
    var head := 0;
    while head < |queue|
      invariant 0 <= head <= |queue|
      invariant QueueOk(nodes, paths, queue, head, expanded) && Queued(nodes, queue, expanded)
      invariant LinkedSoFar(nodes, r, paths, pats, queue)
      decreases |nodes| - head
    {
      QueueFits(paths, queue);
      ghost var state := queue[head];
      r, queue := LinkChildren(r, queue, head, nodes, paths, pats, expanded);
      expanded := expanded + {state};
      head := head + 1;
    }
    forall i | 0 <= i < |r| ensures Linked(r[i], paths, pats, i) {
      if i != 0 {
        ShallowQueued(nodes, paths, queue, head, expanded, i);
      }
    }
  }

  lemma StartQueue(nodes: seq<Node>, paths: seq<Bytes>, queue: seq<nat>)
    requires Trie(nodes, paths) && queue == Targets(nodes[0].edges, |nodes[0].edges|)
    ensures QueueOk(nodes, paths, queue, 0, {0}) && Queued(nodes, queue, {0})
    ensures forall i :: 0 <= i < |nodes| && i in queue ==> |paths[i]| == 1
  {
    hide Distinct, HasParent;
    var edges := nodes[0].edges;
    forall k | 0 <= k < |queue| ensures 0 < queue[k] < |nodes| && paths[queue[k]] == [edges[k].b] {
      assert edges[k] in edges;
    }
    assert [] + queue == queue;
    assert Queued(nodes, [], {});
    QueueStaysClosed(nodes, paths, [], {}, 0, queue);
  }

  lemma StartLinked(nodes: seq<Node>, paths: seq<Bytes>, pats: set<Bytes>, queue: seq<nat>)
    requires Unlinked(nodes, paths, pats)
    requires forall i :: 0 <= i < |nodes| && i in queue ==> |paths[i]| == 1
    ensures LinkedSoFar(nodes, nodes, paths, pats, queue)
  {
    hide Linked, Distinct, EdgesLead, Sorted, HasParent;
    forall i | 0 <= i < |nodes| && (i == 0 || i in queue) ensures Linked(nodes[i], paths, pats, i) {
      ShallowLinked(nodes, paths, pats, i);
    }
  }

  // ----- the constructor -----

  /** Builds the automaton; it fails exactly when the patterns have too many distinct prefixes. */
  method NewMatcher(patterns: seq<Bytes>) returns (ok: bool, m: Automaton, ghost paths: seq<Bytes>)
    ensures ok <==> |Prefixes(Elements(patterns))| <= MAX_NODES
    ensures ok ==> Correct(m, paths, Elements(patterns))
    ensures ok ==> |m.nodes| == |Prefixes(Elements(patterns))|
  {
    var nodes, maxPattern;
    ok, nodes, maxPattern, paths := BuildTrie(patterns);
    if !ok {
      return false, Automaton([], 0), paths;
    }
    ghost var pats := Elements(patterns);
    var linked := LinkFailures(nodes, paths, pats);
    SameEdgesTrie(nodes, linked, paths);
    NodeCount(nodes, paths, pats);
    m := Automaton(linked, maxPattern);
  }
}