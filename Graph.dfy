/** The version-upgrade graph: a directed graph whose successor lists keep
    the order in which edges were first added, a depth-first search for a
    path that never re-enters a node already on it, and the two kinds of
    version node with the test that says which version strings they
    stand for. */
module Graph {
  import opened Wrappers
  import opened Text

  /** The targets of a successor list, in order. */
  function Targets<V, E>(adj: seq<(V, E)>): (ts: seq<V>)
    ensures |ts| == |adj| && forall i :: 0 <= i < |adj| ==> ts[i] == adj[i].0
  {
    seq(|adj|, i requires 0 <= i < |adj| => adj[i].0)
  }

  ghost predicate Distinct<V>(s: seq<V>)
  {
    forall i, j :: 0 <= i < j < |s| ==> s[i] != s[j]
  }

  /** The edge stored for target b, if any. */
  function Lookup<V(==), E>(adj: seq<(V, E)>, b: V): (r: Option<E>)
    ensures r.Some? <==> b in Targets(adj)
    ensures r.Some? ==> (b, r.value) in adj
  {
    if adj == [] then None
    else if adj[0].0 == b then Some(adj[0].1)
    else
      assert Targets(adj) == [adj[0].0] + Targets(adj[1..]);
      Lookup(adj[1..], b)
  }

  /** Assigning the edge for b: in place when b is already a target,
      appended at the end otherwise (a dict keeps a key's first position). */
  function Store<V(==), E>(adj: seq<(V, E)>, b: V, e: E): seq<(V, E)>
  {
    if adj == [] then [(b, e)]
    else if adj[0].0 == b then [(b, e)] + adj[1..]
    else [adj[0]] + Store(adj[1..], b, e)
  }

  /** Storing keeps the order of the targets and adds b at the end when it
      is new. */
  lemma {:induction false} StoreTargets<V, E>(adj: seq<(V, E)>, b: V, e: E)
    ensures Targets(Store(adj, b, e)) ==
      if b in Targets(adj) then Targets(adj) else Targets(adj) + [b]
  {
    if adj != [] {
      TargetsCons(adj[0], adj[1..]);
      assert [adj[0]] + adj[1..] == adj;
      if adj[0].0 != b {
        StoreTargets(adj[1..], b, e);
        TargetsCons(adj[0], Store(adj[1..], b, e));
        assert b in Targets(adj) <==> b in Targets(adj[1..]);
      } else {
        TargetsCons((b, e), adj[1..]);
      }
    }
  }

  lemma TargetsCons<V, E>(x: (V, E), adj: seq<(V, E)>)
    ensures Targets([x] + adj) == [x.0] + Targets(adj)
  {
  }

  /** After storing, b leads to e and every other target to what it led to. */
  lemma {:induction false} StoreLookup<V, E>(adj: seq<(V, E)>, b: V, e: E, c: V)
    ensures Lookup(Store(adj, b, e), c) == if c == b then Some(e) else Lookup(adj, c)
  {
    if adj != [] && adj[0].0 != b {
      StoreLookup(adj[1..], b, e, c);
    }
  }

  /** Storing keeps the targets free of repeats. */
  lemma StoreDistinct<V, E>(adj: seq<(V, E)>, b: V, e: E)
    requires Distinct(Targets(adj))
    ensures Distinct(Targets(Store(adj, b, e)))
  {
    StoreTargets(adj, b, e);
  }

  ghost function Elems<V>(s: seq<V>): set<V>
  {
    set x | x in s
  }

  class Graph<V(==,!new), E> {
    /** Each source node and its successors, in insertion order. */
    var g: map<V, seq<(V, E)>>

    ghost predicate Valid()
      reads this
    {
      forall a :: a in g ==> Distinct(Targets(g[a]))
    }

    constructor ()
      ensures Valid() && g == map[]
    {
      g := map[];
    }

    /** add_edge: creates a's successor list if need be, then stores e for b. */
    method AddEdge(a: V, b: V, e: E)
      requires Valid()
      modifies this
      ensures Valid()
      ensures g == old(g)[a := Store(if a in old(g) then old(g)[a] else [], b, e)]
      ensures GetEdge(a, b) == Some(e)
      ensures forall c, d :: (c, d) != (a, b) ==> GetEdge(c, d) == old(GetEdge(c, d))
      ensures forall c :: HasKey(c) <==> c == a || old(HasKey(c))
    {
      var adj := if a in g then g[a] else [];
      StoreDistinct(adj, b, e);
      StoreLookup(adj, b, e, b);
      forall c, d | (c, d) != (a, b)
        ensures Lookup(Store(adj, b, e), d) == Lookup(adj, d) || c != a
      {
        StoreLookup(adj, b, e, d);
      }
      g := g[a := Store(adj, b, e)];
    }

    /** get_edge: None when a is not a source or b not one of its targets. */
    function GetEdge(a: V, b: V): (r: Option<E>)
      reads this
      ensures r.Some? <==> IsEdge(a, b)
      ensures r.Some? ==> (b, r.value) in g[a]
    {
      if a in g then Lookup(g[a], b) else None
    }

    /** has_key: a has been the source of an edge. */
    predicate HasKey(n: V)
      reads this
    {
      n in g
    }

    /** get_node: the successor list of a source, KeyError otherwise. */
    function GetNode(id: V): (r: Result<seq<(V, E)>>)
      reads this
      ensures r.Ok? <==> HasKey(id)
      ensures r.Ok? ==> forall b :: b in Targets(r.value) <==> IsEdge(id, b)
    {
      if id in g then Ok(g[id]) else Err(MissingNode)
    }

    ghost predicate IsEdge(a: V, b: V)
      reads this
    {
      a in g && b in Targets(g[a])
    }

    /** Every node that is a source or a target. */
    ghost function Nodes(): set<V>
      reads this
    {
      g.Keys + set a, b | a in g && b in Targets(g[a]) :: b
    }

    /** q leads from start to end along edges, repeats no node, and after
        its first node visits none of avoid. */
    ghost predicate SimplePath(q: seq<V>, start: V, end: V, avoid: seq<V>)
      reads this
    {
      && |q| >= 1 && q[0] == start && q[|q| - 1] == end
      && (forall i :: 0 <= i < |q| - 1 ==> IsEdge(q[i], q[i + 1]))
      && Distinct(q)
      && (forall i :: 1 <= i < |q| ==> q[i] !in avoid)
    }

    /** The answer of a depth-first search from start, given the path so
        far: the successors are tried in insertion order, a node already on
        the path is skipped, and the first successful branch is the answer. */
    ghost function Search(start: V, end: V, path: seq<V>): Option<seq<V>>
      reads this
      decreases |Nodes() - Elems(path + [start])|, 1, 0
    {
      if start == end then Some(path + [start])
      else if start !in g then None
      else SearchFrom(start, end, path + [start], 0)
    }

    /** The search over the successors of start from the i-th one on. */
    ghost function SearchFrom(start: V, end: V, visited: seq<V>, i: nat): Option<seq<V>>
      requires start in g
      reads this
      decreases |Nodes() - Elems(visited)|, 0, |g[start]| - i
    {
      if i >= |g[start]| then None
      else
        var node := g[start][i].0;
        if node in visited then SearchFrom(start, end, visited, i + 1)
        else
          SuccessorIsNode(start, i);
          ShrinkUnvisited(Nodes(), visited, node);
          var found := Search(node, end, visited);
          if found.Some? then found else SearchFrom(start, end, visited, i + 1)
    }

    /** The two answers find_path gives without searching: a path from a
        node to itself is that node alone, and a node that is the source of
        no edge leads nowhere else. */
    lemma SearchBaseCases(start: V, end: V)
      ensures Search(start, start, []) == Some([start])
      ensures start != end && !HasKey(start) ==> Search(start, end, []) == None
    {
      assert [] + [start] == [start];
    }

    /** find_path: depth-first, successors in insertion order, never
        entering a node already on the path. The answer is the one the
        search above finds first; it is the path so far followed by a
        simple path from start to end, and there is none exactly when no
        simple path avoids the nodes already visited. */
    method FindPath(start: V, end: V, path: seq<V>) returns (r: Option<seq<V>>)
      ensures r == Search(start, end, path)
      ensures r.Some? ==> Extends(r.value, path, start, end)
      ensures r.None? <==> NoSimplePath(start, end, path)
      decreases |Nodes() - Elems(path + [start])|
    {
      var visited := path + [start];
      if start == end {
        PathOfOne(path, start);
        return Some(visited);
      }
      if !HasKey(start) {
        NoPathWithoutSuccessors(start, end, path);
        return None;
      }
      var adj := g[start];
      var i := 0;
      while i < |adj|
        invariant 0 <= i <= |adj|
        invariant forall k :: 0 <= k < i ==> Blocked(adj[k].0, end, visited)
        invariant SearchFrom(start, end, visited, i) == Search(start, end, path)
      {
        var node := adj[i].0;
        if node !in visited {
          SuccessorIsNode(start, i);
          ShrinkUnvisited(Nodes(), visited, node);
          var newPath := FindPath(node, end, visited);
          if newPath.Some? {
            PrependStep(newPath.value, path, start, end, node);
            return newPath;
          }
        }
        assert Blocked(node, end, visited);
        i := i + 1;
      }
      NoPathPastSuccessors(start, end, path);
      return None;
    }

    /** r is the path so far followed by a simple path from start to end
        that avoids it. */
    ghost predicate Extends(r: seq<V>, path: seq<V>, start: V, end: V)
      reads this
    {
      |r| > |path| && r[..|path|] == path && SimplePath(r[|path|..], start, end, path)
    }

    /** Start and end the same: the path so far plus start is the answer. */
    lemma PathOfOne(path: seq<V>, start: V)
      ensures Extends(path + [start], path, start, start)
      ensures !NoSimplePath(start, start, path)
    {
      assert (path + [start])[..|path|] == path && (path + [start])[|path|..] == [start];
      assert SimplePath([start], start, start, path);
    }

    /** A node without successors starts no simple path to another node. */
    lemma NoPathWithoutSuccessors(start: V, end: V, path: seq<V>)
      requires start != end && start !in g
      ensures NoSimplePath(start, end, path)
    {
      forall q | SimplePath(q, start, end, path) ensures false {
        FirstStep(q, start, end, path);
      }
    }

    /** Every successor is a node of the graph. */
    lemma SuccessorIsNode(start: V, k: nat)
      requires start in g && k < |g[start]|
      ensures g[start][k].0 in Nodes()
    {
      assert g[start][k].0 in Targets(g[start]);
    }

    /** When every successor of start is blocked, no simple path leaves
        start. */
    lemma NoPathPastSuccessors(start: V, end: V, path: seq<V>)
      requires start != end && start in g
      requires forall k :: 0 <= k < |g[start]| ==> Blocked(g[start][k].0, end, path + [start])
      ensures NoSimplePath(start, end, path)
    {
      var adj := g[start];
      forall q | SimplePath(q, start, end, path) ensures false {
        assert IsEdge(q[0], q[1]);
        var k :| 0 <= k < |adj| && adj[k].0 == q[1];
        assert Blocked(q[1], end, path + [start]);
        DropStep(q, start, end, path);
      }
    }

    /** No simple path leads from start to end avoiding avoid. */
    ghost predicate NoSimplePath(start: V, end: V, avoid: seq<V>)
      reads this
    {
      forall q :: !SimplePath(q, start, end, avoid)
    }

    /** The search skipped node, or found no simple path from it. */
    ghost predicate Blocked(node: V, end: V, visited: seq<V>)
      reads this
    {
      node in visited || NoSimplePath(node, end, visited)
    }

    /** A simple path between two different nodes starts with an edge. */
    lemma FirstStep(q: seq<V>, start: V, end: V, avoid: seq<V>)
      requires SimplePath(q, start, end, avoid) && start != end
      ensures |q| >= 2 && IsEdge(start, q[1])
    {
    }

    /** A simple path from a successor of start, avoiding path + [start],
        extends to one from start. */
    lemma PrependStep(r: seq<V>, path: seq<V>, start: V, end: V, node: V)
      requires IsEdge(start, node) && node !in path + [start]
      requires Extends(r, path + [start], node, end)
      ensures Extends(r, path, start, end)
      ensures !NoSimplePath(start, end, path)
    {
      var q := r[|path|..];
      var tail := r[|path + [start]|..];
      assert |path + [start]| == |path| + 1;
      assert q == [start] + tail;
      assert r[..|path|] == (path + [start])[..|path|];
      forall i, j | 0 <= i < j < |q| ensures q[i] != q[j] {
        if i == 0 {
          assert q[j] == tail[j - 1];
          assert tail[0] == node;
          assert j - 1 == 0 || tail[j - 1] !in path + [start];
        } else {
          assert q[i] == tail[i - 1] && q[j] == tail[j - 1];
        }
      }
      forall i | 1 <= i < |q| ensures q[i] !in path {
        assert q[i] == tail[i - 1];
        assert i - 1 == 0 || tail[i - 1] !in path + [start];
      }
      forall i | 0 <= i < |q| - 1 ensures IsEdge(q[i], q[i + 1]) {
        assert i == 0 || (q[i] == tail[i - 1] && q[i + 1] == tail[i]);
      }
      assert SimplePath(q, start, end, path);
    }

    /** A simple path from start (other than [start]) continues as a simple
        path from its second node that avoids path + [start]. */
    lemma DropStep(q: seq<V>, start: V, end: V, path: seq<V>)
      requires SimplePath(q, start, end, path) && start != end
      ensures |q| >= 2 && q[1] !in path + [start]
      ensures SimplePath(q[1..], q[1], end, path + [start])
    {
      assert q[0] != q[1];
      var tail := q[1..];
      forall i | 1 <= i < |tail| ensures tail[i] !in path + [start] {
        assert tail[i] == q[i + 1] && q[0] != q[i + 1];
      }
      forall i, j | 0 <= i < j < |tail| ensures tail[i] != tail[j] {
        assert tail[i] == q[i + 1] && tail[j] == q[j + 1];
      }
      forall i | 0 <= i < |tail| - 1 ensures IsEdge(tail[i], tail[i + 1]) {
        assert tail[i] == q[i + 1] && tail[i + 1] == q[i + 2];
      }
    }

    /** Visiting a not yet visited node of the graph shrinks what is left. */
    lemma ShrinkUnvisited(all: set<V>, visited: seq<V>, node: V)
      requires node in all && node !in visited
      ensures |all - Elems(visited + [node])| < |all - Elems(visited)|
    {
      assert Elems(visited + [node]) == Elems(visited) + {node};
      assert all - Elems(visited) == (all - Elems(visited + [node])) + {node};
    }
  }

  /** One character class of a regular expression. */
  datatype CharClass = Literal(c: char) | AnyChar | DigitClass

  /** Python's '.' matches any character but a newline. */
  predicate Accepts(cc: CharClass, ch: char)
  {
    match cc
    case Literal(c) => ch == c
    case AnyChar => ch != '\n'
    case DigitClass => IsDigit(ch)
  }

  /** A sequence of character classes matches at the start of s. */
  predicate MatchesAtStart(pat: seq<CharClass>, s: string)
  {
    pat == [] || (s != [] && Accepts(pat[0], s[0]) && MatchesAtStart(pat[1..], s[1..]))
  }

  /** re.match of `required (optional)?`: the length of the match, if any;
      the optional group is taken when it matches. */
  function MatchLength(required: seq<CharClass>, optional: seq<CharClass>, s: string): (r: Option<nat>)
    ensures r.Some? ==> |required| <= r.value <= |s|
  {
    if !MatchesAtStart(required, s) then None
    else
      MatchesAtStartLength(required, s);
      if MatchesAtStart(optional, s[|required|..]) then
        MatchesAtStartLength(optional, s[|required|..]);
        Some(|required| + |optional|)
      else Some(|required|)
  }

  /** A pattern matches at the start of s exactly when s is long enough
      and each of its first characters is in the corresponding class. */
  lemma {:induction false} MatchesAtStartIff(pat: seq<CharClass>, s: string)
    ensures MatchesAtStart(pat, s) <==>
      |pat| <= |s| && forall i :: 0 <= i < |pat| ==> Accepts(pat[i], s[i])
  {
    if pat != [] && s != [] {
      MatchesAtStartIff(pat[1..], s[1..]);
      if |pat| <= |s| && forall i :: 0 <= i < |pat| ==> Accepts(pat[i], s[i]) {
        forall i | 0 <= i < |pat[1..]| ensures Accepts(pat[1..][i], s[1..][i]) {
          assert Accepts(pat[i + 1], s[i + 1]);
        }
      }
      if MatchesAtStart(pat, s) {
        forall i | 0 <= i < |pat| ensures Accepts(pat[i], s[i]) {
          assert i == 0 || (pat[i] == pat[1..][i - 1] && s[i] == s[1..][i - 1]);
        }
      }
    }
  }

  lemma MatchesAtStartLength(pat: seq<CharClass>, s: string)
    requires MatchesAtStart(pat, s)
    ensures |pat| <= |s|
  {
    MatchesAtStartIff(pat, s);
  }

  /** A trailing optional group never decides whether re.match succeeds. */
  lemma OptionalGroupIrrelevant(required: seq<CharClass>, optional: seq<CharClass>, s: string)
    ensures MatchLength(required, optional, s).Some? <==> MatchesAtStart(required, s)
  {
  }

  /** The pattern of the 2.x node: "[2].[0-9]" followed by "(.[0-9])?". */
  const Cpacs2Required: seq<CharClass> := [Literal('2'), AnyChar, DigitClass]
  const Cpacs2Optional: seq<CharClass> := [AnyChar, DigitClass]

  /** The version nodes of the upgrade graph. */
  datatype VersionNode = CPACS2Node | CPACS3Node(majorVersion: string)
  {
    /** matches: which version strings the node stands for. */
    predicate Matches(other: string)
    {
      match this
      case CPACS2Node => MatchLength(Cpacs2Required, Cpacs2Optional, other).Some?
      case CPACS3Node(m) => m <= other
    }
  }

  /** The 2.x node accepts exactly the strings that begin with '2', any
      character but a newline, and a decimal digit: the '.' is not
      escaped, so "2-5" matches as well as "2.5". */
  lemma {:induction false} Cpacs2MatchesIff(v: string)
    ensures CPACS2Node.Matches(v) <==> |v| >= 3 && v[0] == '2' && v[1] != '\n' && IsDigit(v[2])
  {
    OptionalGroupIrrelevant(Cpacs2Required, Cpacs2Optional, v);
    MatchesAtStartIff(Cpacs2Required, v);
    if |v| >= 3 && v[0] == '2' && v[1] != '\n' && IsDigit(v[2]) {
      forall i | 0 <= i < 3 ensures Accepts(Cpacs2Required[i], v[i]) {
        assert i == 0 || i == 1 || i == 2;
      }
    }
  }

  /** The 3.x node with major version m accepts the strings that start with m. */
  lemma Cpacs3MatchesIff(m: string, v: string)
    ensures CPACS3Node(m).Matches(v) <==> |m| <= |v| && v[..|m|] == m
  {
  }

  /** No version string is taken by both the 2.x node and a 3.x node whose
      major version does not start with '2'. */
  lemma VersionNodesDisjoint(m: string, v: string)
    requires m != [] && m[0] != '2'
    ensures !(CPACS2Node.Matches(v) && CPACS3Node(m).Matches(v))
  {
    Cpacs2MatchesIff(v);
  }
}
