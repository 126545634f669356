/** The path trie of the router: heap nodes with child maps, walked and grown in place. */
module RadixTrees {
  import opened Options
  class Node<K(==,!new), V> {
    var val: Option<V>
    var child: map<K, Node<K, V>>

    constructor ()
      ensures val.None? && child == map[]
    {
      val, child := None, map[];
    }
  }

  class RadixTree<K(==,!new), V> {
    const root: Node<K, V>
    /** Every node of the tree, by the path that leads to it. */
    ghost var nodes: map<seq<K>, Node<K, V>>

    /** The nodes form a tree below the root in which no node is reached by two paths. */
    ghost predicate Valid()
      reads this, nodes.Values
    {
      && [] in nodes && nodes[[]] == root
      && (forall p, q :: p in nodes && q in nodes && nodes[p] == nodes[q] ==> p == q)
      && forall p, k {:trigger p + [k]} ::
           if p in nodes && k in nodes[p].child then p + [k] in nodes && nodes[p + [k]] == nodes[p].child[k]
           else p + [k] !in nodes
    }

    /** The map that the tree stands for. */
    ghost function Contents(): map<seq<K>, V>
      reads this, nodes.Values
    {
      map p | p in nodes && nodes[p].val.Some? :: nodes[p].val.value
    }

    constructor ()
      ensures Valid() && Contents() == map[] && fresh(root) && nodes.Values == {root}
    {
      root := new Node();
      new;
      nodes := map[[] := root];
      assert nodes[[]] == root;
    }

    /** One step of the walk in insert: the child, made if it is missing. */
    method Descend(ghost path: seq<K>, node: Node<K, V>, key: K) returns (next: Node<K, V>)
      requires Valid() && path in nodes && nodes[path] == node
      modifies `nodes, node`child
      ensures Valid() && Contents() == old(Contents())
      ensures path + [key] in nodes && nodes[path + [key]] == next
      ensures forall n :: n in nodes.Values ==> n in old(nodes.Values) || fresh(n)
      ensures forall p :: p in old(nodes) ==> p in nodes && nodes[p] == old(nodes)[p]
    {
      if key in node.child {
        next := node.child[key];
      } else {
        next := new Node();
        node.child := node.child[key := next];
        nodes := nodes[path + [key] := next];
        forall p: seq<K>, k {:trigger p + [k]} | p + [k] == path + [key] ensures p == path && k == key {
          SameStep(p, k, path, key);
        }
      }
    }

    lemma SameStep(p: seq<K>, k: K, q: seq<K>, l: K)
      requires p + [k] == q + [l]
      ensures p == q && k == l
    {
      assert p == (p + [k])[..|p|] && q == (q + [l])[..|q|] && k == (p + [k])[|p|] && l == (q + [l])[|q|];
    }

    method Insert(link: seq<K>, value: V)
      requires Valid()
      modifies this, nodes.Values
      ensures Valid() && Contents() == old(Contents())[link := value]
      ensures forall n :: n in nodes.Values ==> n in old(nodes.Values) || fresh(n)
    {
      var node := root;
      for i := 0 to |link|
        invariant Valid() && Contents() == old(Contents())
        invariant link[..i] in nodes && nodes[link[..i]] == node
        invariant forall n :: n in nodes.Values ==> n in old(nodes.Values) || fresh(n)
      {
        node := Descend(link[..i], node, link[i]);
        assert link[..i] + [link[i]] == link[..i + 1];
      }
      assert link[..|link|] == link;
      node.val := Some(value);
    }

    method Find(link: seq<K>) returns (r: Option<V>)
      requires Valid()
      ensures r == if link in Contents() then Some(Contents()[link]) else None
    {
      var node := root;
      for i := 0 to |link|
        invariant link[..i] in nodes && nodes[link[..i]] == node
      {
        assert link[..i] + [link[i]] == link[..i + 1];
        if link[i] !in node.child {
          NoWayOn(link, i + 1);
          return None;
        }
        node := node.child[link[i]];
      }
      assert link[..|link|] == link;
      return node.val;
    }

    /** Where a prefix is missing, everything below it is. */
    lemma {:induction false} NoWayOn(link: seq<K>, n: nat)
      requires Valid() && n <= |link| && link[..n] !in nodes
      ensures link !in nodes
      decreases |link| - n
    {
      if n < |link| {
        assert link[..n] + [link[n]] == link[..n + 1];
        NoWayOn(link, n + 1);
      } else {
        assert link[..n] == link;
      }
    }
  }

  // ---------------------------------------------------------------- sequences of insertions

  function AfterInserts<K(==), V>(ops: seq<(seq<K>, V)>): map<seq<K>, V> {
    if ops == [] then map[]
    else AfterInserts(ops[..|ops| - 1])[ops[|ops| - 1].0 := ops[|ops| - 1].1]
  }

  /** A path holds the last value inserted at exactly that path; one never inserted holds nothing,
      be it a prefix of others or not. */
  lemma {:induction false} LastInsertWins<K, V>(ops: seq<(seq<K>, V)>, path: seq<K>)
    ensures path in AfterInserts(ops) <==> exists i :: 0 <= i < |ops| && ops[i].0 == path
    ensures forall i :: 0 <= i < |ops| && ops[i].0 == path && (forall j :: i < j < |ops| ==> ops[j].0 != path)
                        ==> path in AfterInserts(ops) && AfterInserts(ops)[path] == ops[i].1
  {
    if ops != [] {
      var before := ops[..|ops| - 1];
      LastInsertWins(before, path);
      assert forall i :: 0 <= i < |before| ==> before[i] == ops[i];
    }
  }

  /** Whatever is inserted, the nodes stay a tree, and the tree is the map of the last insertions. */
  method InsertAll<K(==,!new), V>(ops: seq<(seq<K>, V)>) returns (t: RadixTree<K, V>)
    ensures t.Valid() && t.Contents() == AfterInserts(ops)
  {
    hide t.Valid, t.Contents;
    t := new RadixTree();
    for i := 0 to |ops|
      invariant fresh(t) && (forall n :: n in t.nodes.Values ==> fresh(n))
      invariant t.Valid() && t.Contents() == AfterInserts(ops[..i])
    {
      t.Insert(ops[i].0, ops[i].1);
      assert ops[..i + 1][..i] == ops[..i];
    }
    assert ops[..|ops|] == ops;
  }

  // ---------------------------------------------------------------- routes

  type Segment = string

  /** What insert stores for a route: a segment in braces stands for any one segment. */
  function Pattern(link: seq<Segment>): (r: seq<Segment>)
    ensures |r| == |link|
  {
    seq(|link|, i requires 0 <= i < |link| => if link[i] != "" && link[i][0] == '{' then "*" else link[i])
  }

  /** A pattern stands for a request path segment by segment; "**" at its end for one or more segments. */
  predicate Matches(pattern: seq<Segment>, link: seq<Segment>) {
    if pattern == [] || link == [] then pattern == link
    else pattern == ["**"] || ((pattern[0] == link[0] || pattern[0] == "*") && Matches(pattern[1..], link[1..]))
  }

  /** A route takes a request segment by segment, each by its own name, and one in braces, or "*", any; with "**"
      at its end it takes one or more segments there. */
  lemma {:induction false} RouteMeans(route: seq<Segment>, request: seq<Segment>)
    requires "" !in route
    ensures Matches(Pattern(route), request) <==>
            || (|route| == |request| && TakesEach(route, request, |route|))
            || (route != [] && route[|route| - 1] == "**" && |route| <= |request|
                && TakesEach(route, request, |route| - 1))
  {
    if route != [] && request != [] {
      var (p, rest, req) := (Pattern(route), route[1..], request[1..]);
      assert route == [route[0]] + rest && p[1..] == Pattern(rest);
      RouteMeans(rest, req);
      assert TakesEach(route, request, 1) <==> p[0] == request[0] || p[0] == "*";
      if |route| == |request| {
        TakesRest(route, request, |route|);
      }
      if 1 < |route| <= |request| {
        TakesRest(route, request, |route| - 1);
      }
      assert |route| == 1 ==> p == [p[0]] && Matches(Pattern(rest), req) == (req == []);
      assert p == ["**"] <==> |route| == 1 && route[0] == "**";
    }
  }

  ghost predicate TakesEach(route: seq<Segment>, request: seq<Segment>, n: nat)
    requires n <= |route| && n <= |request| && "" !in route
  {
    forall i :: 0 <= i < n ==>
      (assert route[i] in route; route[i][0] == '{' || route[i] == "*" || route[i] == request[i])
  }

  lemma TakesRest(route: seq<Segment>, request: seq<Segment>, n: nat)
    requires 0 < n <= |route| && n <= |request| && "" !in route
    ensures "" !in route[1..]
    ensures TakesEach(route, request, n) <==> TakesEach(route, request, 1) && TakesEach(route[1..], request[1..], n - 1)
  {
    assert route == [route[0]] + route[1..];
    forall i | 0 < i < n ensures route[i] == route[1..][i - 1] && request[i] == request[1..][i - 1] {
    }
  }

  /** How a matching pattern takes the first segment: by name, by "*", or by "**". */
  function Rank(pattern: seq<Segment>, link: seq<Segment>): nat
    requires Matches(pattern, link) && link != []
  {
    if pattern[0] == link[0] && Matches(pattern[1..], link[1..]) then 0
    else if pattern[0] == "*" && Matches(pattern[1..], link[1..]) then 1
    else 2
  }

  /** Of two matching patterns, p is at least as specific, the earlier segments counting first. */
  predicate Prefers(p: seq<Segment>, q: seq<Segment>, link: seq<Segment>)
    requires Matches(p, link) && Matches(q, link)
  {
    || link == []
    || Rank(p, link) < Rank(q, link)
    || (Rank(p, link) == Rank(q, link) && (Rank(p, link) < 2 ==> Prefers(p[1..], q[1..], link[1..])))
  }

  ghost predicate NoneMatch<V>(c: map<seq<Segment>, V>, path: seq<Segment>, link: seq<Segment>) {
    forall q {:trigger path + q} :: path + q in c ==> !Matches(q, link)
  }

  /** Of the routes below path, q is the most specific one that matches. */
  ghost predicate BestMatch<V>(c: map<seq<Segment>, V>, path: seq<Segment>, link: seq<Segment>, q: seq<Segment>) {
    && path + q in c && Matches(q, link)
    && forall r {:trigger path + r} :: path + r in c && Matches(r, link) ==> Prefers(q, r, link)
  }

  lemma SplitFirst(path: seq<Segment>, q: seq<Segment>)
    requires q != []
    ensures path + [q[0]] + q[1..] == path + q
  {
  }

  /** With no match below the child for a segment, no matching route takes that segment. */
  lemma NotThrough<V>(c: map<seq<Segment>, V>, path: seq<Segment>, link: seq<Segment>, key: Segment, q: seq<Segment>)
    requires NoneMatch(c, path + [key], link) && path + q in c && q != [] && q[0] == key
    ensures !Matches(q[1..], link)
  {
    SplitFirst(path, q);
    assert path + [key] + q[1..] in c;
  }

  lemma NoneBelow<V>(c: map<seq<Segment>, V>, path: seq<Segment>, link: seq<Segment>)
    requires link != [] && path + ["**"] !in c
    requires NoneMatch(c, path + [link[0]], link[1..]) && NoneMatch(c, path + ["*"], link[1..])
    ensures NoneMatch(c, path, link)
  {
    forall q {:trigger path + q} | path + q in c ensures !Matches(q, link) {
      if q != [] {
        if q[0] == link[0] {
          NotThrough(c, path, link[1..], link[0], q);
        }
        if q[0] == "*" {
          NotThrough(c, path, link[1..], "*", q);
        }
      }
    }
  }

  lemma BestByName<V>(c: map<seq<Segment>, V>, path: seq<Segment>, link: seq<Segment>, q: seq<Segment>)
    requires link != [] && BestMatch(c, path + [link[0]], link[1..], q)
    ensures BestMatch(c, path, link, [link[0]] + q)
  {
    var best := [link[0]] + q;
    assert best[1..] == q;
    SplitFirst(path, best);
    forall r {:trigger path + r} | path + r in c && Matches(r, link) ensures Prefers(best, r, link) {
      if Rank(r, link) == 0 {
        SplitFirst(path, r);
        assert path + [link[0]] + r[1..] in c;
      }
    }
  }

  lemma BestByStar<V>(c: map<seq<Segment>, V>, path: seq<Segment>, link: seq<Segment>, q: seq<Segment>)
    requires link != [] && NoneMatch(c, path + [link[0]], link[1..]) && BestMatch(c, path + ["*"], link[1..], q)
    ensures BestMatch(c, path, link, ["*"] + q)
  {
    var best := ["*"] + q;
    assert best[1..] == q;
    SplitFirst(path, best);
    forall r {:trigger path + r} | path + r in c && Matches(r, link) ensures Prefers(best, r, link) {
      if Rank(r, link) == 0 {
        NotThrough(c, path, link[1..], link[0], r);
      } else if Rank(r, link) == 1 {
        SplitFirst(path, r);
        assert path + ["*"] + r[1..] in c;
      }
    }
  }

  lemma BestByRest<V>(c: map<seq<Segment>, V>, path: seq<Segment>, link: seq<Segment>)
    requires link != [] && path + ["**"] in c
    requires NoneMatch(c, path + [link[0]], link[1..]) && NoneMatch(c, path + ["*"], link[1..])
    ensures BestMatch(c, path, link, ["**"])
  {
    forall r {:trigger path + r} | path + r in c && Matches(r, link) ensures Prefers(["**"], r, link) {
      if r[0] == link[0] {
        NotThrough(c, path, link[1..], link[0], r);
      }
      if r[0] == "*" {
        NotThrough(c, path, link[1..], "*", r);
      }
    }
  }

  lemma BestAtEnd<V>(c: map<seq<Segment>, V>, path: seq<Segment>)
    ensures if path in c then BestMatch(c, path, [], []) else NoneMatch(c, path, [])
  {
    assert path + [] == path;
  }

  lemma NoneAtRoot<V>(c: map<seq<Segment>, V>, link: seq<Segment>)
    requires NoneMatch(c, [], link)
    ensures forall q :: q in c ==> !Matches(q, link)
  {
    forall q | q in c ensures !Matches(q, link) {
      assert [] + q == q;
    }
  }

  lemma BestAtRoot<V>(c: map<seq<Segment>, V>, link: seq<Segment>, best: seq<Segment>)
    requires BestMatch(c, [], link, best)
    ensures best in c && Matches(best, link)
    ensures forall q :: q in c && Matches(q, link) ==> Prefers(best, q, link)
  {
    assert [] + best == best;
    forall q | q in c && Matches(q, link) ensures Prefers(best, q, link) {
      assert [] + q == q;
    }
  }

  class RouterTree<V> {
    const tree: RadixTree<Segment, V>

    constructor ()
      ensures tree.Valid() && tree.Contents() == map[] && fresh(tree) && fresh(tree.nodes.Values)
    {
      tree := new RadixTree();
      new;
      assert tree.nodes.Values == {tree.root};
    }

    /** The source rewrites each segment while it walks; its walk is the one of RadixTree. */
    method Insert(link: seq<Segment>, endpoint: V)
      requires tree.Valid() && "" !in link
      modifies tree, tree.nodes.Values
      ensures tree.Valid() && tree.Contents() == old(tree.Contents())[Pattern(link) := endpoint]
    {
      var keys: seq<Segment> := [];
      for i := 0 to |link|
        invariant keys == Pattern(link)[..i]
      {
        assert link[i] in link;
        keys := keys + [if link[i][0] == '{' then "*" else link[i]];
      }
      assert keys == Pattern(link);
      tree.Insert(keys, endpoint);
    }

    /** Depth first, with backtracking: by name, then by "*", then by "**". */
    method FindFrom(link: seq<Segment>, ghost path: seq<Segment>, node: Node<Segment, V>)
      returns (r: Option<V>, ghost q: seq<Segment>)
      requires tree.Valid() && path in tree.nodes && tree.nodes[path] == node
      ensures r.None? ==> NoneMatch(tree.Contents(), path, link)
      ensures r.Some? ==> BestMatch(tree.Contents(), path, link, q) && r.value == tree.Contents()[path + q]
      decreases |link|
    {
      ghost var c := tree.Contents();
      hide Matches, NoneMatch, BestMatch;
      if link == [] {
        BestAtEnd(c, path);
        assert path + [] == path;
        return node.val, [];
      }
      r, q := FindThrough(link, path, node, link[0]);
      if r.Some? {
        BestByName(c, path, link, q);
        SplitFirst(path, [link[0]] + q);
        q := [link[0]] + q;
        return;
      }
      r, q := FindThrough(link, path, node, "*");
      if r.Some? {
        BestByStar(c, path, link, q);
        SplitFirst(path, ["*"] + q);
        q := ["*"] + q;
        return;
      }
      if "**" in node.child {
        r := node.child["**"].val;
        q := ["**"];
        if r.Some? {
          assert path + ["**"] in c;
          BestByRest(c, path, link);
          return;
        }
      }
      assert path + ["**"] !in c;
      NoneBelow(c, path, link);
    }

    /** The search below one child, if there is such a child. */
    method FindThrough(link: seq<Segment>, ghost path: seq<Segment>, node: Node<Segment, V>, key: Segment)
      returns (r: Option<V>, ghost q: seq<Segment>)
      requires tree.Valid() && path in tree.nodes && tree.nodes[path] == node && link != []
      ensures r.None? ==> NoneMatch(tree.Contents(), path + [key], link[1..])
      ensures r.Some? ==> BestMatch(tree.Contents(), path + [key], link[1..], q)
      ensures r.Some? ==> r.value == tree.Contents()[path + [key] + q]
      decreases |link|, 0
    {
      if key in node.child {
        r, q := FindFrom(link[1..], path + [key], node.child[key]);
      } else {
        r, q := None, [];
        assert path + [key] !in tree.nodes;
        forall s {:trigger path + [key] + s} | path + [key] + s in tree.Contents() ensures false {
          assert (path + [key] + s)[..|path| + 1] == path + [key];
          tree.NoWayOn(path + [key] + s, |path| + 1);
        }
      }
    }

    /** Some route matches exactly when an endpoint is found, and it is the endpoint of the most
        specific route that does; otherwise the handler for unknown routes is taken. */
    method Find(link: seq<Segment>, notFound: V) returns (r: V, ghost route: seq<Segment>)
      requires tree.Valid()
      ensures (exists q :: q in tree.Contents() && Matches(q, link))
              ==> route in tree.Contents() && Matches(route, link) && r == tree.Contents()[route]
      ensures forall q :: q in tree.Contents() && Matches(q, link)
                          ==> Matches(route, link) && Prefers(route, q, link)
      ensures (forall q :: q in tree.Contents() ==> !Matches(q, link)) ==> r == notFound
    {
      var opt: Option<V>;
      opt, route := FindFrom(link, [], tree.root);
      if opt.Some? {
        BestAtRoot(tree.Contents(), link, route);
        assert [] + route == route;
        return opt.value, route;
      }
      NoneAtRoot(tree.Contents(), link);
      r := notFound;
    }
  }
}
