/** The registrar's clusters: connected components of the proposed links, by union-find
    with path halving. */
module RegistrarClusters {

  type Link = (string, string)
  type Parents = map<string, string>
  type Heights = map<string, nat>

  predicate Names(link: Link, key: string) { link.0 == key || link.1 == key }

  ghost predicate Linked(links: seq<Link>, key: string) { exists i :: 0 <= i < |links| && Names(links[i], key) }

  /** No link leads out of the set. */
  ghost predicate Closed(s: set<string>, links: seq<Link>) {
    forall i :: 0 <= i < |links| ==> (links[i].0 in s <==> links[i].1 in s)
  }

  /** The links join the two, at whatever remove: whatever set of keys holds the one and is
      not left by a link holds the other. */
  ghost predicate Joined(links: seq<Link>, a: string, b: string) {
    forall s :: Closed(s, links) && a in s ==> b in s
  }

  ghost predicate Adjacent(links: seq<Link>, a: string, b: string) {
    exists i :: 0 <= i < |links| && (links[i] == (a, b) || links[i] == (b, a))
  }

  /** A walk along the links, taken either way. */
  ghost predicate Path(links: seq<Link>, path: seq<string>, a: string, b: string) {
    && path != [] && path[0] == a && path[|path| - 1] == b
    && forall k :: 0 < k < |path| ==> Adjacent(links, path[k - 1], path[k])
  }

  lemma {:induction false} PathStaysInside(links: seq<Link>, path: seq<string>, a: string, b: string, s: set<string>)
    requires Path(links, path, a, b) && Closed(s, links) && a in s
    ensures b in s
    decreases |path|
  {
    var n := |path| - 1;
    if n > 0 {
      assert Adjacent(links, path[n - 1], path[n]);
      PathStaysInside(links, path[..n], a, path[n - 1], s);
    }
  }

  ghost predicate Reaches(links: seq<Link>, a: string, b: string) { exists path :: Path(links, path, a, b) }

  lemma ReachesNext(links: seq<Link>, a: string, b: string, c: string)
    requires Reaches(links, a, b) && Adjacent(links, b, c)
    ensures Reaches(links, a, c)
  {
    var path :| Path(links, path, a, b);
    hide Adjacent;
    var longer := path + [c];
    forall k | 0 < k < |longer| ensures Adjacent(links, longer[k - 1], longer[k]) {
      if k < |path| { assert longer[k - 1] == path[k - 1] && longer[k] == path[k]; }
    }
    assert Path(links, longer, a, c);
  }

  lemma ReachesItself(links: seq<Link>, a: string)
    ensures Reaches(links, a, a)
  {
    assert Path(links, [a], a, a);
  }

  ghost function Reached(links: seq<Link>, a: string): set<string> {
    var ends := (set i | 0 <= i < |links| :: links[i].0) + (set i | 0 <= i < |links| :: links[i].1);
    {a} + set k | k in ends && Reaches(links, a, k)
  }

  lemma ReachedIsClosed(links: seq<Link>, a: string)
    ensures Closed(Reached(links, a), links)
    ensures forall k :: k in Reached(links, a) ==> Reaches(links, a, k)
  {
    hide Reaches;
    ReachesItself(links, a);
    forall i | 0 <= i < |links| ensures links[i].0 in Reached(links, a) <==> links[i].1 in Reached(links, a) {
      var x, y := links[i].0, links[i].1;
      assert Adjacent(links, x, y) && Adjacent(links, y, x);
      if x in Reached(links, a) { ReachesNext(links, a, x, y); }
      if y in Reached(links, a) { ReachesNext(links, a, y, x); }
    }
  }

  /** Two keys are joined exactly when a path of links leads from the one to the other. */
  lemma JoinedByAPath(links: seq<Link>, a: string, b: string)
    ensures Joined(links, a, b) <==> Reaches(links, a, b)
  {
    if Joined(links, a, b) {
      ReachedIsClosed(links, a);
      assert b in Reached(links, a);
    }
    if Reaches(links, a, b) {
      var path :| Path(links, path, a, b);
      forall s | Closed(s, links) && a in s ensures b in s { PathStaysInside(links, path, a, b, s); }
    }
  }

  // ----- The forest

  /** A key's parent has its root and is higher up; a root is its own parent. */
  ghost predicate Planted(parent: Parents, root: Parents, height: Heights, k: string)
    requires parent.Keys == root.Keys == height.Keys
  {
    && k in root && k in height && k in parent
    && parent[k] in parent && parent[k] in root && parent[k] in height
    && root[k] in parent && root[k] in root && root[k] in height
    && root[parent[k]] == root[k] && root[root[k]] == root[k] && parent[root[k]] == root[k]
    && height[k] <= height[root[k]]
    && (if parent[k] == k then root[k] == k else root[k] != k && height[k] < height[parent[k]])
  }

  ghost predicate IsForest(parent: Parents, root: Parents, height: Heights) {
    && parent.Keys == root.Keys == height.Keys
    && forall k {:trigger Planted(parent, root, height, k)} :: k in parent ==> Planted(parent, root, height, k)
  }

  lemma Sprouts(parent: Parents, root: Parents, height: Heights, key: string)
    requires IsForest(parent, root, height) && key !in parent
    ensures IsForest(parent[key := key], root[key := key], height[key := 0])
  {
    var up, roots, tall := parent[key := key], root[key := key], height[key := 0];
    forall k | k in up ensures Planted(up, roots, tall, k) {
      if k != key {
        assert Planted(parent, root, height, k);
        assert parent[k] != key && root[k] != key;
      }
    }
  }

  /** Skipping a parent changes no key's root. */
  lemma Halves(parent: Parents, root: Parents, height: Heights, key: string)
    requires IsForest(parent, root, height) && key in parent && parent[key] != key
    ensures parent[key] in parent && parent[parent[key]] in parent && parent[parent[key]] in root && root[key] in height
    ensures IsForest(parent[key := parent[parent[key]]], root, height)
    ensures root[parent[parent[key]]] == root[key] && height[key] < height[parent[parent[key]]] <= height[root[key]]
  {
    assert Planted(parent, root, height, key);
    assert Planted(parent, root, height, parent[key]);
    assert Planted(parent, root, height, parent[parent[key]]);
    var after := parent[key := parent[parent[key]]];
    forall k | k in after ensures Planted(after, root, height, k) { assert Planted(parent, root, height, k); }
  }

  function With(root: Parents, key: string): Parents { if key in root then root else root[key := key] }

  /** The left tree goes under the right one's root. */
  function Grafted(root: Parents, left: string, right: string): Parents
    requires left in root && right in root
  {
    map k | k in root :: if root[k] == root[left] then root[right] else root[k]
  }

  /** A key's root and parent are keys too, and a root is its own. */
  lemma PlantedIs(parent: Parents, root: Parents, height: Heights, k: string)
    requires IsForest(parent, root, height) && k in root
    ensures parent.Keys == root.Keys == height.Keys && Planted(parent, root, height, k)
    ensures parent[k] in root && root[k] in root && root[k] in height
    ensures root[root[k]] == root[k] && parent[root[k]] == root[k]
  {
  }

  lemma Grafts(parent: Parents, root: Parents, height: Heights, left: string, right: string)
    requires IsForest(parent, root, height) && left in root && right in root && root[left] != root[right]
    ensures root[left] in height && root[right] in height
    ensures IsForest(parent[root[left] := root[right]], Grafted(root, left, right),
                     height[root[right] := height[root[left]] + height[root[right]] + 1])
  {
    PlantedIs(parent, root, height, left);
    PlantedIs(parent, root, height, right);
    hide Planted, Grafted, IsForest;
    var l, r := root[left], root[right];
    var up, roots, tall := parent[l := r], Grafted(root, left, right), height[r := height[l] + height[r] + 1];
    GraftedKeys(parent, root, height, left, right);
    forall k {:trigger Planted(up, roots, tall, k)} | k in roots ensures Planted(up, roots, tall, k) {
      PlantedIs(parent, root, height, k);
      PlantedIs(parent, root, height, l);
      PlantedIs(parent, root, height, r);
      GraftsAt(parent, root, height, left, right, k);
    }
    AllPlanted(up, roots, tall);
  }

  lemma GraftedKeys(parent: Parents, root: Parents, height: Heights, left: string, right: string)
    requires parent.Keys == root.Keys == height.Keys && left in root && right in root
    requires root[left] in root && root[right] in root
    ensures var l, r := root[left], root[right];
            parent[l := r].Keys == Grafted(root, left, right).Keys == height[r := height[l] + height[r] + 1].Keys == root.Keys
  {
  }

  lemma AllPlanted(parent: Parents, root: Parents, height: Heights)
    requires parent.Keys == root.Keys == height.Keys
    requires forall k {:trigger Planted(parent, root, height, k)} :: k in root ==> Planted(parent, root, height, k)
    ensures IsForest(parent, root, height)
  {
    hide Planted;
  }

  lemma GraftsAt(parent: Parents, root: Parents, height: Heights, left: string, right: string, k: string)
    requires IsForest(parent, root, height) && left in root && right in root && k in parent && root[left] != root[right]
    requires Planted(parent, root, height, k)
    requires Planted(parent, root, height, left) && Planted(parent, root, height, right)
    requires Planted(parent, root, height, root[left]) && Planted(parent, root, height, root[right])
    ensures var l, r := root[left], root[right];
            Planted(parent[l := r], Grafted(root, left, right), height[r := height[l] + height[r] + 1], k)
  {
    hide IsForest;
    var l, r := root[left], root[right];
    assert root[l] == l && root[r] == r && parent[l] == l && parent[r] == r;
    GraftedAt(root, left, right, k);
    GraftedAt(root, left, right, parent[k]);
    GraftedAt(root, left, right, root[k]);
    GraftedAt(root, left, right, r);
    hide Grafted;
    if root[k] == l {
      assert Grafted(root, left, right)[k] == r;
    } else {
      assert k != l && Grafted(root, left, right)[k] == root[k];
    }
  }

  lemma GraftedAt(root: Parents, left: string, right: string, k: string)
    requires left in root && right in root && k in root
    ensures Grafted(root, left, right).Keys == root.Keys
    ensures Grafted(root, left, right)[k] == if root[k] == root[left] then root[right] else root[k]
  {
  }

  /** The `parent` dictionary, with what each key's walk comes to and a height that grows
      along it. */
  class Forest {
    var parent: Parents
    ghost var root: Parents
    ghost var height: Heights

    ghost predicate Valid()
      reads this
    {
      IsForest(parent, root, height)
    }

    constructor ()
      ensures Valid() && root == map[]
    {
      parent, root, height := map[], map[], map[];
    }

    /** The key's root, halving the path to it: no key's root changes, and the walk ends. */
    method Find(key: string) returns (found: string)
      requires Valid()
      modifies this
      ensures Valid()
      ensures root == With(old(root), key)
      ensures key in root && found == root[key]
    {
      hide Planted;
      if key !in parent {
        Sprouts(parent, root, height, key);
        parent, root, height := parent[key := key], root[key := key], height[key := 0];
      }
      found := key;
      ghost var roots, heights := root, height;
      AtRoot(parent, root, height, found);
      while parent[found] != found
        invariant Valid() && found in parent && root == roots && height == heights
        invariant root[found] == root[key] && root[key] in height && height[found] <= height[root[key]] && (parent[found] == found ==> root[found] == found)
        decreases height[root[key]] - height[found]
      {
        Halves(parent, root, height, found);
        parent := parent[found := parent[parent[found]]];
        found := parent[found];
        AtRoot(parent, root, height, found);
      }
    }

    /** Put two keys' trees together. */
    method Union(left: string, right: string)
      requires Valid()
      modifies this
      ensures Valid()
      ensures left in With(With(old(root), left), right) && right in With(With(old(root), left), right)
      ensures root == Grafted(With(With(old(root), left), right), left, right)
    {
      hide IsForest;
      var l := Find(left);
      var r := Find(right);
      if l != r {
        Grafts(parent, root, height, left, right);
        parent := parent[l := r];
        height := height[r := height[l] + height[r] + 1];
        root := Grafted(root, left, right);
      }
    }
  }

  lemma AtRoot(parent: Parents, root: Parents, height: Heights, k: string)
    requires IsForest(parent, root, height) && k in parent
    ensures parent[k] == k ==> root[k] == k
    ensures root[k] in height && height[k] <= height[root[k]]
  {
    assert Planted(parent, root, height, k);
  }

  // ----- Components

  ghost predicate Respects(root: Parents, s: set<string>)
  {
    forall k {:trigger root[k]} :: k in root ==> (k in s <==> root[k] in s)
  }

  /** The roots tell the components of these links apart. */
  ghost predicate Splits(root: Parents, links: seq<Link>) {
    && (forall k :: k in root <==> Linked(links, k))
    && (forall i :: 0 <= i < |links| ==> links[i].0 in root && links[i].1 in root && root[links[i].0] == root[links[i].1])
    && (forall s :: Closed(s, links) ==> Respects(root, s))
  }

  function Tree(root: Parents, r: string): set<string> { set k | k in root && root[k] == r }

  lemma TreeIsClosed(root: Parents, links: seq<Link>, r: string)
    requires Splits(root, links)
    ensures Closed(Tree(root, r), links)
  {
    hide Linked, Respects;
  }

  lemma SameSide(root: Parents, s: set<string>, a: string, b: string)
    requires Respects(root, s) && a in root && b in root && root[a] == root[b] && a in s
    ensures b in s
  {
    assert root[a] in s;
  }

  /** Two keys have one root exactly when the links join them. */
  lemma SplitsByLinks(root: Parents, links: seq<Link>, a: string, b: string)
    requires Splits(root, links) && a in root && b in root
    ensures root[a] == root[b] <==> Joined(links, a, b)
  {
    hide Linked, Closed, Respects;
    if root[a] == root[b] {
      forall s | Closed(s, links) && a in s ensures b in s { SameSide(root, s, a, b); }
    } else {
      TreeIsClosed(root, links, root[a]);
      assert a in Tree(root, root[a]) && b !in Tree(root, root[a]);
    }
  }

  lemma LinkedOneMore(links: seq<Link>, link: Link, k: string)
    ensures Linked(links + [link], k) <==> Linked(links, k) || Names(link, k)
  {
    var longer := links + [link];
    if i :| 0 <= i < |links| && Names(links[i], k) { assert Names(longer[i], k); }
    if i :| 0 <= i < |longer| && Names(longer[i], k) { assert i < |links| ==> longer[i] == links[i]; }
    if Names(link, k) { assert Names(longer[|links|], k); }
  }

  lemma ClosedOneMore(s: set<string>, links: seq<Link>, link: Link)
    requires Closed(s, links + [link])
    ensures Closed(s, links) && (link.0 in s <==> link.1 in s)
  {
    var longer := links + [link];
    forall i | 0 <= i < |links| ensures links[i].0 in s <==> links[i].1 in s { assert longer[i] == links[i]; }
    assert longer[|links|] == link;
  }

  lemma WithRespects(root: Parents, key: string, s: set<string>)
    requires Respects(root, s)
    ensures Respects(With(root, key), s)
  {
  }

  lemma GraftedRespects(root: Parents, left: string, right: string, s: set<string>)
    requires Respects(root, s) && left in root && right in root && (left in s <==> right in s)
    ensures Respects(Grafted(root, left, right), s)
  {
    forall k | k in root ensures k in s <==> Grafted(root, left, right)[k] in s { GraftedAt(root, left, right, k); }
  }

  lemma UnionSplits(root: Parents, links: seq<Link>, link: Link)
    requires Splits(root, links)
    ensures var both := With(With(root, link.0), link.1);
            link.0 in both && link.1 in both && Splits(Grafted(both, link.0, link.1), links + [link])
  {
    hide Linked, Closed, Respects, Grafted, Names;
    var both := With(With(root, link.0), link.1);
    var after, longer := Grafted(both, link.0, link.1), links + [link];
    GraftedAt(both, link.0, link.1, link.0);
    GraftedAt(both, link.0, link.1, link.1);
    forall k ensures k in after <==> Linked(longer, k) {
      LinkedOneMore(links, link, k);
      NamesEither(link, k);
    }
    forall i | 0 <= i < |longer| ensures longer[i].0 in after && longer[i].1 in after && after[longer[i].0] == after[longer[i].1] {
      if i < |links| {
        assert longer[i] == links[i];
        GraftedAt(both, link.0, link.1, links[i].0);
        GraftedAt(both, link.0, link.1, links[i].1);
      }
    }
    forall s | Closed(s, longer) ensures Respects(after, s) {
      ClosedOneMore(s, links, link);
      WithRespects(root, link.0, s);
      WithRespects(With(root, link.0), link.1, s);
      GraftedRespects(both, link.0, link.1, s);
    }
  }

  lemma NamesEither(link: Link, k: string)
    ensures Names(link, k) <==> k == link.0 || k == link.1
  {
  }

  /** The clusters are exactly the components: every linked key is in one, and a cluster
      holds, with any key of it, just the keys the links join to it. */
  ghost predicate AreComponents(clusters: set<set<string>>, links: seq<Link>) {
    && (forall k :: Linked(links, k) ==> exists c :: c in clusters && k in c)
    && (forall c :: c in clusters ==> IsComponent(c, links))
  }

  ghost predicate IsComponent(c: set<string>, links: seq<Link>) {
    && c != {}
    && (forall k :: k in c ==> Linked(links, k))
    && (forall a, b :: a in c && Linked(links, b) ==> (b in c <==> Joined(links, a, b)))
  }

  /** `cluster_pairs`. */
  method ClusterPairs(links: seq<Link>) returns (clusters: set<set<string>>)
    ensures AreComponents(clusters, links)
  {
    hide Splits, IsForest, AreComponents;
    var forest := new Forest();
    NoLinks();
    assert links[..0] == [];
    for i := 0 to |links|
      invariant fresh(forest) && forest.Valid() && Splits(forest.root, links[..i])
    {
      UnionSplits(forest.root, links[..i], links[i]);
      forest.Union(links[i].0, links[i].1);
      assert links[..i + 1] == links[..i] + [links[i]];
    }
    assert links[..|links|] == links;
    var components := Gather(forest);
    clusters := set r | r in components :: components[r];
    ClustersAre(forest.root, links, components);
  }

  lemma NoLinks()
    ensures Splits(map[], [])
  {
  }

  /** Each root's set is its keys, and every key is in one. */
  ghost predicate Grouped(root: Parents, done: set<string>, components: map<string, set<string>>) {
    && (forall k :: k in done ==> k in root && root[k] in components && k in components[root[k]])
    && (forall r, k :: r in components && k in components[r] ==> k in done && k in root && root[k] == r)
    && (forall r :: r in components ==> components[r] != {})
  }

  lemma GroupedOneMore(root: Parents, done: set<string>, components: map<string, set<string>>, key: string)
    requires Grouped(root, done, components) && key in root
    ensures var r := root[key];
            Grouped(root, done + {key}, components[r := (if r in components then components[r] else {}) + {key}])
  {
  }

  /** Group the keys by root. */
  method Gather(forest: Forest) returns (components: map<string, set<string>>)
    requires forest.Valid()
    modifies forest
    ensures forest.Valid() && forest.root == old(forest.root)
    ensures Grouped(forest.root, forest.root.Keys, components)
  {
    hide Planted, Grouped;
    components := map[];
    ghost var all := forest.root.Keys;
    var left := forest.parent.Keys;
    NoneGrouped(forest.root);
    while left != {}
      invariant forest.Valid() && forest.root == old(forest.root) && left <= all
      invariant Grouped(forest.root, all - left, components)
      decreases |left|
    {
      var key :| key in left;
      var r := forest.Find(key);
      GroupedOneMore(forest.root, all - left, components, key);
      assert all - (left - {key}) == all - left + {key};
      left := left - {key};
      components := components[r := (if r in components then components[r] else {}) + {key}];
    }
    assert all - left == all;
  }

  lemma NoneGrouped(root: Parents)
    ensures Grouped(root, root.Keys - root.Keys, map[])
  {
  }

  lemma ClustersAre(root: Parents, links: seq<Link>, components: map<string, set<string>>)
    requires Splits(root, links) && Grouped(root, root.Keys, components)
    ensures AreComponents(set r | r in components :: components[r], links)
  {
    hide Linked, Joined, Closed, Respects;
    var clusters := set r | r in components :: components[r];
    forall k | Linked(links, k) ensures exists c :: c in clusters && k in c {
      assert components[root[k]] in clusters && k in components[root[k]];
    }
    forall c | c in clusters ensures IsComponent(c, links) {
      var r :| r in components && components[r] == c;
      forall a, b | a in c && Linked(links, b) ensures b in c <==> Joined(links, a, b) {
        assert root[a] == r;
        SplitsByLinks(root, links, a, b);
        assert b in components[root[b]];
      }
    }
  }
}
