/** Finding the directed cycles of the committee succession graph. */
module CommitteeSuccession {
  import opened Ordering

  datatype Slug = SucceededBy | SplitFrom | MergedWith

  datatype Link = Link(slug: Slug, subject: string, linked: string)

  /** The forward flow of a link: predecessor to successor, parent to child. */
  function Flow(link: Link): (string, string) {
    if link.slug == SplitFrom then (link.linked, link.subject) else (link.subject, link.linked)
  }

  /** The graph the links draw. */
  ghost predicate FlowsTo(links: seq<Link>, a: string, b: string) {
    exists k :: 0 <= k < |links| && Flow(links[k]) == (a, b)
  }

  function Next(c: seq<string>, i: nat): string
    requires i < |c|
  {
    if i + 1 == |c| then c[0] else c[i + 1]
  }

  /** A way through the graph that ends where it began, nodes repeating or not. */
  ghost predicate ClosedWalk(links: seq<Link>, c: seq<string>) {
    c != [] && forall i :: 0 <= i < |c| ==> FlowsTo(links, c[i], Next(c, i))
  }

  ghost predicate SimpleCycle(links: seq<Link>, c: seq<string>) {
    ClosedWalk(links, c) && Distinct(c)
  }

  /** Starts at its smallest node. */
  ghost predicate Normalised(c: seq<string>) {
    c != [] && forall i :: 0 <= i < |c| ==> TextLe(c[0], c[i])
  }

  function Rotated(c: seq<string>, r: nat): seq<string>
    requires r <= |c|
  {
    c[r..] + c[..r]
  }

  /** `u -> w` is one of the steps of `c`. */
  ghost predicate StepOf(c: seq<string>, u: string, w: string) {
    exists i :: 0 <= i < |c| && c[i] == u && Next(c, i) == w
  }

  lemma RotationSteps(c: seq<string>, r: nat, i: nat)
    requires r < |c| && i < |c|
    ensures var j := if i < |c| - r then i + r else i - (|c| - r);
            Rotated(c, r)[i] == c[j] && Next(Rotated(c, r), i) == Next(c, j)
  {
  }

  lemma RotationKeepsSteps(c: seq<string>, r: nat, u: string, w: string)
    requires r < |c| && StepOf(c, u, w)
    ensures StepOf(Rotated(c, r), u, w)
  {
    var j :| 0 <= j < |c| && c[j] == u && Next(c, j) == w;
    var i := if j >= r then j - r else j + |c| - r;
    RotationSteps(c, r, i);
    hide Rotated, Next;
  }

  lemma RotationDistinct(c: seq<string>, r: nat)
    requires r < |c| && Distinct(c)
    ensures Distinct(Rotated(c, r))
  {
    var d := Rotated(c, r);
    forall i, j | 0 <= i < j < |d| ensures d[i] != d[j] {
      RotationSteps(c, r, i);
      RotationSteps(c, r, j);
    }
  }

  lemma RotationIsCycle(links: seq<Link>, c: seq<string>, r: nat)
    requires SimpleCycle(links, c) && r < |c|
    ensures SimpleCycle(links, Rotated(c, r))
  {
    var d := Rotated(c, r);
    RotationDistinct(c, r);
    hide FlowsTo, Distinct;
    forall i | 0 <= i < |d| ensures FlowsTo(links, d[i], Next(d, i)) { RotationSteps(c, r, i); }
  }

  /** One representation per cycle: normalised simple cycles that are rotations of each
      other are the same list. */
  lemma NormalisedOnce(c: seq<string>, d: seq<string>, r: nat)
    requires Distinct(c) && Normalised(c) && Normalised(d) && r < |c| && d == Rotated(c, r)
    ensures c == d
  {
    RotationSteps(c, r, 0);
    if r > 0 {
      RotationSteps(c, r, |c| - r);
      TextLeTotal(c[0], c[r]);
    }
  }

  // ----- The finder

  /** `adjacency`: every node of a link, to the nodes it flows to. */
  ghost predicate Adjacency(g: map<string, set<string>>, links: seq<Link>) {
    && (forall a, b :: HasEdge(g, a, b) <==> FlowsTo(links, a, b))
    && (forall a, b :: HasEdge(g, a, b) ==> b in g)
  }

  predicate HasEdge(g: map<string, set<string>>, a: string, b: string) {
    a in g && b in g[a]
  }

  method BuildAdjacency(links: seq<Link>) returns (g: map<string, set<string>>)
    ensures Adjacency(g, links)
  {
    g := map[];
    for k := 0 to |links|
      invariant forall a, b :: HasEdge(g, a, b) <==> FlowsTo(links[..k], a, b)
      invariant forall a, b :: HasEdge(g, a, b) ==> b in g
    {
      var (src, dst) := Flow(links[k]);
      ghost var was := g;
      g := g[src := (if src in g then g[src] else {}) + {dst}];
      if dst !in g { g := g[dst := {}]; }
      forall a, b ensures HasEdge(g, a, b) <==> FlowsTo(links[..k + 1], a, b) {
        OneMoreLink(links, k, a, b);
        assert HasEdge(g, a, b) <==> HasEdge(was, a, b) || (a, b) == (src, dst);
      }
      forall a, b | HasEdge(g, a, b) ensures b in g {
        assert HasEdge(was, a, b) || (a, b) == (src, dst);
      }
    }
    assert links[..|links|] == links;
  }

  lemma OneMoreLink(links: seq<Link>, k: nat, a: string, b: string)
    requires k < |links|
    ensures FlowsTo(links[..k + 1], a, b) <==> FlowsTo(links[..k], a, b) || Flow(links[k]) == (a, b)
  {
    if FlowsTo(links[..k], a, b) {
      var l :| 0 <= l < k && Flow(links[..k][l]) == (a, b);
      assert links[..k + 1][l] == links[..k][l];
    }
    assert links[..k + 1][k] == links[k];
    if FlowsTo(links[..k + 1], a, b) {
      var l :| 0 <= l < k + 1 && Flow(links[..k + 1][l]) == (a, b);
      if l < k { assert links[..k][l] == links[..k + 1][l]; }
    }
  }

  function IndexOf(s: seq<string>, x: string): (i: nat)
    requires x in s
    ensures i < |s| && s[i] == x
  {
    if s[0] == x then 0 else 1 + IndexOf(s[1..], x)
  }

  function Least(s: seq<string>): (x: string)
    requires s != []
    ensures x in s && forall i :: 0 <= i < |s| ==> TextLe(x, s[i])
  {
    if |s| == 1 then TextLeTotal(s[0], s[0]); s[0] else
      var rest := Least(s[1..]);
      TextLeTotal(s[0], rest);
      TextLeTotal(s[0], s[0]);
      if TextLe(s[0], rest) then LeastOnward(s, rest); s[0] else rest
  }

  lemma LeastOnward(s: seq<string>, x: string)
    requires s != [] && TextLe(s[0], x) && forall i :: 0 <= i < |s[1..]| ==> TextLe(x, s[1..][i])
    ensures forall i :: 0 <= i < |s| ==> TextLe(s[0], s[i])
  {
    TextLeTotal(s[0], s[0]);
    forall i | 0 < i < |s| ensures TextLe(s[0], s[i]) {
      assert s[i] == s[1..][i - 1];
      TextLeTransitive(s[0], x, s[i]);
    }
  }

  /** The cycle an edge back onto the path closes, normalised. */
  function ClosedCycle(path: seq<string>, back: string): seq<string>
    requires back in path
  {
    var cycle := path[IndexOf(path, back)..];
    Rotated(cycle, IndexOf(cycle, Least(cycle)))
  }

  /** A path down the graph. */
  ghost predicate PathDown(links: seq<Link>, path: seq<string>) {
    Distinct(path) && forall i :: 0 <= i < |path| - 1 ==> FlowsTo(links, path[i], path[i + 1])
  }

  lemma ClosedCycleIsOne(links: seq<Link>, path: seq<string>, back: string)
    requires PathDown(links, path) && back in path && FlowsTo(links, path[|path| - 1], back)
    ensures var c := ClosedCycle(path, back);
            SimpleCycle(links, c) && Normalised(c) && StepOf(c, path[|path| - 1], back)
  {
    var i := IndexOf(path, back);
    var cycle := path[i..];
    TailIsCycle(links, path, i);
    assert Next(cycle, |cycle| - 1) == back && StepOf(cycle, path[|path| - 1], back);
    var r := IndexOf(cycle, Least(cycle));
    RotationIsCycle(links, cycle, r);
    RotationKeepsSteps(cycle, r, path[|path| - 1], back);
    RotationNormalised(cycle, r);
    hide Rotated, SimpleCycle, Normalised, StepOf, Next, IndexOf, Least;
  }

  lemma TailIsCycle(links: seq<Link>, path: seq<string>, i: nat)
    requires PathDown(links, path) && i < |path| && FlowsTo(links, path[|path| - 1], path[i])
    ensures SimpleCycle(links, path[i..])
  {
    hide FlowsTo;
    var cycle := path[i..];
    forall k | 0 <= k < |cycle| ensures FlowsTo(links, cycle[k], Next(cycle, k)) {
      if k + 1 < |cycle| { assert cycle[k] == path[i + k] && cycle[k + 1] == path[i + k + 1]; }
    }
  }

  lemma RotationNormalised(cycle: seq<string>, r: nat)
    requires r < |cycle| && cycle[r] == Least(cycle)
    ensures Normalised(Rotated(cycle, r))
  {
    var c := Rotated(cycle, r);
    RotationSteps(cycle, r, 0);
    forall k | 0 <= k < |c| ensures TextLe(c[0], c[k]) { RotationSteps(cycle, r, k); }
  }

  // ----- The forest the search walks

  /** The path each node was reached by: down the graph, to the node, and made of the paths
      to the nodes it passes. */
  ghost predicate PathForest(links: seq<Link>, paths: map<string, seq<string>>) {
    forall u :: u in paths ==> TreePath(links, paths, u)
  }

  ghost predicate TreePath(links: seq<Link>, paths: map<string, seq<string>>, u: string)
    requires u in paths
  {
    && paths[u] != [] && paths[u][|paths[u]| - 1] == u && PathDown(links, paths[u])
    && forall i :: 0 <= i < |paths[u]| ==> paths[u][i] in paths && paths[paths[u][i]] == paths[u][..i + 1]
  }

  /** The cycles the edges out of `u` close on the path to it. */
  function Closings(g: map<string, set<string>>, u: string, path: seq<string>): set<seq<string>> {
    if u in g then set w | w in g[u] && w in path :: ClosedCycle(path, w) else {}
  }

  ghost function AllClosings(g: map<string, set<string>>, paths: map<string, seq<string>>): set<seq<string>> {
    set u, c | u in paths && c in Closings(g, u, paths[u]) :: c
  }

  /** Every cycle found was closed by an edge back onto its node's path, and every edge back
      out of a finished node has been found. */
  ghost predicate FromForest(g: map<string, set<string>>, paths: map<string, seq<string>>, order: seq<string>, cycles: set<seq<string>>) {
    && cycles <= AllClosings(g, paths)
    && forall i :: 0 <= i < |order| ==> order[i] in paths && Closings(g, order[i], paths[order[i]]) <= cycles
  }

  lemma ForestGrows(links: seq<Link>, g: map<string, set<string>>, paths: map<string, seq<string>>, order: seq<string>, cycles: set<seq<string>>, path: seq<string>, u: string)
    requires PathForest(links, paths) && FromForest(g, paths, order, cycles) && u !in paths
    requires PathDown(links, path + [u])
    requires path != [] ==> path[|path| - 1] in paths && paths[path[|path| - 1]] == path
    ensures PathForest(links, paths[u := path + [u]]) && FromForest(g, paths[u := path + [u]], order, cycles)
  {
    var more := paths[u := path + [u]];
    forall x | x in more ensures TreePath(links, more, x) {
      if x != u {
        assert TreePath(links, paths, x);
      } else if path != [] {
        assert TreePath(links, paths, path[|path| - 1]);
        forall i | 0 <= i < |path| ensures more[u][i] in more && more[more[u][i]] == more[u][..i + 1] {
          assert more[u][..i + 1] == path[..i + 1];
        }
      }
    }
    AllClosingsGrow(g, paths, u, path + [u]);
    hide Closings, PathDown, AllClosings, TreePath;
  }

  lemma AllClosingsGrow(g: map<string, set<string>>, paths: map<string, seq<string>>, u: string, path: seq<string>)
    requires u !in paths
    ensures AllClosings(g, paths) <= AllClosings(g, paths[u := path])
  {
    hide Closings;
    var more := paths[u := path];
    forall c | c in AllClosings(g, paths) ensures c in AllClosings(g, more) {
      var x :| x in paths && c in Closings(g, x, paths[x]);
      assert x in more && c in Closings(g, x, more[x]);
    }
  }

  lemma ForestScanned(g: map<string, set<string>>, paths: map<string, seq<string>>, order: seq<string>, cycles: set<seq<string>>, u: string, more: set<seq<string>>)
    requires FromForest(g, paths, order, cycles) && u in paths
    requires cycles <= more <= cycles + Closings(g, u, paths[u])
    ensures FromForest(g, paths, order, more)
    ensures Closings(g, u, paths[u]) <= more ==> FromForest(g, paths, order + [u], more)
  {
    hide Closings;
  }

  ghost predicate Reported(cycles: set<seq<string>>, u: string, w: string) {
    exists c :: c in cycles && StepOf(c, u, w)
  }

  ghost predicate CyclesSound(links: seq<Link>, cycles: set<seq<string>>) {
    forall c :: c in cycles ==> SimpleCycle(links, c) && Normalised(c)
  }

  /** The finished nodes, in the order they were finished: every edge out of one leads to
      a node finished before it or is a step of a reported cycle. */
  ghost predicate Finished(g: map<string, set<string>>, order: seq<string>, cycles: set<seq<string>>) {
    forall i :: 0 <= i < |order| ==> order[i] in g && forall w :: w in g[order[i]] ==> w in order[..i] || Reported(cycles, order[i], w)
  }

  lemma FinishedGrows(g: map<string, set<string>>, order: seq<string>, cycles: set<seq<string>>, more: set<seq<string>>)
    requires Finished(g, order, cycles) && cycles <= more
    ensures Finished(g, order, more)
  {
    forall i, w | 0 <= i < |order| && w in g[order[i]] ensures w in order[..i] || Reported(more, order[i], w) {
      if Reported(cycles, order[i], w) {
        var c :| c in cycles && StepOf(c, order[i], w);
        assert c in more;
      }
    }
  }

  /** Finishing one more node whose edges are all accounted for. */
  lemma FinishedNext(g: map<string, set<string>>, order: seq<string>, cycles: set<seq<string>>, node: string)
    requires Finished(g, order, cycles) && node in g
    requires forall w :: w in g[node] ==> w in order || Reported(cycles, node, w)
    ensures Finished(g, order + [node], cycles)
  {
    var next := order + [node];
    forall i | 0 <= i < |next| ensures next[..i] == if i < |order| then order[..i] else order {}
  }

  /** The nodes on the stack, bottom first. */
  function Nodes(stack: seq<(string, seq<string>)>): seq<string> {
    seq(|stack|, i requires 0 <= i < |stack| => stack[i].0)
  }

  /** The stack is a path down the graph, each entry carrying the path up to it, and none
      of it is finished. */
  ghost predicate StackOk(links: seq<Link>, g: map<string, set<string>>, stack: seq<(string, seq<string>)>, onPath: set<string>, order: seq<string>) {
    var nodes := Nodes(stack);
    && PathDown(links, nodes)
    && (forall i :: 0 <= i < |stack| ==> stack[i].1 == nodes[..i + 1])
    && (forall x :: x in onPath <==> x in nodes)
    && (forall i :: 0 <= i < |nodes| ==> nodes[i] in g && nodes[i] !in order)
  }

  lemma StackPush(links: seq<Link>, g: map<string, set<string>>, stack: seq<(string, seq<string>)>, onPath: set<string>, order: seq<string>, next: string)
    requires StackOk(links, g, stack, onPath, order) && stack != []
    requires next in g && next !in onPath && next !in order && FlowsTo(links, stack[|stack| - 1].0, next)
    ensures StackOk(links, g, stack + [(next, stack[|stack| - 1].1 + [next])], onPath + {next}, order)
  {
    var nodes, pushed := Nodes(stack), stack + [(next, stack[|stack| - 1].1 + [next])];
    assert Nodes(pushed) == nodes + [next];
    assert nodes[..|stack|] == nodes;
    forall i | 0 <= i < |pushed| ensures pushed[i].1 == (nodes + [next])[..i + 1] {
      if i < |stack| { assert (nodes + [next])[..i + 1] == nodes[..i + 1]; }
    }
  }

  lemma StackPop(links: seq<Link>, g: map<string, set<string>>, stack: seq<(string, seq<string>)>, onPath: set<string>, order: seq<string>)
    requires StackOk(links, g, stack, onPath, order) && stack != []
    ensures var node := stack[|stack| - 1].0;
            StackOk(links, g, stack[..|stack| - 1], onPath - {node}, order + [node])
  {
    var nodes, popped, node := Nodes(stack), stack[..|stack| - 1], stack[|stack| - 1].0;
    assert Nodes(popped) == nodes[..|stack| - 1];
    forall i | 0 <= i < |popped| ensures popped[i].1 == Nodes(popped)[..i + 1] {
      assert nodes[..i + 1] == Nodes(popped)[..i + 1];
    }
    assert forall x :: x in nodes <==> x in Nodes(popped) || x == node by {
      assert nodes == Nodes(popped) + [node];
    }
    assert node == nodes[|stack| - 1];
  }

  ghost predicate Accounted(neighbours: seq<string>, order: seq<string>, cycles: set<seq<string>>, node: string) {
    forall k :: 0 <= k < |neighbours| ==> neighbours[k] in order || Reported(cycles, node, neighbours[k])
  }

  lemma AccountedGrows(neighbours: seq<string>, order: seq<string>, cycles: set<seq<string>>, more: set<seq<string>>, node: string)
    requires Accounted(neighbours, order, cycles, node) && cycles <= more
    ensures Accounted(neighbours, order, more, node)
  {
    forall k | 0 <= k < |neighbours| && Reported(cycles, node, neighbours[k]) ensures Reported(more, node, neighbours[k]) {
      var c :| c in cycles && StepOf(c, node, neighbours[k]);
      assert c in more;
    }
  }

  /** Scan a node's neighbours in order, reporting the cycle each edge back onto the path
      closes, up to the first neighbour still to be expanded. */
  method Scan(ghost links: seq<Link>, g: map<string, set<string>>, node: string, path: seq<string>, onPath: set<string>,
              visited: set<string>, cycles: set<seq<string>>, ghost order: seq<string>)
    returns (next: Option<string>, cycles': set<seq<string>>)
    requires Adjacency(g, links) && node in g && PathDown(links, path) && path != [] && path[|path| - 1] == node
    requires CyclesSound(links, cycles) && Finished(g, order, cycles)
    requires Same(visited, order) && Same(onPath, path)
    ensures CyclesSound(links, cycles') && Finished(g, order, cycles')
    ensures next.Some? ==> HasEdge(g, node, next.value) && next.value !in onPath && next.value !in visited
    ensures next.None? ==> forall w :: w in g[node] ==> w in order || Reported(cycles', node, w)
    ensures cycles <= cycles' <= cycles + Closings(g, node, path)
    ensures next.None? ==> Closings(g, node, path) <= cycles'
  {
    hide PathDown, ClosedCycle, StepOf, Finished, Accounted, SimpleCycle, Normalised, FlowsTo, CyclesSound;
    cycles' := cycles;
    var neighbours := SortedTexts(g[node]);
    NothingToAccount(order, cycles, node);
    assert neighbours[..0] == [];
    for k := 0 to |neighbours|
      invariant CyclesSound(links, cycles') && Finished(g, order, cycles')
      invariant Accounted(neighbours[..k], order, cycles', node)
      invariant cycles <= cycles' <= cycles + Closings(g, node, path)
      invariant forall i :: 0 <= i < k && neighbours[i] in path ==> ClosedCycle(path, neighbours[i]) in cycles'
    {
      var w := neighbours[k];
      assert w in neighbours && HasEdge(g, node, w);
      assert neighbours[..k + 1] == neighbours[..k] + [w];
      if w in onPath {
        ClosedCycleIsOne(links, path, w);
        ghost var before := cycles';
        CycleFound(links, cycles', ClosedCycle(path, w));
        cycles' := cycles' + {ClosedCycle(path, w)};
        FinishedGrows(g, order, before, cycles');
        AccountedGrows(neighbours[..k], order, before, cycles', node);
        assert Reported(cycles', node, w);
      } else if w !in visited {
        return Some(w), cycles';
      }
      AccountedNext(neighbours[..k], order, cycles', node, w);
    }
    assert neighbours[..|neighbours|] == neighbours;
    AccountedAll(neighbours, order, cycles', node);
    assert forall w :: w in g[node] ==> w in neighbours;
    return None, cycles';
  }

  lemma CycleFound(links: seq<Link>, cycles: set<seq<string>>, c: seq<string>)
    requires CyclesSound(links, cycles) && SimpleCycle(links, c) && Normalised(c)
    ensures CyclesSound(links, cycles + {c})
  {
  }

  lemma NothingToAccount(order: seq<string>, cycles: set<seq<string>>, node: string)
    ensures Accounted([], order, cycles, node)
  {
  }

  lemma AccountedNext(neighbours: seq<string>, order: seq<string>, cycles: set<seq<string>>, node: string, w: string)
    requires Accounted(neighbours, order, cycles, node) && (w in order || Reported(cycles, node, w))
    ensures Accounted(neighbours + [w], order, cycles, node)
  {
  }

  lemma AccountedAll(neighbours: seq<string>, order: seq<string>, cycles: set<seq<string>>, node: string)
    requires Accounted(neighbours, order, cycles, node)
    ensures forall w :: w in neighbours ==> w in order || Reported(cycles, node, w)
  {
  }

  /** The forest holds the paths of the nodes met so far, those on the stack among them. */
  ghost predicate StackInForest(stack: seq<(string, seq<string>)>, onPath: set<string>, order: seq<string>, paths: map<string, seq<string>>) {
    && (forall x :: x in paths <==> x in order || x in onPath)
    && (forall i :: 0 <= i < |stack| ==> stack[i].0 in paths && paths[stack[i].0] == stack[i].1)
  }

  /** The search is under way: what it has found, finished, and has on its stack. */
  ghost predicate Searching(links: seq<Link>, g: map<string, set<string>>, stack: seq<(string, seq<string>)>, onPath: set<string>, order: seq<string>,
                            cycles: set<seq<string>>, paths: map<string, seq<string>>) {
    && CyclesSound(links, cycles) && Finished(g, order, cycles)
    && StackOk(links, g, stack, onPath, order) && StackInForest(stack, onPath, order, paths)
    && PathForest(links, paths) && FromForest(g, paths, order, cycles)
  }

  lemma SearchStarts(links: seq<Link>, g: map<string, set<string>>, start: string, order: seq<string>, cycles: set<seq<string>>, paths: map<string, seq<string>>)
    requires start in g && start !in order
    requires CyclesSound(links, cycles) && Finished(g, order, cycles)
    requires PathForest(links, paths) && FromForest(g, paths, order, cycles) && forall x :: x in paths <==> x in order
    ensures Searching(links, g, [(start, [start])], {start}, order, cycles, paths[start := [start]])
  {
    hide CyclesSound, Finished, PathForest, FromForest;
    assert Nodes([(start, [start])]) == [start] && [] + [start] == [start];
    ForestGrows(links, g, paths, order, cycles, [], start);
  }

  lemma SearchPushes(links: seq<Link>, g: map<string, set<string>>, stack: seq<(string, seq<string>)>, onPath: set<string>, order: seq<string>,
                     before: set<seq<string>>, cycles: set<seq<string>>, paths: map<string, seq<string>>, next: string)
    requires Searching(links, g, stack, onPath, order, before, paths) && stack != []
    requires CyclesSound(links, cycles) && Finished(g, order, cycles)
    requires before <= cycles <= before + Closings(g, stack[|stack| - 1].0, stack[|stack| - 1].1)
    requires next in g && next !in onPath && next !in order && FlowsTo(links, stack[|stack| - 1].0, next)
    ensures var path := stack[|stack| - 1].1 + [next];
            Searching(links, g, stack + [(next, path)], onPath + {next}, order, cycles, paths[next := path])
  {
    hide FromForest, PathForest, FlowsTo, StackOk, StackInForest, Finished, CyclesSound, PathDown, Closings;
    var (node, path) := stack[|stack| - 1];
    StackTop(links, g, stack, onPath, order);
    PushInForest(stack, onPath, order, paths, next);
    StackPush(links, g, stack, onPath, order, next);
    PathExtends(links, path, next);
    ForestScanned(g, paths, order, before, node, cycles);
    ForestGrows(links, g, paths, order, cycles, path, next);
  }

  lemma PushInForest(stack: seq<(string, seq<string>)>, onPath: set<string>, order: seq<string>, paths: map<string, seq<string>>, next: string)
    requires StackInForest(stack, onPath, order, paths) && stack != [] && next !in onPath && next !in order
    ensures var (node, path) := stack[|stack| - 1];
            && node in paths && paths[node] == path && next !in paths
            && StackInForest(stack + [(next, path + [next])], onPath + {next}, order, paths[next := path + [next]])
  {
    var path := stack[|stack| - 1].1;
    var pushed, more := stack + [(next, path + [next])], paths[next := path + [next]];
    forall i | 0 <= i < |pushed| ensures pushed[i].0 in more && more[pushed[i].0] == pushed[i].1 {
      if i < |stack| { assert pushed[i] == stack[i]; }
    }
  }

  lemma EdgeLeads(links: seq<Link>, g: map<string, set<string>>, a: string, b: string)
    requires Adjacency(g, links) && HasEdge(g, a, b)
    ensures FlowsTo(links, a, b) && b in g
  {
  }

  lemma PathExtends(links: seq<Link>, path: seq<string>, next: string)
    requires PathDown(links, path) && path != [] && next !in path && FlowsTo(links, path[|path| - 1], next)
    ensures PathDown(links, path + [next])
  {
    hide FlowsTo;
  }

  lemma SearchPops(links: seq<Link>, g: map<string, set<string>>, stack: seq<(string, seq<string>)>, onPath: set<string>, order: seq<string>,
                   before: set<seq<string>>, cycles: set<seq<string>>, paths: map<string, seq<string>>)
    requires Searching(links, g, stack, onPath, order, before, paths) && stack != []
    requires CyclesSound(links, cycles) && Finished(g, order, cycles)
    requires var (node, path) := stack[|stack| - 1];
             && before <= cycles <= before + Closings(g, node, path) && Closings(g, node, path) <= cycles
             && node in g && forall w :: w in g[node] ==> w in order || Reported(cycles, node, w)
    ensures var node := stack[|stack| - 1].0;
            Searching(links, g, stack[..|stack| - 1], onPath - {node}, order + [node], cycles, paths)
  {
    var (node, path) := stack[|stack| - 1];
    assert node in paths && paths[node] == path;
    FinishedNext(g, order, cycles, node);
    PopInForest(links, g, stack, onPath, order, paths);
    StackPop(links, g, stack, onPath, order);
    hide FromForest, PathForest, StackOk, StackInForest, Finished, CyclesSound, Closings;
    ForestScanned(g, paths, order, before, node, cycles);
  }

  lemma SearchEnds(links: seq<Link>, g: map<string, set<string>>, onPath: set<string>, order: seq<string>, cycles: set<seq<string>>, paths: map<string, seq<string>>)
    requires Searching(links, g, [], onPath, order, cycles, paths)
    ensures CyclesSound(links, cycles) && Finished(g, order, cycles)
    ensures PathForest(links, paths) && FromForest(g, paths, order, cycles)
    ensures forall x :: x in paths <==> x in order
  {
    EmptyStack(links, g, onPath, order);
    AllInForest(onPath, order, paths);
  }

  lemma SearchTop(links: seq<Link>, g: map<string, set<string>>, stack: seq<(string, seq<string>)>, onPath: set<string>, order: seq<string>,
                  cycles: set<seq<string>>, paths: map<string, seq<string>>)
    requires Searching(links, g, stack, onPath, order, cycles, paths) && stack != []
    ensures var (node, path) := stack[|stack| - 1];
            && PathDown(links, path) && path != [] && path[|path| - 1] == node
            && Same(onPath, path)
            && node in g && node !in order
    ensures CyclesSound(links, cycles) && Finished(g, order, cycles)
  {
    StackTop(links, g, stack, onPath, order);
  }

  lemma SearchFits(links: seq<Link>, g: map<string, set<string>>, stack: seq<(string, seq<string>)>, onPath: set<string>, order: seq<string>,
                   cycles: set<seq<string>>, paths: map<string, seq<string>>)
    requires Searching(links, g, stack, onPath, order, cycles, paths)
    ensures |stack| <= |g.Keys|
  {
    StackFits(links, g, stack, onPath, order);
  }

  /** Expand everything reachable from `start` that is not finished yet. */
  method Visit(ghost links: seq<Link>, g: map<string, set<string>>, start: string,
               visited: set<string>, cycles: set<seq<string>>, ghost order: seq<string>, ghost paths: map<string, seq<string>>)
    returns (visited': set<string>, cycles': set<seq<string>>, ghost order': seq<string>, ghost paths': map<string, seq<string>>)
    requires Adjacency(g, links) && start in g && start !in visited
    requires CyclesSound(links, cycles) && Finished(g, order, cycles)
    requires Same(visited, order)
    requires PathForest(links, paths) && FromForest(g, paths, order, cycles)
    requires forall x :: x in paths <==> x in order
    ensures CyclesSound(links, cycles') && Finished(g, order', cycles')
    ensures Same(visited', order')
    ensures visited + {start} <= visited' <= visited + g.Keys
    ensures PathForest(links, paths') && FromForest(g, paths', order', cycles')
    ensures forall x :: x in paths' <==> x in order'
  {
    hide CyclesSound, Finished, StepOf, FlowsTo, PathForest, FromForest, Searching, PathDown, Closings, Reported, Adjacency, HasEdge, Same, Underway;
    visited', cycles', order', paths' := visited, cycles, order, paths[start := [start]];
    var stack: seq<(string, seq<string>)> := [(start, [start])];
    var onPath := {start};
    StillToVisit(visited, order, start);
    SetsOut(g.Keys, visited, start);
    SearchStarts(links, g, start, order, cycles, paths);
    while stack != []
      invariant Searching(links, g, stack, onPath, order', cycles', paths')
      invariant Same(visited', order')
      invariant Underway(g.Keys, visited, visited', start, stack)
      decreases |g.Keys - visited'|, |g.Keys| - |stack|
    {
      var (node, path) := stack[|stack| - 1];
      SearchTop(links, g, stack, onPath, order', cycles', paths');
      ghost var before := cycles';
      OneMoreVisited(visited', order', node);
      var next;
      next, cycles' := Scan(links, g, node, path, onPath, visited', cycles', order');
      if next.Some? {
        StillToVisit(visited', order', next.value);
        GoesDown(g.Keys, visited, visited', start, stack, (next.value, path + [next.value]));
        EdgeLeads(links, g, node, next.value);
        SearchPushes(links, g, stack, onPath, order', before, cycles', paths', next.value);
        paths' := paths'[next.value := path + [next.value]];
        stack := stack + [(next.value, path + [next.value])];
        onPath := onPath + {next.value};
        SearchFits(links, g, stack, onPath, order', cycles', paths');
      } else {
        SearchPops(links, g, stack, onPath, order', before, cycles', paths');
        OneFewerToVisit(g.Keys, visited', node);
        ComesBack(g.Keys, visited, visited', start, stack);
        visited' := visited' + {node};
        order' := order' + [node];
        onPath := onPath - {node};
        stack := stack[..|stack| - 1];
      }
    }
    SearchEnds(links, g, onPath, order', cycles', paths');
    ComesHome(g.Keys, visited, visited', start);
  }

  /** Only keys are being visited, and `start` among them once the stack is empty. */
  predicate Underway(keys: set<string>, visited: set<string>, now: set<string>, start: string, stack: seq<(string, seq<string>)>) {
    visited <= now <= visited + keys && (start in now || (stack != [] && stack[0].0 == start))
  }

  lemma SetsOut(keys: set<string>, visited: set<string>, start: string)
    ensures Underway(keys, visited, visited, start, [(start, [start])])
  {
  }

  lemma GoesDown(keys: set<string>, visited: set<string>, now: set<string>, start: string, stack: seq<(string, seq<string>)>, next: (string, seq<string>))
    requires Underway(keys, visited, now, start, stack)
    ensures Underway(keys, visited, now, start, stack + [next])
  {
  }

  lemma ComesBack(keys: set<string>, visited: set<string>, now: set<string>, start: string, stack: seq<(string, seq<string>)>)
    requires Underway(keys, visited, now, start, stack) && stack != [] && stack[|stack| - 1].0 in keys
    ensures Underway(keys, visited, now + {stack[|stack| - 1].0}, start, stack[..|stack| - 1])
  {
  }

  lemma ComesHome(keys: set<string>, visited: set<string>, now: set<string>, start: string)
    requires Underway(keys, visited, now, start, [])
    ensures visited + {start} <= now <= visited + keys
  {
  }

  /** The set and the list hold the same nodes. */
  ghost predicate Same(visited: set<string>, order: seq<string>) { forall x :: x in visited <==> x in order }

  lemma StillToVisit(visited: set<string>, order: seq<string>, node: string)
    requires Same(visited, order)
    ensures node in visited <==> node in order
  {
  }

  lemma OneMoreVisited(visited: set<string>, order: seq<string>, node: string)
    requires Same(visited, order)
    ensures node in visited <==> node in order
    ensures Same(visited + {node}, order + [node])
  {
  }

  lemma OneFewerToVisit(keys: set<string>, visited: set<string>, node: string)
    requires node in keys && node !in visited
    ensures |keys - (visited + {node})| < |keys - visited|
  {
    assert keys - (visited + {node}) == (keys - visited) - {node};
  }

  lemma EmptyStack(links: seq<Link>, g: map<string, set<string>>, onPath: set<string>, order: seq<string>)
    requires StackOk(links, g, [], onPath, order)
    ensures onPath == {}
  {
  }

  lemma AllInForest(onPath: set<string>, order: seq<string>, paths: map<string, seq<string>>)
    requires StackInForest([], onPath, order, paths) && onPath == {}
    ensures forall x :: x in paths <==> x in order
  {
  }

  lemma PopInForest(links: seq<Link>, g: map<string, set<string>>, stack: seq<(string, seq<string>)>, onPath: set<string>, order: seq<string>, paths: map<string, seq<string>>)
    requires StackOk(links, g, stack, onPath, order) && StackInForest(stack, onPath, order, paths) && stack != []
    ensures var node := stack[|stack| - 1].0;
            StackInForest(stack[..|stack| - 1], onPath - {node}, order + [node], paths)
  {
    StackTop(links, g, stack, onPath, order);
    assert stack[|stack| - 1].0 == Nodes(stack)[|stack| - 1];
  }

  lemma StackTop(links: seq<Link>, g: map<string, set<string>>, stack: seq<(string, seq<string>)>, onPath: set<string>, order: seq<string>)
    requires StackOk(links, g, stack, onPath, order) && stack != []
    ensures var (node, path) := stack[|stack| - 1];
            && path == Nodes(stack) && PathDown(links, path) && path[|path| - 1] == node
            && (forall x :: x in onPath <==> x in path)
            && node in g && node !in order
  {
    assert Nodes(stack)[..|stack|] == Nodes(stack);
    assert Nodes(stack)[|stack| - 1] == stack[|stack| - 1].0;
  }

  lemma StackFits(links: seq<Link>, g: map<string, set<string>>, stack: seq<(string, seq<string>)>, onPath: set<string>, order: seq<string>)
    requires StackOk(links, g, stack, onPath, order)
    ensures |stack| <= |g.Keys|
  {
    DistinctWithin(Nodes(stack), g.Keys);
  }

  function Texts(c: seq<string>): SortKey {
    seq(|c|, i requires 0 <= i < |c| => Text(c[i]))
  }

  /** `sorted(cycles)`, as lists. */
  method SortedCycles(cycles: set<seq<string>>) returns (r: seq<seq<string>>)
    ensures forall c :: c in r <==> c in cycles
    ensures Distinct(r) && SortedBy(r, Texts)
  {
    var list: seq<seq<string>> := [];
    var rest := cycles;
    while rest != {}
      invariant rest <= cycles && Distinct(list)
      invariant forall c :: c in list <==> c in cycles && c !in rest
      decreases rest
    {
      var c :| c in rest;
      list, rest := list + [c], rest - {c};
    }
    SortBySorts(list, Texts);
    SameMultisetDistinct(list, SortBy(list, Texts));
    return SortBy(list, Texts);
  }

  /** The finder returns distinct, normalised simple cycles of the graph, sorted; and
      every closed walk of the graph takes a step some returned cycle takes. So it
      returns something exactly when there is a cycle. What it returns is exactly the
      cycles that one edge closes on a path of the forest it walked. */
  method FindSuccessionCycles(links: seq<Link>) returns (r: seq<seq<string>>, ghost paths: map<string, seq<string>>)
    ensures forall c :: c in r ==> SimpleCycle(links, c) && Normalised(c)
    ensures Distinct(r) && SortedBy(r, Texts)
    ensures forall w :: ClosedWalk(links, w) ==> StepReported(r, w)
    ensures r != [] <==> exists c :: SimpleCycle(links, c)
    ensures PathForest(links, paths) && ReportsForest(links, paths, r)
  {
    hide CyclesSound, Finished, PathForest, FromForest, Adjacency, StepReported, ReportsForest;
    hide SimpleCycle, Normalised, ClosedWalk, SortedBy, Distinct, Same;
    var g := BuildAdjacency(links);
    var cycles: set<seq<string>>, visited: set<string> := {}, {};
    ghost var order: seq<string> := [];
    paths := map[];
    NothingSearched(links, g);
    NoneVisited();
    var nodes := SortedTexts(g.Keys);
    for k := 0 to |nodes|
      invariant CyclesSound(links, cycles) && Finished(g, order, cycles)
      invariant Same(visited, order)
      invariant PathForest(links, paths) && FromForest(g, paths, order, cycles)
      invariant (forall x :: x in paths <==> x in order) && visited <= g.Keys
      invariant forall i :: 0 <= i < k ==> nodes[i] in visited
    {
      assert nodes[k] in nodes;
      if nodes[k] !in visited {
        visited, cycles, order, paths := Visit(links, g, nodes[k], visited, cycles, order, paths);
      }
    }
    r := SortedCycles(cycles);
    AllVisited(nodes, visited, order);
    assert forall x :: x in g ==> x in nodes;
    EveryWalkReported(links, g, order, cycles, r);
    ForestReported(links, g, paths, order, cycles, r);
    SoundInAll(links, cycles, r);
  }

  lemma NoneVisited()
    ensures Same({}, [])
  {
  }

  lemma AllVisited(nodes: seq<string>, visited: set<string>, order: seq<string>)
    requires Same(visited, order) && forall i :: 0 <= i < |nodes| ==> nodes[i] in visited
    ensures (forall x :: x in nodes ==> x in order) && (forall x :: x in order ==> x in visited)
  {
  }

  lemma NothingSearched(links: seq<Link>, g: map<string, set<string>>)
    ensures CyclesSound(links, {}) && Finished(g, [], {}) && PathForest(links, map[]) && FromForest(g, map[], [], {})
  {
  }

  lemma SoundInAll(links: seq<Link>, cycles: set<seq<string>>, r: seq<seq<string>>)
    requires CyclesSound(links, cycles) && forall c :: c in r <==> c in cycles
    ensures forall c :: c in r ==> SimpleCycle(links, c) && Normalised(c)
  {
  }

  /** The edge from `u` to `w` closes `c` on the path to `u`. */
  ghost predicate Closes(links: seq<Link>, paths: map<string, seq<string>>, c: seq<string>, u: string, w: string) {
    u in paths && w in paths[u] && FlowsTo(links, u, w) && c == ClosedCycle(paths[u], w)
  }

  ghost predicate ReportsForest(links: seq<Link>, paths: map<string, seq<string>>, r: seq<seq<string>>) {
    && (forall u, w :: FlowsTo(links, u, w) ==> u in paths && w in paths)
    && (forall c :: c in r <==> exists u, w :: Closes(links, paths, c, u, w))
  }

  lemma ForestReported(links: seq<Link>, g: map<string, set<string>>, paths: map<string, seq<string>>, order: seq<string>, cycles: set<seq<string>>, r: seq<seq<string>>)
    requires Adjacency(g, links) && FromForest(g, paths, order, cycles)
    requires (forall x :: x in g ==> x in order) && (forall x :: x in paths ==> x in g)
    requires forall c :: c in r <==> c in cycles
    ensures ReportsForest(links, paths, r)
  {
    hide ClosedCycle, FlowsTo;
    forall u, w | FlowsTo(links, u, w) ensures u in paths && w in paths {
      assert HasEdge(g, u, w) && u in order && w in order;
    }
    forall c ensures c in r <==> exists u, w :: Closes(links, paths, c, u, w) {
      if c in r {
        var u :| u in paths && c in Closings(g, u, paths[u]);
        var w :| w in g[u] && w in paths[u] && c == ClosedCycle(paths[u], w);
        assert HasEdge(g, u, w);
        assert Closes(links, paths, c, u, w);
      }
      if u, w :| Closes(links, paths, c, u, w) {
        assert HasEdge(g, u, w) && u in order;
        var i :| 0 <= i < |order| && order[i] == u;
        assert c in Closings(g, u, paths[u]);
      }
    }
  }

  /** `r` reports a step of the walk. */
  ghost predicate StepReported(r: seq<seq<string>>, w: seq<string>) {
    exists i, c :: 0 <= i < |w| && c in r && StepOf(c, w[i], Next(w, i))
  }

  lemma EveryWalkReported(links: seq<Link>, g: map<string, set<string>>, order: seq<string>, cycles: set<seq<string>>, r: seq<seq<string>>)
    requires Adjacency(g, links) && Finished(g, order, cycles) && CyclesSound(links, cycles)
    requires (forall x :: x in g ==> x in order) && forall c :: c in r <==> c in cycles
    ensures forall w :: ClosedWalk(links, w) ==> StepReported(r, w)
    ensures r != [] <==> exists c :: SimpleCycle(links, c)
  {
    forall w | ClosedWalk(links, w) ensures StepReported(r, w) {
      var i, c := SomeStepReported(links, g, order, cycles, w);
      assert c in r;
    }
    hide StepOf, Finished, Adjacency, FlowsTo, Distinct;
    if r != [] { assert r[0] in r && r[0] in cycles; }
    if c :| SimpleCycle(links, c) {
      assert ClosedWalk(links, c) && StepReported(r, c);
    }
  }

  /** No walk comes back to where it began by only ever stepping to nodes finished before. */
  lemma SomeStepReported(links: seq<Link>, g: map<string, set<string>>, order: seq<string>, cycles: set<seq<string>>, w: seq<string>)
    returns (i: nat, c: seq<string>)
    requires Adjacency(g, links) && Finished(g, order, cycles) && ClosedWalk(links, w)
    requires forall x :: x in g ==> x in order
    ensures i < |w| && c in cycles && StepOf(c, w[i], Next(w, i))
  {
    i := EarliestFinished(links, g, order, w);
    var u, v := w[i], Next(w, i);
    assert FlowsTo(links, u, v) && HasEdge(g, u, v);
    var k := IndexOf(order, u);
    assert order[k] == u;
    if v in order[..k] {
      var l := IndexOf(order, v);
      IndexOfPrefix(order, k, v);
      assert false;
    }
    c :| c in cycles && StepOf(c, u, v);
  }

  lemma {:induction false} IndexOfPrefix(s: seq<string>, k: nat, x: string)
    requires k <= |s| && x in s[..k]
    ensures x in s && IndexOf(s, x) < k
  {
    assert x in s by {
      var j :| 0 <= j < k && s[..k][j] == x;
      assert s[j] == x;
    }
    if s[0] != x {
      assert s[..k][1..] == s[1..][..k - 1];
      assert x in s[..k][1..] by {
        var j :| 0 <= j < k && s[..k][j] == x;
        assert s[..k][1..][j - 1] == x;
      }
      IndexOfPrefix(s[1..], k - 1, x);
    }
  }

  /** The walk's first-finished node, and so no later than the one it steps to. */
  lemma EarliestFinished(links: seq<Link>, g: map<string, set<string>>, order: seq<string>, w: seq<string>) returns (i: nat)
    requires Adjacency(g, links) && ClosedWalk(links, w) && forall x :: x in g ==> x in order
    ensures i < |w| && w[i] in order && Next(w, i) in order
    ensures IndexOf(order, w[i]) <= IndexOf(order, Next(w, i))
  {
    forall j | 0 <= j < |w| ensures w[j] in order {
      assert FlowsTo(links, w[j], Next(w, j)) && HasEdge(g, w[j], Next(w, j));
    }
    i := EarliestOf(order, w);
  }

  lemma {:induction false} EarliestOf(order: seq<string>, w: seq<string>) returns (i: nat)
    requires w != [] && forall j :: 0 <= j < |w| ==> w[j] in order
    ensures i < |w| && forall j :: 0 <= j < |w| ==> IndexOf(order, w[i]) <= IndexOf(order, w[j])
  {
    hide IndexOf;
    i := 0;
    if |w| > 1 {
      var k := EarliestOf(order, w[1..]);
      if IndexOf(order, w[k + 1]) < IndexOf(order, w[0]) { i := k + 1; }
      forall j | 0 <= j < |w| ensures IndexOf(order, w[i]) <= IndexOf(order, w[j]) {
        if j > 0 { assert w[j] == w[1..][j - 1]; }
      }
    }
  }

  // ----- Which cycles are reported

  /** No two simple cycles share a step, unless they are one cycle begun at different nodes. */
  ghost predicate CyclesApart(links: seq<Link>) {
    forall c, d, u, w :: SimpleCycle(links, c) && SimpleCycle(links, d) && StepOf(c, u, w) && StepOf(d, u, w) ==> IsRotation(c, d)
  }

  ghost predicate IsRotation(c: seq<string>, d: seq<string>) { exists k :: 0 <= k < |c| && d == Rotated(c, k) }

  lemma OneCycle(links: seq<Link>, c: seq<string>, d: seq<string>, u: string, w: string)
    requires CyclesApart(links) && SimpleCycle(links, c) && SimpleCycle(links, d) && Normalised(c) && Normalised(d)
    requires StepOf(c, u, w) && StepOf(d, u, w)
    ensures c == d
  {
    hide ClosedWalk, Normalised, StepOf, Distinct;
    assert IsRotation(c, d);
    var k :| 0 <= k < |c| && d == Rotated(c, k);
    hide Rotated;
    NormalisedOnce(c, d, k);
  }

  lemma ReportedStep(r: seq<seq<string>>, w: seq<string>) returns (i: nat, c: seq<string>)
    requires StepReported(r, w)
    ensures i < |w| && c in r && StepOf(c, w[i], Next(w, i))
  {
    hide StepOf, Next;
    i, c :| 0 <= i < |w| && c in r && StepOf(c, w[i], Next(w, i));
  }

  lemma OwnStep(c: seq<string>, i: nat)
    requires i < |c|
    ensures StepOf(c, c[i], Next(c, i))
  {
  }

  /** Where no two cycles share a step, each of them is reported, as the finder promises. */
  lemma CyclesApartAreAllReported(links: seq<Link>, r: seq<seq<string>>, c: seq<string>)
    requires forall d :: d in r ==> SimpleCycle(links, d) && Normalised(d)
    requires forall w :: ClosedWalk(links, w) ==> StepReported(r, w)
    requires CyclesApart(links) && SimpleCycle(links, c) && Normalised(c)
    ensures c in r
  {
    assert ClosedWalk(links, c);
    hide FlowsTo, SimpleCycle, Normalised, CyclesApart, ClosedWalk, StepOf, Next, StepReported;
    assert StepReported(r, c);
    var i, d := ReportedStep(r, c);
    OwnStep(c, i);
    OneCycle(links, c, d, c[i], Next(c, i));
  }

  /** Three committees, each merged into and split from each: five simple cycles. */
  function AllWays(): seq<Link> {
    [ Link(MergedWith, "a", "b"), Link(MergedWith, "b", "a"), Link(MergedWith, "b", "c"),
      Link(MergedWith, "c", "b"), Link(MergedWith, "a", "c"), Link(MergedWith, "c", "a") ]
  }

  const ROUND := ["a", "b", "c"]
  const ROUND_BACK := ["a", "c", "b"]

  /** Not every simple cycle is reported, whatever forest the search walks: the two ways
      round three committees would each need the node that closes it at depth three. */
  lemma SomeCycleIsMissed(r: seq<seq<string>>, paths: map<string, seq<string>>)
    requires PathForest(AllWays(), paths) && ReportsForest(AllWays(), paths, r)
    ensures SimpleCycle(AllWays(), ROUND) && Normalised(ROUND) && SimpleCycle(AllWays(), ROUND_BACK) && Normalised(ROUND_BACK)
    ensures !(ROUND in r && ROUND_BACK in r)
  {
    RoundAndBack();
    hide SimpleCycle, Normalised, AllWays;
    if ROUND in r && ROUND_BACK in r {
      var u, w :| Closes(AllWays(), paths, ROUND, u, w);
      var v, x :| Closes(AllWays(), paths, ROUND_BACK, v, x);
      DeepEnough(paths, ROUND, u, w);
      DeepEnough(paths, ROUND_BACK, v, x);
      hide Closes, ClosedCycle;
      OneDeepNode(paths, u, v);
    }
  }

  lemma AllWaysFlow()
    ensures FlowsTo(AllWays(), "a", "b") && FlowsTo(AllWays(), "b", "a") && FlowsTo(AllWays(), "b", "c")
    ensures FlowsTo(AllWays(), "c", "b") && FlowsTo(AllWays(), "a", "c") && FlowsTo(AllWays(), "c", "a")
  {
    var l := AllWays();
    assert Flow(l[0]) == ("a", "b") && Flow(l[1]) == ("b", "a") && Flow(l[2]) == ("b", "c");
    assert Flow(l[3]) == ("c", "b") && Flow(l[4]) == ("a", "c") && Flow(l[5]) == ("c", "a");
  }

  lemma RoundAndBack()
    ensures SimpleCycle(AllWays(), ROUND) && Normalised(ROUND) && SimpleCycle(AllWays(), ROUND_BACK) && Normalised(ROUND_BACK)
  {
    AllWaysFlow();
    hide FlowsTo, AllWays;
    assert ROUND == ["a", "b", "c"] && ROUND_BACK == ["a", "c", "b"];
  }

  lemma NodesOfAllWays(a: string, b: string)
    requires FlowsTo(AllWays(), a, b)
    ensures a in {"a", "b", "c"} && b in {"a", "b", "c"}
  {
  }

  lemma PathInside(paths: map<string, seq<string>>, u: string, w: string)
    requires u in paths && TreePath(AllWays(), paths, u) && FlowsTo(AllWays(), u, w)
    ensures u in {"a", "b", "c"} && |paths[u]| <= 3
    ensures forall k :: 0 <= k < |paths[u]| ==> paths[u][k] in {"a", "b", "c"}
  {
    hide AllWays, FlowsTo;
    var path := paths[u];
    NodesOfAllWays(u, w);
    forall k | 0 <= k < |path| ensures path[k] in {"a", "b", "c"} {
      if k + 1 < |path| { NodesOfAllWays(path[k], path[k + 1]); } else { assert path[k] == u; }
    }
    DistinctWithin(path, {"a", "b", "c"});
  }

  lemma ClosedLength(path: seq<string>, w: string)
    requires w in path
    ensures |ClosedCycle(path, w)| == |path| - IndexOf(path, w)
  {
  }

  lemma DeepEnough(paths: map<string, seq<string>>, c: seq<string>, u: string, w: string)
    requires PathForest(AllWays(), paths) && Closes(AllWays(), paths, c, u, w) && |c| == 3
    ensures u in paths && |paths[u]| == 3 && w in paths[u] && paths[u][0] == w && c == ClosedCycle(paths[u], w)
    ensures u in {"a", "b", "c"} && TreePath(AllWays(), paths, u) && forall k :: 0 <= k < 3 ==> paths[u][k] in {"a", "b", "c"}
  {
    hide AllWays, TreePath, FlowsTo, ClosedCycle;
    assert TreePath(AllWays(), paths, u);
    PathInside(paths, u, w);
    ClosedLength(paths[u], w);
  }

  /** A path of all three passes every node, so the others' paths are shorter. */
  lemma OneDeepNode(paths: map<string, seq<string>>, u: string, v: string)
    requires u in paths && v in paths && |paths[u]| == |paths[v]| == 3
    requires TreePath(AllWays(), paths, v) && u in {"a", "b", "c"}
    requires forall k :: 0 <= k < 3 ==> paths[v][k] in {"a", "b", "c"}
    ensures u == v
  {
    hide AllWays;
    var path := paths[v];
    if u !in path { DistinctWithin(path, {"a", "b", "c"} - {u}); }
    var i := IndexOf(path, u);
    assert paths[path[i]] == path[..i + 1];
  }
}
