/**
 The include-cycle check (tools/check_layers.py): a depth-first search with an explicit stack, over a graph of
 files. A file includes what its lines name, in order, as often as it names it; names outside the graph are
 passed over.
 */
module LayerCheck {
  import opened Wrappers

  type Node = string

  type Graph = map<Node, seq<Node>>

  datatype Color = White | Gray | Black

  /** A file being searched, and how many of its includes have been looked at. */
  datatype Frame = Frame(node: Node, next: nat)

  /** One include: the file it is in, and which of that file's includes it is. */
  datatype Inclusion = Inclusion(node: Node, index: nat)

  predicate Edge(graph: Graph, a: Node, b: Node) {
    a in graph && b in graph && b in graph[a]
  }

  /** A closed walk: from a file through its includes back to itself. */
  predicate IsCycle(graph: Graph, cycle: seq<Node>) {
    && |cycle| >= 2 && cycle[0] == cycle[|cycle| - 1]
    && forall i :: 0 <= i < |cycle| - 1 ==> Edge(graph, cycle[i], cycle[i + 1])
  }

  ghost predicate HasCycle(graph: Graph) {
    exists cycle :: IsCycle(graph, cycle)
  }

  predicate Distinct<T(==)>(items: seq<T>) {
    forall i, j :: 0 <= i < j < |items| ==> items[i] != items[j]
  }

  /** A cycle that passes no file twice. */
  predicate IsSimpleCycle(graph: Graph, cycle: seq<Node>) {
    IsCycle(graph, cycle) && Distinct(cycle[..|cycle| - 1])
  }

  /** The include names a file of the graph. */
  predicate InGraph(graph: Graph, inclusion: Inclusion) {
    inclusion.node in graph && inclusion.index < |graph[inclusion.node]| && graph[inclusion.node][inclusion.index] in graph
  }

  function Target(graph: Graph, inclusion: Inclusion): Node
    requires InGraph(graph, inclusion)
  {
    graph[inclusion.node][inclusion.index]
  }

  /** The cycle goes on from the include's file to the file it names, and is back where it began. */
  predicate Closes(graph: Graph, cycle: seq<Node>, inclusion: Inclusion) {
    && IsSimpleCycle(graph, cycle) && InGraph(graph, inclusion)
    && cycle[|cycle| - 2] == inclusion.node && cycle[|cycle| - 1] == Target(graph, inclusion)
  }

  /** An order of the files of the graph, each once. */
  predicate OrderOf(graph: Graph, order: seq<Node>) {
    Distinct(order) && (forall j :: 0 <= j < |order| ==> order[j] in graph) && forall n :: n in graph ==> n in order
  }

  /** The file an include names does not come before the file it is in. */
  predicate NotBefore(graph: Graph, order: seq<Node>, inclusion: Inclusion)
    requires InGraph(graph, inclusion)
  {
    forall j :: 0 <= j < |order| && order[j] == inclusion.node ==> Target(graph, inclusion) !in order[..j]
  }

  /** Everything a file of the order includes comes before it, but for these includes. */
  predicate OrderedBut(graph: Graph, order: seq<Node>, but: seq<Inclusion>) {
    forall j :: 0 <= j < |order| ==> order[j] in graph && IncludesAmong(graph, order[j], order[..j], but)
  }

  predicate IncludesAmong(graph: Graph, node: Node, before: seq<Node>, but: seq<Inclusion>)
    requires node in graph
  {
    forall k :: 0 <= k < |graph[node]| && graph[node][k] in graph ==> graph[node][k] in before || Inclusion(node, k) in but
  }

  /** An order in which every file of the graph appears once, after all that it includes. */
  predicate Topological(graph: Graph, order: seq<Node>) {
    OrderOf(graph, order) && OrderedBut(graph, order, [])
  }

  /** The step of a walk is one of these includes. */
  predicate StepIsOneOf(graph: Graph, a: Node, b: Node, includes: seq<Inclusion>) {
    exists c :: 0 <= c < |includes| && InGraph(graph, includes[c]) && includes[c].node == a && Target(graph, includes[c]) == b
  }

  /** A graph that can be put in order but for some includes has no cycle without one of them. */
  lemma CyclesPass(graph: Graph, order: seq<Node>, but: seq<Inclusion>, cycle: seq<Node>)
    requires OrderOf(graph, order) && OrderedBut(graph, order, but) && IsCycle(graph, cycle)
    ensures exists i :: 0 <= i < |cycle| - 1 && StepIsOneOf(graph, cycle[i], cycle[i + 1], but)
  {
    if !exists i :: 0 <= i < |cycle| - 1 && StepIsOneOf(graph, cycle[i], cycle[i + 1], but) {
      assert Edge(graph, cycle[0], cycle[0 + 1]);
      var j :| 0 <= j < |order| && order[j] == cycle[0];
      WalkDescends(graph, order, but, cycle, |cycle| - 1, j);
      assert false;
    }
  }

  /** A walk that takes none of them ends before where it began. */
  lemma {:induction false} WalkDescends(graph: Graph, order: seq<Node>, but: seq<Inclusion>, walk: seq<Node>, i: nat, j: nat)
    requires OrderOf(graph, order) && OrderedBut(graph, order, but) && 0 < i < |walk| && j < |order| && order[j] == walk[0]
    requires forall k :: 0 <= k < |walk| - 1 ==> Edge(graph, walk[k], walk[k + 1])
    requires forall k :: 0 <= k < |walk| - 1 ==> !StepIsOneOf(graph, walk[k], walk[k + 1], but)
    ensures walk[i] in order[..j]
  {
    assert Edge(graph, walk[i - 1], walk[i - 1 + 1]) && !StepIsOneOf(graph, walk[i - 1], walk[i - 1 + 1], but);
    var at := j;
    if i > 1 {
      WalkDescends(graph, order, but, walk, i - 1, j);
      at :| 0 <= at < j && order[at] == walk[i - 1];
    }
    assert IncludesAmong(graph, order[at], order[..at], but);
    var k :| 0 <= k < |graph[walk[i - 1]]| && graph[walk[i - 1]][k] == walk[i];
    if Inclusion(walk[i - 1], k) in but {
      var c :| 0 <= c < |but| && but[c] == Inclusion(walk[i - 1], k);
      assert InGraph(graph, but[c]);
    }
  }

  /** A graph with a full such order has no cycle. */
  lemma OrderedHasNoCycle(graph: Graph, order: seq<Node>)
    requires Topological(graph, order)
    ensures !HasCycle(graph)
  {
    forall cycle | IsCycle(graph, cycle) ensures false {
      CyclesPass(graph, order, [], cycle);
    }
  }

  // ------------------------------------------------------------- the search, as a recursion

  /** What a search has come to: who is white, gray and black, what was reported, and for which include. */
  datatype Found = Found(color: map<Node, Color>, cycles: seq<seq<Node>>, finish: seq<Node>, closers: seq<Inclusion>)

  function Whites(color: map<Node, Color>): set<Node> {
    set n | n in color && color[n] == White
  }

  function Painted(color: map<Node, Color>, node: Node, shade: Color): (now: map<Node, Color>)
    requires node in color
    ensures now.Keys == color.Keys && (shade != White ==> Whites(now) <= Whites(color))
    ensures shade != White && color[node] == White ==> Whites(now) < Whites(color)
  {
    assert shade != White && color[node] == White ==> node in Whites(color) && node !in Whites(color[node := shade]);
    color[node := shade]
  }

  /** The path from where it first has the file, and the file again. */
  function CycleOn(path: seq<Node>, target: Node): seq<Node> {
    if target !in path then [] else if path[0] == target then path + [target] else CycleOn(path[1..], target)
  }

  /** From the last file of the path and its include `k` on: what it includes is searched in turn, and then it is done. */
  function Visit(graph: Graph, found: Found, path: seq<Node>, k: nat): (now: Found)
    requires found.color.Keys == graph.Keys && path != [] && path[|path| - 1] in graph && k <= |graph[path[|path| - 1]]|
    ensures now.color.Keys == graph.Keys && Whites(now.color) <= Whites(found.color)
    ensures found.cycles <= now.cycles && found.finish <= now.finish
    decreases Whites(found.color), |graph[path[|path| - 1]]| - k
  {
    var node := path[|path| - 1];
    if k == |graph[node]| then
      found.(color := Painted(found.color, node, Black), finish := found.finish + [node])
    else
      var target := graph[node][k];
      if target !in graph || found.color[target] == Black then Visit(graph, found, path, k + 1)
      else if found.color[target] == Gray then
        Visit(graph, found.(cycles := found.cycles + [CycleOn(path, target)], closers := found.closers + [Inclusion(node, k)]),
              path, k + 1)
      else
        Visit(graph, Visit(graph, found.(color := Painted(found.color, target, Gray)), path + [target], 0), path, k + 1)
  }

  /** The files tried one after another, those reached before passed over. */
  function Tried(graph: Graph, starts: seq<Node>): (now: Found)
    requires forall i :: 0 <= i < |starts| ==> starts[i] in graph
    ensures now.color.Keys == graph.Keys
  {
    if starts == [] then Found(map n | n in graph :: White, [], [], [])
    else
      var before, start := Tried(graph, starts[..|starts| - 1]), starts[|starts| - 1];
      if before.color[start] != White then before
      else Visit(graph, before.(color := Painted(before.color, start, Gray)), [start], 0)
  }

  /** Files tried later add to what was reported and done, behind it. */
  lemma {:induction false} TriedGrows(graph: Graph, starts: seq<Node>, i: nat)
    requires i <= |starts| && forall j :: 0 <= j < |starts| ==> starts[j] in graph
    ensures Tried(graph, starts[..i]).cycles <= Tried(graph, starts).cycles
    ensures Tried(graph, starts[..i]).finish <= Tried(graph, starts).finish
  {
    hide Visit, Painted;
    if i < |starts| {
      TriedGrows(graph, starts[..|starts| - 1], i);
      assert starts[..|starts| - 1][..i] == starts[..i];
    } else {
      assert starts[..i] == starts;
    }
  }

  // ------------------------------------------------------------- and with a stack

  predicate Shaped(graph: Graph, found: Found, stack: seq<Frame>, path: seq<Node>) {
    && found.color.Keys == graph.Keys && |stack| == |path|
    && forall i :: 0 <= i < |path| ==> path[i] in graph && stack[i].node == path[i] && stack[i].next <= |graph[path[i]]|
  }

  /** What is left to do of a stack, from the top down. */
  function Rest(graph: Graph, found: Found, stack: seq<Frame>, path: seq<Node>): Found
    requires Shaped(graph, found, stack, path)
    decreases |stack|
  {
    if stack == [] then found
    else Rest(graph, Visit(graph, found, path, stack[|stack| - 1].next), stack[..|stack| - 1], path[..|path| - 1])
  }

  /** The stack with the top's next include looked at. */
  function LookedAt(stack: seq<Frame>): seq<Frame>
    requires stack != []
  {
    stack[|stack| - 1 := Frame(stack[|stack| - 1].node, stack[|stack| - 1].next + 1)]
  }

  /** What looking at one include leaves to do: the recursion on it, whatever kind of include it is. */
  lemma RestLooks(graph: Graph, found: Found, stack: seq<Frame>, path: seq<Node>, now: Found)
    requires Shaped(graph, found, stack, path) && stack != [] && stack[|stack| - 1].next < |graph[path[|path| - 1]]|
    requires now.color.Keys == graph.Keys
    requires Visit(graph, found, path, stack[|stack| - 1].next) == Visit(graph, now, path, stack[|stack| - 1].next + 1)
    ensures Shaped(graph, now, LookedAt(stack), path)
    ensures Rest(graph, now, LookedAt(stack), path) == Rest(graph, found, stack, path)
  {
    hide Visit;
    assert LookedAt(stack)[..|stack| - 1] == stack[..|stack| - 1];
  }

  lemma VisitEnters(graph: Graph, found: Found, path: seq<Node>, k: nat)
    requires found.color.Keys == graph.Keys && path != [] && path[|path| - 1] in graph && k < |graph[path[|path| - 1]]|
    requires var target := graph[path[|path| - 1]][k]; target in graph && found.color[target] == White
    ensures var target := graph[path[|path| - 1]][k];
      var entered := Visit(graph, found.(color := Painted(found.color, target, Gray)), path + [target], 0);
      Visit(graph, found, path, k) == Visit(graph, entered, path, k + 1)
  {
  }

  /** A file put on top of the stack is searched, and then the rest of it. */
  lemma RestOfMore(graph: Graph, found: Found, stack: seq<Frame>, path: seq<Node>, target: Node)
    requires Shaped(graph, found, stack, path) && target in graph
    ensures Shaped(graph, found, stack + [Frame(target, 0)], path + [target])
    ensures Rest(graph, found, stack + [Frame(target, 0)], path + [target])
      == Rest(graph, Visit(graph, found, path + [target], 0), stack, path)
  {
    hide Visit;
    var more, longer := stack + [Frame(target, 0)], path + [target];
    assert more[..|more| - 1] == stack && longer[..|longer| - 1] == path;
  }

  lemma RestEnters(graph: Graph, found: Found, stack: seq<Frame>, path: seq<Node>, target: Node)
    requires Shaped(graph, found, stack, path) && stack != [] && stack[|stack| - 1].next < |graph[path[|path| - 1]]|
    requires graph[path[|path| - 1]][stack[|stack| - 1].next] == target && target in graph && found.color[target] == White
    ensures var inner := found.(color := Painted(found.color, target, Gray));
      && Shaped(graph, inner, LookedAt(stack) + [Frame(target, 0)], path + [target])
      && Rest(graph, inner, LookedAt(stack) + [Frame(target, 0)], path + [target]) == Rest(graph, found, stack, path)
  {
    hide Visit, Rest, Painted;
    var inner := found.(color := Painted(found.color, target, Gray));
    VisitEnters(graph, found, path, stack[|stack| - 1].next);
    RestLooks(graph, found, stack, path, Visit(graph, inner, path + [target], 0));
    assert Shaped(graph, inner, LookedAt(stack), path);
    RestOfMore(graph, inner, LookedAt(stack), path, target);
  }

  lemma RestLeaves(graph: Graph, found: Found, stack: seq<Frame>, path: seq<Node>)
    requires Shaped(graph, found, stack, path) && stack != [] && stack[|stack| - 1].next == |graph[path[|path| - 1]]|
    ensures Shaped(graph, Left(graph, found, path[|path| - 1]), stack[..|stack| - 1], path[..|path| - 1])
    ensures Rest(graph, Left(graph, found, path[|path| - 1]), stack[..|stack| - 1], path[..|path| - 1])
      == Rest(graph, found, stack, path)
  {
    hide Painted;
  }

  /** A file whose includes have all been looked at. */
  function Left(graph: Graph, found: Found, node: Node): Found
    requires node in found.color
  {
    found.(color := Painted(found.color, node, Black), finish := found.finish + [node])
  }

  /** An include of a file still being searched. */
  function Reported(found: Found, path: seq<Node>, inclusion: Inclusion, target: Node): Found {
    found.(cycles := found.cycles + [CycleOn(path, target)], closers := found.closers + [inclusion])
  }

  // ------------------------------------------------------------- what the search knows

  /** The stack is the path of gray files, each included by the one below it. */
  predicate Stacked(graph: Graph, color: map<Node, Color>, stack: seq<Frame>, path: seq<Node>) {
    && color.Keys == graph.Keys && |stack| == |path| && Distinct(path)
    && (forall i :: 0 <= i < |path| ==> path[i] in graph && stack[i].node == path[i] && stack[i].next <= |graph[path[i]]|)
    && (forall i :: 0 <= i < |path| - 1 ==> stack[i].next > 0 && graph[path[i]][stack[i].next - 1] == path[i + 1])
    && (forall n :: n in graph ==> (color[n] == Gray <==> n in path))
  }

  /** The files searched through are the black ones. */
  predicate Finished(graph: Graph, color: map<Node, Color>, finish: seq<Node>)
    requires color.Keys == graph.Keys
  {
    Distinct(finish) && (forall j :: 0 <= j < |finish| ==> finish[j] in graph) && forall n :: n in graph ==> (n in finish <==> color[n] == Black)
  }

  /** Those of one file come in its order, each once. */
  predicate InFileOrder(closers: seq<Inclusion>) {
    forall c, d :: 0 <= c < d < |closers| && closers[c].node == closers[d].node ==> closers[c].index < closers[d].index
  }

  /** Each report is of an include of its own, in the order of its file, and is a simple cycle that the include closes. */
  predicate EachCloses(graph: Graph, cycles: seq<seq<Node>>, closers: seq<Inclusion>) {
    && |closers| == |cycles| && InFileOrder(closers)
    && forall c :: 0 <= c < |cycles| ==> Closes(graph, cycles[c], closers[c])
  }

  /** An include looked at is done with, or is being searched just above, or is reported. */
  predicate Accounted(graph: Graph, stack: seq<Frame>, path: seq<Node>, finish: seq<Node>, closers: seq<Inclusion>)
    requires |stack| == |path|
    requires forall i :: 0 <= i < |path| ==> path[i] in graph && stack[i].next <= |graph[path[i]]|
  {
    && OrderedBut(graph, finish, closers)
    && forall i, k :: 0 <= i < |path| && 0 <= k < stack[i].next && graph[path[i]][k] in graph ==>
         graph[path[i]][k] in finish || (i + 1 < |path| && k == stack[i].next - 1) || Inclusion(path[i], k) in closers
  }

  /** An include looked at, of a file on the path, that names a file no further along it. */
  predicate Below(graph: Graph, stack: seq<Frame>, path: seq<Node>, closer: Inclusion, i: nat)
    requires |stack| == |path| && i < |path| && InGraph(graph, closer)
  {
    path[i] == closer.node && closer.index < stack[i].next && Target(graph, closer) in path[..i + 1]
  }

  /** An include reported is one looked at, and names a file that is not done before its own. */
  predicate LooksBack(graph: Graph, stack: seq<Frame>, path: seq<Node>, finish: seq<Node>, closer: Inclusion)
    requires |stack| == |path|
  {
    && InGraph(graph, closer) && NotBefore(graph, finish, closer)
    && (closer.node in finish || exists i :: 0 <= i < |path| && Below(graph, stack, path, closer, i))
  }

  predicate AllLookBack(graph: Graph, stack: seq<Frame>, path: seq<Node>, finish: seq<Node>, closers: seq<Inclusion>)
    requires |stack| == |path|
  {
    forall c :: 0 <= c < |closers| ==> LooksBack(graph, stack, path, finish, closers[c])
  }

  /** What holds whenever an include has been looked at, a file entered or left. */
  predicate Searching(graph: Graph, found: Found, stack: seq<Frame>, path: seq<Node>) {
    && Stacked(graph, found.color, stack, path) && Finished(graph, found.color, found.finish)
    && EachCloses(graph, found.cycles, found.closers)
    && Accounted(graph, stack, path, found.finish, found.closers)
    && AllLookBack(graph, stack, path, found.finish, found.closers)
  }

  /** What a search in order will have come to. */
  function Outcome(graph: Graph, found: Found, stack: seq<Frame>, path: seq<Node>): Option<Found> {
    if Searching(graph, found, stack, path) then Some(Rest(graph, found, stack, path)) else None
  }

  lemma InOrder(graph: Graph, found: Found, stack: seq<Frame>, path: seq<Node>)
    requires Outcome(graph, found, stack, path).Some?
    ensures Stacked(graph, found.color, stack, path) && Finished(graph, found.color, found.finish)
    ensures EachCloses(graph, found.cycles, found.closers) && Accounted(graph, stack, path, found.finish, found.closers)
    ensures AllLookBack(graph, stack, path, found.finish, found.closers)
    ensures Shaped(graph, found, stack, path) && Outcome(graph, found, stack, path) == Some(Rest(graph, found, stack, path))
  {
    hide Finished, EachCloses, Accounted, AllLookBack, Rest;
  }

  /** What was reported stays so while more includes are looked at and more files searched. */
  lemma StillBack(graph: Graph, stack: seq<Frame>, path: seq<Node>, finish: seq<Node>, closer: Inclusion,
                  more: seq<Frame>, longer: seq<Node>)
    requires |stack| == |path| <= |longer| == |more| && path == longer[..|path|]
    requires LooksBack(graph, stack, path, finish, closer)
    requires forall i :: 0 <= i < |stack| ==> stack[i].next <= more[i].next
    ensures LooksBack(graph, more, longer, finish, closer)
  {
    hide NotBefore, InGraph;
    if closer.node !in finish {
      var i :| 0 <= i < |path| && Below(graph, stack, path, closer, i);
      assert path[..i + 1] == longer[..i + 1];
      assert Below(graph, more, longer, closer, i);
    }
  }

  lemma AllStillBack(graph: Graph, stack: seq<Frame>, path: seq<Node>, finish: seq<Node>, closers: seq<Inclusion>,
                     more: seq<Frame>, longer: seq<Node>)
    requires |stack| == |path| <= |longer| == |more| && path == longer[..|path|]
    requires forall i :: 0 <= i < |stack| ==> stack[i].next <= more[i].next
    requires AllLookBack(graph, stack, path, finish, closers)
    ensures AllLookBack(graph, more, longer, finish, closers)
  {
    hide LooksBack;
    forall c | 0 <= c < |closers| ensures LooksBack(graph, more, longer, finish, closers[c]) {
      StillBack(graph, stack, path, finish, closers[c], more, longer);
    }
  }

  /** The next include of the file on top. */
  predicate Next(graph: Graph, stack: seq<Frame>, target: Node) {
    stack != [] && var top := stack[|stack| - 1];
    top.node in graph && top.next < |graph[top.node]| && graph[top.node][top.next] == target
  }

  lemma StackedLooks(graph: Graph, color: map<Node, Color>, stack: seq<Frame>, path: seq<Node>)
    requires Stacked(graph, color, stack, path) && stack != []
    requires stack[|stack| - 1].next < |graph[stack[|stack| - 1].node]|
    ensures Stacked(graph, color, LookedAt(stack), path)
  {
  }

  lemma StackedStarts(graph: Graph, color: map<Node, Color>, start: Node)
    requires Stacked(graph, color, [], []) && start in graph
    ensures Stacked(graph, Painted(color, start, Gray), [Frame(start, 0)], [start])
  {
  }

  lemma StackedEnters(graph: Graph, color: map<Node, Color>, stack: seq<Frame>, path: seq<Node>, target: Node)
    requires Stacked(graph, color, stack, path) && target in graph && color[target] == White && stack != []
    requires stack[|stack| - 1].next > 0 && graph[path[|path| - 1]][stack[|stack| - 1].next - 1] == target
    ensures Stacked(graph, Painted(color, target, Gray), stack + [Frame(target, 0)], path + [target])
  {
  }

  lemma StackedLeaves(graph: Graph, color: map<Node, Color>, stack: seq<Frame>, path: seq<Node>)
    requires Stacked(graph, color, stack, path) && stack != []
    ensures Stacked(graph, Painted(color, path[|path| - 1], Black), stack[..|stack| - 1], path[..|path| - 1])
  {
  }

  lemma FinishedEnters(graph: Graph, color: map<Node, Color>, finish: seq<Node>, target: Node)
    requires color.Keys == graph.Keys && Finished(graph, color, finish) && target in graph && color[target] == White
    ensures Finished(graph, Painted(color, target, Gray), finish)
  {
  }

  lemma FinishedLeaves(graph: Graph, color: map<Node, Color>, finish: seq<Node>, node: Node)
    requires color.Keys == graph.Keys && Finished(graph, color, finish) && node in graph && color[node] == Gray
    ensures Finished(graph, Painted(color, node, Black), finish + [node])
  {
  }

  lemma AccountedPasses(graph: Graph, stack: seq<Frame>, path: seq<Node>, finish: seq<Node>, closers: seq<Inclusion>, target: Node)
    requires |stack| == |path|
    requires forall i :: 0 <= i < |path| ==> path[i] in graph && stack[i].node == path[i] && stack[i].next <= |graph[path[i]]|
    requires Next(graph, stack, target) && (target in graph ==> target in finish)
    requires Accounted(graph, stack, path, finish, closers)
    ensures Accounted(graph, LookedAt(stack), path, finish, closers)
  {
    hide OrderedBut;
  }

  lemma AccountedReports(graph: Graph, stack: seq<Frame>, path: seq<Node>, finish: seq<Node>, closers: seq<Inclusion>, target: Node)
    requires |stack| == |path|
    requires forall i :: 0 <= i < |path| ==> path[i] in graph && stack[i].node == path[i] && stack[i].next <= |graph[path[i]]|
    requires Next(graph, stack, target)
    requires Accounted(graph, stack, path, finish, closers)
    ensures Accounted(graph, LookedAt(stack), path, finish, closers + [Inclusion(stack[|stack| - 1].node, stack[|stack| - 1].next)])
  {
    OrderedButMore(graph, finish, closers, Inclusion(stack[|stack| - 1].node, stack[|stack| - 1].next));
    hide OrderedBut;
  }

  lemma AccountedStarts(graph: Graph, finish: seq<Node>, closers: seq<Inclusion>, start: Node)
    requires start in graph && Accounted(graph, [], [], finish, closers)
    ensures Accounted(graph, [Frame(start, 0)], [start], finish, closers)
  {
    hide OrderedBut;
  }

  lemma AccountedEnters(graph: Graph, stack: seq<Frame>, path: seq<Node>, finish: seq<Node>, closers: seq<Inclusion>, target: Node)
    requires |stack| == |path| && target in graph
    requires forall i :: 0 <= i < |path| ==> path[i] in graph && stack[i].node == path[i] && stack[i].next <= |graph[path[i]]|
    requires Next(graph, stack, target) && Accounted(graph, stack, path, finish, closers)
    ensures Accounted(graph, LookedAt(stack) + [Frame(target, 0)], path + [target], finish, closers)
  {
    hide OrderedBut;
  }

  lemma AccountedLeaves(graph: Graph, stack: seq<Frame>, path: seq<Node>, finish: seq<Node>, closers: seq<Inclusion>)
    requires |stack| == |path| && stack != []
    requires forall i :: 0 <= i < |path| ==> path[i] in graph && stack[i].node == path[i] && stack[i].next <= |graph[path[i]]|
    requires forall i :: 0 <= i < |path| - 1 ==> stack[i].next > 0 && graph[path[i]][stack[i].next - 1] == path[i + 1]
    requires stack[|stack| - 1].next == |graph[path[|path| - 1]]| && Accounted(graph, stack, path, finish, closers)
    ensures Accounted(graph, stack[..|stack| - 1], path[..|path| - 1], finish + [path[|path| - 1]], closers)
  {
    OrderedMore(graph, finish, closers, path[|path| - 1]);
    hide OrderedBut;
  }

  /** A file not searched yet, with nothing on the stack. */
  lemma Starting(graph: Graph, found: Found, start: Node)
    requires Outcome(graph, found, [], []).Some? && start in found.color && found.color[start] == White
    ensures Outcome(graph, found.(color := Painted(found.color, start, Gray)), [Frame(start, 0)], [start])
      == Some(Visit(graph, found.(color := Painted(found.color, start, Gray)), [start], 0))
  {
    InOrder(graph, found, [], []);
    var now := found.(color := Painted(found.color, start, Gray));
    hide Stacked, Finished, EachCloses, Accounted, AllLookBack, Rest, Visit, Painted;
    StackedStarts(graph, found.color, start);
    FinishedEnters(graph, found.color, found.finish, start);
    AccountedStarts(graph, found.finish, found.closers, start);
    AllStillBack(graph, [], [], found.finish, found.closers, [Frame(start, 0)], [start]);
    RestOfOne(graph, now, start);
  }

  /** An include of a file done, or of none of the graph. */
  lemma Passing(graph: Graph, found: Found, stack: seq<Frame>, path: seq<Node>, target: Node)
    requires Outcome(graph, found, stack, path).Some? && Next(graph, stack, target)
    requires target in graph ==> target in found.color && found.color[target] == Black
    ensures Outcome(graph, found, LookedAt(stack), path) == Outcome(graph, found, stack, path)
  {
    InOrder(graph, found, stack, path);
    BlackIsDone(graph, found.color, found.finish, target);
    StackedLooks(graph, found.color, stack, path);
    AccountedPasses(graph, stack, path, found.finish, found.closers, target);
    AllStillBack(graph, stack, path, found.finish, found.closers, LookedAt(stack), path);
    VisitPasses(graph, found, path, stack[|stack| - 1].next);
    hide Stacked, Finished, EachCloses, Accounted, AllLookBack, Rest, Visit;
    RestLooks(graph, found, stack, path, found);
  }

  lemma BlackIsDone(graph: Graph, color: map<Node, Color>, finish: seq<Node>, target: Node)
    requires color.Keys == graph.Keys && Finished(graph, color, finish)
    ensures target in graph && color[target] == Black ==> target in finish
  {
  }

  lemma VisitPasses(graph: Graph, found: Found, path: seq<Node>, k: nat)
    requires found.color.Keys == graph.Keys && path != [] && path[|path| - 1] in graph && k < |graph[path[|path| - 1]]|
    requires graph[path[|path| - 1]][k] in graph ==> found.color[graph[path[|path| - 1]][k]] == Black
    ensures Visit(graph, found, path, k) == Visit(graph, found, path, k + 1)
  {
  }

  /** A gray target closes a simple cycle, and is reported for the include that names it. */
  lemma Reporting(graph: Graph, found: Found, stack: seq<Frame>, path: seq<Node>, target: Node)
    requires Outcome(graph, found, stack, path).Some? && Next(graph, stack, target)
    requires target in graph && target in found.color && found.color[target] == Gray
    ensures var top := stack[|stack| - 1]; var one := Inclusion(top.node, top.next);
      && Closes(graph, CycleOn(path, target), one)
      && Outcome(graph, Reported(found, path, one, target), LookedAt(stack), path) == Outcome(graph, found, stack, path)
  {
    InOrder(graph, found, stack, path);
    var top := stack[|stack| - 1];
    var one := Inclusion(top.node, top.next);
    var now := Reported(found, path, one, target);
    StackedLooks(graph, found.color, stack, path);
    GrayIsOnPath(graph, found.color, found.finish, stack, path, target);
    hide Stacked;
    PathCloses(graph, found.color, stack, path, target);
    NotYetReported(graph, found, stack, path, one);
    GrayIsBack(graph, found, stack, path, one);
    OneMoreCloses(graph, found.cycles, found.closers, CycleOn(path, target), one);
    AccountedReports(graph, stack, path, found.finish, found.closers, target);
    AllStillBack(graph, stack, path, found.finish, found.closers, LookedAt(stack), path);
    OneMoreBack(graph, LookedAt(stack), path, found.finish, found.closers, one);
    VisitReports(graph, found, path, top.next);
    hide Finished, EachCloses, Accounted, AllLookBack, Rest, Visit, CycleOn, Closes;
    RestLooks(graph, found, stack, path, now);
  }

  lemma GrayIsOnPath(graph: Graph, color: map<Node, Color>, finish: seq<Node>, stack: seq<Frame>, path: seq<Node>, target: Node)
    requires Stacked(graph, color, stack, path) && Finished(graph, color, finish) && target in graph && color[target] == Gray
    ensures target in path && target !in finish
  {
  }

  lemma VisitReports(graph: Graph, found: Found, path: seq<Node>, k: nat)
    requires found.color.Keys == graph.Keys && path != [] && path[|path| - 1] in graph && k < |graph[path[|path| - 1]]|
    requires var target := graph[path[|path| - 1]][k]; target in graph && found.color[target] == Gray
    ensures var node := path[|path| - 1];
      Visit(graph, found, path, k) == Visit(graph, Reported(found, path, Inclusion(node, k), graph[node][k]), path, k + 1)
  {
  }

  lemma OneMoreCloses(graph: Graph, cycles: seq<seq<Node>>, closers: seq<Inclusion>, cycle: seq<Node>, one: Inclusion)
    requires EachCloses(graph, cycles, closers) && Closes(graph, cycle, one)
    requires forall c :: 0 <= c < |closers| && closers[c].node == one.node ==> closers[c].index < one.index
    ensures EachCloses(graph, cycles + [cycle], closers + [one])
  {
    hide Closes;
  }

  lemma OneMoreBack(graph: Graph, stack: seq<Frame>, path: seq<Node>, finish: seq<Node>, closers: seq<Inclusion>, one: Inclusion)
    requires |stack| == |path| && AllLookBack(graph, stack, path, finish, closers) && LooksBack(graph, stack, path, finish, one)
    ensures AllLookBack(graph, stack, path, finish, closers + [one])
  {
    hide LooksBack;
  }

  lemma PathCloses(graph: Graph, color: map<Node, Color>, stack: seq<Frame>, path: seq<Node>, target: Node)
    requires Stacked(graph, color, stack, path) && stack != []
    requires var top := stack[|stack| - 1];
      top.next < |graph[top.node]| && graph[top.node][top.next] == target && target in path
    ensures var top := stack[|stack| - 1]; Closes(graph, CycleOn(path, target), Inclusion(top.node, top.next))
  {
    hide CycleOn, Closes;
    var at := CycleFound(path, target);
    PathClosesAt(graph, color, stack, path, at);
  }

  lemma PathClosesAt(graph: Graph, color: map<Node, Color>, stack: seq<Frame>, path: seq<Node>, at: nat)
    requires Stacked(graph, color, stack, path) && stack != []
    requires var top := stack[|stack| - 1]; top.next < |graph[top.node]| && at < |path| && graph[top.node][top.next] == path[at]
    ensures var top := stack[|stack| - 1]; Closes(graph, path[at..] + [path[at]], Inclusion(top.node, top.next))
  {
    var cycle := path[at..] + [path[at]];
    assert cycle[..|cycle| - 1] == path[at..];
    forall i | 0 <= i < |cycle| - 1 ensures Edge(graph, cycle[i], cycle[i + 1]) {
      assert cycle[i] == path[at + i];
    }
    assert cycle[|cycle| - 2] == path[|path| - 1];
  }

  /** The cycle is the path from the file's first place on it, and the file. */
  lemma {:induction false} CycleFound(path: seq<Node>, target: Node) returns (at: nat)
    requires target in path
    ensures at < |path| && path[at] == target && target !in path[..at] && CycleOn(path, target) == path[at..] + [target]
    decreases |path|
  {
    if path[0] == target {
      at := 0;
    } else {
      var rest := CycleFound(path[1..], target);
      at := rest + 1;
      assert path[1..][..rest] == path[1..at] && path[..at] == [path[0]] + path[1..at];
    }
  }

  /** What is looked at next has not been reported, nor has anything behind it in its file. */
  lemma NotYetReported(graph: Graph, found: Found, stack: seq<Frame>, path: seq<Node>, one: Inclusion)
    requires |stack| == |path| && stack != [] && one == Inclusion(path[|path| - 1], stack[|stack| - 1].next) && Distinct(path)
    requires one.node !in found.finish && AllLookBack(graph, stack, path, found.finish, found.closers)
    ensures forall c :: 0 <= c < |found.closers| && found.closers[c].node == one.node ==> found.closers[c].index < one.index
  {
    hide NotBefore, InGraph;
  }

  lemma GrayIsBack(graph: Graph, found: Found, stack: seq<Frame>, path: seq<Node>, one: Inclusion)
    requires |stack| == |path| && stack != [] && one == Inclusion(path[|path| - 1], stack[|stack| - 1].next)
    requires InGraph(graph, one) && Target(graph, one) in path && Target(graph, one) !in found.finish
    ensures LooksBack(graph, LookedAt(stack), path, found.finish, one)
  {
    assert path[..|path| - 1 + 1] == path;
    assert Below(graph, LookedAt(stack), path, one, |path| - 1);
  }

  lemma OrderedButMore(graph: Graph, order: seq<Node>, but: seq<Inclusion>, one: Inclusion)
    requires OrderedBut(graph, order, but)
    ensures OrderedBut(graph, order, but + [one])
  {
    forall j | 0 <= j < |order| ensures order[j] in graph && IncludesAmong(graph, order[j], order[..j], but + [one]) {
      assert IncludesAmong(graph, order[j], order[..j], but);
    }
  }

  /** A white target is searched next. */
  lemma Advancing(graph: Graph, found: Found, stack: seq<Frame>, path: seq<Node>, target: Node)
    requires Outcome(graph, found, stack, path).Some? && Next(graph, stack, target)
    requires target in graph && target in found.color && found.color[target] == White
    ensures Outcome(graph, found.(color := Painted(found.color, target, Gray)), LookedAt(stack) + [Frame(target, 0)], path + [target])
      == Outcome(graph, found, stack, path)
  {
    InOrder(graph, found, stack, path);
    StackedLooks(graph, found.color, stack, path);
    StackedEnters(graph, found.color, LookedAt(stack), path, target);
    FinishedEnters(graph, found.color, found.finish, target);
    AccountedEnters(graph, stack, path, found.finish, found.closers, target);
    AllStillBack(graph, stack, path, found.finish, found.closers, LookedAt(stack) + [Frame(target, 0)], path + [target]);
    hide Stacked, Finished, EachCloses, Accounted, AllLookBack, Rest, Visit, Painted;
    RestEnters(graph, found, stack, path, target);
  }

  /** A file whose includes are all looked at is done, behind everything it includes but what was reported. */
  lemma Finishing(graph: Graph, found: Found, stack: seq<Frame>, path: seq<Node>)
    requires Outcome(graph, found, stack, path).Some? && stack != [] && |stack| == |path|
    requires path[|path| - 1] in graph && path[|path| - 1] in found.color
    requires stack[|stack| - 1].next == |graph[path[|path| - 1]]|
    ensures Outcome(graph, Left(graph, found, path[|path| - 1]), stack[..|stack| - 1], path[..|path| - 1])
      == Outcome(graph, found, stack, path)
  {
    InOrder(graph, found, stack, path);
    var node := path[|path| - 1];
    StackedLeaves(graph, found.color, stack, path);
    FinishedLeaves(graph, found.color, found.finish, node);
    AccountedLeaves(graph, stack, path, found.finish, found.closers);
    PathIsNotDone(graph, found.color, found.finish, stack, path);
    StillBackLeft(graph, stack, path, found.finish, found.closers);
    hide Stacked, Finished, EachCloses, Accounted, AllLookBack, Rest, Visit, Painted;
    RestLeaves(graph, found, stack, path);
  }

  lemma PathIsNotDone(graph: Graph, color: map<Node, Color>, finish: seq<Node>, stack: seq<Frame>, path: seq<Node>)
    requires Stacked(graph, color, stack, path) && Finished(graph, color, finish)
    ensures forall n :: n in path ==> n !in finish
  {
  }

  lemma OrderedMore(graph: Graph, order: seq<Node>, but: seq<Inclusion>, node: Node)
    requires OrderedBut(graph, order, but) && node in graph && IncludesAmong(graph, node, order, but)
    ensures OrderedBut(graph, order + [node], but)
  {
    hide IncludesAmong;
    var more := order + [node];
    forall j | 0 <= j < |more| ensures more[j] in graph && IncludesAmong(graph, more[j], more[..j], but) {
      assert more[..j] == order[..j];
    }
  }

  lemma StillBackLeft(graph: Graph, stack: seq<Frame>, path: seq<Node>, finish: seq<Node>, closers: seq<Inclusion>)
    requires |stack| == |path| && stack != [] && (forall n :: n in path ==> n !in finish)
    requires AllLookBack(graph, stack, path, finish, closers)
    ensures AllLookBack(graph, stack[..|stack| - 1], path[..|path| - 1], finish + [path[|path| - 1]], closers)
  {
    hide LooksBack;
    forall c | 0 <= c < |closers|
      ensures LooksBack(graph, stack[..|stack| - 1], path[..|path| - 1], finish + [path[|path| - 1]], closers[c])
    {
      OneStillBack(graph, stack, path, finish, closers[c]);
    }
  }

  lemma OneStillBack(graph: Graph, stack: seq<Frame>, path: seq<Node>, finish: seq<Node>, closer: Inclusion)
    requires |stack| == |path| && stack != [] && (forall n :: n in path ==> n !in finish)
    requires LooksBack(graph, stack, path, finish, closer)
    ensures LooksBack(graph, stack[..|stack| - 1], path[..|path| - 1], finish + [path[|path| - 1]], closer)
  {
    hide NotBefore, InGraph;
    var node := path[|path| - 1];
    if closer.node in finish {
      NotBeforeMore(graph, finish, node, closer);
    } else {
      var i :| 0 <= i < |path| && Below(graph, stack, path, closer, i);
      assert Target(graph, closer) in path;
      NotBeforeMore(graph, finish, node, closer);
      if i < |path| - 1 {
        assert path[..|path| - 1][..i + 1] == path[..i + 1];
        assert Below(graph, stack[..|stack| - 1], path[..|path| - 1], closer, i);
      }
    }
  }

  lemma NotBeforeMore(graph: Graph, order: seq<Node>, node: Node, closer: Inclusion)
    requires InGraph(graph, closer) && NotBefore(graph, order, closer)
    requires node != closer.node || Target(graph, closer) !in order
    ensures NotBefore(graph, order + [node], closer)
  {
    var more := order + [node];
    forall j | 0 <= j < |more| && more[j] == closer.node ensures Target(graph, closer) !in more[..j] {
      assert more[..j] == order[..j];
    }
  }

  // ------------------------------------------------------------- the loops

  /** A cycle as it is found: from the gray file included, down the path, and back to it. */
  method CycleFrom(path: seq<Node>, target: Node) returns (cycle: seq<Node>)
    requires target in path
    ensures cycle == CycleOn(path, target)
  {
    var index: nat := 0;
    while path[index] != target
      invariant index < |path| && target in path[index..] && CycleOn(path, target) == CycleOn(path[index..], target)
      decreases |path| - index
    {
      assert path[index..][1..] == path[index + 1..];
      index := index + 1;
    }
    return path[index..] + [target];
  }

  /** The last step of a cycle. */
  predicate EndsBy(cycle: seq<Node>, a: Node, b: Node) {
    |cycle| >= 2 && cycle[|cycle| - 2] == a && cycle[|cycle| - 1] == b
  }

  /** The cycle takes the step that closes one of these. */
  ghost predicate Met(cycle: seq<Node>, cycles: seq<seq<Node>>) {
    exists r, i :: 0 <= r < |cycles| && 0 <= i < |cycle| - 1 && EndsBy(cycles[r], cycle[i], cycle[i + 1])
  }

  lemma AtFirst(graph: Graph, starts: seq<Node>)
    requires forall j :: 0 <= j < |starts| ==> starts[j] in graph
    ensures Outcome(graph, Tried(graph, []), [], []) == Some(Tried(graph, [])) && TriedTo(graph, starts, 0) == Tried(graph, [])
    ensures Tried(graph, []) == Found(map n | n in graph :: White, [], [], [])
  {
  }

  /** What the search knows when it is over. */
  lemma AtLast(graph: Graph, found: Found)
    requires Outcome(graph, found, [], []).Some? && forall n :: n in graph ==> n in found.finish
    ensures EachCloses(graph, found.cycles, found.closers) && OrderOf(graph, found.finish)
    ensures forall one :: InGraph(graph, one) ==> (one in found.closers <==> NotBefore(graph, found.finish, one))
    ensures forall cycle :: IsCycle(graph, cycle) ==> Met(cycle, found.cycles)
    ensures found.cycles != [] <==> HasCycle(graph)
    ensures found.cycles == [] ==> Topological(graph, found.finish)
  {
    forall one | InGraph(graph, one) ensures one in found.closers <==> NotBefore(graph, found.finish, one) {
      ReportedExactly(graph, found, one);
    }
    forall cycle | IsCycle(graph, cycle) ensures Met(cycle, found.cycles) {
      CycleIsMet(graph, found, cycle);
    }
    if found.cycles != [] {
      assert Closes(graph, found.cycles[0], found.closers[0]);
      assert IsCycle(graph, found.cycles[0]);
    }
    assert found.cycles == [] ==> found.closers == [];
  }

  lemma ReportedExactly(graph: Graph, found: Found, one: Inclusion)
    requires Searching(graph, found, [], []) && (forall n :: n in graph ==> n in found.finish) && InGraph(graph, one)
    ensures one in found.closers <==> NotBefore(graph, found.finish, one)
  {
    hide EachCloses;
    var j :| 0 <= j < |found.finish| && found.finish[j] == one.node;
    assert IncludesAmong(graph, found.finish[j], found.finish[..j], found.closers);
    if one in found.closers {
      var c :| 0 <= c < |found.closers| && found.closers[c] == one;
      assert LooksBack(graph, [], [], found.finish, found.closers[c]);
    }
  }

  lemma CycleIsMet(graph: Graph, found: Found, cycle: seq<Node>)
    requires Searching(graph, found, [], []) && (forall n :: n in graph ==> n in found.finish) && IsCycle(graph, cycle)
    ensures Met(cycle, found.cycles)
  {
    CyclesPass(graph, found.finish, found.closers, cycle);
    hide OrderedBut, LooksBack, Accounted, Stacked, Finished, IsCycle;
    var i :| 0 <= i < |cycle| - 1 && StepIsOneOf(graph, cycle[i], cycle[i + 1], found.closers);
    var c :| 0 <= c < |found.closers| && InGraph(graph, found.closers[c]) && found.closers[c].node == cycle[i]
      && Target(graph, found.closers[c]) == cycle[i + 1];
    assert Closes(graph, found.cycles[c], found.closers[c]);
    assert EndsBy(found.cycles[c], cycle[i], cycle[i + 1]);
  }

  /** What the search knows about the top of its stack. */
  lemma AtTop(graph: Graph, found: Found, stack: seq<Frame>, path: seq<Node>)
    requires Outcome(graph, found, stack, path).Some?
    ensures |stack| == |path| && found.color.Keys == graph.Keys
    ensures stack != [] ==> var top := stack[|stack| - 1];
      top.node == path[|path| - 1] && top.node in graph && top.next <= |graph[top.node]| && found.color[top.node] == Gray
    ensures forall n :: n in graph ==> (found.color[n] == Gray <==> n in path) && (found.color[n] == Black <==> n in found.finish)
  {
    InOrder(graph, found, stack, path);
    hide EachCloses, Accounted, AllLookBack, Outcome;
  }

  /**
   The search. `starts` are the files of the graph in the order they are tried. It ends on every graph. It reports what
   the recursion does, in its order: one simple cycle for each include that names a file not done before its own, and
   for no other; so every cycle of the graph takes a step that closes one of those reported, some are reported
   exactly if there is a cycle, and if none is, the order in which files are done puts each after all that it includes.
   */
  method FindCycles(graph: Graph, starts: seq<Node>) returns (cycles: seq<seq<Node>>, ghost found: Found)
    requires forall n :: n in graph <==> n in starts
    ensures found == Tried(graph, starts) && cycles == found.cycles
    ensures EachCloses(graph, cycles, found.closers) && OrderOf(graph, found.finish)
    ensures forall one :: InGraph(graph, one) ==> (one in found.closers <==> NotBefore(graph, found.finish, one))
    ensures forall cycle :: IsCycle(graph, cycle) ==> Met(cycle, cycles)
    ensures cycles != [] <==> HasCycle(graph)
    ensures cycles == [] ==> Topological(graph, found.finish)
  {
    hide Outcome, Tried, HasCycle, EachCloses, OrderOf, Topological, Met, IsCycle, NotBefore, InGraph;
    cycles, found := Search(graph, starts);
    AtLast(graph, found);
  }

  /** The files tried in turn. */
  method Search(graph: Graph, starts: seq<Node>) returns (cycles: seq<seq<Node>>, ghost found: Found)
    requires forall n :: n in graph <==> n in starts
    ensures found == Tried(graph, starts) && cycles == found.cycles
    ensures Outcome(graph, found, [], []) == Some(found) && forall n :: n in graph ==> n in found.finish
  {
    var color: map<Node, Color> := map n | n in graph :: White;
    hide *;
    cycles, found := [], Tried(graph, []);
    AtFirst(graph, starts);
    for i := 0 to |starts|
      invariant Outcome(graph, found, [], []) == Some(found) && color == found.color && cycles == found.cycles
      invariant found == TriedTo(graph, starts, i)
      invariant forall j :: 0 <= j < i ==> starts[j] in found.finish
    {
      var start := starts[i];
      TriedMore(graph, starts, i);
      AtTop(graph, found, [], []);
      if color[start] != White { continue; }
      Starting(graph, found, start);
      PaintedIs(color, start, Gray);
      ghost var done := found.finish;
      color, cycles, found := SearchFrom(graph, color[start := Gray], start, cycles, found.(color := Painted(color, start, Gray)));
      assert forall j :: 0 <= j < i ==> starts[j] in done;
    }
    TriedAll(graph, starts);
  }

  /** The first so many of the files tried. */
  ghost function TriedTo(graph: Graph, starts: seq<Node>, i: nat): (now: Found)
    requires i <= |starts| && forall j :: 0 <= j < |starts| ==> starts[j] in graph
    ensures now.color.Keys == graph.Keys
  {
    Tried(graph, starts[..i])
  }

  lemma TriedAll(graph: Graph, starts: seq<Node>)
    requires forall j :: 0 <= j < |starts| ==> starts[j] in graph
    ensures TriedTo(graph, starts, |starts|) == Tried(graph, starts)
  {
    assert starts[..|starts|] == starts;
  }

  lemma TriedMore(graph: Graph, starts: seq<Node>, i: nat)
    requires i < |starts| && forall j :: 0 <= j < |starts| ==> starts[j] in graph
    ensures var before, start := TriedTo(graph, starts, i), starts[i];
      TriedTo(graph, starts, i + 1) == if before.color[start] != White then before
        else Visit(graph, before.(color := Painted(before.color, start, Gray)), [start], 0)
  {
    hide Visit, Painted;
    assert starts[..i + 1][..i] == starts[..i];
  }

  /** Everything that can be reached from one file and has not been searched yet. */
  method SearchFrom(graph: Graph, before: map<Node, Color>, start: Node, reported: seq<seq<Node>>, ghost at: Found)
    returns (color: map<Node, Color>, cycles: seq<seq<Node>>, ghost found: Found)
    requires before == at.color && reported == at.cycles && Outcome(graph, at, [Frame(start, 0)], [start]).Some?
    ensures color == found.color && cycles == found.cycles && Outcome(graph, found, [], []) == Some(found)
    ensures Outcome(graph, found, [], []) == Outcome(graph, at, [Frame(start, 0)], [start])
    ensures start in found.finish && at.finish <= found.finish
  {
    color, cycles, found := before, reported, at;
    var stack, path := [Frame(start, 0)], [start];
    hide Outcome, Whites, Painted;
    while stack != []
      invariant Outcome(graph, found, stack, path) == Outcome(graph, at, [Frame(start, 0)], [start])
      invariant color == found.color && cycles == found.cycles && at.finish <= found.finish && |stack| == |path|
      invariant start in found.finish || (path != [] && path[0] == start)
      decreases Whites(color), |stack|
    {
      var advanced;
      color, stack, path, cycles, advanced, found := LookOn(graph, color, stack, path, cycles, found);
      if !advanced {
        AtTop(graph, found, stack, path);
        Finishing(graph, found, stack, path);
        var node := stack[|stack| - 1].node;
        BlackIsNotWhite(color, node);
        found := Left(graph, found, node);
        color := color[node := Black];
        stack, path := stack[..|stack| - 1], path[..|path| - 1];
      }
    }
    RestOfNone(graph, found, stack, path);
  }

  lemma RestOfOne(graph: Graph, found: Found, start: Node)
    requires Shaped(graph, found, [Frame(start, 0)], [start])
    ensures Rest(graph, found, [Frame(start, 0)], [start]) == Visit(graph, found, [start], 0)
  {
    hide Visit;
  }

  lemma RestOfNone(graph: Graph, found: Found, stack: seq<Frame>, path: seq<Node>)
    requires Outcome(graph, found, stack, path).Some? && stack == []
    ensures Outcome(graph, found, stack, path) == Some(found) && path == []
  {
  }

  lemma PaintedIs(color: map<Node, Color>, node: Node, shade: Color)
    requires node in color
    ensures Painted(color, node, shade) == color[node := shade]
  {
  }

  lemma BlackIsNotWhite(color: map<Node, Color>, node: Node)
    requires node in color && color[node] != White
    ensures Whites(color[node := Black]) == Whites(color) && Painted(color, node, Black) == color[node := Black]
  {
  }

  /** The includes of the file on top, from where looking at them was left, up to one that has yet to be searched. */
  method LookOn(graph: Graph, color0: map<Node, Color>, stack0: seq<Frame>, path0: seq<Node>, cycles0: seq<seq<Node>>,
                ghost at: Found)
    returns (color: map<Node, Color>, stack: seq<Frame>, path: seq<Node>, cycles: seq<seq<Node>>, advanced: bool, ghost found: Found)
    requires Outcome(graph, at, stack0, path0).Some? && stack0 != [] && color0 == at.color && cycles0 == at.cycles
    ensures Outcome(graph, found, stack, path) == Outcome(graph, at, stack0, path0)
    ensures stack != [] && color == found.color && cycles == found.cycles
    ensures path0 <= path && |stack| == |path| && found.finish == at.finish
    ensures advanced ==> Whites(color) < Whites(color0)
    ensures !advanced ==> color == color0 && |stack| == |stack0| && path == path0
    ensures !advanced ==> var top := stack[|stack| - 1]; top.node in graph && top.next == |graph[top.node]|
  {
    hide *;
    color, stack, path, cycles, advanced, found := color0, stack0, path0, cycles0, false, at;
    AtTop(graph, found, stack, path);
    var node, edges := stack[|stack| - 1].node, graph[stack[|stack| - 1].node];
    while stack[|stack| - 1].next < |edges|
      invariant Outcome(graph, found, stack, path) == Outcome(graph, at, stack0, path0)
      invariant color == found.color == color0 && cycles == found.cycles && path == path0 && found.finish == at.finish
      invariant |stack| == |stack0| && stack[|stack| - 1].node == node && stack[|stack| - 1].next <= |edges|
      decreases |edges| - stack[|stack| - 1].next
    {
      var top := stack[|stack| - 1];
      var target := edges[top.next];
      AtTop(graph, found, stack, path);
      Looking(graph, stack);
      if target !in graph {
        Passing(graph, found, stack, path, target);
      } else if color[target] == Gray {
        var cycle := CycleFrom(path, target);
        Reporting(graph, found, stack, path, target);
        ReportedIs(found, path, Inclusion(node, top.next), target);
        cycles := cycles + [cycle];
        found := Reported(found, path, Inclusion(node, top.next), target);
      } else if color[target] == White {
        Advancing(graph, found, stack, path, target);
        GrayIsNotWhite(color, target);
        found := found.(color := Painted(color, target, Gray));
        color := color[target := Gray];
        stack := stack[|stack| - 1 := Frame(node, top.next + 1)] + [Frame(target, 0)];
        path := path + [target];
        return color, stack, path, cycles, true, found;
      } else {
        Passing(graph, found, stack, path, target);
      }
      stack := stack[|stack| - 1 := Frame(node, top.next + 1)];
    }
  }

  lemma Looking(graph: Graph, stack: seq<Frame>)
    requires stack != [] && stack[|stack| - 1].node in graph && stack[|stack| - 1].next < |graph[stack[|stack| - 1].node]|
    ensures var top := stack[|stack| - 1];
      Next(graph, stack, graph[top.node][top.next]) && LookedAt(stack) == stack[|stack| - 1 := Frame(top.node, top.next + 1)]
  {
  }

  lemma ReportedIs(found: Found, path: seq<Node>, one: Inclusion, target: Node)
    ensures Reported(found, path, one, target)
      == Found(found.color, found.cycles + [CycleOn(path, target)], found.finish, found.closers + [one])
  {
  }

  lemma GrayIsNotWhite(color: map<Node, Color>, node: Node)
    requires node in color && color[node] == White
    ensures Whites(color[node := Gray]) < Whites(color) && Painted(color, node, Gray) == color[node := Gray]
  {
    assert node in Whites(color) && node !in Whites(color[node := Gray]);
  }
}
