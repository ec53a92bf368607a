/**
 * The layout rule of the dependency viewer: starting from a root asset, a
 * depth-first walk over the asset dependency graph gives every asset it
 * reaches for the first time a column (its depth in the walk) and a row (the
 * number of assets already placed in that column). A set of pending paths
 * makes every asset be placed at most once; a list of per-column row
 * counters hands out the rows.
 *
 * Placements are integer (column, row) cells; the window turns them into
 * pixel rectangles, which is not modelled.
 */
module DependencyLayout {
  import opened Wrappers

  /** A placement: the column is the depth of the walk, the row the index within the column. */
  datatype Cell = Cell(column: nat, row: nat)

  /** A graph node drawn for an asset path. */
  datatype Node = Node(path: string)

  /**
   * The state the walk changes: the paths not yet placed, the row counter of
   * each column, and the cell of every placed path.
   */
  datatype Layout = Layout(pending: set<string>, counters: seq<nat>, placed: map<string, Cell>)

  /** The direct dependencies of `path`; none for a path the graph does not list. */
  function Deps(graph: map<string, seq<string>>, path: string): (deps: seq<string>)
    ensures path !in graph ==> deps == []
    ensures deps != [] ==> path in graph && deps == graph[path]
  {
    if path in graph then graph[path] else []
  }

  // ---------------------------------------------------------------------
  // The row counters
  // ---------------------------------------------------------------------

  /** The row GetIndex hands out at `depth`: 0 for a column not yet counted. */
  function RowAt(counters: seq<nat>, depth: nat): (row: nat)
    requires depth <= |counters|
  {
    if depth == |counters| then 0 else counters[depth]
  }

  /** The counters after GetIndex: a new column starts with a counter of 0. */
  function Grow(counters: seq<nat>, depth: nat): (r: seq<nat>)
    requires depth <= |counters|
  {
    if depth == |counters| then counters + [0] else counters
  }

  /** The counters after SetIndex: a new column starts at 1, a known one is incremented. */
  function Bump(counters: seq<nat>, depth: nat): (r: seq<nat>)
    requires depth <= |counters|
  {
    if depth == |counters| then counters + [1] else counters[depth := counters[depth] + 1]
  }

  /**
   * GetIndex followed by SetIndex at the same depth: the list grows by at
   * most one column, the counter at `depth` ends one above the row handed
   * out, and every other counter is unchanged.
   */
  lemma GrowThenBump(counters: seq<nat>, depth: nat)
    requires depth <= |counters|
    ensures depth < |Grow(counters, depth)|
    ensures var r := Bump(Grow(counters, depth), depth);
      && |r| == (if depth == |counters| then |counters| + 1 else |counters|)
      && r[depth] == RowAt(counters, depth) + 1
      && forall d :: 0 <= d < |counters| && d != depth ==> r[d] == counters[d]
  {
  }

  /** SetIndex alone grows the list by at most one column and changes no other counter. */
  lemma BumpChangesOneCounter(counters: seq<nat>, depth: nat)
    requires depth <= |counters|
    ensures |counters| <= |Bump(counters, depth)| <= |counters| + 1
    ensures Bump(counters, depth)[depth] == RowAt(counters, depth) + 1
    ensures forall d :: 0 <= d < |counters| && d != depth ==> Bump(counters, depth)[d] == counters[d]
  {
  }

  // ---------------------------------------------------------------------
  // The walk
  // ---------------------------------------------------------------------

  /**
   * Placing one pending path: it leaves the pending set, takes the cell
   * (depth, row handed out by the counters), and the counter is bumped.
   */
  function Step(layout: Layout, path: string, depth: nat): (r: Layout)
    requires depth <= |layout.counters|
    ensures r.pending == layout.pending - {path}
    ensures |r.counters| == if depth == |layout.counters| then depth + 1 else |layout.counters|
  {
    var row := RowAt(layout.counters, depth);
    Layout(layout.pending - {path}, Bump(Grow(layout.counters, depth), depth),
           layout.placed[path := Cell(depth, row)])
  }

  /**
   * SetPosition: nothing happens when the pending set is empty or does not
   * hold `path`; otherwise `path` is placed at `depth` and its direct
   * dependencies are walked in order one column further right.
   */
  function Place(graph: map<string, seq<string>>, layout: Layout, path: string, depth: nat): (r: Layout)
    requires depth <= |layout.counters|
    ensures r.pending <= layout.pending
    ensures |r.counters| >= |layout.counters|
    decreases layout.pending, 0, 0
  {
    if |layout.pending| <= 0 || path !in layout.pending then layout
    else PlaceAll(graph, Step(layout, path, depth), Deps(graph, path), depth + 1)
  }

  /** The loop over the dependencies of a placed path: each of them in order, at `depth`. */
  function PlaceAll(graph: map<string, seq<string>>, layout: Layout, children: seq<string>, depth: nat): (r: Layout)
    requires depth <= |layout.counters|
    ensures r.pending <= layout.pending
    ensures |r.counters| >= |layout.counters|
    decreases layout.pending, 1, |children|
  {
    if children == [] then layout
    else
      var before := PlaceAll(graph, layout, children[..|children| - 1], depth);
      Place(graph, before, children[|children| - 1], depth)
  }

  /** The layout DrawDependency produces for `root` over the pending set `dependencies`. */
  function Walk(graph: map<string, seq<string>>, dependencies: set<string>, root: string): (layout: Layout)
    ensures layout.pending <= dependencies - {root}
  {
    Place(graph, Layout(dependencies, [], map[]), root, 0)
  }

  // ---------------------------------------------------------------------
  // The layout invariant
  // ---------------------------------------------------------------------

  /** Every placed path sits in a counted column, below that column's counter. */
  ghost predicate RowsBelowCounters(layout: Layout)
  {
    forall p :: p in layout.placed ==>
      layout.placed[p].column < |layout.counters|
      && layout.placed[p].row < layout.counters[layout.placed[p].column]
  }

  /** No two placed paths share a cell. */
  ghost predicate DistinctCells(layout: Layout)
  {
    forall p, q :: p in layout.placed && q in layout.placed && p != q ==> layout.placed[p] != layout.placed[q]
  }

  /** Some placed path holds the cell (column, row). */
  ghost predicate Taken(layout: Layout, column: nat, row: nat)
  {
    exists p :: p in layout.placed && layout.placed[p] == Cell(column, row)
  }

  /** Every row below a column's counter is taken by some placed path. */
  ghost predicate RowsTaken(layout: Layout)
  {
    forall d: nat, row: nat :: d < |layout.counters| && row < layout.counters[d] ==> Taken(layout, d, row)
  }

  /**
   * The layout invariant: a path is pending or placed, never both; in every
   * column the rows 0 .. counter - 1 are each taken by exactly one placed
   * path, and no other rows are, so each counter is the number of paths
   * placed in its column.
   */
  ghost predicate Sound(layout: Layout)
  {
    && layout.pending !! layout.placed.Keys
    && RowsBelowCounters(layout)
    && DistinctCells(layout)
    && RowsTaken(layout)
  }

  /** The start of a walk: nothing placed and no counters. */
  lemma FreshLayoutSound(dependencies: set<string>)
    ensures Sound(Layout(dependencies, [], map[]))
  {
  }

  /** The cells of `before` are still there, unchanged, in `after`. */
  ghost predicate KeepsCells(before: Layout, after: Layout)
  {
    forall p :: p in before.placed ==> p in after.placed && after.placed[p] == before.placed[p]
  }

  /**
   * `after` is a sound layout that keeps every cell of `before` and has
   * placed exactly the paths that left the pending set in between.
   */
  ghost predicate Extends(before: Layout, after: Layout)
  {
    && Sound(after)
    && KeepsCells(before, after)
    && after.placed.Keys == before.placed.Keys + (before.pending - after.pending)
  }

  /** A sound layout extends itself. */
  lemma ExtendsReflexive(layout: Layout)
    requires Sound(layout)
    ensures Extends(layout, layout)
  {
    assert layout.pending - layout.pending == {};
  }

  /** Extending is transitive when pending sets only shrink. */
  lemma ExtendsTransitive(a: Layout, b: Layout, c: Layout)
    requires Extends(a, b) && Extends(b, c) && b.pending <= a.pending && c.pending <= b.pending
    ensures Extends(a, c)
  {
    assert a.pending - c.pending == (a.pending - b.pending) + (b.pending - c.pending);
  }

  /** The new cell of a step lies below the bumped counter; the old cells stay below theirs. */
  lemma StepRowsBelow(layout: Layout, path: string, depth: nat)
    requires RowsBelowCounters(layout) && depth <= |layout.counters| && path !in layout.placed
    ensures RowsBelowCounters(Step(layout, path, depth))
  {
    var r := Step(layout, path, depth);
    GrowThenBump(layout.counters, depth);
    forall p | p in r.placed
      ensures r.placed[p].column < |r.counters| && r.placed[p].row < r.counters[r.placed[p].column]
    {
      if p != path {
        assert r.placed[p] == layout.placed[p];
      }
    }
  }

  /** The new cell of a step is not the cell of any earlier path. */
  lemma StepDistinct(layout: Layout, path: string, depth: nat)
    requires RowsBelowCounters(layout) && DistinctCells(layout)
    requires depth <= |layout.counters| && path !in layout.placed
    ensures DistinctCells(Step(layout, path, depth))
  {
    var r := Step(layout, path, depth);
    var row := RowAt(layout.counters, depth);
    forall p, q | p in r.placed && q in r.placed && p != q
      ensures r.placed[p] != r.placed[q]
    {
      if p == path {
        assert r.placed[q] == layout.placed[q];
      } else if q == path {
        assert r.placed[p] == layout.placed[p];
      } else {
        assert r.placed[p] == layout.placed[p] && r.placed[q] == layout.placed[q];
      }
    }
  }

  /** After a step every row below a counter is still taken: the new one by the new path. */
  lemma StepRowsTaken(layout: Layout, path: string, depth: nat)
    requires RowsTaken(layout) && depth <= |layout.counters| && path !in layout.placed
    ensures RowsTaken(Step(layout, path, depth))
  {
    var r := Step(layout, path, depth);
    var row := RowAt(layout.counters, depth);
    GrowThenBump(layout.counters, depth);
    forall d: nat, k: nat | d < |r.counters| && k < r.counters[d]
      ensures Taken(r, d, k)
    {
      if d == depth && k == row {
        assert r.placed[path] == Cell(d, k);
      } else {
        assert d < |layout.counters| && k < layout.counters[d];
        assert Taken(layout, d, k);
        var p :| p in layout.placed && layout.placed[p] == Cell(d, k);
        assert r.placed[p] == Cell(d, k);
      }
    }
  }

  /** Placing one pending path extends the layout. */
  lemma StepSound(layout: Layout, path: string, depth: nat)
    requires Sound(layout) && depth <= |layout.counters| && path in layout.pending
    ensures Extends(layout, Step(layout, path, depth))
  {
    var r := Step(layout, path, depth);
    StepRowsBelow(layout, path, depth);
    StepDistinct(layout, path, depth);
    StepRowsTaken(layout, path, depth);
    assert layout.pending - r.pending == {path};
  }

  /**
   * SetPosition keeps the layout invariant, never moves a placed path, and
   * places exactly the paths it takes out of the pending set.
   */
  lemma {:induction false} PlaceSound(graph: map<string, seq<string>>, layout: Layout, path: string, depth: nat)
    requires Sound(layout) && depth <= |layout.counters|
    ensures Extends(layout, Place(graph, layout, path, depth))
    decreases layout.pending, 0, 0
  {
    if |layout.pending| > 0 && path in layout.pending {
      var s := Step(layout, path, depth);
      var r := PlaceAll(graph, s, Deps(graph, path), depth + 1);
      assert Extends(layout, r) by {
        StepSound(layout, path, depth);
        PlaceAllSound(graph, s, Deps(graph, path), depth + 1);
        ExtendsTransitive(layout, s, r);
      }
    } else {
      ExtendsReflexive(layout);
    }
  }

  /** The loop over the dependencies extends the layout in the same way. */
  lemma {:induction false} PlaceAllSound(graph: map<string, seq<string>>, layout: Layout, children: seq<string>, depth: nat)
    requires Sound(layout) && depth <= |layout.counters|
    ensures Extends(layout, PlaceAll(graph, layout, children, depth))
    decreases layout.pending, 1, |children|
  {
    if children != [] {
      var before := PlaceAll(graph, layout, children[..|children| - 1], depth);
      var r := Place(graph, before, children[|children| - 1], depth);
      assert Extends(layout, r) by {
        PlaceAllSound(graph, layout, children[..|children| - 1], depth);
        PlaceSound(graph, before, children[|children| - 1], depth);
        ExtendsTransitive(layout, before, r);
      }
    } else {
      ExtendsReflexive(layout);
    }
  }

  /** SetPosition on a path that is not pending (or an empty pending set) changes nothing. */
  lemma PlaceIgnoresSettled(graph: map<string, seq<string>>, layout: Layout, path: string, depth: nat)
    requires depth <= |layout.counters| && path !in layout.pending
    ensures Place(graph, layout, path, depth) == layout
  {
  }

  /**
   * SetPosition on a pending path takes it out of the pending set for good
   * and gives it column `depth` and the row the counter held before.
   */
  lemma PlaceRecordsCell(graph: map<string, seq<string>>, layout: Layout, path: string, depth: nat)
    requires Sound(layout) && depth <= |layout.counters| && path in layout.pending
    ensures var r := Place(graph, layout, path, depth);
      path !in r.pending && path in r.placed && r.placed[path] == Cell(depth, RowAt(layout.counters, depth))
  {
    var s := Step(layout, path, depth);
    StepSound(layout, path, depth);
    PlaceAllSound(graph, s, Deps(graph, path), depth + 1);
  }

  /** After the loop over some children, none of them is pending any more. */
  lemma {:induction false} PlaceAllSettles(graph: map<string, seq<string>>, layout: Layout, children: seq<string>, depth: nat)
    requires depth <= |layout.counters|
    ensures forall k :: 0 <= k < |children| ==> children[k] !in PlaceAll(graph, layout, children, depth).pending
    decreases |children|
  {
    if children != [] {
      var prefix := children[..|children| - 1];
      var before := PlaceAll(graph, layout, prefix, depth);
      PlaceAllSettles(graph, layout, prefix, depth);
      forall k | 0 <= k < |children| - 1
        ensures children[k] !in PlaceAll(graph, layout, children, depth).pending
      {
        assert children[k] == prefix[k];
      }
    }
  }

  /** A path whose walk has finished is not pending. */
  lemma PlaceSettles(graph: map<string, seq<string>>, layout: Layout, path: string, depth: nat)
    requires depth <= |layout.counters|
    ensures path !in Place(graph, layout, path, depth).pending
  {
  }

  /** The paths `after` has placed that `before` had not. */
  function NewlyPlaced(before: Layout, after: Layout): (added: set<string>)
    ensures forall p :: p in added <==> p in after.placed && p !in before.placed
  {
    after.placed.Keys - before.placed.Keys
  }

  /** Every dependency of every path placed during the walk is settled when the walk ends. */
  ghost predicate Closed(graph: map<string, seq<string>>, paths: set<string>, layout: Layout)
  {
    forall p, k :: p in paths && 0 <= k < |Deps(graph, p)| ==> Deps(graph, p)[k] !in layout.pending
  }

  /**
   * When SetPosition returns, every path it placed has had all its direct
   * dependencies walked: none of them is still pending.
   */
  lemma {:induction false} PlaceClosed(graph: map<string, seq<string>>, layout: Layout, path: string, depth: nat)
    requires depth <= |layout.counters|
    ensures var r := Place(graph, layout, path, depth); Closed(graph, NewlyPlaced(layout, r), r)
    decreases layout.pending, 0, 0
  {
    if |layout.pending| > 0 && path in layout.pending {
      var s := Step(layout, path, depth);
      var r := Place(graph, layout, path, depth);
      PlaceAllClosed(graph, s, Deps(graph, path), depth + 1);
      PlaceAllSettles(graph, s, Deps(graph, path), depth + 1);
      assert NewlyPlaced(layout, r) <= NewlyPlaced(s, r) + {path};
    }
  }

  /** The loop over the dependencies closes every path it placed in the same way. */
  lemma {:induction false} PlaceAllClosed(graph: map<string, seq<string>>, layout: Layout, children: seq<string>, depth: nat)
    requires depth <= |layout.counters|
    ensures var r := PlaceAll(graph, layout, children, depth); Closed(graph, NewlyPlaced(layout, r), r)
    decreases layout.pending, 1, |children|
  {
    if children != [] {
      var before := PlaceAll(graph, layout, children[..|children| - 1], depth);
      var r := Place(graph, before, children[|children| - 1], depth);
      PlaceAllClosed(graph, layout, children[..|children| - 1], depth);
      PlaceClosed(graph, before, children[|children| - 1], depth);
      assert NewlyPlaced(layout, r) <= NewlyPlaced(layout, before) + NewlyPlaced(before, r);
    }
  }

  /**
   * The layout DrawDependency produces: a sound layout whose placed paths
   * are exactly the dependencies the walk took out of the pending set, with
   * the root (when it is one of them) at the first row of the first column,
   * and with every direct dependency of a placed path either placed too or
   * never pending.
   */
  lemma WalkSound(graph: map<string, seq<string>>, dependencies: set<string>, root: string)
    ensures var r := Walk(graph, dependencies, root);
      && Sound(r)
      && r.placed.Keys == dependencies - r.pending
      && (root in dependencies ==> root in r.placed && r.placed[root] == Cell(0, 0))
      && forall p, k :: p in r.placed && 0 <= k < |Deps(graph, p)| ==>
           var c := Deps(graph, p)[k]; c in r.placed || c !in dependencies
  {
    var start := Layout(dependencies, [], map[]);
    var r := Walk(graph, dependencies, root);
    FreshLayoutSound(dependencies);
    PlaceSound(graph, start, root, 0);
    PlaceClosed(graph, start, root, 0);
    assert NewlyPlaced(start, r) == r.placed.Keys;
    if root in dependencies {
      PlaceRecordsCell(graph, start, root, 0);
    }
  }

  // ---------------------------------------------------------------------
  // The viewer
  // ---------------------------------------------------------------------

  /** What DrawDependency did. */
  datatype DrawOutcome =
    | Skipped       // the graph is already drawn or the root path is blank
    | MissingRoot   // the root has no node: the node map lookup throws
    | Drawn

  /** A character char.IsWhiteSpace accepts (the ASCII ones). */
  predicate IsWhiteSpace(c: char)
  {
    c == ' ' || c == '\t' || c == '\n' || c == '\r' || c == '\U{0B}' || c == '\U{0C}'
  }

  /** string.IsNullOrWhiteSpace for a non-null string. */
  predicate Blank(s: string): (blank: bool)
    ensures s == [] ==> blank
    ensures blank && s != [] ==> IsWhiteSpace(s[0]) && IsWhiteSpace(s[|s| - 1])
  {
    forall k :: 0 <= k < |s| ==> IsWhiteSpace(s[k])
  }

  /** Dictionary.TryGetValue: the node of `path`, or null (None). */
  function TryGet(nodes: map<string, Node>, path: string): (r: Option<Node>)
    ensures r.Some? <==> path in nodes
  {
    if path in nodes then Some(nodes[path]) else None
  }

  /**
   * The part of the dependency viewer window that lays the graph out: the
   * pending set, the per-column row counters (a static list in the window),
   * the node of each path and each node's cell.
   */
  class DependencyViewer {
    /** The asset database's direct dependencies of each path. */
    const graph: map<string, seq<string>>
    var pending: set<string>
    var counters: seq<nat>
    var nodes: map<string, Node>
    var placed: map<string, Cell>
    var drawn: bool
    var rootPath: string

    /** Every pending path has a node, registered under its own path. */
    ghost predicate Valid()
      reads this
    {
      pending <= nodes.Keys && forall p :: p in nodes ==> nodes[p].path == p
    }

    /** The state the layout rule works on. */
    function State(): (layout: Layout)
      reads this
    {
      Layout(pending, counters, placed)
    }

    constructor (graph: map<string, seq<string>>, rootPath: string)
      ensures Valid() && this.graph == graph && this.rootPath == rootPath
      ensures pending == {} && counters == [] && nodes == map[] && placed == map[] && !drawn
    {
      this.graph := graph;
      this.rootPath := rootPath;
      pending, counters, nodes, placed, drawn := {}, [], map[], map[], false;
    }

    /** GetIndex: the row for the next path placed at `depth`, opening the column if it is new. */
    method GetIndex(depth: nat) returns (index: nat)
      requires depth <= |counters|
      modifies this
      ensures counters == Grow(old(counters), depth) && index == RowAt(old(counters), depth)
      ensures pending == old(pending) && nodes == old(nodes) && placed == old(placed)
      ensures drawn == old(drawn) && rootPath == old(rootPath)
    {
      if depth == |counters| {
        counters := counters + [0];
        return 0;
      }
      return counters[depth];
    }

    /** SetIndex: counts one more path placed at `depth`. */
    method SetIndex(depth: nat)
      requires depth <= |counters|
      modifies this
      ensures counters == Bump(old(counters), depth)
      ensures pending == old(pending) && nodes == old(nodes) && placed == old(placed)
      ensures drawn == old(drawn) && rootPath == old(rootPath)
    {
      if depth == |counters| {
        counters := counters + [1];
      } else {
        counters := counters[depth := counters[depth] + 1];
      }
    }

    /**
     * SetPosition: places `path` (whose node is `parent`) at `depth` if it is
     * still pending, then walks its direct dependencies one column further.
     */
    method SetPosition(path: string, parent: Option<Node>, depth: nat)
      requires Valid() && depth <= |counters| && parent == TryGet(nodes, path)
      modifies this
      ensures Valid() && State() == Place(graph, old(State()), path, depth)
      ensures nodes == old(nodes) && drawn == old(drawn) && rootPath == old(rootPath)
      decreases pending
    {
      if |pending| <= 0 {
        return;
      }
      if path !in pending {
        return;
      }
      pending := pending - {path};
      ghost var entry := old(State());
      var index := GetIndex(depth);
      placed := placed[parent.value.path := Cell(depth, index)];
      SetIndex(depth);
      var next := depth + 1;
      ghost var start := State();
      assert start == Step(entry, path, depth);
      var dependencies := Deps(graph, path);
      var i := 0;
      while i < |dependencies|
        invariant 0 <= i <= |dependencies|
        invariant Valid() && nodes == old(nodes) && drawn == old(drawn) && rootPath == old(rootPath)
        invariant State() == PlaceAll(graph, start, dependencies[..i], next)
      {
        var node := TryGet(nodes, dependencies[i]);
        SetPosition(dependencies[i], node, next);
        assert dependencies[..i + 1][..i] == dependencies[..i];
        i := i + 1;
      }
      assert dependencies[..i] == dependencies;
    }

    /**
     * DrawDependency: unless the graph is drawn or the root path is blank,
     * resets the pending set to the root's dependencies and the counters to
     * an empty list, gives every pending path a node, and lays the graph out
     * from the root at depth 0.
     */
    method DrawDependency(dependencies: set<string>) returns (outcome: DrawOutcome)
      requires Valid()
      modifies this
      ensures Valid() && rootPath == old(rootPath)
      ensures outcome == Skipped <==> old(drawn) || Blank(rootPath)
      ensures outcome == MissingRoot <==> !old(drawn) && !Blank(rootPath) && rootPath !in dependencies
      ensures outcome == Skipped ==> State() == old(State()) && drawn == old(drawn) && nodes == old(nodes)
      ensures outcome != Skipped ==> nodes.Keys == dependencies
      ensures outcome == MissingRoot ==> !drawn && State() == Layout(dependencies, [], map[])
      ensures outcome == Drawn ==> drawn && State() == Walk(graph, dependencies, rootPath)
    {
      if drawn || Blank(rootPath) {
        return Skipped;
      }
      nodes, placed := map[], map[];
      pending := dependencies;
      counters := [];
      nodes := map p | p in dependencies :: Node(p);
      if rootPath !in nodes {
        return MissingRoot;
      }
      SetPosition(rootPath, Some(nodes[rootPath]), 0);
      drawn := true;
      return Drawn;
    }
  }
}
