/** The flattened list on screen: what it lists, what a folder toggle does to it, and the file counts. */
module DriveVisible {
  import opened Sequences
  import opened DriveForest
  import opened DriveRows

  /** A node together with the rows above it, outermost first. */
  datatype Placed = Placed(node: Node, above: seq<Asset>)

  function Preorder(nodes: seq<Node>, above: seq<Asset>): seq<Placed>
    decreases nodes
  {
    if nodes == [] then []
    else [Placed(nodes[0], above)] + Preorder(nodes[0].children, above + [nodes[0].asset]) + Preorder(nodes[1..], above)
  }

  predicate AllOpen(above: seq<Asset>, open: string -> bool) {
    forall a :: a in above ==> a.isFolder && open(a.fileId)
  }

  /** The nodes of a traversal all of whose ancestors are open. */
  function OpenNodes(s: seq<Placed>, open: string -> bool): seq<Node> {
    Map(Filter(s, (p: Placed) => AllOpen(p.above, open)), (p: Placed) => p.node)
  }

  lemma {:induction false} OpenNodesAppend(a: seq<Placed>, b: seq<Placed>, open: string -> bool)
    ensures OpenNodes(a + b, open) == OpenNodes(a, open) + OpenNodes(b, open)
  {
    FilterAppend(a, b, (p: Placed) => AllOpen(p.above, open));
  }

  lemma {:induction false} AllOpenHere(above: seq<Asset>, node: Node, open: string -> bool)
    ensures AllOpen(above + [node.asset], open) <==> AllOpen(above, open) && Opens(node, open)
  {
    var here := above + [node.asset];
    assert node.asset in here && forall a :: a in here <==> a in above || a == node.asset;
  }

  lemma {:induction false} VisibleBelow(nodes: seq<Node>, above: seq<Asset>, open: string -> bool)
    ensures OpenNodes(Preorder(nodes, above), open) == if AllOpen(above, open) then Visible(nodes, open) else []
    decreases nodes
  {
    if nodes == [] {
    } else {
      var here := above + [nodes[0].asset];
      var first := [Placed(nodes[0], above)];
      var inside, rest := Preorder(nodes[0].children, here), Preorder(nodes[1..], above);
      VisibleBelow(nodes[0].children, here, open);
      VisibleBelow(nodes[1..], above, open);
      AllOpenHere(above, nodes[0], open);
      OpenNodesAppend(first + inside, rest, open);
      OpenNodesAppend(first, inside, open);
      assert OpenNodes(first, open) == if AllOpen(above, open) then [nodes[0]] else [];
    }
  }

  /** The visible list is the preorder traversal restricted to nodes all of whose ancestors are expanded. */
  lemma {:induction false} VisibleIsOpenPreorder(nodes: seq<Node>, open: string -> bool)
    ensures Visible(nodes, open) == OpenNodes(Preorder(nodes, []), open)
  {
    VisibleBelow(nodes, [], open);
  }

  lemma {:induction false} VisibleAppend(a: seq<Node>, b: seq<Node>, open: string -> bool)
    ensures Visible(a + b, open) == Visible(a, open) + Visible(b, open)
    decreases |a|
  {
    if a == [] {
      assert a + b == b;
    } else {
      assert (a + b)[0] == a[0] && (a + b)[1..] == a[1..] + b;
      VisibleAppend(a[1..], b, open);
      VisibleParts(a, open);
      VisibleParts(a + b, open);
      hide Visible, Below;
    }
  }

  lemma {:induction false} ShownAppend(a: seq<Node>, b: seq<Node>, open: string -> bool)
    ensures Shown(a + b, open) == Shown(a, open) + Shown(b, open)
    decreases |a|
  {
    if a == [] {
      assert a + b == b;
    } else {
      assert (a + b)[0] == a[0] && (a + b)[1..] == a[1..] + b;
      ShownAppend(a[1..], b, open);
      ShownParts(a, open);
      ShownParts(a + b, open);
      hide Shown, BelowRows;
    }
  }

  function BelowRows(node: Node, open: string -> bool): seq<Asset> {
    if Opens(node, open) then Shown(node.children, open) else []
  }

  lemma {:induction false} ShownParts(nodes: seq<Node>, open: string -> bool)
    requires nodes != []
    ensures Shown(nodes, open) == [nodes[0].asset] + BelowRows(nodes[0], open) + Shown(nodes[1..], open)
  {
  }

  lemma {:induction false} VisibleNext(nodes: seq<Node>, k: nat, open: string -> bool)
    requires k < |nodes|
    ensures Visible(nodes[..k + 1], open) ==
            Visible(nodes[..k], open) + [nodes[k]] + if Opens(nodes[k], open) then Visible(nodes[k].children, open) else []
  {
    assert nodes[..k + 1] == nodes[..k] + [nodes[k]];
    VisibleAppend(nodes[..k], [nodes[k]], open);
  }

  method FlattenVisible(nodes: seq<Node>, expanded: set<string>) returns (result: seq<Node>)
    ensures result == Visible(nodes, Open(expanded))
    decreases nodes
  {
    result := [];
    for k := 0 to |nodes|
      invariant result == Visible(nodes[..k], Open(expanded))
    {
      var node := nodes[k];
      VisibleNext(nodes, k, Open(expanded));
      result := result + [node];
      if node.asset.isFolder && node.asset.fileId in expanded {
        var inside := FlattenVisible(node.children, expanded);
        result := result + inside;
      }
    }
    assert nodes[..|nodes|] == nodes;
  }

  /** The file rows of the fully expanded forest. */
  function FileRows(nodes: seq<Node>): seq<Asset> {
    Filter(Shown(nodes, All), (a: Asset) => !a.isFolder)
  }

  lemma {:induction false} FileRowsAppend(nodes: seq<Node>, node: Node)
    ensures |FileRows(nodes + [node])| ==
            |FileRows(nodes)| + if node.asset.isFolder then |FileRows(node.children)| else 1
  {
    var file := (a: Asset) => !a.isFolder;
    ShownAppend(nodes, [node], All);
    FilterAppend(Shown(nodes, All), Shown([node], All), file);
    var below := if node.asset.isFolder then Shown(node.children, All) else [];
    assert Shown([node], All) == [node.asset] + below;
    FilterCons(node.asset, below, file);
  }

  /** A folder's count is the number of file rows in its fully expanded subtree. */
  method CountFiles(nodes: seq<Node>) returns (n: nat)
    ensures n == |FileRows(nodes)|
    decreases nodes
  {
    n := 0;
    for k := 0 to |nodes|
      invariant n == |FileRows(nodes[..k])|
    {
      var node := nodes[k];
      FileRowsAppend(nodes[..k], node);
      assert nodes[..k + 1] == nodes[..k] + [node];
      if !node.asset.isFolder {
        n := n + 1;
      } else {
        var inside := CountFiles(node.children);
        n := n + inside;
      }
    }
    assert nodes[..|nodes|] == nodes;
  }

  // ----- Toggling a folder -----

  function Toggle(expanded: set<string>, id: string): set<string> {
    if id in expanded then expanded - {id} else expanded + {id}
  }

  lemma {:induction false} ShownAll(nodes: seq<Node>, open: string -> bool, a: Asset)
    ensures multiset(Shown(nodes, open))[a] <= multiset(Shown(nodes, All))[a]
    decreases nodes
  {
    if nodes == [] {
    } else {
      ShownCount(nodes, open, a);
      ShownCount(nodes, All, a);
      ShownAll(nodes[0].children, open, a);
      ShownAll(nodes[1..], open, a);
    }
  }

  /** What is on screen depends only on how the ids on screen are set. */
  lemma {:induction false} SameOpen(nodes: seq<Node>, p: string -> bool, q: string -> bool)
    requires forall a :: a in Shown(nodes, p) ==> p(a.fileId) == q(a.fileId)
    ensures Visible(nodes, p) == Visible(nodes, q)
    ensures Shown(nodes, p) == Shown(nodes, q)
    decreases nodes
  {
    if nodes == [] {
    } else {
      assert nodes[0].asset in Shown(nodes, p);
      if Opens(nodes[0], p) {
        SameOpen(nodes[0].children, p, q);
      }
      SameOpen(nodes[1..], p, q);
    }
  }

  /** Toggling an id that no row on screen carries changes nothing on screen. */
  lemma {:induction false} HiddenToggle(nodes: seq<Node>, expanded: set<string>, id: string)
    requires forall a :: a in Shown(nodes, Open(expanded)) ==> a.fileId != id
    ensures Visible(nodes, Open(Toggle(expanded, id))) == Visible(nodes, Open(expanded))
  {
    SameOpen(nodes, Open(expanded), Open(Toggle(expanded, id)));
  }

  /** `f` occurs once in the forest and no other row carries its drive id. */
  ghost predicate UniqueRow(nodes: seq<Node>, f: Asset) {
    && multiset(Shown(nodes, All))[f] <= 1
    && forall a :: a in Shown(nodes, All) && a.fileId == f.fileId ==> a == f
  }

  lemma {:induction false} BuiltRowsUnique(items: seq<Asset>, leq: NameOrder, f: Asset)
    requires Table(items) && f in items
    ensures UniqueRow(BuildTree(items, leq), f)
  {
    PlacedExactlyOnce(items, leq, f);
    forall a | a in Shown(BuildTree(items, leq), All) && a.fileId == f.fileId ensures a == f {
      PlacedExactlyOnce(items, leq, a);
      SameRow(items, a, f);
    }
  }

  lemma {:induction false} UniqueParts(nodes: seq<Node>, f: Asset)
    requires nodes != [] && nodes[0].asset.isFolder && UniqueRow(nodes, f)
    ensures UniqueRow(nodes[0].children, f) && UniqueRow(nodes[1..], f)
    ensures nodes[0].asset == f ==> f !in Shown(nodes[0].children, All) && f !in Shown(nodes[1..], All)
    ensures f in Shown(nodes[0].children, All) ==> nodes[0].asset != f && f !in Shown(nodes[1..], All)
  {
  }

  lemma {:induction false} UniqueRest(nodes: seq<Node>, f: Asset)
    requires nodes != [] && UniqueRow(nodes, f)
    ensures UniqueRow(nodes[1..], f)
    ensures nodes[0].asset == f ==> f !in Shown(nodes[1..], All)
  {
  }

  /** A forest in which `f` does not occur is drawn the same whether or not `f` is expanded. */
  lemma {:induction false} AbsentToggle(nodes: seq<Node>, expanded: set<string>, f: Asset)
    requires UniqueRow(nodes, f) && f !in Shown(nodes, All)
    ensures Visible(nodes, Open(expanded + {f.fileId})) == Visible(nodes, Open(expanded))
  {
    forall a | a in Shown(nodes, Open(expanded)) ensures a.fileId != f.fileId {
      ShownAll(nodes, Open(expanded), a);
    }
    SameOpen(nodes, Open(expanded), Open(expanded + {f.fileId}));
  }

  /** `after` is `before` with `block` inserted right behind position `i`. */
  ghost predicate Inserted<T>(before: seq<T>, i: nat, block: seq<T>, after: seq<T>) {
    i < |before| && after == before[..i + 1] + block + before[i + 1..]
  }

  lemma {:induction false} InsertedInside<T>(front: seq<T>, before: seq<T>, back: seq<T>, i: nat, block: seq<T>,
                                             after: seq<T>)
    requires Inserted(before, i, block, after)
    ensures Inserted(front + before + back, |front| + i, block, front + after + back)
  {
  }

  /** Expanding `node`, which stands in visible row `i`, inserts its own visible subtree right after it
      and changes nothing else. */
  ghost predicate SplicesAt(nodes: seq<Node>, expanded: set<string>, i: nat, node: Node) {
    && i < |Visible(nodes, Open(expanded))| && Visible(nodes, Open(expanded))[i] == node
    && Inserted(Visible(nodes, Open(expanded)), i, Visible(node.children, Open(expanded)),
                Visible(nodes, Open(expanded + {node.asset.fileId})))
  }

  /** The rows between a tree's root row and the next tree. */
  function Below(node: Node, open: string -> bool): seq<Node> {
    if Opens(node, open) then Visible(node.children, open) else []
  }

  lemma {:induction false} VisibleParts(nodes: seq<Node>, open: string -> bool)
    requires nodes != []
    ensures Visible(nodes, open) == [nodes[0]] + Below(nodes[0], open) + Visible(nodes[1..], open)
  {
  }

  lemma {:induction false} VisibleIndex(nodes: seq<Node>, open: string -> bool, i: nat)
    requires i < |Visible(nodes, open)|
    ensures nodes != []
    ensures
      var inside := |Below(nodes[0], open)|;
      if i == 0 then Visible(nodes, open)[i] == nodes[0]
      else if i < 1 + inside then
        && nodes[0].asset.isFolder && Opens(nodes[0], open) && i - 1 < |Visible(nodes[0].children, open)|
        && Visible(nodes, open)[i] == Visible(nodes[0].children, open)[i - 1]
      else
        i - 1 - inside < |Visible(nodes[1..], open)| && Visible(nodes, open)[i] == Visible(nodes[1..], open)[i - 1 - inside]
  {
    hide Visible, Below;
    IndexNeedsNodes(nodes, open);
    VisibleParts(nodes, open);
    BelowIs(nodes[0], open);
  }

  lemma {:induction false} IndexNeedsNodes(nodes: seq<Node>, open: string -> bool)
    ensures Visible(nodes, open) != [] ==> nodes != []
  {
  }

  lemma {:induction false} BelowIs(node: Node, open: string -> bool)
    ensures Below(node, open) != [] ==> Opens(node, open) && Below(node, open) == Visible(node.children, open)
  {
  }

  lemma {:induction false} ToggleSplices(nodes: seq<Node>, expanded: set<string>, i: nat, node: Node)
    requires i < |Visible(nodes, Open(expanded))| && Visible(nodes, Open(expanded))[i] == node
    requires node.asset.isFolder && node.asset.fileId !in expanded && UniqueRow(nodes, node.asset)
    ensures SplicesAt(nodes, expanded, i, node)
    decreases nodes
  {
    hide SplicesAt, UniqueRow, Visible, Below;
    VisibleIndex(nodes, Open(expanded), i);
    var inside := |Below(nodes[0], Open(expanded))|;
    if i == 0 {
      ToggleHere(nodes, expanded);
    } else if i < 1 + inside {
      var k := i - 1;
      UniqueParts(nodes, node.asset);
      ToggleSplices(nodes[0].children, expanded, k, node);
      ToggleInside(nodes, expanded, k, node);
      assert 1 + k == i;
    } else {
      var k := i - 1 - inside;
      UniqueRest(nodes, node.asset);
      ToggleSplices(nodes[1..], expanded, k, node);
      ToggleRest(nodes, expanded, k, node);
      assert 1 + inside + k == i;
    }
  }

  lemma {:induction false} ToggleHere(nodes: seq<Node>, expanded: set<string>)
    requires nodes != [] && nodes[0].asset.isFolder && nodes[0].asset.fileId !in expanded
    requires UniqueRow(nodes, nodes[0].asset)
    ensures SplicesAt(nodes, expanded, 0, nodes[0])
  {
    var head, rest := nodes[0], nodes[1..];
    var more := expanded + {head.asset.fileId};
    UniqueParts(nodes, head.asset);
    AbsentToggle(head.children, expanded, head.asset);
    AbsentToggle(rest, expanded, head.asset);
    VisibleParts(nodes, Open(expanded));
    VisibleParts(nodes, Open(more));
    InsertedFirst(head, Visible(head.children, Open(expanded)), Visible(rest, Open(expanded)));
  }

  lemma {:induction false} ToggleInside(nodes: seq<Node>, expanded: set<string>, k: nat, node: Node)
    requires nodes != [] && Opens(nodes[0], Open(expanded)) && UniqueRow(nodes, node.asset)
    requires SplicesAt(nodes[0].children, expanded, k, node)
    ensures SplicesAt(nodes, expanded, 1 + k, node)
  {
    assert Visible(nodes[1..], Open(expanded + {node.asset.fileId})) == Visible(nodes[1..], Open(expanded)) by {
      VisibleOccurs(nodes[0].children, Open(expanded), k);
      UniqueParts(nodes, node.asset);
      AbsentToggle(nodes[1..], expanded, node.asset);
    }
    InsideSplices(nodes, expanded, k, node);
  }

  lemma {:induction false} InsideSplices(nodes: seq<Node>, expanded: set<string>, k: nat, node: Node)
    requires nodes != [] && Opens(nodes[0], Open(expanded))
    requires Visible(nodes[1..], Open(expanded + {node.asset.fileId})) == Visible(nodes[1..], Open(expanded))
    requires SplicesAt(nodes[0].children, expanded, k, node)
    ensures SplicesAt(nodes, expanded, 1 + k, node)
  {
    var more := expanded + {node.asset.fileId};
    VisibleParts(nodes, Open(expanded));
    VisibleParts(nodes, Open(more));
    var v := Visible(nodes[0].children, Open(expanded));
    InsertedInside([nodes[0]], v, Visible(nodes[1..], Open(expanded)), k,
                   Visible(node.children, Open(expanded)), Visible(nodes[0].children, Open(more)));
    Shifted([nodes[0]], v, Visible(nodes[1..], Open(expanded)), k);
  }

  lemma {:induction false} Shifted<T>(front: seq<T>, v: seq<T>, back: seq<T>, k: nat)
    requires k < |v|
    ensures (front + v + back)[|front| + k] == v[k]
  {
  }

  lemma {:induction false} ToggleRest(nodes: seq<Node>, expanded: set<string>, k: nat, node: Node)
    requires nodes != [] && UniqueRow(nodes, node.asset)
    requires SplicesAt(nodes[1..], expanded, k, node)
    ensures SplicesAt(nodes, expanded, 1 + |Below(nodes[0], Open(expanded))| + k, node)
  {
    assert Below(nodes[0], Open(expanded + {node.asset.fileId})) == Below(nodes[0], Open(expanded)) by {
      VisibleOccurs(nodes[1..], Open(expanded), k);
      HeadUntouched(nodes, expanded, node.asset);
    }
    RestSplices(nodes, expanded, k, node);
  }

  lemma {:induction false} RestSplices(nodes: seq<Node>, expanded: set<string>, k: nat, node: Node)
    requires nodes != [] && SplicesAt(nodes[1..], expanded, k, node)
    requires Below(nodes[0], Open(expanded + {node.asset.fileId})) == Below(nodes[0], Open(expanded))
    ensures SplicesAt(nodes, expanded, 1 + |Below(nodes[0], Open(expanded))| + k, node)
  {
    hide Visible, Below, Open, Inserted;
    var more := expanded + {node.asset.fileId};
    VisibleParts(nodes, Open(expanded));
    VisibleParts(nodes, Open(more));
    var front := [nodes[0]] + Below(nodes[0], Open(expanded));
    var v := Visible(nodes[1..], Open(expanded));
    InsertedAfter(front, v, k, Visible(node.children, Open(expanded)), Visible(nodes[1..], Open(more)));
    assert front + v + [] == front + v;
    Shifted(front, v, [], k);
  }

  lemma {:induction false} InsertedAfter<T>(front: seq<T>, before: seq<T>, i: nat, block: seq<T>, after: seq<T>)
    requires Inserted(before, i, block, after)
    ensures Inserted(front + before, |front| + i, block, front + after)
  {
  }

  lemma {:induction false} InsertedFirst<T>(x: T, block: seq<T>, rest: seq<T>)
    ensures Inserted([x] + [] + rest, 0, block, [x] + block + rest)
  {
  }

  lemma {:induction false} VisibleOccurs(nodes: seq<Node>, open: string -> bool, k: nat)
    requires k < |Visible(nodes, open)|
    ensures Visible(nodes, open)[k].asset in Shown(nodes, All)
  {
    ListingsAgree(nodes, 0, open);
    ShownAll(nodes, open, Visible(nodes, open)[k].asset);
  }

  /** When `f` occurs after the first tree, the first tree is drawn the same. */
  lemma {:induction false} HeadUntouched(nodes: seq<Node>, expanded: set<string>, f: Asset)
    requires nodes != [] && UniqueRow(nodes, f) && f in Shown(nodes[1..], All)
    ensures Below(nodes[0], Open(expanded + {f.fileId})) == Below(nodes[0], Open(expanded))
  {
    if nodes[0].asset.isFolder {
      HeadIsNot(nodes, f);
      AbsentToggle(nodes[0].children, expanded, f);
    }
    SameBelow(nodes[0], Open(expanded + {f.fileId}), Open(expanded));
  }

  lemma {:induction false} SameBelow(node: Node, p: string -> bool, q: string -> bool)
    requires node.asset.isFolder ==>
      p(node.asset.fileId) == q(node.asset.fileId) && Visible(node.children, p) == Visible(node.children, q)
    ensures Below(node, p) == Below(node, q)
  {
  }

  lemma {:induction false} HeadIsNot(nodes: seq<Node>, f: Asset)
    requires nodes != [] && nodes[0].asset.isFolder && UniqueRow(nodes, f) && f in Shown(nodes[1..], All)
    ensures nodes[0].asset.fileId != f.fileId
    ensures UniqueRow(nodes[0].children, f) && f !in Shown(nodes[0].children, All)
  {
  }

  /** On a forest built from a table, expanding the folder in visible row `i` inserts one block right
      after that row, and toggling it again restores the list. */
  lemma {:induction false} ToggleInsertsBlock(items: seq<Asset>, leq: NameOrder, expanded: set<string>, i: nat)
    requires Table(items) && i < |Visible(BuildTree(items, leq), Open(expanded))|
    requires
      var f := Visible(BuildTree(items, leq), Open(expanded))[i].asset;
      f.isFolder && f.fileId !in expanded
    ensures
      var v := Visible(BuildTree(items, leq), Open(expanded));
      var once := Toggle(expanded, v[i].asset.fileId);
      && Inserted(v, i, Visible(v[i].children, Open(expanded)), Visible(BuildTree(items, leq), Open(once)))
      && Visible(BuildTree(items, leq), Open(Toggle(once, v[i].asset.fileId))) == v
  {
    var nodes := BuildTree(items, leq);
    var node := Visible(nodes, Open(expanded))[i];
    VisibleOccurs(nodes, Open(expanded), i);
    PlacedExactlyOnce(items, leq, node.asset);
    BuiltRowsUnique(items, leq, node.asset);
    ToggleSplices(nodes, expanded, i, node);
    assert Toggle(Toggle(expanded, node.asset.fileId), node.asset.fileId) == expanded;
  }

  // ----- Collapsing a folder -----

  /** No row is its own ancestor. */
  lemma {:induction false} NotOwnAncestor(items: seq<Asset>, a: Asset, n: nat)
    requires Table(items) && a in items && Climbs(items, a, n)
    ensures a.fileId !in Path(items, a, n)
  {
    if k: nat :| k < n && Path(items, a, n)[k] == a.fileId {
      AncestorsClimb(items, a, n, k);
      SameRow(items, Lookup(items, a.fileId), a);
      ClimbsOnce(items, a, k, n);
      assert false;
    }
  }

  /** Collapsing a folder does not take its own row off the screen. */
  lemma {:induction false} StaysOnScreen(items: seq<Asset>, leq: NameOrder, expanded: set<string>, f: Asset)
    requires Table(items) && f in Shown(BuildTree(items, leq), Open(expanded))
    ensures f in items
    ensures multiset(Shown(BuildTree(items, leq), Open(expanded)))[f] == 1
    ensures f in Shown(BuildTree(items, leq), Open(expanded - {f.fileId}))
  {
    ShownAll(BuildTree(items, leq), Open(expanded), f);
    PlacedExactlyOnce(items, leq, f);
    var n: nat :| FolderChain(items, f, n);
    FolderChainClimbs(items, f, n);
    NotOwnAncestor(items, f, n);
    VisibleExactlyWhenOpen(items, leq, expanded, f, n);
    VisibleExactlyWhenOpen(items, leq, expanded - {f.fileId}, f, n);
    assert multiset(Shown(BuildTree(items, leq), Open(expanded - {f.fileId})))[f] == 1;
  }

  lemma {:induction false} CountsTwice<T>(s: seq<T>, i: nat, j: nat)
    requires i < j < |s| && s[i] == s[j]
    ensures multiset(s)[s[i]] >= 2
  {
    assert s == s[..j] + s[j..];
    assert s[i] in s[..j] && s[j] in s[j..];
  }

  lemma {:induction false} FindVisible(nodes: seq<Node>, open: string -> bool, f: Asset) returns (j: nat)
    requires f in Shown(nodes, open)
    ensures j < |Visible(nodes, open)| && Visible(nodes, open)[j].asset == f
  {
    ListingsAgree(nodes, 0, open);
    j :| j < |Shown(nodes, open)| && Shown(nodes, open)[j] == f;
  }

  lemma {:induction false} VisibleOnce(nodes: seq<Node>, open: string -> bool, i: nat, j: nat)
    requires i < |Visible(nodes, open)| && j < |Visible(nodes, open)|
    requires Visible(nodes, open)[i].asset == Visible(nodes, open)[j].asset
    requires multiset(Shown(nodes, open))[Visible(nodes, open)[i].asset] == 1
    ensures i == j
  {
    ListingsAgree(nodes, 0, open);
    if i < j {
      CountsTwice(Shown(nodes, open), i, j);
    } else if j < i {
      CountsTwice(Shown(nodes, open), j, i);
    }
  }

  lemma {:induction false} VisibleShown(nodes: seq<Node>, open: string -> bool, i: nat)
    requires i < |Visible(nodes, open)|
    ensures Visible(nodes, open)[i].asset in Shown(nodes, open)
  {
    ListingsAgree(nodes, 0, open);
  }

  lemma {:induction false} CollapseSplices(nodes: seq<Node>, expanded: set<string>, i: nat, f: Asset)
    requires i < |Visible(nodes, Open(expanded))| && Visible(nodes, Open(expanded))[i].asset == f
    requires f.isFolder && f.fileId in expanded && UniqueRow(nodes, f)
    requires multiset(Shown(nodes, Open(expanded)))[f] == 1 && f in Shown(nodes, Open(expanded - {f.fileId}))
    ensures SplicesAt(nodes, expanded - {f.fileId}, i, Visible(nodes, Open(expanded))[i])
  {
    var less := expanded - {f.fileId};
    assert less + {f.fileId} == expanded;
    hide Visible, Shown, UniqueRow, Open;
    var j := FindVisible(nodes, Open(less), f);
    ToggleSplices(nodes, less, j, Visible(nodes, Open(less))[j]);
    assert Visible(nodes, Open(expanded))[j] == Visible(nodes, Open(less))[j];
    VisibleOnce(nodes, Open(expanded), i, j);
  }

  /** `nodes` with the open folder in visible row `i` collapsed: that row stays in place, and one block,
      its visible subtree, is gone from right after it. */
  ghost predicate Collapses(nodes: seq<Node>, expanded: set<string>, i: nat)
    requires i < |Visible(nodes, Open(expanded))|
  {
    var v := Visible(nodes, Open(expanded));
    var less := Toggle(expanded, v[i].asset.fileId);
    var w := Visible(nodes, Open(less));
    i < |w| && w[i] == v[i] && Inserted(w, i, Visible(v[i].children, Open(less)), v)
  }

  lemma {:induction false} SplicesCollapse(nodes: seq<Node>, expanded: set<string>, i: nat)
    requires i < |Visible(nodes, Open(expanded))|
    requires Visible(nodes, Open(expanded))[i].asset.fileId in expanded
    requires
      var node := Visible(nodes, Open(expanded))[i];
      SplicesAt(nodes, expanded - {node.asset.fileId}, i, node)
    ensures Collapses(nodes, expanded, i)
  {
    var id := Visible(nodes, Open(expanded))[i].asset.fileId;
    assert expanded - {id} + {id} == expanded;
    hide Visible, Open, Inserted;
  }

  /** On a forest built from a table, toggling an open folder in visible row `i` collapses it, whatever
      else is expanded. */
  lemma {:induction false} CollapseRemovesBlock(items: seq<Asset>, leq: NameOrder, expanded: set<string>, i: nat)
    requires Table(items) && i < |Visible(BuildTree(items, leq), Open(expanded))|
    requires
      var f := Visible(BuildTree(items, leq), Open(expanded))[i].asset;
      f.isFolder && f.fileId in expanded
    ensures Collapses(BuildTree(items, leq), expanded, i)
  {
    var nodes := BuildTree(items, leq);
    var f := Visible(nodes, Open(expanded))[i].asset;
    VisibleShown(nodes, Open(expanded), i);
    StaysOnScreen(items, leq, expanded, f);
    BuiltRowsUnique(items, leq, f);
    hide *;
    CollapseSplices(nodes, expanded, i, f);
    SplicesCollapse(nodes, expanded, i);
  }
}
