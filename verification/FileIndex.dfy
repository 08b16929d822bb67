// The finished tree of the file explorer, its index by URI, and the provider that keeps them
// (extension/src/host/fileExplorer.ts).
module FileIndex {
  import opened FileTree
  import opened Wrappers

  datatype TreeNode = TreeNode(fileName: string, isDirectory: bool, uri: string, children: seq<TreeNode>)

  // ------------------------------------------------------------------ from the tables to the tree

  // What the conversion needs: children are nodes, and no path is longer than `limit`.
  ghost predicate Convertible(nodes: map<Path, Info>, children: map<Path, seq<string>>, limit: nat) {
    && (forall p, s | p in children && s in children[p] :: p + [s] in nodes && p + [s] in children)
    && (forall p | p in nodes :: |p| <= limit)
  }

  function Convert(
    nodes: map<Path, Info>, children: map<Path, seq<string>>, ghost limit: nat, p: Path, name: string): TreeNode
    requires Convertible(nodes, children, limit)
    requires p + [name] in nodes && p + [name] in children
    decreases limit - |p|, 0
  {
    var path := p + [name];
    TreeNode(name, nodes[path].isDirectory, nodes[path].uri, ConvertAll(nodes, children, limit, path, children[path]))
  }

  function ConvertAll(
    nodes: map<Path, Info>, children: map<Path, seq<string>>, ghost limit: nat, p: Path, names: seq<string>)
    : seq<TreeNode>
    requires Convertible(nodes, children, limit) && |p| <= limit
    requires forall s | s in names :: p + [s] in nodes && p + [s] in children
    decreases limit - |p|, 1
  {
    seq(|names|, i requires 0 <= i < |names| => Convert(nodes, children, limit, p, names[i]))
  }

  ghost function LongestPath(arr: seq<FileListItem>): (limit: nat)
    ensures forall k | 0 <= k < |arr| :: |PathOf(arr[k])| <= limit
  {
    if arr == [] then 0
    else
      var limit := LongestPath(arr[..|arr| - 1]);
      if |PathOf(arr[|arr| - 1])| > limit then |PathOf(arr[|arr| - 1])| else limit
  }

  lemma TreeIsConvertible(arr: seq<FileListItem>, nodes: map<Path, Info>, children: map<Path, seq<string>>)
    requires TreeFor(arr, nodes, children)
    ensures Convertible(nodes, children, LongestPath(arr))
  {
    forall p | p in nodes ensures |p| <= LongestPath(arr) {
      assert Present(arr, p);
    }
  }

  // The forest holds, in the order of their first items, exactly the nodes the items call for.
  ghost predicate ForestFor(arr: seq<FileListItem>, p: Path, forest: seq<TreeNode>)
    decreases forest
  {
    && (forall s :: (exists i | 0 <= i < |forest| :: forest[i].fileName == s) <==> Present(arr, p + [s]))
    && (forall i, j | 0 <= i < j < |forest| ::
          Rank(arr, p + [forest[i].fileName]) < Rank(arr, p + [forest[j].fileName]))
    && (forall i | 0 <= i < |forest| :: NodeFor(arr, p + [forest[i].fileName], forest[i]))
  }

  ghost predicate NodeFor(arr: seq<FileListItem>, p: Path, node: TreeNode)
    decreases node
  {
    && node.isDirectory == HasInside(arr, p)
    && node.uri == UriOf(arr, p)
    && ForestFor(arr, p, node.children)
  }

  lemma ForestFromNames(arr: seq<FileListItem>, p: Path, names: seq<string>, forest: seq<TreeNode>)
    requires |forest| == |names| && forall i | 0 <= i < |names| :: forest[i].fileName == names[i]
    requires InOrder(arr, p, names) && forall s :: s in names <==> Present(arr, p + [s])
    requires forall i | 0 <= i < |names| :: NodeFor(arr, p + [names[i]], forest[i])
    ensures ForestFor(arr, p, forest)
  {
    forall s
      ensures (exists i | 0 <= i < |forest| :: forest[i].fileName == s) <==> Present(arr, p + [s])
    {
      if s in names {
        var i :| 0 <= i < |names| && names[i] == s;
        assert forest[i].fileName == s;
      }
    }
  }

  lemma {:induction false} ForestIsRight(
    arr: seq<FileListItem>, nodes: map<Path, Info>, children: map<Path, seq<string>>, limit: nat, p: Path)
    requires TreeFor(arr, nodes, children) && Convertible(nodes, children, limit)
    requires p in children && |p| <= limit
    ensures ForestFor(arr, p, ConvertAll(nodes, children, limit, p, children[p]))
    decreases limit - |p|, 1
  {
    var names := children[p];
    assert InOrder(arr, p, names);
    forall i | 0 <= i < |names|
      ensures NodeFor(arr, p + [names[i]], Convert(nodes, children, limit, p, names[i]))
    {
      NodeIsRight(arr, nodes, children, limit, p, names[i]);
    }
    ForestFromNames(arr, p, names, ConvertAll(nodes, children, limit, p, names));
  }

  lemma {:induction false} NodeIsRight(
    arr: seq<FileListItem>, nodes: map<Path, Info>, children: map<Path, seq<string>>, limit: nat, p: Path, name: string)
    requires TreeFor(arr, nodes, children) && Convertible(nodes, children, limit)
    requires p + [name] in nodes && p + [name] in children
    ensures NodeFor(arr, p + [name], Convert(nodes, children, limit, p, name))
    decreases limit - |p|, 0
  {
    ForestIsRight(arr, nodes, children, limit, p + [name]);
  }

  method FilesToTreeNodes(arr: seq<FileListItem>) returns (forest: seq<TreeNode>)
    ensures ForestFor(arr, [], forest)
  {
    var tree := new TreeBuilder();
    for i := 0 to |arr|
      invariant fresh(tree) && tree.Valid() && tree.added == arr[..i]
    {
      tree.AddNode(arr[i]);
    }
    assert arr[..|arr|] == arr;
    TreeIsConvertible(arr, tree.nodes, tree.children);
    ForestIsRight(arr, tree.nodes, tree.children, LongestPath(arr), []);
    forest := ConvertAll(tree.nodes, tree.children, LongestPath(arr), [], tree.children[[]]);
  }

  // ------------------------------------------------------------------ leaves and the index

  function Size(forest: seq<TreeNode>): nat {
    if forest == [] then 0
    else Size(forest[..|forest| - 1]) + 1 + Size(forest[|forest| - 1].children)
  }

  // The leaves in tree order.
  function Leaves(forest: seq<TreeNode>): seq<TreeNode> {
    if forest == [] then []
    else
      var last := forest[|forest| - 1];
      Leaves(forest[..|forest| - 1]) + if last.isDirectory then Leaves(last.children) else [last]
  }

  // Of the leaves with one key the last in tree order is kept.
  function IndexOf(key: string -> string, leaves: seq<TreeNode>): map<string, TreeNode> {
    if leaves == [] then map[]
    else
      IndexOf(key, leaves[..|leaves| - 1])[key(leaves[|leaves| - 1].uri) := leaves[|leaves| - 1]]
  }

  lemma {:induction false} LeavesConcat(a: seq<TreeNode>, b: seq<TreeNode>)
    ensures Leaves(a + b) == Leaves(a) + Leaves(b) && Size(a + b) == Size(a) + Size(b)
    decreases |b|
  {
    if b == [] {
      assert a + b == a;
    } else {
      LeavesConcat(a, b[..|b| - 1]);
      assert (a + b)[..|a + b| - 1] == a + b[..|b| - 1] && (a + b)[|a + b| - 1] == b[|b| - 1];
    }
  }

  // Whether the walk takes a node before or after another it has met decides which one is kept.
  ghost predicate Indexing(
    key: string -> string, forest: seq<TreeNode>, stack: seq<TreeNode>, byUri: map<string, TreeNode>)
  {
    IndexOf(key, Leaves(stack)) + byUri == IndexOf(key, Leaves(forest))
  }

  lemma LateEntryYields<T>(below: map<string, T>, above: map<string, T>, k: string, x: T)
    ensures below[k := x] + above == below + if k in above then above else above[k := x]
  {
  }

  lemma LeafKeepsIndexing(
    key: string -> string, forest: seq<TreeNode>, rest: seq<TreeNode>, leaf: TreeNode, byUri: map<string, TreeNode>)
    requires Indexing(key, forest, rest + [leaf], byUri) && !leaf.isDirectory
    ensures Indexing(key, forest, rest, if key(leaf.uri) in byUri then byUri else byUri[key(leaf.uri) := leaf])
  {
    var stack := rest + [leaf];
    assert stack[..|stack| - 1] == rest;
    assert Leaves(stack)[..|Leaves(stack)| - 1] == Leaves(rest);
    assert Leaves(stack)[|Leaves(stack)| - 1] == leaf;
    LateEntryYields(IndexOf(key, Leaves(rest)), byUri, key(leaf.uri), leaf);
  }

  lemma DirectoryKeepsIndexing(
    key: string -> string, forest: seq<TreeNode>, rest: seq<TreeNode>, dir: TreeNode, byUri: map<string, TreeNode>)
    requires Indexing(key, forest, rest + [dir], byUri) && dir.isDirectory
    ensures Indexing(key, forest, rest + dir.children, byUri)
    ensures Size(rest + dir.children) < Size(rest + [dir])
  {
    assert (rest + [dir])[..|rest|] == rest;
    LeavesConcat(rest, dir.children);
  }

  class FilesProvider {
    // How a URI is spelled for the index; the query comes in that spelling.
    const uriKey: string -> string
    var tree: seq<TreeNode>
    var byUri: Option<map<string, TreeNode>>

    ghost predicate Valid()
      reads this
    {
      byUri.Some? ==> byUri.value == IndexOf(uriKey, Leaves(tree))
    }

    constructor (uriKey: string -> string, files: seq<FileListItem>)
      ensures Valid() && this.uriKey == uriKey && ForestFor(files, [], tree)
    {
      this.uriKey := uriKey;
      tree := [];
      byUri := None;
      new;
      ParseTree(files);
    }

    method ParseTree(files: seq<FileListItem>)
      modifies this
      ensures Valid() && ForestFor(files, [], tree) && byUri == None
    {
      tree := FilesToTreeNodes(files);
      byUri := None;
    }

    method Refresh(files: seq<FileListItem>)
      modifies this
      ensures Valid() && ForestFor(files, [], tree)
    {
      ParseTree(files);
    }

    method UriIndex() returns (index: map<string, TreeNode>)
      requires Valid()
      modifies this`byUri
      ensures Valid() && index == IndexOf(uriKey, Leaves(tree)) && byUri == Some(index)
    {
      if byUri.Some? {
        return byUri.value;
      }
      index := map[];
      var stack := tree;
      while stack != []
        invariant Indexing(uriKey, tree, stack, index)
        decreases Size(stack)
      {
        var node := stack[|stack| - 1];
        var rest := stack[..|stack| - 1];
        assert stack == rest + [node];
        if node.isDirectory {
          DirectoryKeepsIndexing(uriKey, tree, rest, node, index);
          stack := rest + node.children;
        } else {
          LeafKeepsIndexing(uriKey, tree, rest, node, index);
          if uriKey(node.uri) !in index {
            index := index[uriKey(node.uri) := node];
          }
          stack := rest;
        }
      }
      byUri := Some(index);
    }

    method FindNodeByUri(query: string) returns (node: Option<TreeNode>)
      requires Valid()
      modifies this`byUri
      ensures Valid()
      ensures node == Lookup(IndexOf(uriKey, Leaves(tree)), query)
    {
      var index := UriIndex();
      node := if query in index then Some(index[query]) else None;
    }
  }

  function Lookup(index: map<string, TreeNode>, query: string): Option<TreeNode> {
    if query in index then Some(index[query]) else None
  }

  // ------------------------------------------------------------------ what is found

  lemma {:induction false} IndexHolds(key: string -> string, leaves: seq<TreeNode>, query: string)
    ensures query in IndexOf(key, leaves) <==> exists n | n in leaves :: key(n.uri) == query
    ensures query in IndexOf(key, leaves) ==>
      IndexOf(key, leaves)[query] in leaves && key(IndexOf(key, leaves)[query].uri) == query
  {
    if leaves != [] {
      IndexHolds(key, leaves[..|leaves| - 1], query);
      assert leaves == leaves[..|leaves| - 1] + [leaves[|leaves| - 1]];
    }
  }

  // A path of the tree at which nothing lies further down.
  ghost predicate IsLeafPath(arr: seq<FileListItem>, p: Path) { Present(arr, p) && !HasInside(arr, p) }

  predicate Names(node: TreeNode, arr: seq<FileListItem>, p: Path) {
    p != [] && node.fileName == p[|p| - 1] && node.uri == UriOf(arr, p) && !node.isDirectory
  }

  ghost predicate Placed(arr: seq<FileListItem>, p: Path, forest: seq<TreeNode>) {
    forall i | 0 <= i < |forest| ::
      Present(arr, p + [forest[i].fileName]) && NodeFor(arr, p + [forest[i].fileName], forest[i])
  }

  lemma ForestIsPlaced(arr: seq<FileListItem>, p: Path, forest: seq<TreeNode>)
    requires ForestFor(arr, p, forest)
    ensures Placed(arr, p, forest)
  {
  }

  lemma {:induction false} LeafComesFrom(arr: seq<FileListItem>, p: Path, forest: seq<TreeNode>, n: TreeNode)
    returns (q: Path)
    requires n in Leaves(forest) && Placed(arr, p, forest)
    ensures p < q && IsLeafPath(arr, q) && Names(n, arr, q)
    decreases forest
  {
    var last := forest[|forest| - 1];
    assert NodeFor(arr, p + [last.fileName], last);
    if n in Leaves(forest[..|forest| - 1]) {
      q := LeafComesFrom(arr, p, forest[..|forest| - 1], n);
    } else if last.isDirectory {
      ForestIsPlaced(arr, p + [last.fileName], last.children);
      q := LeafComesFrom(arr, p + [last.fileName], last.children, n);
    } else {
      q := p + [last.fileName];
    }
  }

  lemma {:induction false} LeavesOf(forest: seq<TreeNode>, i: nat, n: TreeNode)
    requires i < |forest|
    requires if forest[i].isDirectory then n in Leaves(forest[i].children) else n == forest[i]
    ensures n in Leaves(forest)
  {
    if i < |forest| - 1 {
      LeavesOf(forest[..|forest| - 1], i, n);
    }
  }

  lemma PresentPrefix(arr: seq<FileListItem>, p: Path, q: Path)
    requires p != [] && p <= q && Present(arr, q)
    ensures Present(arr, p) && (p != q ==> HasInside(arr, p))
  {
    var k := Creator(arr, q).value;
    assert p <= PathOf(arr[k]);
    assert p != q ==> p < PathOf(arr[k]);
  }

  lemma {:induction false} LeafIsFound(arr: seq<FileListItem>, p: Path, forest: seq<TreeNode>, q: Path)
    returns (n: TreeNode)
    requires ForestFor(arr, p, forest) && p < q && IsLeafPath(arr, q)
    ensures n in Leaves(forest) && Names(n, arr, q)
    decreases |q| - |p|
  {
    var s := q[|p|];
    assert p + [s] == q[..|p| + 1];
    PresentPrefix(arr, p + [s], q);
    var i :| 0 <= i < |forest| && forest[i].fileName == s;
    if p + [s] == q {
      n := forest[i];
    } else {
      n := LeafIsFound(arr, p + [s], forest[i].children, q);
    }
    LeavesOf(forest, i, n);
  }

  // End to end: a query finds a node exactly when some path of the list has nothing below it and a
  // URI of that key, and the node found is the one of such a path.
  lemma FoundExactly(key: string -> string, arr: seq<FileListItem>, forest: seq<TreeNode>, query: string)
    requires ForestFor(arr, [], forest)
    ensures var found := Lookup(IndexOf(key, Leaves(forest)), query);
            && (found.Some? <==> exists q :: IsLeafPath(arr, q) && key(UriOf(arr, q)) == query)
            && (found.Some? ==>
                  exists q :: IsLeafPath(arr, q) && Names(found.value, arr, q) && key(UriOf(arr, q)) == query)
  {
    var leaves := Leaves(forest);
    IndexHolds(key, leaves, query);
    var found := Lookup(IndexOf(key, leaves), query);
    if found.Some? {
      ForestIsPlaced(arr, [], forest);
      var q := LeafComesFrom(arr, [], forest, found.value);
    }
    if q :| IsLeafPath(arr, q) && key(UriOf(arr, q)) == query {
      var n := LeafIsFound(arr, [], forest, q);
    }
  }

  // Siblings never share a name, at any depth of the tree.
  lemma {:induction false} SiblingsDiffer(arr: seq<FileListItem>, p: Path, forest: seq<TreeNode>, i: nat, j: nat)
    requires ForestFor(arr, p, forest) && i < j < |forest|
    ensures forest[i].fileName != forest[j].fileName
  {
    assert Rank(arr, p + [forest[i].fileName]) < Rank(arr, p + [forest[j].fileName]);
  }

  // A leaf shown in the tree names a file of the list: the first item of exactly its path.
  lemma LeafIsListed(arr: seq<FileListItem>, p: Path)
    requires IsLeafPath(arr, p)
    ensures exists k | 0 <= k < |arr| ::
              && PathOf(arr[k]) == p && UriOf(arr, p) == arr[k].uri
              && forall j | 0 <= j < k :: PathOf(arr[j]) != p
  {
    var k := Creator(arr, p).value;
    assert !(p < PathOf(arr[k]));
  }

  // Two names under one path that first come with the same item are the same name.
  lemma RankIsName(arr: seq<FileListItem>, p: Path, s: string, t: string)
    requires Present(arr, p + [s]) && Present(arr, p + [t]) && Rank(arr, p + [s]) == Rank(arr, p + [t])
    ensures s == t
  {
    var path := PathOf(arr[Rank(arr, p + [s])]);
    assert s == (p + [s])[|p|] == path[|p|] == (p + [t])[|p|] == t;
  }

  ghost predicate Increasing(s: seq<nat>) { forall i, j | 0 <= i < j < |s| :: s[i] < s[j] }

  lemma LastIsGreatest(s: seq<nat>, x: nat)
    requires Increasing(s) && s != []
    ensures x in s ==> x <= s[|s| - 1]
    ensures x in s[..|s| - 1] <==> x in s && x != s[|s| - 1]
  {
    assert s == s[..|s| - 1] + [s[|s| - 1]];
  }

  lemma {:induction false} IncreasingIsUnique(s: seq<nat>, t: seq<nat>)
    requires Increasing(s) && Increasing(t) && forall x: nat :: x in s <==> x in t
    ensures s == t
  {
    assert s != [] ==> s[0] in t;
    assert t != [] ==> t[0] in s;
    if s != [] {
      var front, rest := s[..|s| - 1], t[..|t| - 1];
      assert s[|s| - 1] in t && t[|t| - 1] in s;
      LastIsGreatest(s, t[|t| - 1]);
      LastIsGreatest(t, s[|s| - 1]);
      forall x: nat ensures x in front <==> x in rest {
        LastIsGreatest(s, x);
        LastIsGreatest(t, x);
      }
      IncreasingIsUnique(front, rest);
    }
  }

  ghost function Ranks(arr: seq<FileListItem>, p: Path, forest: seq<TreeNode>): seq<nat> {
    seq(|forest|, i requires 0 <= i < |forest| => Rank(arr, p + [forest[i].fileName]))
  }

  lemma RanksAgree(arr: seq<FileListItem>, p: Path, a: seq<TreeNode>, b: seq<TreeNode>, x: nat)
    requires ForestFor(arr, p, a) && ForestFor(arr, p, b) && x in Ranks(arr, p, a)
    ensures x in Ranks(arr, p, b)
  {
    var i :| 0 <= i < |a| && Ranks(arr, p, a)[i] == x;
    assert Present(arr, p + [a[i].fileName]);
    var j :| 0 <= j < |b| && b[j].fileName == a[i].fileName;
    assert Ranks(arr, p, b)[j] == x;
  }

  lemma SameNames(arr: seq<FileListItem>, p: Path, a: seq<TreeNode>, b: seq<TreeNode>)
    requires ForestFor(arr, p, a) && ForestFor(arr, p, b)
    ensures |a| == |b| && forall i | 0 <= i < |a| :: a[i].fileName == b[i].fileName
  {
    forall x: nat ensures x in Ranks(arr, p, a) <==> x in Ranks(arr, p, b) {
      if x in Ranks(arr, p, a) { RanksAgree(arr, p, a, b, x); }
      if x in Ranks(arr, p, b) { RanksAgree(arr, p, b, a, x); }
    }
    IncreasingIsUnique(Ranks(arr, p, a), Ranks(arr, p, b));
    assert |Ranks(arr, p, a)| == |Ranks(arr, p, b)|;
    forall i | 0 <= i < |a|
      ensures a[i].fileName == b[i].fileName
    {
      assert Ranks(arr, p, a)[i] == Ranks(arr, p, b)[i];
      RankIsName(arr, p, a[i].fileName, b[i].fileName);
    }
  }

  // The list determines the forest: names, order, kinds and URIs at every depth.
  lemma {:induction false} ForestIsUnique(arr: seq<FileListItem>, p: Path, a: seq<TreeNode>, b: seq<TreeNode>)
    requires ForestFor(arr, p, a) && ForestFor(arr, p, b)
    ensures a == b
    decreases a
  {
    SameNames(arr, p, a, b);
    forall i | 0 <= i < |a|
      ensures a[i] == b[i]
    {
      assert NodeFor(arr, p + [a[i].fileName], a[i]) && NodeFor(arr, p + [b[i].fileName], b[i]);
      ForestIsUnique(arr, p + [a[i].fileName], a[i].children, b[i].children);
    }
  }
}
