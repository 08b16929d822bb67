// The file explorer's tree and its lazy index by URI (extension/src/host/fileExplorer.ts). A node of
// the trie under construction is addressed by its path from the root; the root's path is empty.
module FileTree {
  import opened Wrappers

  type Path = seq<string>

  datatype FileListItem = FileListItem(scope: string, uri: string, logicalPath: string)

  // ------------------------------------------------------------------ splitting

  function SplitFrom(s: string, word: string): seq<string> {
    if s == "" then [word]
    else if s[0] == '/' then [word] + SplitFrom(s[1..], "")
    else SplitFrom(s[1..], word + [s[0]])
  }

  function NonEmpty(segments: seq<string>): seq<string> {
    if segments == [] then []
    else (if segments[0] == "" then [] else [segments[0]]) + NonEmpty(segments[1..])
  }

  function PathOf(item: FileListItem): Path { NonEmpty(SplitFrom(item.scope + "/" + item.logicalPath, "")) }

  predicate IsSegment(s: string) { s != "" && '/' !in s }

  function Join(segments: seq<string>): string {
    if segments == [] then ""
    else if |segments| == 1 then segments[0]
    else segments[0] + "/" + Join(segments[1..])
  }

  lemma {:induction false} SplitIsLegal(s: string, word: string)
    requires '/' !in word
    ensures forall w | w in SplitFrom(s, word) :: '/' !in w
    decreases |s|
  {
    if s != "" {
      SplitIsLegal(s[1..], if s[0] == '/' then "" else word + [s[0]]);
    }
  }

  lemma {:induction false} NonEmptyKeeps(segments: seq<string>, w: string)
    ensures w in NonEmpty(segments) <==> w in segments && w != ""
  {
    if segments != [] {
      NonEmptyKeeps(segments[1..], w);
    }
  }

  lemma {:induction false} SplitSkips(w: string, rest: string, word: string)
    requires '/' !in w
    ensures SplitFrom(w + rest, word) == SplitFrom(rest, word + w)
    decreases |w|
  {
    if w == "" {
      assert w + rest == rest && word + w == word;
    } else {
      assert (w + rest)[1..] == w[1..] + rest && word + [w[0]] + w[1..] == word + w;
      SplitSkips(w[1..], rest, word + [w[0]]);
    }
  }

  lemma {:induction false} JoinedIsSplit(segments: seq<string>)
    requires segments != [] && forall s | s in segments :: IsSegment(s)
    ensures NonEmpty(SplitFrom(Join(segments), "")) == segments
    decreases |segments|
  {
    var first := segments[0];
    assert first in segments;
    if |segments| == 1 {
      SplitSkips(first, "", "");
      assert first + "" == first && "" + first == first;
      assert SplitFrom("", first) == [first];
      assert [first][1..] == [];
    } else {
      var rest := "/" + Join(segments[1..]);
      SplitSkips(first, rest, "");
      assert Join(segments) == first + rest && "" + first == first && rest[1..] == Join(segments[1..]);
      assert SplitFrom(rest, first) == [first] + SplitFrom(Join(segments[1..]), "");
      JoinedIsSplit(segments[1..]);
      assert ([first] + SplitFrom(Join(segments[1..]), ""))[1..] == SplitFrom(Join(segments[1..]), "");
    }
  }

  // A path has only proper segments, and an item given by proper segments has exactly those.
  lemma PathIsProper(item: FileListItem, segments: seq<string>)
    ensures forall s | s in PathOf(item) :: IsSegment(s)
    ensures (forall s | s in segments :: IsSegment(s)) && |segments| >= 2
              && item.scope == segments[0] && item.logicalPath == Join(segments[1..])
            ==> PathOf(item) == segments
  {
    var split := SplitFrom(item.scope + "/" + item.logicalPath, "");
    SplitIsLegal(item.scope + "/" + item.logicalPath, "");
    forall s | s in PathOf(item) ensures IsSegment(s) {
      NonEmptyKeeps(split, s);
    }
    if (forall s | s in segments :: IsSegment(s)) && |segments| >= 2 {
      JoinedIsSplit(segments);
    }
  }

  // ------------------------------------------------------------------ what the tree should be

  // The first item at or below a path: the one that creates its node.
  function Creator(arr: seq<FileListItem>, p: Path): (k: Option<nat>)
    ensures k.Some? ==> k.value < |arr| && p <= PathOf(arr[k.value])
    ensures k.Some? ==> forall j | 0 <= j < k.value :: !(p <= PathOf(arr[j]))
    ensures k.None? ==> forall j | 0 <= j < |arr| :: !(p <= PathOf(arr[j]))
  {
    if arr == [] then None
    else
      var k := Creator(arr[..|arr| - 1], p);
      if k.Some? then k
      else if p <= PathOf(arr[|arr| - 1]) then Some(|arr| - 1)
      else None
  }

  predicate Present(arr: seq<FileListItem>, p: Path) { p != [] && Creator(arr, p).Some? }

  predicate HasInside(arr: seq<FileListItem>, p: Path) {
    exists j | 0 <= j < |arr| :: p < PathOf(arr[j])
  }

  // A node keeps the URI of the item that created it as a leaf; one created on the way has none.
  function UriOf(arr: seq<FileListItem>, p: Path): string {
    var k := Creator(arr, p);
    if k.Some? && PathOf(arr[k.value]) == p then arr[k.value].uri else ""
  }

  datatype Info = Info(isDirectory: bool, uri: string)

  function Rank(arr: seq<FileListItem>, p: Path): nat {
    var k := Creator(arr, p);
    if k.Some? then k.value else |arr|
  }

  // Children in the order their first items come in, so no name twice.
  ghost predicate InOrder(arr: seq<FileListItem>, p: Path, names: seq<string>) {
    forall a, b | 0 <= a < b < |names| :: Rank(arr, p + [names[a]]) < Rank(arr, p + [names[b]])
  }

  ghost predicate Ordered(arr: seq<FileListItem>, children: map<Path, seq<string>>) {
    forall p | p in children :: InOrder(arr, p, children[p])
  }

  // Every node and the root list their children.
  ghost predicate Linked(nodes: map<Path, Info>, children: map<Path, seq<string>>) {
    && (forall p :: p in children <==> p == [] || p in nodes)
    && (forall p, s | p in children :: s in children[p] <==> p + [s] in nodes)
  }

  ghost predicate NodesFor(arr: seq<FileListItem>, nodes: map<Path, Info>) {
    && (forall p :: p in nodes <==> Present(arr, p))
    && (forall p | p in nodes :: nodes[p] == Info(HasInside(arr, p), UriOf(arr, p)))
  }

  ghost predicate TreeFor(arr: seq<FileListItem>, nodes: map<Path, Info>, children: map<Path, seq<string>>) {
    NodesFor(arr, nodes) && Linked(nodes, children) && Ordered(arr, children)
  }

  // ------------------------------------------------------------------ adding one item

  predicate Reached(path: Path, i: nat, p: Path) { p != [] && |p| <= i && p <= path }

  // A node when the first i segments of a path have been walked.
  function NodeAfter(arr: seq<FileListItem>, path: Path, uri: string, i: nat, p: Path): Info {
    Info(
      HasInside(arr, p) || (Reached(path, i, p) && p != path),
      if Present(arr, p) then UriOf(arr, p) else if p == path then uri else "")
  }

  ghost predicate Adding(arr: seq<FileListItem>, path: Path, uri: string, i: nat, nodes: map<Path, Info>) {
    && (forall p :: p in nodes <==> Present(arr, p) || Reached(path, i, p))
    && (forall p | p in nodes :: nodes[p] == NodeAfter(arr, path, uri, i, p))
  }

  lemma AddingStarts(arr: seq<FileListItem>, path: Path, uri: string, nodes: map<Path, Info>)
    requires NodesFor(arr, nodes)
    ensures Adding(arr, path, uri, 0, nodes)
  {
  }

  lemma PresentAbove(arr: seq<FileListItem>, p: Path, s: string)
    requires p != [] && Present(arr, p + [s])
    ensures Present(arr, p) && HasInside(arr, p)
  {
    var k := Creator(arr, p + [s]).value;
    assert p <= p + [s] <= PathOf(arr[k]);
    assert p < PathOf(arr[k]);
  }

  lemma CreatorOneMore(arr: seq<FileListItem>, obj: FileListItem, p: Path)
    ensures Creator(arr + [obj], p) ==
      if Creator(arr, p).Some? then Creator(arr, p) else if p <= PathOf(obj) then Some(|arr|) else None
  {
    assert (arr + [obj])[..|arr|] == arr;
  }

  lemma InsideOneMore(arr: seq<FileListItem>, obj: FileListItem, p: Path)
    ensures HasInside(arr + [obj], p) <==> HasInside(arr, p) || p < PathOf(obj)
  {
    assert (arr + [obj])[|arr|] == obj;
    assert forall j | 0 <= j < |arr| :: (arr + [obj])[j] == arr[j];
  }

  lemma OrderOneMore(arr: seq<FileListItem>, obj: FileListItem, p: Path, names: seq<string>)
    requires InOrder(arr, p, names)
    requires forall s | s in names :: Present(arr + [obj], p + [s])
    ensures InOrder(arr + [obj], p, names)
  {
    forall s | s in names
      ensures Rank(arr + [obj], p + [s]) == Rank(arr, p + [s])
    {
      CreatorOneMore(arr, obj, p + [s]);
    }
  }

  lemma NodeOneMore(arr: seq<FileListItem>, obj: FileListItem, p: Path)
    ensures Present(arr + [obj], p) <==> Present(arr, p) || Reached(PathOf(obj), |PathOf(obj)|, p)
    ensures Present(arr, p) ==> UriOf(arr + [obj], p) == UriOf(arr, p)
    ensures !Present(arr, p) && p != [] ==> UriOf(arr + [obj], p) == if p == PathOf(obj) then obj.uri else ""
    ensures HasInside(arr + [obj], p) <==> HasInside(arr, p) || p < PathOf(obj)
  {
    CreatorOneMore(arr, obj, p);
    InsideOneMore(arr, obj, p);
  }

  lemma AddingEnds(
    arr: seq<FileListItem>, obj: FileListItem, nodes: map<Path, Info>, children: map<Path, seq<string>>)
    requires Adding(arr, PathOf(obj), obj.uri, |PathOf(obj)|, nodes)
    requires Linked(nodes, children) && Ordered(arr, children)
    ensures TreeFor(arr + [obj], nodes, children)
  {
    forall p ensures p in nodes <==> Present(arr + [obj], p) {
      NodeOneMore(arr, obj, p);
    }
    forall p | p in nodes
      ensures nodes[p] == Info(HasInside(arr + [obj], p), UriOf(arr + [obj], p))
    {
      NodeOneMore(arr, obj, p);
    }
    forall p | p in children
      ensures InOrder(arr + [obj], p, children[p])
    {
      OrderOneMore(arr, obj, p, children[p]);
    }
  }

  // What one turn of the walk does to the tables.
  function WalkNodes(path: Path, uri: string, i: nat, nodes: map<Path, Info>): map<Path, Info>
    requires i < |path|
  {
    var q := path[..i + 1];
    var isLast := i == |path| - 1;
    if q !in nodes then nodes[q := Info(!isLast, if isLast then uri else "")]
    else if !isLast then nodes[q := nodes[q].(isDirectory := true)]
    else nodes
  }

  function AddChild(p: Path, s: string, children: map<Path, seq<string>>): map<Path, seq<string>>
    requires p in children
  {
    children[p := children[p] + [s]][p + [s] := []]
  }

  lemma ReachedOneMore(path: Path, i: nat, p: Path)
    requires i < |path|
    ensures Reached(path, i + 1, p) <==> Reached(path, i, p) || p == path[..i + 1]
  {
  }

  lemma NodeWalked(arr: seq<FileListItem>, path: Path, uri: string, i: nat, p: Path)
    requires i < |path|
    ensures p != path[..i + 1] ==> NodeAfter(arr, path, uri, i + 1, p) == NodeAfter(arr, path, uri, i, p)
    ensures p == path[..i + 1] ==>
              && NodeAfter(arr, path, uri, i + 1, p).uri == NodeAfter(arr, path, uri, i, p).uri
              && NodeAfter(arr, path, uri, i + 1, p).isDirectory
                 == (NodeAfter(arr, path, uri, i, p).isDirectory || p != path)
  {
    ReachedOneMore(path, i, p);
  }

  lemma NewNode(arr: seq<FileListItem>, path: Path, uri: string, i: nat)
    requires i < |path| && !Present(arr, path[..i + 1])
    ensures var isLast := i == |path| - 1;
            NodeAfter(arr, path, uri, i + 1, path[..i + 1]) == Info(!isLast, if isLast then uri else "")
  {
    var q := path[..i + 1];
    assert i + 1 == |path| <==> q == path;
    assert forall j | 0 <= j < |arr| :: q < PathOf(arr[j]) ==> q <= PathOf(arr[j]);
  }

  lemma WalkKeepsAdding(arr: seq<FileListItem>, path: Path, uri: string, i: nat, nodes: map<Path, Info>)
    requires i < |path| && Adding(arr, path, uri, i, nodes)
    ensures Adding(arr, path, uri, i + 1, WalkNodes(path, uri, i, nodes))
  {
    var q := path[..i + 1];
    var after := WalkNodes(path, uri, i, nodes);
    forall p ensures p in after <==> Present(arr, p) || Reached(path, i + 1, p) {
      ReachedOneMore(path, i, p);
    }
    forall p | p in after
      ensures after[p] == NodeAfter(arr, path, uri, i + 1, p)
    {
      NodeWalked(arr, path, uri, i, p);
      if p == q && q !in nodes {
        NewNode(arr, path, uri, i);
      }
    }
  }

  lemma WalkKeepsLinks(
    nodes: map<Path, Info>, after: map<Path, Info>, children: map<Path, seq<string>>, p: Path, s: string, q: Path)
    requires Linked(nodes, children) && p in children && q == p + [s] && q !in nodes
    requires after.Keys == nodes.Keys + {q} && forall t :: q + [t] !in nodes
    ensures Linked(after, AddChild(p, s, children))
  {
    var listed := AddChild(p, s, children);
    forall r, t | r in listed
      ensures t in listed[r] <==> r + [t] in after
    {
      if r == q {
        assert |r + [t]| != |q|;
      } else if r + [t] == q {
        assert r == q[..|p|] == p && t == q[|p|] == s;
      }
    }
  }

  lemma WalkKeepsOrder(
    arr: seq<FileListItem>, nodes: map<Path, Info>, children: map<Path, seq<string>>, p: Path, s: string)
    requires Ordered(arr, children) && p in children && !Present(arr, p + [s])
    requires forall t | t in children[p] :: Present(arr, p + [t])
    ensures Ordered(arr, AddChild(p, s, children))
  {
    assert Rank(arr, p + [s]) == |arr|;
    assert InOrder(arr, p, children[p] + [s]);
  }

  // When a node is new, so is everything under it, and its siblings come from earlier items.
  lemma NewNodeStandsAlone(arr: seq<FileListItem>, path: Path, uri: string, i: nat, nodes: map<Path, Info>)
    requires i < |path| && Adding(arr, path, uri, i, nodes) && path[..i + 1] !in nodes
    ensures !Present(arr, path[..i + 1])
    ensures forall t :: path[..i + 1] + [t] !in nodes
    ensures forall t | path[..i] + [t] in nodes :: Present(arr, path[..i] + [t])
  {
    var q := path[..i + 1];
    forall t ensures q + [t] !in nodes {
      if Present(arr, q + [t]) {
        PresentAbove(arr, q, t);
      }
    }
    forall t | path[..i] + [t] in nodes
      ensures Present(arr, path[..i] + [t])
    {
      assert |path[..i] + [t]| == i + 1;
    }
  }

  // The tables when the first i segments of a path have been walked.
  ghost predicate Walking(
    arr: seq<FileListItem>, path: Path, uri: string, i: nat, nodes: map<Path, Info>, children: map<Path, seq<string>>)
  {
    && i <= |path| && path[..i] in children
    && Adding(arr, path, uri, i, nodes) && Linked(nodes, children) && Ordered(arr, children)
  }

  lemma WalkMakesNode(
    arr: seq<FileListItem>, path: Path, uri: string, i: nat, nodes: map<Path, Info>, children: map<Path, seq<string>>)
    requires i < |path| && Walking(arr, path, uri, i, nodes, children) && path[..i + 1] !in nodes
    ensures Walking(arr, path, uri, i + 1, WalkNodes(path, uri, i, nodes), AddChild(path[..i], path[i], children))
  {
    WalkKeepsAdding(arr, path, uri, i, nodes);
    NewNodeStandsAlone(arr, path, uri, i, nodes);
    WalkAddsKey(path, uri, i, nodes);
    LongerPath(path, i);
    NewNodeIsListed(arr, nodes, WalkNodes(path, uri, i, nodes), children, path[..i], path[i], path[..i + 1]);
  }

  lemma WalkAddsKey(path: Path, uri: string, i: nat, nodes: map<Path, Info>)
    requires i < |path|
    ensures WalkNodes(path, uri, i, nodes).Keys == nodes.Keys + {path[..i + 1]}
  {
  }

  lemma LongerPath(path: Path, i: nat)
    requires i < |path|
    ensures path[..i + 1] == path[..i] + [path[i]]
  {
  }

  lemma NewNodeIsListed(
    arr: seq<FileListItem>, nodes: map<Path, Info>, after: map<Path, Info>, children: map<Path, seq<string>>, p: Path,
    s: string, q: Path)
    requires Linked(nodes, children) && Ordered(arr, children) && p in children && q == p + [s] && q !in nodes
    requires after.Keys == nodes.Keys + {q} && !Present(arr, q)
    requires forall t :: q + [t] !in nodes
    requires forall t | p + [t] in nodes :: Present(arr, p + [t])
    ensures Linked(after, AddChild(p, s, children)) && Ordered(arr, AddChild(p, s, children))
    ensures q in AddChild(p, s, children)
  {
    WalkKeepsLinks(nodes, after, children, p, s, q);
    WalkKeepsOrder(arr, nodes, children, p, s);
  }

  lemma WalkMeetsNode(
    arr: seq<FileListItem>, path: Path, uri: string, i: nat, nodes: map<Path, Info>, children: map<Path, seq<string>>)
    requires i < |path| && Walking(arr, path, uri, i, nodes, children) && path[..i + 1] in nodes
    ensures Walking(arr, path, uri, i + 1, WalkNodes(path, uri, i, nodes), children)
  {
    WalkKeepsAdding(arr, path, uri, i, nodes);
  }

  // The trie while items are added. `added` holds the items so far.
  class TreeBuilder {
    var nodes: map<Path, Info>
    var children: map<Path, seq<string>>
    ghost var added: seq<FileListItem>

    ghost predicate Valid()
      reads this
    {
      TreeFor(added, nodes, children)
    }

    constructor ()
      ensures Valid() && added == []
    {
      nodes, children, added := map[], map[[] := []], [];
    }

    method AddNode(obj: FileListItem)
      requires Valid()
      modifies this
      ensures Valid() && added == old(added) + [obj]
    {
      var splitPath := PathOf(obj);
      AddingStarts(added, splitPath, obj.uri, nodes);
      for i := 0 to |splitPath|
        invariant added == old(added) && Walking(added, splitPath, obj.uri, i, nodes, children)
      {
        Step(splitPath, obj.uri, i);
      }
      AddingEnds(added, obj, nodes, children);
      added := added + [obj];
    }

    // One turn of the loop: the node below the first i segments is made or made a directory.
    method Step(path: Path, uri: string, i: nat)
      requires i < |path| && Walking(added, path, uri, i, nodes, children)
      modifies this`nodes, this`children
      ensures nodes == WalkNodes(path, uri, i, old(nodes))
      ensures Walking(added, path, uri, i + 1, nodes, children)
    {
      var ptr := path[..i];
      var below := path[..i + 1];
      var isLastSegment := i == |path| - 1;
      if below !in nodes {
        WalkMakesNode(added, path, uri, i, nodes, children);
        nodes := nodes[below := Info(!isLastSegment, if isLastSegment then uri else "")];
        children := AddChild(ptr, path[i], children);
      } else {
        WalkMeetsNode(added, path, uri, i, nodes, children);
        if !isLastSegment {
          nodes := nodes[below := nodes[below].(isDirectory := true)];
        }
      }
    }
  }
}
