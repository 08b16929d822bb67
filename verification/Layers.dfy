// Which files of the parent mods a primary mod still sees (visible_parent_files in the driver,
// LayerShadow in the file manager).
module Layers {
  import opened Text

  // ------------------------------------------------------------------ paths

  function NormalizeChar(c: char): char { if c == '\\' then '/' else LowerAscii(c) }

  // Slashes forward and ASCII letters lowered, the way the game compares paths.
  function Normalize(path: string): string {
    seq(|path|, i requires 0 <= i < |path| => NormalizeChar(path[i]))
  }

  function TrimSlashes(s: string): string {
    if s != "" && s[0] == '/' then TrimSlashes(s[1..])
    else if s != "" && s[|s| - 1] == '/' then TrimSlashes(s[..|s| - 1])
    else s
  }

  function ReplacePathPrefix(replacePath: string): string { TrimSlashes(Normalize(replacePath)) }

  // A `replace_path` covers the files directly in its directory, not those further down.
  predicate ReplacePathCovers(prefix: string, lower: string) {
    && prefix <= lower
    && var rest := lower[|prefix|..];
    && |rest| > 1 && rest[0] == '/' && '/' !in rest[1..]
  }

  // The same character of a path: either slash, and letters whatever their case.
  predicate SameInPath(c: char, d: char) {
    SameLetter(c, d) || (c in "/\\" && d in "/\\")
  }

  // Two paths are taken for one exactly when they agree character by character.
  lemma NormalizeExactly(p: string, q: string)
    ensures Normalize(p) == Normalize(q) <==> |p| == |q| && forall i | 0 <= i < |p| :: SameInPath(p[i], q[i])
  {
    if |p| == |q| && forall i | 0 <= i < |p| :: SameInPath(p[i], q[i]) {
      forall i | 0 <= i < |p| ensures Normalize(p)[i] == Normalize(q)[i] {
      }
    }
    if Normalize(p) == Normalize(q) {
      forall i | 0 <= i < |p| ensures SameInPath(p[i], q[i]) {
        assert Normalize(p)[i] == Normalize(q)[i];
      }
    }
  }

  predicate OnlySlashes(s: string) { forall c | c in s :: c == '/' }

  lemma {:induction false} SlashesTrimmed(s: string) returns (lead: string, tail: string)
    ensures s == lead + TrimSlashes(s) + tail && OnlySlashes(lead) && OnlySlashes(tail)
    ensures TrimSlashes(s) == "" || (TrimSlashes(s)[0] != '/' && TrimSlashes(s)[|TrimSlashes(s)| - 1] != '/')
    decreases |s|
  {
    lead, tail := "", "";
    if s != "" && s[0] == '/' {
      lead, tail := SlashesTrimmed(s[1..]);
      lead := ['/'] + lead;
    } else if s != "" && s[|s| - 1] == '/' {
      lead, tail := SlashesTrimmed(s[..|s| - 1]);
      tail := tail + ['/'];
      assert s == s[..|s| - 1] + ['/'];
    }
  }

  // A `replace_path` hides a path exactly when the path is its directory, slashes around it aside, a slash
  // and the name of a file.
  lemma CoversDirectFiles(replacePath: string, path: string) returns (lead: string, directory: string, tail: string)
    ensures Normalize(replacePath) == lead + directory + tail && OnlySlashes(lead) && OnlySlashes(tail)
    ensures directory == "" || (directory[0] != '/' && directory[|directory| - 1] != '/')
    ensures ReplacePathCovers(ReplacePathPrefix(replacePath), path) <==>
              exists name :: name != "" && '/' !in name && path == directory + "/" + name
  {
    lead, tail := SlashesTrimmed(Normalize(replacePath));
    directory := ReplacePathPrefix(replacePath);
    if ReplacePathCovers(directory, path) {
      var name := path[|directory| + 1..];
      assert path == directory + "/" + name;
    }
    if name :| name != "" && '/' !in name && path == directory + "/" + name {
      assert path[|directory|..] == "/" + name;
      assert path[|directory|..][1..] == name;
    }
  }

  // ------------------------------------------------------------------ the shadow

  datatype File = File(id: nat, logicalPath: string)

  datatype Layer = Layer(files: seq<File>, replacePaths: seq<string>)

  predicate HiddenBy(claimed: set<string>, replaced: seq<string>, logicalPath: string) {
    var lower := Normalize(logicalPath);
    lower in claimed || exists prefix | prefix in replaced :: ReplacePathCovers(prefix, lower)
  }

  function Normalized(logicalPaths: seq<string>): set<string> { set p | p in logicalPaths :: Normalize(p) }

  class LayerShadow {
    var claimed: set<string>
    var replaced: seq<string>

    constructor ()
      ensures claimed == {} && replaced == []
    {
      claimed := {};
      replaced := [];
    }

    method Hides(logicalPath: string) returns (r: bool)
      ensures r <==> HiddenBy(claimed, replaced, logicalPath)
    {
      var lower := Normalize(logicalPath);
      r := lower in claimed;
      for i := 0 to |replaced|
        invariant r <==> lower in claimed || exists prefix | prefix in replaced[..i] :: ReplacePathCovers(prefix, lower)
      {
        assert replaced[..i + 1] == replaced[..i] + [replaced[i]];
        r := r || ReplacePathCovers(replaced[i], lower);
      }
      assert replaced[..|replaced|] == replaced;
    }

    method Claim(logicalPaths: seq<string>, replacePaths: seq<string>)
      modifies this
      ensures claimed == old(claimed) + Normalized(logicalPaths)
      ensures replaced == old(replaced) + Prefixes(replacePaths)
    {
      claimed := claimed + Normalized(logicalPaths);
      replaced := replaced + Prefixes(replacePaths);
    }
  }

  function Prefixes(replacePaths: seq<string>): seq<string> {
    seq(|replacePaths|, i requires 0 <= i < |replacePaths| => ReplacePathPrefix(replacePaths[i]))
  }

  function Paths(files: seq<File>): seq<string> {
    seq(|files|, i requires 0 <= i < |files| => files[i].logicalPath)
  }

  // ------------------------------------------------------------------ the declarative rule

  // The layer has a file of the same logical path or replaces the directory the path is in. Whether
  // that file is itself visible does not matter.
  predicate Covers(layer: Layer, path: string) {
    || (exists f | f in layer.files :: Normalize(f.logicalPath) == Normalize(path))
    || (exists rp | rp in layer.replacePaths :: ReplacePathCovers(ReplacePathPrefix(rp), Normalize(path)))
  }

  // `above` are the layers loaded later, the primary included.
  predicate Hidden(above: seq<Layer>, path: string) {
    exists layer | layer in above :: Covers(layer, path)
  }

  function Filter(files: seq<File>, above: seq<Layer>): seq<File> {
    if files == [] then []
    else
      var last := files[|files| - 1];
      Filter(files[..|files| - 1], above) + if Hidden(above, last.logicalPath) then [] else [last]
  }

  // The visible files of all parents in load order; each parent sees the parents after it and the
  // primary above itself.
  function Visible(parents: seq<Layer>, primary: Layer): seq<File> {
    if parents == [] then []
    else Filter(parents[0].files, parents[1..] + [primary]) + Visible(parents[1..], primary)
  }

  // ------------------------------------------------------------------ the reverse pass

  // The shadow hides exactly what the layers above hide.
  ghost predicate Shadows(claimed: set<string>, replaced: seq<string>, above: seq<Layer>) {
    forall path :: HiddenBy(claimed, replaced, path) <==> Hidden(above, path)
  }

  lemma {:induction false} FilterKeeps(files: seq<File>, above: seq<Layer>, f: File)
    ensures f in Filter(files, above) <==> f in files && !Hidden(above, f.logicalPath)
  {
    if files != [] {
      FilterKeeps(files[..|files| - 1], above, f);
      assert files == files[..|files| - 1] + [files[|files| - 1]];
    }
  }

  lemma HiddenAlike(above: seq<Layer>, p: string, q: string)
    requires Normalize(p) == Normalize(q)
    ensures Hidden(above, p) <==> Hidden(above, q)
  {
  }

  lemma HiddenOneMore(layer: Layer, above: seq<Layer>, path: string)
    ensures Hidden([layer] + above, path) <==> Covers(layer, path) || Hidden(above, path)
  {
    assert ([layer] + above)[0] == layer;
    if layer' :| layer' in above && Covers(layer', path) {
      assert layer' in [layer] + above;
    }
  }

  lemma PrefixesCover(replacePaths: seq<string>, path: string)
    ensures (exists prefix | prefix in Prefixes(replacePaths) :: ReplacePathCovers(prefix, Normalize(path)))
       <==> (exists rp | rp in replacePaths :: ReplacePathCovers(ReplacePathPrefix(rp), Normalize(path)))
  {
    if rp :| rp in replacePaths && ReplacePathCovers(ReplacePathPrefix(rp), Normalize(path)) {
      var i :| 0 <= i < |replacePaths| && replacePaths[i] == rp;
      assert Prefixes(replacePaths)[i] == ReplacePathPrefix(rp);
    }
  }

  lemma ClaimedOneMore(claimed: set<string>, replaced: seq<string>, kept: seq<File>, rps: seq<string>, path: string)
    ensures HiddenBy(claimed + Normalized(Paths(kept)), replaced + Prefixes(rps), path)
       <==> || HiddenBy(claimed, replaced, path)
            || Covers(Layer(kept, rps), path)
  {
    PrefixesCover(rps, path);
    if f :| f in kept && Normalize(f.logicalPath) == Normalize(path) {
      var i :| 0 <= i < |kept| && kept[i] == f;
      assert Paths(kept)[i] == f.logicalPath;
    }
  }

  // Claiming only the files that were kept makes no difference: a file that was hidden is hidden by
  // something above, which hides every file of that path.
  lemma ClaimKeepsShadow(claimed: set<string>, replaced: seq<string>, above: seq<Layer>, layer: Layer)
    requires Shadows(claimed, replaced, above)
    ensures var kept := Filter(layer.files, above);
            Shadows(claimed + Normalized(Paths(kept)), replaced + Prefixes(layer.replacePaths), [layer] + above)
  {
    var kept := Filter(layer.files, above);
    forall path
      ensures HiddenBy(claimed + Normalized(Paths(kept)), replaced + Prefixes(layer.replacePaths), path)
         <==> Hidden([layer] + above, path)
    {
      ClaimedOneMore(claimed, replaced, kept, layer.replacePaths, path);
      HiddenOneMore(layer, above, path);
      KeptOrHidden(layer, above, path);
    }
  }

  lemma KeptOrHidden(layer: Layer, above: seq<Layer>, path: string)
    ensures Covers(Layer(Filter(layer.files, above), layer.replacePaths), path) || Hidden(above, path)
       <==> Covers(layer, path) || Hidden(above, path)
  {
    forall f { FilterKeeps(layer.files, above, f); }
    if f :| f in layer.files && Normalize(f.logicalPath) == Normalize(path) {
      HiddenAlike(above, f.logicalPath, path);
    }
  }

  lemma FilterAll(files: seq<File>)
    ensures Filter(files, []) == files
  {
    if files != [] {
      FilterAll(files[..|files| - 1]);
    }
  }

  method KeptFiles(shadow: LayerShadow, files: seq<File>, ghost above: seq<Layer>) returns (kept: seq<File>)
    requires Shadows(shadow.claimed, shadow.replaced, above)
    ensures kept == Filter(files, above)
  {
    kept := [];
    for i := 0 to |files|
      invariant kept == Filter(files[..i], above)
    {
      assert files[..i + 1][..i] == files[..i];
      var hidden := shadow.Hides(files[i].logicalPath);
      if !hidden {
        kept := kept + [files[i]];
      }
    }
    assert files[..|files|] == files;
  }

  function FlattenBackwards(layers: seq<seq<File>>): seq<File> {
    if layers == [] then [] else layers[|layers| - 1] + FlattenBackwards(layers[..|layers| - 1])
  }

  method VisibleParentFiles(parents: seq<Layer>, primary: Layer) returns (visible: seq<File>)
    ensures visible == Visible(parents, primary)
  {
    var shadow := new LayerShadow();
    ClaimKeepsShadow({}, [], [], primary);
    FilterAll(primary.files);
    assert [primary] + [] == [primary];
    shadow.Claim(Paths(primary.files), primary.replacePaths);
    var layers: seq<seq<File>> := [];
    var i := |parents|;
    while i > 0
      invariant 0 <= i <= |parents| && |layers| == |parents| - i
      invariant Shadows(shadow.claimed, shadow.replaced, parents[i..] + [primary])
      invariant FlattenBackwards(layers) == Visible(parents[i..], primary)
    {
      i := i - 1;
      ghost var above := parents[i + 1..] + [primary];
      assert parents[i..][1..] == parents[i + 1..] && [parents[i]] + above == parents[i..] + [primary];
      var kept := KeptFiles(shadow, parents[i].files, above);
      ClaimKeepsShadow(shadow.claimed, shadow.replaced, above, parents[i]);
      shadow.Claim(Paths(kept), parents[i].replacePaths);
      layers := layers + [kept];
      assert layers[..|layers| - 1] + [kept] == layers;
    }
    visible := FlattenBackwards(layers);
    assert parents[0..] == parents;
  }

  // What a reader of the result relies on: a parent's file is listed exactly when nothing loaded
  // after that parent covers its path.
  lemma {:induction false} VisibleExactly(parents: seq<Layer>, primary: Layer, f: File)
    ensures f in Visible(parents, primary)
       <==> exists i | 0 <= i < |parents| ::
              f in parents[i].files && !Hidden(parents[i + 1..] + [primary], f.logicalPath)
  {
    if parents != [] {
      var rest := parents[1..];
      FilterKeeps(parents[0].files, rest + [primary], f);
      VisibleExactly(rest, primary, f);
      assert forall i | 0 <= i < |rest| :: rest[i] == parents[i + 1] && rest[i + 1..] == parents[i + 2..];
      if i :| 0 <= i < |parents| && f in parents[i].files && !Hidden(parents[i + 1..] + [primary], f.logicalPath) {
        if i > 0 {
          assert rest[i - 1] == parents[i] && rest[i..] == parents[i + 1..];
        }
      }
    }
  }

  // The places of the files that nothing above hides.
  function KeptAt(files: seq<File>, above: seq<Layer>): seq<nat> {
    if files == [] then []
    else
      var last := |files| - 1;
      KeptAt(files[..last], above) + if Hidden(above, files[last].logicalPath) then [] else [last]
  }

  ghost predicate OneKept(files: seq<File>, above: seq<Layer>, kept: seq<nat>, n: nat)
    requires n < |kept|
  {
    && kept[n] < |files| && !Hidden(above, files[kept[n]].logicalPath)
    && (n > 0 ==> kept[n - 1] < kept[n])
  }

  lemma {:induction false} KeptInOrder(files: seq<File>, above: seq<Layer>, n: nat)
    requires n < |KeptAt(files, above)|
    ensures OneKept(files, above, KeptAt(files, above), n)
    decreases |files|
  {
    var rest := files[..|files| - 1];
    var kept := KeptAt(rest, above);
    if n < |kept| {
      KeptInOrder(rest, above, n);
    } else if n > 0 {
      KeptInOrder(rest, above, n - 1);
    }
  }

  lemma {:induction false} KeptAreAll(files: seq<File>, above: seq<Layer>, k: nat)
    requires k < |files| && !Hidden(above, files[k].logicalPath)
    ensures k in KeptAt(files, above)
    decreases |files|
  {
    if k < |files| - 1 {
      KeptAreAll(files[..|files| - 1], above, k);
    }
  }

  // Filtering keeps the files in their order, each as often as it is listed.
  lemma {:induction false} FilterKeepsOrder(files: seq<File>, above: seq<Layer>)
    ensures |Filter(files, above)| == |KeptAt(files, above)|
    ensures forall n | 0 <= n < |KeptAt(files, above)| ::
              && OneKept(files, above, KeptAt(files, above), n)
              && Filter(files, above)[n] == files[KeptAt(files, above)[n]]
  {
    if files != [] {
      var rest := files[..|files| - 1];
      FilterKeepsOrder(rest, above);
      forall n | 0 <= n < |KeptAt(files, above)|
        ensures OneKept(files, above, KeptAt(files, above), n)
      {
        KeptInOrder(files, above, n);
      }
    }
  }

  // What a later parent lists stands behind what an earlier one does.
  lemma {:induction false} ParentsInLoadOrder(parents: seq<Layer>, primary: Layer, i: nat) returns (before: nat)
    requires i < |parents|
    ensures var kept := Filter(parents[i].files, parents[i + 1..] + [primary]);
            && before + |kept| <= |Visible(parents, primary)|
            && Visible(parents, primary)[before..before + |kept|] == kept
            && before == |Visible(parents, primary)| - |Visible(parents[i..], primary)|
    decreases |parents|
  {
    if i == 0 {
      before := 0;
      assert parents[0..] == parents;
    } else {
      var rest := parents[1..];
      before := ParentsInLoadOrder(rest, primary, i - 1);
      assert rest[i - 1] == parents[i] && rest[i..] == parents[i + 1..] && rest[i - 1..] == parents[i..];
      before := before + |Filter(parents[0].files, rest + [primary])|;
    }
  }

  // A file of a later layer hides every earlier file of its path even when it is itself hidden.
  lemma PathsAreVisibleOnce(parents: seq<Layer>, primary: Layer, i: nat, f: File, g: File)
    requires i < |parents| && Normalize(f.logicalPath) == Normalize(g.logicalPath)
    requires exists layer | layer in parents[i + 1..] + [primary] :: g in layer.files
    ensures f !in Filter(parents[i].files, parents[i + 1..] + [primary])
  {
    var above := parents[i + 1..] + [primary];
    FilterKeeps(parents[i].files, above, f);
  }
}
