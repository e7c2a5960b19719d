/** Mount points and path resolution. */
module Mounts {
  import opened Paths

  datatype Mount<N> = Mount(node: N, path: string)

  datatype Choice = NoMount | Root | Mounted(index: nat)

  /** What findEntry says: an error code, or the child. */
  datatype Entry<N> = Failed(code: int) | Child(node: N)

  /** The nodes' own behaviour: which are directories and what findEntry answers. */
  datatype Files<!N> = Files(isDirectory: N -> bool, findEntry: (N, string) -> Entry<N>)

  datatype Outcome<N> =
    | Found(node: N)
    | NoSuchEntry              // -ENOENT
    | NotDirectory             // -ENOTDIR
    | EntryError(code: int)    // what findEntry returned
    | Panic                    // a failed assert in slice

  // ----- which mount -----

  predicate Matches<N>(m: Mount<N>, cs: seq<string>) {
    Components(m.path, SLASH) <= cs
  }

  /** The earliest of the matching mounts with the longest path string. */
  predicate Longest<N>(mounts: seq<Mount<N>>, cs: seq<string>, r: Choice) {
    match r
    case NoMount => forall i :: 0 <= i < |mounts| && Matches(mounts[i], cs) ==> mounts[i].path == ""
    case Root => false
    case Mounted(j) =>
      && j < |mounts| && Matches(mounts[j], cs) && mounts[j].path != ""
      && forall i :: 0 <= i < |mounts| && Matches(mounts[i], cs) ==>
        |mounts[i].path| <= |mounts[j].path| && (i < j ==> |mounts[i].path| < |mounts[j].path|)
  }

  /** The earliest of the mounts with the most matching leading components. */
  predicate Deepest<N>(mounts: seq<Mount<N>>, cs: seq<string>, r: Choice) {
    match r
    case NoMount => forall i :: 0 <= i < |mounts| ==> !Matches(mounts[i], cs)
    case Root => false
    case Mounted(j) =>
      && j < |mounts| && Matches(mounts[j], cs)
      && forall i :: 0 <= i < |mounts| && Matches(mounts[i], cs) ==> Depth(mounts[i]) <= Depth(mounts[j]) && (i < j ==> Depth(mounts[i]) < Depth(mounts[j]))
  }

  function Depth<N>(m: Mount<N>): nat {
    |Components(m.path, SLASH)|
  }

  ghost predicate AllCanonical<N>(mounts: seq<Mount<N>>) {
    forall i :: 0 <= i < |mounts| ==> Canonical(mounts[i].path)
  }

  lemma {:induction false} JoinLonger(cs: seq<string>, ds: seq<string>)
    requires cs <= ds && |cs| < |ds| && forall d :: d in ds ==> IsComponent(d, SLASH)
    ensures |Join(ds)| >= |Join(cs)| + 2
  {
    assert ds[0] in ds;
    if cs != [] {
      JoinLonger(cs[1..], ds[1..]);
    }
  }

  /** Of two canonical paths that begin the same path, the longer string has more components. */
  lemma LengthIsDepth<N>(a: Mount<N>, b: Mount<N>, cs: seq<string>)
    requires Canonical(a.path) && Canonical(b.path) && Matches(a, cs) && Matches(b, cs)
    ensures Depth(a) < Depth(b) <==> |a.path| < |b.path|
    ensures Depth(a) <= Depth(b) <==> |a.path| <= |b.path|
  {
    OnePathLonger(a, b, cs);
    OnePathLonger(b, a, cs);
  }

  lemma OnePathLonger<N>(a: Mount<N>, b: Mount<N>, cs: seq<string>)
    requires Canonical(a.path) && Canonical(b.path) && Matches(a, cs) && Matches(b, cs)
    ensures Depth(a) < Depth(b) ==> |a.path| < |b.path|
    ensures Depth(a) == Depth(b) ==> a.path == b.path
  {
    var ca, cb := Components(a.path, SLASH), Components(b.path, SLASH);
    CanonicalForm(a.path);
    CanonicalForm(b.path);
    if |ca| < |cb| {
      assert ca <= cb;
      JoinLonger(ca, cb);
      JoinLonger([], cb);
    } else if |ca| == |cb| {
      assert ca == cb;
    }
  }

  /** On canonical mounts the comparison of string lengths finds the deepest mount. */
  lemma LongestIsDeepest<N>(mounts: seq<Mount<N>>, cs: seq<string>, r: Choice)
    requires AllCanonical(mounts)
    ensures Longest(mounts, cs, r) <==> Deepest(mounts, cs, r)
  {
    hide Matches, Canonical, Depth;
    match r
    case Root =>
    case NoMount =>
      forall i | 0 <= i < |mounts| ensures mounts[i].path != "" {
        CanonicalNotEmpty(mounts[i].path);
      }
    case Mounted(j) =>
      if j < |mounts| && Matches(mounts[j], cs) {
        CanonicalNotEmpty(mounts[j].path);
        forall i | 0 <= i < |mounts| && Matches(mounts[i], cs)
          ensures Depth(mounts[i]) < Depth(mounts[j]) <==> |mounts[i].path| < |mounts[j].path|
          ensures Depth(mounts[i]) <= Depth(mounts[j]) <==> |mounts[i].path| <= |mounts[j].path|
        {
          LengthIsDepth(mounts[i], mounts[j], cs);
        }
      }
  }

  lemma CanonicalForm(p: string)
    requires Canonical(p)
    ensures p == var cs := Components(p, SLASH); if cs == [] then [SLASH] else Join(cs)
  {
    assert Components([SLASH], SLASH) == [];
  }

  lemma CanonicalNotEmpty(p: string)
    requires Canonical(p)
    ensures p != ""
  {
  }

  /** The choice is unique. */
  lemma LongestUnique<N>(mounts: seq<Mount<N>>, cs: seq<string>, r: Choice, t: Choice)
    requires Longest(mounts, cs, r) && Longest(mounts, cs, t)
    ensures r == t
  {
  }

  lemma LongestInRange<N>(mounts: seq<Mount<N>>, cs: seq<string>, r: Choice)
    requires Longest(mounts, cs, r)
    ensures r.NoMount? || (r.Mounted? && r.index < |mounts|)
  {
  }

  method IsPathSubset(subset: seq<string>, total: seq<string>) returns (r: bool)
    ensures r <==> subset <= total
  {
    if |subset| > |total| {
      return false;
    }
    var i := 0;
    while i < |subset|
      invariant 0 <= i <= |subset|
      invariant subset[..i] == total[..i]
    {
      if subset[i] != total[i] {
        return false;
      }
      i := i + 1;
    }
    return true;
  }

  // ----- descending -----

  /** One findEntry after another. */
  function Descend<N>(files: Files<N>, node: N, cs: seq<string>): Outcome<N> {
    if cs == [] then Found(node)
    else if !files.isDirectory(node) then NotDirectory
    else match files.findEntry(node, cs[0])
      case Failed(code) => EntryError(code)
      case Child(next) => Descend(files, next, cs[1..])
  }

  /** The nodes opened and not closed again on the way. */
  function LeftOpen<N>(files: Files<N>, node: N, cs: seq<string>): multiset<N> {
    if cs == [] || !files.isDirectory(node) then multiset{}
    else match files.findEntry(node, cs[0])
      case Failed(_) => multiset{node}
      case Child(next) => LeftOpen(files, next, cs[1..])
  }

  /** A directory stays open exactly when its findEntry fails. */
  lemma {:induction false} LeftOpenExactly<N>(files: Files<N>, node: N, cs: seq<string>)
    ensures |LeftOpen(files, node, cs)| == if Descend(files, node, cs).EntryError? then 1 else 0
  {
    if cs != [] && files.isDirectory(node) && files.findEntry(node, cs[0]).Child? {
      LeftOpenExactly(files, files.findEntry(node, cs[0]).node, cs[1..]);
    }
  }

  /** Each node is a directory in which findEntry finds the next one. */
  ghost predicate Chain<N>(files: Files<N>, nodes: seq<N>, cs: seq<string>) {
    && 1 <= |nodes| <= |cs| + 1
    && forall i :: 0 <= i < |nodes| - 1 ==> files.isDirectory(nodes[i]) && files.findEntry(nodes[i], cs[i]) == Child(nodes[i + 1])
  }

  /** Where the chain ends decides: at the last component its end is found; before that, an end that is no directory gives
      the one error, and an end whose findEntry fails gives that call's own code and stays open. */
  lemma {:induction false} ChainDecides<N>(files: Files<N>, nodes: seq<N>, cs: seq<string>)
    requires Chain(files, nodes, cs)
    ensures var k := |nodes| - 1;
      && (k == |cs| ==> Descend(files, nodes[0], cs) == Found(nodes[k]) && LeftOpen(files, nodes[0], cs) == multiset{})
      && (k < |cs| && !files.isDirectory(nodes[k]) ==>
            Descend(files, nodes[0], cs) == NotDirectory && LeftOpen(files, nodes[0], cs) == multiset{})
      && (k < |cs| && files.isDirectory(nodes[k]) && files.findEntry(nodes[k], cs[k]).Failed? ==>
            && Descend(files, nodes[0], cs) == EntryError(files.findEntry(nodes[k], cs[k]).code)
            && LeftOpen(files, nodes[0], cs) == multiset{nodes[k]})
    decreases |nodes|
  {
    if |nodes| > 1 {
      assert files.isDirectory(nodes[0]) && files.findEntry(nodes[0], cs[0]) == Child(nodes[1]);
      forall i | 0 <= i < |nodes| - 2
        ensures files.isDirectory(nodes[1..][i]) && files.findEntry(nodes[1..][i], cs[1..][i]) == Child(nodes[1..][i + 1])
      {
        assert files.isDirectory(nodes[i + 1]);
      }
      ChainDecides(files, nodes[1..], cs[1..]);
    }
  }

  /** Every descent follows such a chain to one of its three ends. */
  lemma {:induction false} ChainExists<N>(files: Files<N>, node: N, cs: seq<string>) returns (nodes: seq<N>)
    ensures Chain(files, nodes, cs) && nodes[0] == node
    ensures var k := |nodes| - 1; k == |cs| || !files.isDirectory(nodes[k]) || files.findEntry(nodes[k], cs[k]).Failed?
    decreases |cs|
  {
    if cs == [] || !files.isDirectory(node) || files.findEntry(node, cs[0]).Failed? {
      nodes := [node];
    } else {
      var rest := ChainExists(files, files.findEntry(node, cs[0]).node, cs[1..]);
      nodes := [node] + rest;
      forall i | 0 <= i < |nodes| - 1 ensures files.isDirectory(nodes[i]) && files.findEntry(nodes[i], cs[i]) == Child(nodes[i + 1]) {
        if i > 0 { assert files.isDirectory(rest[i - 1]) && files.findEntry(rest[i - 1], cs[1..][i - 1]) == Child(rest[i]); }
      }
    }
  }

  /** Descending a longer path continues where the shorter one ended. */
  lemma {:induction false} DescendOn<N>(files: Files<N>, node: N, cs: seq<string>, ds: seq<string>)
    ensures Descend(files, node, cs + ds) ==
            (var r := Descend(files, node, cs); if r.Found? then Descend(files, r.node, ds) else r)
  {
    if cs == [] {
      assert cs + ds == ds;
    } else {
      assert (cs + ds)[1..] == cs[1..] + ds;
      if files.isDirectory(node) && files.findEntry(node, cs[0]).Child? {
        DescendOn(files, files.findEntry(node, cs[0]).node, cs[1..], ds);
      }
    }
  }

  predicate Rooted(path: string) {
    path != "" && path[0] == SLASH
  }

  /** What the slice leaves of a path after its mount. */
  function Tail(path: string, mount: string): seq<string>
    requires |mount| <= |path|
  {
    Components(path[|mount|..], SLASH)
  }

  /** The slice's assert fails when the mount's path is the longer one. */
  function Resolved<N>(files: Files<N>, m: Mount<N>, path: string): Outcome<N> {
    if |m.path| > |path| then Panic else Descend(files, m.node, Tail(path, m.path))
  }

  function StaysOpen<N>(files: Files<N>, m: Mount<N>, path: string): multiset<N> {
    if |m.path| > |path| then multiset{} else LeftOpen(files, m.node, Tail(path, m.path))
  }

  // ----- the mount table -----

  class Vfs<N(==)> {
    var mountPoints: seq<Mount<N>>
    var rootMount: Mount<N>
    var opens: multiset<N>      // opened and not closed

    constructor (none: N)
      ensures mountPoints == [] && opens == multiset{}
    {
      mountPoints, opens := [], multiset{};
      rootMount := Mount(none, "");
    }

    /** Mounts keep their order, so that an earlier mount on the same path stays in front. */
    method MountNode(path: string, node: N)
      modifies this`mountPoints, this`rootMount
      ensures mountPoints == old(mountPoints) + [Mount(node, path)]
      ensures rootMount == if path == [SLASH] then Mount(node, path) else old(rootMount)
      ensures AllCanonical(old(mountPoints)) && Canonical(path) ==> AllCanonical(mountPoints)
    {
      mountPoints := mountPoints + [Mount(node, path)];
      if path == [SLASH] {
        rootMount := Mount(node, path);
      }
    }

    /** The comparison with the root never applies to split components: they hold no slash. */
    method FindMountPoint(cs: seq<string>) returns (r: Choice)
      ensures r.Root? <==> cs == [[SLASH]]
      ensures !r.Root? ==> Longest(mountPoints, cs, r)
      ensures !r.Root? && AllCanonical(mountPoints) ==> Deepest(mountPoints, cs, r)
    {
      if |cs| == 1 && cs[0] == [SLASH] {
        return Root;
      }
      r := NoMount;
      var best := 0;
      var i := 0;
      while i < |mountPoints|
        invariant 0 <= i <= |mountPoints|
        invariant Longest(mountPoints[..i], cs, r)
        invariant best == if r.NoMount? then 0 else |mountPoints[r.index].path|
      {
        var components := Split(mountPoints[i].path, SLASH);
        var matches := IsPathSubset(components, cs);
        assert matches == Matches(mountPoints[i], cs);
        assert mountPoints[..i + 1] == mountPoints[..i] + [mountPoints[i]];
        if matches && |mountPoints[i].path| > best {
          r, best := Mounted(i), |mountPoints[i].path|;
        }
        i := i + 1;
      }
      assert mountPoints[..i] == mountPoints;
      if AllCanonical(mountPoints) {
        LongestIsDeepest(mountPoints, cs, r);
      }
    }

    /** Only an absolute path is resolved: from the node of its longest mount, by what the slice leaves. */
    method ResolvePath(files: Files<N>, path: string) returns (r: Outcome<N>)
      modifies this`opens
      ensures path == "" || path[0] != '/' ==> r.NoSuchEntry?
      ensures Rooted(path) && Longest(mountPoints, Components(path, SLASH), NoMount) ==> r.NoSuchEntry?
      ensures forall j: nat :: Rooted(path) && j < |mountPoints| && Longest(mountPoints, Components(path, SLASH), Mounted(j)) ==>
                                 && r == Resolved(files, mountPoints[j], path)
                                 && (r.Panic? <==> |mountPoints[j].path| > |path|)
                                 && (|mountPoints[j].path| <= |path| ==>
                                       r == Descend(files, mountPoints[j].node, Components(path[|mountPoints[j].path|..], '/')))
                                 && opens == old(opens) + StaysOpen(files, mountPoints[j], path)
      ensures r.NoSuchEntry? || r.Panic? ==> opens == old(opens)
    {
      hide Longest, Components, Descend, LeftOpen;
      if !Rooted(path) {
        return NoSuchEntry;
      }
      var cs := Split(path, SLASH);
      var choice := FindMountPoint(cs);
      assert [SLASH] !in cs && [SLASH] in [[SLASH]];
      assert !choice.NoMount? ==> choice.index < |mountPoints| by { LongestInRange(mountPoints, cs, choice); }
      forall t | Longest(mountPoints, cs, t) ensures t == choice {
        LongestUnique(mountPoints, cs, t, choice);
      }
      if choice.NoMount? {
        return NoSuchEntry;
      }
      var m := mountPoints[choice.index];
      if |m.path| > |path| {
        return Panic;
      }
      var rest := Split(path[|m.path|..], SLASH);
      r := Walk(files, m.node, rest);
      DescendNeverPanics(files, m.node, rest);
    }

    /** The loop over the components, with an open and a close around each findEntry. */
    method Walk(files: Files<N>, start: N, cs: seq<string>) returns (r: Outcome<N>)
      modifies this`opens
      ensures r == Descend(files, start, cs)
      ensures opens == old(opens) + LeftOpen(files, start, cs)
    {
      var node := start;
      var i := 0;
      while i < |cs|
        invariant 0 <= i <= |cs|
        invariant Descend(files, node, cs[i..]) == Descend(files, start, cs)
        invariant LeftOpen(files, node, cs[i..]) == LeftOpen(files, start, cs)
        invariant opens == old(opens)
      {
        if !files.isDirectory(node) {
          return NotDirectory;
        }
        opens := opens + multiset{node};
        assert cs[i..][1..] == cs[i + 1..];
        var entry := files.findEntry(node, cs[i]);
        if entry.Failed? {
          return EntryError(entry.code);
        }
        opens := opens - multiset{node};
        node := entry.node;
        i := i + 1;
      }
      r := Found(node);
    }
  }

  /** On canonical mounts resolution is a fold of findEntry over exactly the components after the
      deepest mount, provided that the mount's path begins the path as a string; a canonical path always
      satisfies that, and the slice never fails. */
  lemma ResolvesTheRest<N>(files: Files<N>, mounts: seq<Mount<N>>, path: string, j: nat)
    requires AllCanonical(mounts) && Rooted(path)
    requires Deepest(mounts, Components(path, SLASH), Mounted(j))
    ensures |mounts[j].path| <= |path| && !Resolved(files, mounts[j], path).Panic?
    ensures Canonical(path) ==> mounts[j].path <= path
    ensures mounts[j].path <= path ==> Resolved(files, mounts[j], path) == Descend(files, mounts[j].node, Components(path, SLASH)[Depth(mounts[j])..])
    ensures mounts[j].path <= path <==> Tail(path, mounts[j].path) == Components(path, SLASH)[Depth(mounts[j])..]
  {
    var m := mounts[j].path;
    SliceDrops(path, m);
    if Canonical(path) {
      CanonicalBegins(path, m);
    }
    DescendNeverPanics(files, mounts[j].node, Tail(path, m));
  }

  lemma {:induction false} DescendNeverPanics<N>(files: Files<N>, node: N, cs: seq<string>)
    ensures !Descend(files, node, cs).Panic? && !Descend(files, node, cs).NoSuchEntry?
  {
    if cs != [] && files.isDirectory(node) && files.findEntry(node, cs[0]).Child? {
      DescendNeverPanics(files, files.findEntry(node, cs[0]).node, cs[1..]);
    }
  }

  /** A doubled slash makes the slice miss: under the mount /dev, //dev/x leaves v and x, not x. */
  lemma DoubledSlashMisses()
    ensures var m, p := "/dev", "//dev/x";
            Canonical(m) && Components(m, SLASH) <= Components(p, SLASH) && Tail(p, m) != Components(p, SLASH)[|Components(m, SLASH)|..]
  {
    hide Canonical, Components, Join, Run;
    DevSplits();
    DevTail();
    SliceDrops("//dev/x", "/dev");
    assert "/dev"[1] != "//dev/x"[1];
  }

  lemma DevSplits()
    ensures Canonical("/dev") && Components("/dev", SLASH) == ["dev"]
  {
    var m := "/dev";
    JoinSplits(["dev"]);
    assert Join(["dev"]) == [SLASH] + "dev" + Join([]);
    assert m == Join(["dev"]);
  }

  lemma DevTail()
    ensures Components("//dev/x", SLASH) == ["dev", "x"]
  {
    hide Run;
    var p, cs := "//dev/x", ["dev", "x"];
    JoinSplits(cs);
    assert cs[1..] == ["x"] && ["x"][1..] == [];
    assert Join(["x"]) == [SLASH] + "x" + Join([]);
    assert Join(cs) == [SLASH] + "dev" + Join(["x"]);
    assert p[1..] == Join(cs);
    assert Components(p, SLASH) == Components(p[1..], SLASH);
  }
}
