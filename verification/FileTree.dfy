/**
  The in-memory file tree: nodes in reusable slots that point to their parents, a path parser
  and a path printer.
 */
module FileTree {

  const NAME_MAX := 63
  const PATH_MAX := 256
  const CONTENT_MAX := 10000

  datatype Kind = Dir | File

  datatype Node = Node(used: bool, kind: Kind, parent: int, name: string, content: string)

  const FREE_NODE := Node(false, Dir, 0, "", "")

  predicate NoSlash(s: string) { '/' !in s }

  /** A name that create_node accepts and the parser takes apart again. */
  predicate ValidName(s: string) {
    0 < |s| <= NAME_MAX && NoSlash(s) && s != "." && s != ".."
  }

  // ----- reading the tree -----

  /** fat32_find_child, from slot i upwards. */
  function FindFrom(nodes: seq<Node>, parent: int, name: string, i: nat): (k: int)
    ensures k == -1 || (i <= k < |nodes| && nodes[k].used && nodes[k].parent == parent && nodes[k].name == name)
    ensures k == -1 ==>
              forall j :: i <= j < |nodes| && nodes[j].used && nodes[j].parent == parent ==> nodes[j].name != name
    decreases |nodes| - i
  {
    if i >= |nodes| then -1
    else if nodes[i].used && nodes[i].parent == parent && nodes[i].name == name then i
    else FindFrom(nodes, parent, name, i + 1)
  }

  function FindChild(nodes: seq<Node>, parent: int, name: string): int { FindFrom(nodes, parent, name, 0) }

  /** The length of the path component at the front. */
  function SegLen(path: string): (n: nat)
    ensures n <= |path| && NoSlash(path[..n]) && (n < |path| ==> path[n] == '/')
  {
    if path == [] || path[0] == '/' then 0 else 1 + SegLen(path[1..])
  }

  /** One component: stay, go up, or go down; over-long components are cut to NAME_MAX characters. */
  function StepTo(nodes: seq<Node>, idx: int, part: string): (r: int)
    requires 0 <= idx < |nodes|
  {
    var part := if |part| > NAME_MAX then part[..NAME_MAX] else part;
    if part == "." then idx
    else if part == ".." then if idx == 0 then 0 else nodes[idx].parent
    else FindChild(nodes, idx, part)
  }

  /** The parser's walk over the rest of the path, from node idx; -1 when a component is missing. */
  function Walk(nodes: seq<Node>, path: string, idx: int): (r: int)
    decreases |path|
  {
    if path == [] || !(0 <= idx < |nodes|) then idx
    else if path[0] == '/' then Walk(nodes, path[1..], idx)
    else
      var n := SegLen(path);
      var next := StepTo(nodes, idx, path[..n]);
      if next < 0 then -1 else Walk(nodes, path[n..], next)
  }

  /** fat32_resolve. */
  function Resolve(nodes: seq<Node>, path: string, from: int): int {
    Walk(nodes, path, if path != [] && path[0] == '/' then 0 else from)
  }

  // ----- well-formed trees -----

  /** depth ranks the nodes: a parent is a directory one level up, whatever the slot order. */
  ghost predicate Tree(nodes: seq<Node>, depth: seq<nat>) {
    && |nodes| > 0 && |depth| == |nodes|
    && nodes[0].used && nodes[0].kind == Dir && nodes[0].parent == 0 && nodes[0].name == "" && depth[0] == 0
    && (forall i {:trigger nodes[i].parent} :: 0 < i < |nodes| && nodes[i].used ==>
          && 0 <= nodes[i].parent < |nodes| && nodes[nodes[i].parent].used && nodes[nodes[i].parent].kind == Dir
          && depth[i] == depth[nodes[i].parent] + 1 && ValidName(nodes[i].name))
    && (forall i, j :: 0 < i < j < |nodes| && nodes[i].used && nodes[j].used && nodes[i].parent == nodes[j].parent ==>
          nodes[i].name != nodes[j].name)
  }

  /** The path from the root, without the lone slash of the root itself. */
  ghost function PathOf(nodes: seq<Node>, depth: seq<nat>, i: int): string
    requires Tree(nodes, depth) && 0 <= i < |nodes| && nodes[i].used
    decreases depth[i]
  {
    if i == 0 then "" else PathOf(nodes, depth, nodes[i].parent) + "/" + nodes[i].name
  }

  lemma SegLenNoSlash(s: string)
    requires NoSlash(s)
    ensures SegLen(s) == |s|
  {
    if s != [] { SegLenNoSlash(s[1..]); }
  }

  lemma {:induction false} SegLenAppend(a: string, b: string)
    ensures SegLen(a + "/" + b) == SegLen(a)
  {
    if a != [] && a[0] != '/' {
      SegLenAppend(a[1..], b);
      assert (a + "/" + b)[1..] == a[1..] + "/" + b;
    }
  }

  /** A step that leads nowhere gives -1. */
  function Enter(nodes: seq<Node>, idx: int, part: string): int
    requires 0 <= idx < |nodes|
  {
    if StepTo(nodes, idx, part) < 0 then -1 else StepTo(nodes, idx, part)
  }

  lemma EnterPlain(nodes: seq<Node>, idx: int, part: string)
    requires 0 <= idx < |nodes| && |part| <= NAME_MAX && part != ".."
    ensures Enter(nodes, idx, part) == StepTo(nodes, idx, part)
  {
  }

  lemma WalkOne(nodes: seq<Node>, b: string, idx: int)
    requires 0 <= idx < |nodes| && 0 < |b| && NoSlash(b)
    ensures Walk(nodes, b, idx) == Enter(nodes, idx, b)
  {
    assert b[0] in b;
    SegLenNoSlash(b);
    assert b[..|b|] == b && b[|b|..] == [];
  }

  /** Walking a path and then one more component. */
  lemma {:induction false} WalkAppend(nodes: seq<Node>, a: string, b: string, idx: int)
    requires 0 <= idx < |nodes| && 0 < |b| && NoSlash(b)
    ensures Walk(nodes, a + "/" + b, idx) ==
            var m := Walk(nodes, a, idx); if 0 <= m < |nodes| then Enter(nodes, m, b) else m
    decreases |a|
  {
    hide Enter;
    var p := a + "/" + b;
    if a == [] {
      assert p[1..] == b;
      WalkOne(nodes, b, idx);
    } else if a[0] == '/' {
      assert p[1..] == a[1..] + "/" + b;
      WalkAppend(nodes, a[1..], b, idx);
    } else {
      SegLenAppend(a, b);
      var n := SegLen(a);
      assert p[..n] == a[..n] && p[n..] == a[n..] + "/" + b;
      var next := StepTo(nodes, idx, a[..n]);
      if 0 <= next < |nodes| {
        WalkAppend(nodes, a[n..], b, next);
      }
    }
  }

  /** The tree's names are found again. */
  lemma ChildFound(nodes: seq<Node>, depth: seq<nat>, i: int)
    requires Tree(nodes, depth) && 0 < i < |nodes| && nodes[i].used
    ensures StepTo(nodes, nodes[i].parent, nodes[i].name) == i
  {
    var k := FindChild(nodes, nodes[i].parent, nodes[i].name);
    assert k > 0;
  }

  /** The walk down the printed path ends at the node it was printed for. */
  lemma {:induction false} WalkPathOf(nodes: seq<Node>, depth: seq<nat>, i: int)
    requires Tree(nodes, depth) && 0 <= i < |nodes| && nodes[i].used
    ensures Walk(nodes, PathOf(nodes, depth, i), 0) == i
    decreases depth[i]
  {
    if i > 0 {
      WalkPathOf(nodes, depth, nodes[i].parent);
      WalkAppend(nodes, PathOf(nodes, depth, nodes[i].parent), nodes[i].name, 0);
      ChildFound(nodes, depth, i);
      EnterPlain(nodes, nodes[i].parent, nodes[i].name);
    }
  }

  /** What build_path prints when the buffer holds it all. */
  ghost function FullPath(nodes: seq<Node>, depth: seq<nat>, i: int): string
    requires Tree(nodes, depth) && 0 <= i < |nodes| && nodes[i].used
  {
    if i == 0 then "/" else PathOf(nodes, depth, i)
  }

  lemma PathStarts(nodes: seq<Node>, depth: seq<nat>, i: int)
    requires Tree(nodes, depth) && 0 < i < |nodes| && nodes[i].used
    ensures PathOf(nodes, depth, i) != [] && PathOf(nodes, depth, i)[0] == '/'
    decreases depth[i]
  {
    if nodes[i].parent != 0 { PathStarts(nodes, depth, nodes[i].parent); }
  }

  /** Resolving a node's full path, from anywhere, gives the node back. */
  lemma ResolveFullPath(nodes: seq<Node>, depth: seq<nat>, i: int, from: int)
    requires Tree(nodes, depth) && 0 <= i < |nodes| && nodes[i].used
    ensures Resolve(nodes, FullPath(nodes, depth, i), from) == i
  {
    if i == 0 {
      assert "/"[1..] == "";
    } else {
      PathStarts(nodes, depth, i);
      WalkPathOf(nodes, depth, i);
    }
  }

  // ----- where one more component leads -----

  /** The parent directory; the root is its own. */
  ghost function Above(nodes: seq<Node>, i: int): int
    requires 0 <= i < |nodes|
  {
    if i == 0 then 0 else nodes[i].parent
  }

  /** Node k is the child of node i with that name. */
  ghost predicate IsChild(nodes: seq<Node>, i: int, name: string, k: int) {
    0 <= k < |nodes| && nodes[k].used && nodes[k].parent == i && nodes[k].name == name
  }

  /**
    Behind any path that leads to node i, two dots lead to its parent, one dot changes nothing,
    and any other name leads to the child of that name, if there is one. Of a name that is too
    long the first NAME_MAX characters count.
   */
  lemma WalkOn(nodes: seq<Node>, depth: seq<nat>, path: string, name: string, idx: int)
    requires Tree(nodes, depth) && 0 <= idx < |nodes| && nodes[idx].used && name != "" && NoSlash(name)
    ensures var i, k := Walk(nodes, path, idx), Walk(nodes, path + "/" + name, idx);
            var cut := if |name| > NAME_MAX then name[..NAME_MAX] else name;
            if i == -1 then k == -1
            else
              && 0 <= i < |nodes| && nodes[i].used
              && if cut == ".." then k == Above(nodes, i)
                 else if cut == "." then k == i
                 else if k == -1 then forall j :: !IsChild(nodes, i, cut, j)
                 else IsChild(nodes, i, cut, k)
  {
    WalkUsed(nodes, depth, path, idx);
    WalkAppend(nodes, path, name, idx);
    hide Walk;
    var i := Walk(nodes, path, idx);
    if i != -1 { StepUsed(nodes, depth, i, name); }
    hide Tree;
  }

  /** From any directory, the full path of a node and two dots name its parent, one dot the node itself. */
  lemma ResolveDots(nodes: seq<Node>, depth: seq<nat>, i: int, from: int)
    requires Tree(nodes, depth) && 0 <= i < |nodes| && nodes[i].used
    ensures Resolve(nodes, FullPath(nodes, depth, i) + "/..", from) == Above(nodes, i)
    ensures Resolve(nodes, FullPath(nodes, depth, i) + "/.", from) == i
  {
    var p := FullPath(nodes, depth, i);
    RootUsed(nodes, depth);
    ResolveFullPath(nodes, depth, i, from);
    assert p != [] && p[0] == '/' by { if i != 0 { PathStarts(nodes, depth, i); } }
    hide Walk, Tree, FullPath;
    WalkOn(nodes, depth, p, "..", 0);
    WalkOn(nodes, depth, p, ".", 0);
    assert p + "/" + ".." == p + "/.." && p + "/" + "." == p + "/.";
  }

  // ----- depth is bounded by the number of slots -----

  ghost function Ancestors(nodes: seq<Node>, depth: seq<nat>, i: int): (s: set<int>)
    requires Tree(nodes, depth) && 0 <= i < |nodes| && nodes[i].used
    ensures |s| == depth[i] + 1
    ensures forall a :: a in s ==> 0 <= a < |nodes| && depth[a] <= depth[i]
    decreases depth[i]
  {
    if i == 0 then {0} else Ancestors(nodes, depth, nodes[i].parent) + {i}
  }

  function Slots(n: nat): (s: set<int>)
    ensures |s| == n && forall k :: k in s <==> 0 <= k < n
  {
    if n == 0 then {} else Slots(n - 1) + {n - 1}
  }

  lemma DepthBounded(nodes: seq<Node>, depth: seq<nat>, i: int)
    requires Tree(nodes, depth) && 0 <= i < |nodes| && nodes[i].used
    ensures depth[i] < |nodes|
  {
    var a, b := Ancestors(nodes, depth, i), Slots(|nodes|);
    hide Tree;
    assert b == a + (b - a);
  }

  // ----- printed paths that did not fit -----

  lemma {:induction false} WalkTrailing(nodes: seq<Node>, a: string, idx: int)
    requires 0 <= idx < |nodes|
    ensures Walk(nodes, a + "/", idx) == Walk(nodes, a, idx)
    decreases |a|
  {
    var p := a + "/";
    if a == [] {
      assert p[1..] == [];
    } else if a[0] == '/' {
      assert p[1..] == a[1..] + "/";
      WalkTrailing(nodes, a[1..], idx);
    } else {
      SegLenAppend(a, []);
      assert a + "/" + [] == p;
      var n := SegLen(a);
      assert p[..n] == a[..n] && p[n..] == a[n..] + "/";
      var next := StepTo(nodes, idx, a[..n]);
      if 0 <= next < |nodes| { WalkTrailing(nodes, a[n..], next); }
    }
  }

  /** A truncated print is an ancestor's path with a slash, and resolves to that ancestor. */
  lemma ResolveTruncated(nodes: seq<Node>, depth: seq<nat>, a: int, from: int)
    requires Tree(nodes, depth) && 0 <= a < |nodes| && nodes[a].used
    ensures Resolve(nodes, PathOf(nodes, depth, a) + "/", from) == a
  {
    WalkPathOf(nodes, depth, a);
    WalkTrailing(nodes, PathOf(nodes, depth, a), 0);
    if a != 0 { PathStarts(nodes, depth, a); }
  }

  // ----- splitting off the last component -----

  /** The end of the path without its trailing slashes (one slash is kept). */
  function EndOf(path: string, end: nat): (e: nat)
    requires end <= |path|
    ensures e <= end && (e > 1 ==> path[e - 1] != '/') && (end <= 1 ==> e == end) && (end > 1 ==> e >= 1)
    ensures forall k :: e <= k < end ==> path[k] == '/'
  {
    if end > 1 && path[end - 1] == '/' then EndOf(path, end - 1) else end
  }

  /** The last slash before position i, or -1. */
  function StartOf(path: string, i: int): (s: int)
    requires -1 <= i < |path|
    ensures -1 <= s <= i && (s >= 0 ==> path[s] == '/') && forall k :: s < k <= i ==> path[k] != '/'
    decreases i + 1
  {
    if i < 0 || path[i] == '/' then i else StartOf(path, i - 1)
  }

  /** fat32_resolve_parent: the directory the last component belongs in (-1 if none), and that component. */
  function Split(nodes: seq<Node>, path: string, from: int): (r: (int, string)) {
    var e := EndOf(path, |path|);
    var s := StartOf(path, e - 1);
    if e - (s + 1) <= 0 || e - (s + 1) > NAME_MAX then (-1, "")
    else
      var leaf := path[s + 1..e];
      var dir :=
        if s < 0 then from else if s == 0 then 0 else if s >= PATH_MAX then -1 else Resolve(nodes, path[..s], from);
      (dir, leaf)
  }

  lemma {:induction false} WalkSlashes(nodes: seq<Node>, a: string, b: string, idx: int)
    requires 0 <= idx < |nodes| && forall k :: 0 <= k < |b| ==> b[k] == '/'
    ensures Walk(nodes, a + b, idx) == Walk(nodes, a, idx)
    decreases |b|
  {
    if b == [] {
      assert a + b == a;
    } else {
      assert a + b == (a + "/") + b[1..];
      WalkSlashes(nodes, a + "/", b[1..], idx);
      WalkTrailing(nodes, a, idx);
    }
  }

  lemma NoSlashSlice(path: string, a: nat, b: nat)
    requires a <= b <= |path| && forall k :: a <= k < b ==> path[k] != '/'
    ensures NoSlash(path[a..b])
  {
  }

  lemma SplitAt(path: string, s: nat, e: nat)
    requires s < e <= |path| && path[s] == '/'
    ensures path[..e] == path[..s] + "/" + path[s + 1..e]
  {
    assert path[..e] == path[..s] + [path[s]] + path[s + 1..e];
  }

  /** How a path splits around its last component. */
  lemma SplitShape(path: string, e: nat, s: int)
    requires e == EndOf(path, |path|) && s == StartOf(path, e - 1) && e - (s + 1) > 0
    ensures NoSlash(path[s + 1..e]) && path != []
    ensures path == path[..e] + path[e..] && forall k :: 0 <= k < |path[e..]| ==> path[e..][k] == '/'
    ensures s < 0 ==> path[..e] == path[s + 1..e] && path[0] != '/'
    ensures s >= 0 ==> path[..e] == path[..s] + "/" + path[s + 1..e]
    ensures s == 0 ==> path[0] == '/' && path[..s] == ""
    ensures s > 0 ==> path[..s][0] == path[0]
  {
    hide EndOf, StartOf, NoSlash;
    NoSlashSlice(path, s + 1, e);
    if s >= 0 { SplitAt(path, s, e); }
  }

  /** How any path with a component in it splits: the component, and the directory of what precedes it. */
  lemma SplitJoined(nodes: seq<Node>, dir: string, leaf: string, tail: string, from: int)
    requires leaf != "" && NoSlash(leaf) && forall k :: 0 <= k < |tail| ==> tail[k] == '/'
    ensures Split(nodes, leaf + tail, from) == if |leaf| > NAME_MAX then (-1, "") else (from, leaf)
    ensures Split(nodes, dir + "/" + leaf + tail, from)
            == if |leaf| > NAME_MAX then (-1, "")
               else (if dir == "" then 0 else if |dir| >= PATH_MAX then -1 else Resolve(nodes, dir, from), leaf)
  {
    hide Resolve, Split, NoSlash;
    assert (leaf + tail)[0..|leaf|] == leaf;
    SplitBetween(nodes, leaf + tail, 0, |leaf|, from);
    var path, s := dir + "/" + leaf + tail, |dir| + 1;
    assert path[s..s + |leaf|] == leaf && path[..|dir|] == dir && path[|dir|] == '/';
    assert forall k :: s + |leaf| <= k < |path| ==> path[k] == tail[k - s - |leaf|];
    SplitBetween(nodes, path, s, s + |leaf|, from);
  }

  lemma SplitBetween(nodes: seq<Node>, path: string, s: nat, e: nat, from: int)
    requires s < e <= |path| && NoSlash(path[s..e]) && (s > 0 ==> path[s - 1] == '/')
    requires forall k :: e <= k < |path| ==> path[k] == '/'
    ensures Split(nodes, path, from)
            == if e - s > NAME_MAX then (-1, "")
               else (if s == 0 then from else if s == 1 then 0 else if s - 1 >= PATH_MAX then -1
                     else Resolve(nodes, path[..s - 1], from), path[s..e])
  {
    hide Resolve, EndOf, StartOf;
    assert forall k :: s <= k < e ==> path[k] == path[s..e][k - s] && path[k] in path[s..e];
    LastPart(path, s, e);
  }

  lemma LastPart(path: string, s: nat, e: nat)
    requires s < e <= |path| && forall k :: s <= k < e ==> path[k] != '/'
    requires (forall k :: e <= k < |path| ==> path[k] == '/') && (s > 0 ==> path[s - 1] == '/')
    ensures EndOf(path, |path|) == e && StartOf(path, e - 1) == s - 1
  {
    hide EndOf, StartOf;
    var x, y := EndOf(path, |path|), StartOf(path, e - 1);
    assert path[e - 1] != '/';
    assert x >= e;
    assert x > 1 ==> path[x - 1] != '/';
    assert s > 0 ==> path[s - 1] == '/';
    assert y >= 0 ==> path[y] == '/';
  }

  /** A path without a component splits into nothing. */
  lemma SplitNothing(nodes: seq<Node>, path: string, from: int)
    requires forall k :: 0 <= k < |path| ==> path[k] == '/'
    ensures Split(nodes, path, from) == (-1, "")
  {
    hide EndOf, StartOf, Resolve;
    var e := EndOf(path, |path|);
    assert e > 0 ==> StartOf(path, e - 1) == e - 1;
  }

  /** A path names what its last component names in the directory of the rest. */
  lemma ResolveSplit(nodes: seq<Node>, path: string, from: int)
    requires 0 <= from < |nodes|
    requires var (d, leaf) := Split(nodes, path, from); 0 <= d < |nodes| && leaf != "" && leaf != ".."
    ensures var (d, leaf) := Split(nodes, path, from);
            0 < |leaf| <= NAME_MAX && NoSlash(leaf) && Resolve(nodes, path, from) == StepTo(nodes, d, leaf)
  {
    hide Walk, StepTo, EndOf, StartOf, NoSlash, Resolve;
    var e := EndOf(path, |path|);
    var s := StartOf(path, e - 1);
    SplitShape(path, e, s);
    ResolveIs(nodes, path, from);
    var start := if path[0] == '/' then 0 else from;
    if s < 0 {
      WalkLast(nodes, path[..e], path[e..], start);
    } else {
      WalkJoined(nodes, path[..s], path[s + 1..e], path[e..], start);
      if s == 0 { WalkNothing(nodes, start); } else { ResolveIs(nodes, path[..s], from); }
    }
  }

  /** One component and trailing slashes. */
  lemma WalkLast(nodes: seq<Node>, leaf: string, tail: string, idx: int)
    requires 0 <= idx < |nodes| && 0 < |leaf| <= NAME_MAX && NoSlash(leaf) && leaf != ".."
    requires forall k :: 0 <= k < |tail| ==> tail[k] == '/'
    ensures Walk(nodes, leaf + tail, idx) == StepTo(nodes, idx, leaf)
  {
    hide Walk, StepTo, NoSlash;
    WalkSlashes(nodes, leaf, tail, idx);
    WalkOne(nodes, leaf, idx);
    EnterPlain(nodes, idx, leaf);
  }

  /** A path, one more component and trailing slashes. */
  lemma WalkJoined(nodes: seq<Node>, dir: string, leaf: string, tail: string, idx: int)
    requires 0 <= idx < |nodes| && 0 < |leaf| <= NAME_MAX && NoSlash(leaf) && leaf != ".."
    requires forall k :: 0 <= k < |tail| ==> tail[k] == '/'
    ensures Walk(nodes, (dir + "/" + leaf) + tail, idx) ==
            var m := Walk(nodes, dir, idx); if 0 <= m < |nodes| then StepTo(nodes, m, leaf) else m
  {
    hide Walk, StepTo, NoSlash;
    WalkSlashes(nodes, dir + "/" + leaf, tail, idx);
    WalkAppend(nodes, dir, leaf, idx);
    var m := Walk(nodes, dir, idx);
    if 0 <= m < |nodes| { EnterPlain(nodes, m, leaf); }
  }

  lemma ResolveIs(nodes: seq<Node>, path: string, from: int)
    requires path != ""
    ensures Resolve(nodes, path, from) == Walk(nodes, path, if path[0] == '/' then 0 else from)
  {
  }

  lemma WalkNothing(nodes: seq<Node>, idx: int)
    ensures Walk(nodes, "", idx) == idx
  {
  }

  // ----- adding and removing a node -----

  function Put(nodes: seq<Node>, k: int, n: Node): seq<Node>
    requires 0 <= k < |nodes|
  {
    nodes[k := n]
  }

  /** A new node, in whatever slot was free, hangs one level below its directory. */
  lemma TreeAdd(nodes: seq<Node>, depth: seq<nat>, k: int, n: Node)
    requires Tree(nodes, depth) && 0 <= k < |nodes| && !nodes[k].used && n.used && ValidName(n.name)
    requires 0 <= n.parent < |nodes| && nodes[n.parent].used && nodes[n.parent].kind == Dir
    requires FindChild(nodes, n.parent, n.name) == -1
    ensures Tree(Put(nodes, k, n), depth[k := depth[n.parent] + 1])
  {
    forall i | 0 < i < |nodes| && nodes[i].used ensures nodes[i].parent != k {
      assert nodes[nodes[i].parent].used;
    }
  }

  /** A file is nobody's parent, so its slot can be freed. */
  lemma TreeRemove(nodes: seq<Node>, depth: seq<nat>, k: int)
    requires Tree(nodes, depth) && 0 <= k < |nodes| && nodes[k].used && nodes[k].kind == File
    ensures Tree(Put(nodes, k, FREE_NODE), depth)
  {
    forall i | 0 < i < |nodes| && nodes[i].used ensures nodes[i].parent != k {
      assert nodes[nodes[i].parent].kind == Dir;
    }
  }

  /** The walk stays on used nodes. */
  lemma StepUsed(nodes: seq<Node>, depth: seq<nat>, i: int, part: string)
    requires Tree(nodes, depth) && 0 <= i < |nodes| && nodes[i].used
    ensures var r := StepTo(nodes, i, part); r == -1 || (0 <= r < |nodes| && nodes[r].used)
  {
  }

  lemma {:induction false} WalkUsed(nodes: seq<Node>, depth: seq<nat>, path: string, i: int)
    requires Tree(nodes, depth) && 0 <= i < |nodes| && nodes[i].used
    ensures var r := Walk(nodes, path, i); r == -1 || (0 <= r < |nodes| && nodes[r].used)
    decreases |path|
  {
    if path != [] {
      if path[0] == '/' {
        WalkUsed(nodes, depth, path[1..], i);
      } else {
        var n := SegLen(path);
        StepUsed(nodes, depth, i, path[..n]);
        var next := StepTo(nodes, i, path[..n]);
        if next >= 0 { WalkUsed(nodes, depth, path[n..], next); }
      }
    }
  }

  /** What resolved before a node was added resolves to the same node afterwards. */
  lemma {:induction false} WalkStable(nodes: seq<Node>, depth: seq<nat>, k: int, n: Node, path: string, i: int)
    requires Tree(nodes, depth) && 0 <= k < |nodes| && !nodes[k].used && n.used
    requires FindChild(nodes, n.parent, n.name) == -1
    requires 0 <= i < |nodes| && nodes[i].used && Walk(nodes, path, i) >= 0
    ensures Walk(Put(nodes, k, n), path, i) == Walk(nodes, path, i)
    decreases |path|
  {
    if path != [] {
      if path[0] == '/' {
        WalkStable(nodes, depth, k, n, path[1..], i);
      } else {
        var m := SegLen(path);
        StepUsed(nodes, depth, i, path[..m]);
        StepStable(nodes, k, n, i, path[..m]);
        WalkStable(nodes, depth, k, n, path[m..], StepTo(nodes, i, path[..m]));
      }
    }
  }

  lemma StepStable(nodes: seq<Node>, k: int, n: Node, i: int, part: string)
    requires 0 <= k < |nodes| && !nodes[k].used && n.used && FindChild(nodes, n.parent, n.name) == -1
    requires 0 <= i < |nodes| && nodes[i].used && StepTo(nodes, i, part) >= 0
    ensures StepTo(Put(nodes, k, n), i, part) == StepTo(nodes, i, part)
  {
    var part := if |part| > NAME_MAX then part[..NAME_MAX] else part;
    if part != "." && part != ".." {
      FindStable(nodes, k, n, i, part, 0);
    }
  }

  lemma {:induction false} FindStable(nodes: seq<Node>, k: int, n: Node, parent: int, name: string, i: nat)
    requires 0 <= k < |nodes| && !nodes[k].used && n.used && FindChild(nodes, n.parent, n.name) == -1
    requires FindFrom(nodes, parent, name, i) >= 0
    ensures FindFrom(Put(nodes, k, n), parent, name, i) == FindFrom(nodes, parent, name, i)
    decreases |nodes| - i
  {
    var j := FindFrom(nodes, parent, name, i);
    assert !(n.parent == parent && n.name == name);
    if i < j { FindStable(nodes, k, n, parent, name, i + 1); }
  }

  /** The node a path creates is the node the path then names. */
  lemma CreatedIsResolved(nodes: seq<Node>, depth: seq<nat>, k: int, n: Node, path: string, from: int)
    requires Tree(nodes, depth) && 0 <= k < |nodes| && !nodes[k].used && n.used && ValidName(n.name)
    requires 0 <= from < |nodes| && nodes[from].used
    requires Split(nodes, path, from) == (n.parent, n.name) && 0 <= n.parent < |nodes| && nodes[n.parent].used
    requires FindChild(nodes, n.parent, n.name) == -1
    ensures Resolve(Put(nodes, k, n), path, from) == k
  {
    hide Tree, Walk, StepTo, FindChild, Split, Resolve, ValidName;
    SplitStable(nodes, depth, k, n, path, from);
    ValidNames(n.name);
    ResolveSplit(Put(nodes, k, n), path, from);
    FoundNew(nodes, k, n);
  }

  lemma ValidNames(name: string)
    requires ValidName(name)
    ensures name != "" && name != ".."
  {
  }

  /** A path into an existing directory still splits the same way after a node was added. */
  lemma SplitStable(nodes: seq<Node>, depth: seq<nat>, k: int, n: Node, path: string, from: int)
    requires Tree(nodes, depth) && 0 <= k < |nodes| && !nodes[k].used && n.used
    requires FindChild(nodes, n.parent, n.name) == -1
    requires 0 <= from < |nodes| && nodes[from].used && Split(nodes, path, from).0 >= 0
    ensures Split(Put(nodes, k, n), path, from) == Split(nodes, path, from)
  {
    hide Tree, Walk, FindChild, EndOf, StartOf, Resolve;
    RootUsed(nodes, depth);
    var e := EndOf(path, |path|);
    var s := StartOf(path, e - 1);
    if 0 < s < PATH_MAX && 0 < e - (s + 1) <= NAME_MAX {
      ResolveIs(nodes, path[..s], from);
      ResolveIs(Put(nodes, k, n), path[..s], from);
      WalkStable(nodes, depth, k, n, path[..s], if path[..s][0] == '/' then 0 else from);
    }
  }

  lemma FoundNew(nodes: seq<Node>, k: int, n: Node)
    requires 0 <= k < |nodes| && !nodes[k].used && n.used && ValidName(n.name) && 0 <= n.parent < |nodes|
    requires FindChild(nodes, n.parent, n.name) == -1
    ensures StepTo(Put(nodes, k, n), n.parent, n.name) == k
  {
    var j := FindChild(Put(nodes, k, n), n.parent, n.name);
    assert Put(nodes, k, n)[k] == n;
  }

  // ----- the file system -----

  /** The path splits into a directory and a valid name it does not hold yet, and a slot is free. */
  ghost predicate CanMake(nodes: seq<Node>, path: string, from: int) {
    var (d, leaf) := Split(nodes, path, from);
    && 0 <= d < |nodes| && nodes[d].used && nodes[d].kind == Dir
    && ValidName(leaf) && FindChild(nodes, d, leaf) == -1
    && exists i :: 0 <= i < |nodes| && !nodes[i].used
  }

  /** The calls, each with the directory the caller opened for it; a path that opens nothing stands for the root. */
  datatype Call =
    | Mkdir(dir: string, path: string)
    | Touch(dir: string, path: string)
    | Write(dir: string, path: string, text: string)
    | Rm(dir: string, path: string)

  function OpenedDir(nodes: seq<Node>, dir: string): int {
    if Resolve(nodes, dir, 0) < 0 then 0 else Resolve(nodes, dir, 0)
  }

  /** The path names a fresh node of this kind, and nothing else changed. */
  ghost predicate Made(nodes: seq<Node>, path: string, from: int, kind: Kind, nodes': seq<Node>) {
    var (d, leaf) := Split(nodes, path, from);
    var k := Resolve(nodes', path, from);
    FirstFree(nodes, k) && nodes' == Put(nodes, k, Node(true, kind, d, leaf, ""))
  }

  /** Slot k is the first free one. */
  ghost predicate FirstFree(nodes: seq<Node>, k: int) {
    0 <= k < |nodes| && !nodes[k].used && forall i :: 0 <= i < k ==> nodes[i].used
  }

  /** The path names a file with this text, cut to the limit, and no other node changed. */
  ghost predicate Written(nodes: seq<Node>, path: string, from: int, text: string, nodes': seq<Node>) {
    var k := Resolve(nodes', path, from);
    && 0 <= k < |nodes'| == |nodes| && nodes'[k].used && nodes'[k].kind == File
    && nodes'[k].content == (if |text| > CONTENT_MAX then text[..CONTENT_MAX] else text)
    && (nodes[k].used ==> nodes'[k] == nodes[k].(content := nodes'[k].content))
    && forall i :: 0 <= i < |nodes| && i != k ==> nodes'[i] == nodes[i]
  }

  /** What one call does. */
  ghost predicate Did(nodes: seq<Node>, call: Call, ok: bool, nodes': seq<Node>) {
    var from := OpenedDir(nodes, call.dir);
    var k := Resolve(nodes, call.path, from);
    && (!ok ==> nodes' == nodes)
    && match call
       case Mkdir(_, path) => (ok <==> CanMake(nodes, path, from)) && (ok ==> Made(nodes, path, from, Dir, nodes'))
       case Touch(_, path) => (ok <==> CanMake(nodes, path, from)) && (ok ==> Made(nodes, path, from, File, nodes'))
       case Write(_, path, text) =>
         && (ok <==> if 0 <= k < |nodes| then nodes[k].kind == File else CanMake(nodes, path, from))
         && (ok ==> Written(nodes, path, from, text, nodes'))
       case Rm(_, path) =>
         && (ok <==> 0 <= k < |nodes| && nodes[k].kind == File)
         && (ok ==> nodes' == Put(nodes, k, FREE_NODE))
  }

  /** The directories a fresh file system has below the root. */
  const FURNITURE := ["bin", "dev", "root", "etc", "boot", "home", "tmp"]

  /** The first n of them are there, in the slots behind the root, and nothing else is. */
  ghost predicate Furnished(nodes: seq<Node>, n: nat) {
    && n < |nodes| && n <= |FURNITURE| && nodes[0].used && nodes[0].name == ""
    && (forall j :: 0 < j <= n ==> nodes[j] == Node(true, Dir, 0, FURNITURE[j - 1], ""))
    && (forall j :: n < j < |nodes| ==> !nodes[j].used)
  }

  /** None of the names is there twice, so the next one finds the next slot. */
  lemma FurnishMore(nodes: seq<Node>, nodes': seq<Node>, i: nat, k: int)
    requires i < 7 < |nodes| && Furnished(nodes, i) && |nodes'| == |nodes|
    requires k == -1 <==> || !ValidName(FURNITURE[i]) || FindChild(nodes, 0, FURNITURE[i]) != -1
                          || forall j :: 0 <= j < |nodes| ==> nodes[j].used
    requires k != -1 ==> FirstFree(nodes, k) && nodes' == Put(nodes, k, Node(true, Dir, 0, FURNITURE[i], ""))
    ensures Furnished(nodes', i + 1)
  {
    NamesDiffer(i);
    var c := FindChild(nodes, 0, FURNITURE[i]);
    assert !nodes[i + 1].used;
    assert forall j :: 0 < j <= i ==> nodes[j].name == FURNITURE[j - 1] != FURNITURE[i];
    assert c == -1;
    assert k == i + 1;
  }

  lemma NamesDiffer(i: nat)
    requires i < 7
    ensures ValidName(FURNITURE[i]) && forall j :: 0 <= j < i ==> FURNITURE[j] != FURNITURE[i]
  {
  }

  class FileSystem {
    var nodes: seq<Node>
    ghost var depth: seq<nat>

    ghost predicate Valid()
      reads this
    {
      Tree(nodes, depth)
    }

    ghost predicate At(i: int)
      reads this
    {
      0 <= i < |nodes| && nodes[i].used
    }

    /** fat32_init: the root and its seven directories. */
    constructor (slots: nat)
      requires slots > 0
      ensures Valid() && |nodes| == slots
      ensures slots > 7 ==> Furnished(nodes, 7)
    {
      nodes := [Node(true, Dir, 0, "", "")] + seq(slots - 1, _ => FREE_NODE);
      depth := seq(slots, _ => 0);
      new;
      for i := 0 to 7
        invariant Valid() && |nodes| == slots
        invariant slots > 7 ==> Furnished(nodes, i)
      {
        ghost var before := nodes;
        var k := CreateNode(0, FURNITURE[i], Dir);
        if slots > 7 { FurnishMore(before, nodes, i, k); }
      }
    }

    method FindChildIn(parent: int, name: string) returns (k: int)
      ensures k == FindChild(nodes, parent, name)
    {
      var i := 0;
      while i < |nodes|
        invariant 0 <= i <= |nodes|
        invariant FindChild(nodes, parent, name) == FindFrom(nodes, parent, name, i)
      {
        if nodes[i].used && nodes[i].parent == parent && nodes[i].name == name { return i; }
        i := i + 1;
      }
      return -1;
    }

    method AllocNode() returns (k: int)
      ensures k == -1 ==> forall i :: 0 <= i < |nodes| ==> nodes[i].used
      ensures k != -1 ==> FirstFree(nodes, k)
    {
      for i := 0 to |nodes|
        invariant forall j :: 0 <= j < i ==> nodes[j].used
      {
        if !nodes[i].used { return i; }
      }
      return -1;
    }

    /** fat32_create_node, in a directory, with a component of a path as the name. */
    method CreateNode(parent: int, name: string, kind: Kind) returns (k: int)
      requires Valid() && At(parent) && nodes[parent].kind == Dir && NoSlash(name)
      modifies this
      ensures Valid() && |nodes| == |old(nodes)|
      ensures k == -1 ==> nodes == old(nodes)
      ensures k == -1 <==> || !ValidName(name)
                           || FindChild(old(nodes), parent, name) != -1
                           || forall i :: 0 <= i < |old(nodes)| ==> old(nodes)[i].used
      ensures k != -1 ==> FirstFree(old(nodes), k) && nodes == Put(old(nodes), k, Node(true, kind, parent, name, ""))
    {
      hide Tree, ValidName, NoSlash;
      TreeSizes(nodes, depth);
      NameTest(name);
      if name == "" || name == "." || name == ".." { return -1; }
      if |name| > NAME_MAX { return -1; }
      var c := FindChildIn(parent, name);
      if c >= 0 { return -1; }
      hide FindFrom;
      k := AllocNode();
      if k < 0 { return -1; }
      var n := Node(true, kind, parent, name, "");
      TreeAdd(nodes, depth, k, n);
      nodes := Put(nodes, k, n);
      depth := depth[k := depth[parent] + 1];
    }

    /** fat32_resolve. */
    method ResolvePath(path: string, from: int) returns (r: int)
      requires Valid() && At(from)
      ensures r == Resolve(nodes, path, from)
      ensures r == -1 || At(r)
    {
      hide Tree, Walk, StepTo, SegLen;
      r := if path != [] && path[0] == '/' then 0 else from;
      RootUsed(nodes, depth);
      var i := 0;
      assert path[0..] == path;
      while i < |path|
        invariant 0 <= i <= |path| && At(r) && Walk(nodes, path[i..], r) == Resolve(nodes, path, from)
        decreases |path| - i
      {
        WalkTurn(nodes, path, i, r);
        if path[i] == '/' {
          i := i + 1;
        } else {
          var part, j := ComponentAt(path, i);
          StepUsed(nodes, depth, r, path[i..j]);
          r := Follow(r, part, path[i..j]);
          i := j;
          if r < 0 { return -1; }
        }
      }
      assert path[i..] == "";
      WalkNothing(nodes, r);
    }

    /** One component of the walk: stay, go up, or look the name up. */
    method Follow(idx: int, part: string, ghost whole: string) returns (r: int)
      requires 0 <= idx < |nodes| && part == if |whole| > NAME_MAX then whole[..NAME_MAX] else whole
      ensures r == StepTo(nodes, idx, whole)
    {
      if part == "." { return idx; }
      if part == ".." { return if idx != 0 then nodes[idx].parent else 0; }
      r := FindChildIn(idx, part);
    }

    /** The parser's inner loop: the next component, cut to NAME_MAX characters, and where it ends. */
    method ComponentAt(path: string, i: nat) returns (part: string, j: nat)
      requires i < |path| && path[i] != '/'
      ensures j == i + SegLen(path[i..]) && i < j <= |path|
      ensures part == if j - i > NAME_MAX then path[i..j][..NAME_MAX] else path[i..j]
    {
      part, j := "", i;
      while j < |path| && path[j] != '/'
        invariant i <= j <= |path| && NoSlash(path[i..j])
        invariant part == if j - i > NAME_MAX then path[i..j][..NAME_MAX] else path[i..j]
      {
        assert path[i..j + 1] == path[i..j] + [path[j]];
        if |part| < NAME_MAX { part := part + [path[j]]; }
        j := j + 1;
      }
      SegEnds(path[i..], j - i);
    }

    /** fat32_resolve_parent. */
    method ResolveParent(path: string, from: int) returns (d: int, leaf: string)
      requires Valid() && At(from)
      ensures (d, leaf) == Split(nodes, path, from)
      ensures d == -1 || At(d)
    {
      hide Tree, Resolve;
      RootUsed(nodes, depth);
      var end: int := |path|;
      while end > 1 && path[end - 1] == '/'
        invariant 0 <= end <= |path| && EndOf(path, |path|) == EndOf(path, end)
      {
        end := end - 1;
      }
      var start := end - 1;
      while start >= 0 && path[start] != '/'
        invariant -1 <= start < |path| && StartOf(path, end - 1) == StartOf(path, start)
      {
        start := start - 1;
      }
      var n := end - (start + 1);
      if n <= 0 || n > NAME_MAX { return -1, ""; }
      leaf := path[start + 1..end];
      if start < 0 { return from, leaf; }
      if start == 0 { return 0, leaf; }
      if start >= PATH_MAX { return -1, leaf; }
      d := ResolvePath(path[..start], from);
    }

    /** fat32_mkdir and fat32_touch: a success makes the path name a fresh node. */
    method Make(path: string, from: int, kind: Kind) returns (ok: bool)
      requires Valid() && At(from)
      modifies this
      ensures Valid() && |nodes| == |old(nodes)|
      ensures ok <==> CanMake(old(nodes), path, from)
      ensures !ok ==> nodes == old(nodes)
      ensures ok ==> Made(old(nodes), path, from, kind, nodes)
    {
      hide Tree, Resolve, Split, FindChild, ValidName, NoSlash, Put;
      var d, leaf := ResolveParent(path, from);
      if d < 0 || !nodes[d].used || nodes[d].kind != Dir { return false; }
      SplitLeaf(nodes, path, from);
      var k := CreateNode(d, leaf, kind);
      if k < 0 { return false; }
      CreatedIsResolved(old(nodes), old(depth), k, Node(true, kind, d, leaf, ""), path, from);
      return true;
    }

    /** fat32_rm. */
    method Remove(path: string, from: int) returns (ok: bool)
      requires Valid() && At(from)
      modifies this
      ensures Valid() && |nodes| == |old(nodes)|
      ensures var k := Resolve(old(nodes), path, from);
              && (ok <==> 0 <= k < |nodes| && old(nodes)[k].kind == File)
              && nodes == if ok then Put(old(nodes), k, FREE_NODE) else old(nodes)
    {
      var k := ResolvePath(path, from);
      if k < 0 || nodes[k].kind != File { return false; }
      TreeRemove(nodes, depth, k);
      nodes := Put(nodes, k, FREE_NODE);
      return true;
    }

    /** fat32_write_text: creates the file if need be, then replaces its content. */
    method WriteText(path: string, from: int, text: string) returns (ok: bool)
      requires Valid() && At(from)
      modifies this
      ensures Valid() && |nodes| == |old(nodes)|
      ensures ok ==> Written(old(nodes), path, from, text, nodes)
      ensures !ok ==> nodes == old(nodes)
      ensures var k := Resolve(old(nodes), path, from);
              ok <==> if 0 <= k < |nodes| then old(nodes)[k].kind == File else CanMake(old(nodes), path, from)
    {
      hide Tree, Resolve, Split, CanMake;
      var k := ResolvePath(path, from);
      if k < 0 {
        ok := Make(path, from, File);
        if !ok { return; }
        k := ResolvePath(path, from);
      }
      if nodes[k].kind != File { return false; }
      var content := if |text| > CONTENT_MAX then text[..CONTENT_MAX] else text;
      ghost var before := nodes;
      nodes := Put(nodes, k, nodes[k].(content := content));
      SameShape(before, nodes, path, from);
      SameTree(before, nodes, depth);
      return true;
    }

    /**
      fat32_build_path: fails on buffers of fewer than two bytes, prints the full path when it
      fits, and otherwise an ancestor's path with a trailing slash.
     */
    method BuildPath(i: int, outsz: int) returns (ok: bool, out: string)
      requires Valid() && At(i)
      ensures ok <==> outsz >= 2
      ensures ok && (i == 0 || |FullPath(nodes, depth, i)| + 2 <= outsz) ==> out == FullPath(nodes, depth, i)
      ensures ok && i != 0 && |FullPath(nodes, depth, i)| + 2 > outsz ==>
                exists a :: At(a) && depth[a] < depth[i] && out == PathOf(nodes, depth, a) + "/"
    {
      hide Tree, PathOf, UpChain;
      if outsz < 2 { return false, ""; }
      if i == 0 { return true, "/"; }
      var stack := Chain(i);
      out := "/";
      var k := |stack|;
      ghost var at := 0;
      RootDepth(nodes, depth);
      PathOfRoot(nodes, depth);
      DepthPositive(nodes, depth, i);
      while k > 0
        invariant 0 <= k <= |stack| && At(at) && |depth| == |nodes| && depth[at] + k == depth[i]
        invariant k > 0 ==> 0 <= stack[k - 1] < |nodes| && nodes[stack[k - 1]].parent == at
        invariant k > 0 ==> out == PathOf(nodes, depth, at) + "/"
        invariant k == 0 ==> at == i && out == PathOf(nodes, depth, i) && |out| + 2 <= outsz
      {
        ChainAt(nodes, depth, i, stack, k - 1);
        var n := nodes[stack[k - 1]].name;
        PathDown(nodes, depth, stack[k - 1]);
        PathPrefix(nodes, depth, i, stack, k - 1);
        if |out| + |n| + 1 >= outsz { return true, out; }
        out := out + n;
        k := k - 1;
        at := stack[k];
        if k > 0 { out := out + "/"; }
      }
      return true, out;
    }

    /** The upward walk: the node, its parent, and so on, up to but without the root. */
    method Chain(i: int) returns (stack: seq<int>)
      requires Valid() && At(i)
      ensures UpChain(nodes, depth, i, stack) && |stack| == depth[i]
      ensures stack != [] ==> 0 <= stack[|stack| - 1] < |nodes| && nodes[stack[|stack| - 1]].parent == 0
    {
      hide Tree, UpChain;
      stack := [];
      var p := i;
      DepthBounded(nodes, depth, i);
      RootDepth(nodes, depth);
      UpChainNil(nodes, depth, i);
      while p != 0 && |stack| < |nodes|
        invariant At(p) && |depth| == |nodes| && depth[p] + |stack| == depth[i] && UpChain(nodes, depth, i, stack)
        invariant stack != [] ==> 0 <= stack[|stack| - 1] < |nodes| && nodes[stack[|stack| - 1]].parent == p
        invariant stack == [] ==> p == i
        decreases |nodes| - |stack|
      {
        ParentAbove(nodes, depth, p);
        UpChainSnoc(nodes, depth, i, stack, p);
        stack := stack + [p];
        p := nodes[p].parent;
      }
    }

    /**
      Any run of the calls, each from the directory it names, with the trees it passes
      through: each call does what it says, and at the end every node's full path names that
      node, from anywhere.
     */
    method Serve(calls: seq<Call>) returns (answers: seq<bool>, ghost trace: seq<seq<Node>>)
      requires Valid()
      modifies this
      ensures Valid() && |answers| == |calls| && |trace| == |calls| + 1
      ensures trace[0] == old(nodes) && trace[|calls|] == nodes
      ensures forall i :: 0 <= i < |calls| ==> Did(trace[i], calls[i], answers[i], trace[i + 1])
      ensures forall i, from :: At(i) && At(from) ==> Resolve(nodes, FullPath(nodes, depth, i), from) == i
    {
      hide Tree, Resolve, CanMake, Did, Split;
      answers, trace := [], [nodes];
      for k := 0 to |calls|
        invariant Valid() && |answers| == k && |trace| == k + 1 && trace[0] == old(nodes) && trace[k] == nodes
        invariant forall i :: 0 <= i < k ==> Did(trace[i], calls[i], answers[i], trace[i + 1])
      {
        var ok := Perform(calls[k]);
        answers, trace := answers + [ok], trace + [nodes];
      }
      forall i, from | At(i) && At(from)
        ensures Resolve(nodes, FullPath(nodes, depth, i), from) == i
      {
        ResolveFullPath(nodes, depth, i, from);
      }
    }

    method Perform(call: Call) returns (ok: bool)
      requires Valid()
      modifies this
      ensures Valid() && Did(old(nodes), call, ok, nodes)
    {
      hide Tree, Resolve, CanMake, Split;
      RootUsed(nodes, depth);
      var from := ResolvePath(call.dir, 0);
      if from < 0 { from := 0; }
      match call
      case Mkdir(_, path) => ok := Make(path, from, Dir);
      case Touch(_, path) => ok := Make(path, from, File);
      case Write(_, path, text) => ok := WriteText(path, from, text);
      case Rm(_, path) => ok := Remove(path, from);
    }

    /** Printing and parsing agree exactly when the buffer holds the whole path. */
    method PathRoundTrip(i: int, outsz: int, from: int) returns (back: int)
      requires Valid() && At(i) && At(from) && outsz >= 2
      ensures back == i <==> i == 0 || |FullPath(nodes, depth, i)| + 2 <= outsz
    {
      var ok, out := BuildPath(i, outsz);
      back := ResolvePath(out, from);
      if i == 0 || |FullPath(nodes, depth, i)| + 2 <= outsz {
        ResolveFullPath(nodes, depth, i, from);
      } else {
        var a :| At(a) && depth[a] < depth[i] && out == PathOf(nodes, depth, a) + "/";
        ResolveTruncated(nodes, depth, a, from);
      }
    }
  }

  /** Each slot of the stack is the parent of the one before; the first is i. */
  ghost predicate UpChain(nodes: seq<Node>, depth: seq<nat>, i: int, stack: seq<int>) {
    && |depth| == |nodes| && 0 <= i < |nodes|
    && (stack != [] ==> stack[0] == i)
    && (forall k :: 0 <= k < |stack| ==>
          0 < stack[k] < |nodes| && nodes[stack[k]].used && depth[stack[k]] == depth[i] - k)
    && (forall k {:trigger nodes[stack[k]].parent} :: 0 <= k < |stack| - 1 ==> nodes[stack[k]].parent == stack[k + 1])
  }

  lemma UpChainNil(nodes: seq<Node>, depth: seq<nat>, i: int)
    requires |depth| == |nodes| && 0 <= i < |nodes|
    ensures UpChain(nodes, depth, i, [])
  {
  }

  lemma UpChainSnoc(nodes: seq<Node>, depth: seq<nat>, i: int, stack: seq<int>, p: int)
    requires UpChain(nodes, depth, i, stack) && 0 < p < |nodes| && nodes[p].used && depth[p] + |stack| == depth[i]
    requires if stack == [] then p == i else 0 <= stack[|stack| - 1] < |nodes| && nodes[stack[|stack| - 1]].parent == p
    ensures UpChain(nodes, depth, i, stack + [p])
  {
  }

  lemma ChainAt(nodes: seq<Node>, depth: seq<nat>, i: int, stack: seq<int>, k: nat)
    requires UpChain(nodes, depth, i, stack) && k < |stack|
    ensures 0 < stack[k] < |nodes| && nodes[stack[k]].used && depth[stack[k]] == depth[i] - k
    ensures k == 0 ==> stack[k] == i
    ensures k > 0 ==> 0 <= stack[k - 1] < |nodes| && nodes[stack[k - 1]].parent == stack[k]
  {
  }

  lemma PathOfRoot(nodes: seq<Node>, depth: seq<nat>)
    requires Tree(nodes, depth)
    ensures nodes[0].used && PathOf(nodes, depth, 0) == ""
  {
  }

  lemma DepthPositive(nodes: seq<Node>, depth: seq<nat>, i: int)
    requires Tree(nodes, depth) && 0 < i < |nodes| && nodes[i].used
    ensures depth[i] > 0
  {
  }

  lemma RootDepth(nodes: seq<Node>, depth: seq<nat>)
    requires Tree(nodes, depth)
    ensures |depth| == |nodes| > 0 && depth[0] == 0
  {
  }

  lemma ParentAbove(nodes: seq<Node>, depth: seq<nat>, i: int)
    requires Tree(nodes, depth) && 0 < i < |nodes| && nodes[i].used
    ensures 0 <= nodes[i].parent < |nodes| && nodes[nodes[i].parent].used && |depth| == |nodes|
    ensures depth[i] == depth[nodes[i].parent] + 1
  {
  }

  /** A path of a node on the chain is no longer than the path printed, and shorter above the node itself. */
  lemma {:induction false} PathPrefix(nodes: seq<Node>, depth: seq<nat>, i: int, stack: seq<int>, k: nat)
    requires Tree(nodes, depth) && UpChain(nodes, depth, i, stack) && k < |stack|
    ensures |PathOf(nodes, depth, stack[k])| <= |PathOf(nodes, depth, i)|
    decreases k
  {
    hide Tree, PathOf, UpChain;
    ChainAt(nodes, depth, i, stack, k);
    if k > 0 {
      ChainAt(nodes, depth, i, stack, k - 1);
      PathPrefix(nodes, depth, i, stack, k - 1);
      PathDown(nodes, depth, stack[k - 1]);
    }
  }

  lemma PathDown(nodes: seq<Node>, depth: seq<nat>, i: int)
    requires Tree(nodes, depth) && 0 < i < |nodes| && nodes[i].used
    ensures 0 <= nodes[i].parent < |nodes| && nodes[nodes[i].parent].used
    ensures PathOf(nodes, depth, i) == PathOf(nodes, depth, nodes[i].parent) + "/" + nodes[i].name
  {
  }

  lemma NameTest(name: string)
    requires NoSlash(name)
    ensures ValidName(name) <==> name != "" && name != "." && name != ".." && |name| <= NAME_MAX
  {
  }

  lemma TreeSizes(nodes: seq<Node>, depth: seq<nat>)
    requires Tree(nodes, depth)
    ensures |depth| == |nodes|
  {
  }

  lemma RootUsed(nodes: seq<Node>, depth: seq<nat>)
    requires Tree(nodes, depth)
    ensures |nodes| > 0 && nodes[0].used
  {
  }

  /** One turn of the parser at position i. */
  lemma WalkTurn(nodes: seq<Node>, path: string, i: nat, idx: int)
    requires i < |path| && 0 <= idx < |nodes|
    ensures path[i] == '/' ==> Walk(nodes, path[i..], idx) == Walk(nodes, path[i + 1..], idx)
    ensures path[i] != '/' ==>
              var j := i + SegLen(path[i..]);
              && j <= |path|
              && Walk(nodes, path[i..], idx) ==
                 var next := StepTo(nodes, idx, path[i..j]); if next < 0 then -1 else Walk(nodes, path[j..], next)
  {
    assert path[i..][1..] == path[i + 1..];
    var n := SegLen(path[i..]);
    assert path[i..][..n] == path[i..i + n] && path[i..][n..] == path[i + n..];
  }

  lemma {:induction false} SegEnds(path: string, n: nat)
    requires n <= |path| && NoSlash(path[..n]) && (n < |path| ==> path[n] == '/')
    ensures SegLen(path) == n
  {
    if n > 0 {
      assert path[0] == path[..n][0] && path[0] in path[..n];
      assert path[1..][..n - 1] == path[..n][1..];
      SegEnds(path[1..], n - 1);
    }
  }

  lemma SplitLeaf(nodes: seq<Node>, path: string, from: int)
    ensures NoSlash(Split(nodes, path, from).1)
  {
    hide EndOf, StartOf, Resolve;
    var e: int := EndOf(path, |path|);
    var s := StartOf(path, e - 1);
    if e - (s + 1) > 0 { SplitShape(path, e, s); }
  }

  /** Only content differs. */
  ghost predicate SameLinks(nodes: seq<Node>, nodes': seq<Node>) {
    |nodes'| == |nodes| && forall i :: 0 <= i < |nodes| ==> nodes'[i] == nodes[i].(content := nodes'[i].content)
  }

  lemma SameTree(nodes: seq<Node>, nodes': seq<Node>, depth: seq<nat>)
    requires SameLinks(nodes, nodes') && Tree(nodes, depth)
    ensures Tree(nodes', depth)
  {
  }

  lemma {:induction false} SameFind(nodes: seq<Node>, nodes': seq<Node>, parent: int, name: string, i: nat)
    requires SameLinks(nodes, nodes')
    ensures FindFrom(nodes', parent, name, i) == FindFrom(nodes, parent, name, i)
    decreases |nodes| - i
  {
    if i < |nodes| { SameFind(nodes, nodes', parent, name, i + 1); }
  }

  lemma {:induction false} SameWalk(nodes: seq<Node>, nodes': seq<Node>, path: string, idx: int)
    requires SameLinks(nodes, nodes')
    ensures Walk(nodes', path, idx) == Walk(nodes, path, idx)
    decreases |path|
  {
    if path != [] && 0 <= idx < |nodes| {
      if path[0] == '/' {
        SameWalk(nodes, nodes', path[1..], idx);
      } else {
        var n := SegLen(path);
        SameFind(nodes, nodes', idx, if n > NAME_MAX then path[..n][..NAME_MAX] else path[..n], 0);
        SameWalk(nodes, nodes', path[n..], StepTo(nodes, idx, path[..n]));
      }
    }
  }

  /** Writing content moves no node. */
  lemma SameShape(nodes: seq<Node>, nodes': seq<Node>, path: string, from: int)
    requires SameLinks(nodes, nodes')
    ensures Resolve(nodes', path, from) == Resolve(nodes, path, from)
  {
    SameWalk(nodes, nodes', path, if path != [] && path[0] == '/' then 0 else from);
  }
}
