/**
 The Merkle root over a path-to-digest map (ComputeMerkleRoot in
 control/chronos_fim.go). SHA-256 is a free constructor over what is hashed; leaf
 and node inputs start with different texts. The all-zero root of the empty map is
 the digest of nothing.
 */
module ChronosMerkle {
  import opened TextOrder

  datatype Digest = Leaf(text: string) | Node(left: Digest, right: Digest)

  datatype Root = Zeros | Hex(digest: Digest)

  function LeafText(path: string, hash: string): string {
    path + ":" + hash
  }

  function Leaves(paths: seq<string>, hashes: map<string, string>): seq<Digest>
    requires forall i :: 0 <= i < |paths| ==> paths[i] in hashes
  {
    seq(|paths|, i requires 0 <= i < |paths| => Leaf(LeafText(paths[i], hashes[paths[i]])))
  }

  /** The next level: pairs in order, the odd one paired with itself. */
  function Level(nodes: seq<Digest>): seq<Digest> {
    seq((|nodes| + 1) / 2, i requires 0 <= i < (|nodes| + 1) / 2 =>
      Node(nodes[2 * i], if 2 * i + 1 < |nodes| then nodes[2 * i + 1] else nodes[2 * i]))
  }

  function Top(nodes: seq<Digest>): Digest
    requires nodes != []
    decreases |nodes|
  {
    if |nodes| == 1 then nodes[0] else Top(Level(nodes))
  }

  /** The paths of the map in sorted order. */
  ghost predicate PathsOf(hashes: map<string, string>, paths: seq<string>) {
    Sorted(paths) && forall p :: p in paths <==> p in hashes
  }

  ghost predicate IsRoot(hashes: map<string, string>, root: Root) {
    if hashes == map[] then root == Zeros
    else exists paths :: paths != [] && PathsOf(hashes, paths) && root == Hex(Top(Leaves(paths, hashes)))
  }

  // ------------------------------------------------------------- computation

  method BuildLevel(nodes: seq<Digest>) returns (next: seq<Digest>)
    ensures next == Level(nodes)
  {
    next := [];
    var i := 0;
    while i < |nodes|
      invariant 0 <= i <= |nodes| + 1 && i == 2 * |next|
      invariant next == Level(nodes)[..|next|] && |next| <= |Level(nodes)|
    {
      if i + 1 < |nodes| {
        next := next + [Node(nodes[i], nodes[i + 1])];
      } else {
        next := next + [Node(nodes[i], nodes[i])];
      }
      i := i + 2;
    }
  }

  method SortedKeys(hashes: map<string, string>) returns (paths: seq<string>)
    ensures PathsOf(hashes, paths)
  {
    paths := [];
    var rest := hashes.Keys;
    while rest != {}
      invariant rest <= hashes.Keys
      invariant Sorted(paths) && forall p :: p in paths <==> p in hashes.Keys - rest
      decreases |rest|
    {
      var p :| p in rest;
      paths := Insert(paths, p);
      rest := rest - {p};
    }
  }

  method ComputeMerkleRoot(hashes: map<string, string>) returns (root: Root)
    ensures IsRoot(hashes, root)
  {
    if |hashes| == 0 {
      return Zeros;
    }
    var paths := SortedKeys(hashes);
    assert paths != [] by {
      var p :| p in hashes;
      assert p in paths;
    }
    var level: seq<Digest> := [];
    for i := 0 to |paths|
      invariant level == Leaves(paths, hashes)[..i]
    {
      level := level + [Leaf(LeafText(paths[i], hashes[paths[i]]))];
    }
    assert level == Leaves(paths, hashes);
    while |level| > 1
      invariant level != [] && Top(level) == Top(Leaves(paths, hashes))
      decreases |level|
    {
      level := BuildLevel(level);
    }
    root := Hex(level[0]);
  }

  // --------------------------------------------------------------- injectivity

  predicate Distinct(nodes: seq<Digest>) {
    forall i, j :: 0 <= i < j < |nodes| ==> nodes[i] != nodes[j]
  }

  predicate AtHeight(d: Digest, height: nat) {
    match d
    case Leaf(_) => height == 0
    case Node(l, r) => height > 0 && AtHeight(l, height - 1) && AtHeight(r, height - 1)
  }

  predicate AllAtHeight(nodes: seq<Digest>, height: nat) {
    forall i :: 0 <= i < |nodes| ==> AtHeight(nodes[i], height)
  }

  lemma LevelKeeps(nodes: seq<Digest>, height: nat)
    requires Distinct(nodes) && AllAtHeight(nodes, height)
    ensures Distinct(Level(nodes)) && AllAtHeight(Level(nodes), height + 1)
  {
    forall i, j | 0 <= i < j < |Level(nodes)|
      ensures Level(nodes)[i] != Level(nodes)[j]
    {
      assert nodes[2 * i] != nodes[2 * j];
    }
  }

  /** Distinct nodes can be read back from the next level: the last pair tells whether its node was duplicated. */
  lemma LevelIsInjective(a: seq<Digest>, b: seq<Digest>)
    requires Distinct(a) && Distinct(b) && Level(a) == Level(b)
    ensures a == b
  {
    var n := |Level(a)|;
    if n > 0 {
      var last := Level(a)[n - 1];
      assert last == Level(b)[n - 1];
      assert last.left == last.right <==> |a| == 2 * n - 1;
      assert last.left == last.right <==> |b| == 2 * n - 1;
    }
    assert |a| == |b|;
    forall i | 0 <= i < |a|
      ensures a[i] == b[i]
    {
      assert Level(a)[i / 2] == Level(b)[i / 2];
      assert i == 2 * (i / 2) || i == 2 * (i / 2) + 1;
    }
  }

  lemma {:induction false} HeightIsUnique(d: Digest, a: nat, b: nat)
    requires AtHeight(d, a) && AtHeight(d, b)
    ensures a == b
  {
    if d.Node? {
      HeightIsUnique(d.left, a - 1, b - 1);
    }
  }

  /** More than one node means at least one more level. */
  lemma {:induction false} TopIsHigher(nodes: seq<Digest>, height: nat) returns (top: nat)
    requires Distinct(nodes) && AllAtHeight(nodes, height) && |nodes| > 1
    ensures top > height && AtHeight(Top(nodes), top)
    decreases |nodes|
  {
    LevelKeeps(nodes, height);
    var next := Level(nodes);
    if |next| == 1 {
      top := height + 1;
      assert Top(nodes) == Top(next) == next[0];
    } else {
      top := TopIsHigher(next, height + 1);
    }
  }

  lemma {:induction false} TopIsInjective(a: seq<Digest>, b: seq<Digest>, height: nat)
    requires a != [] && b != [] && Distinct(a) && Distinct(b)
    requires AllAtHeight(a, height) && AllAtHeight(b, height)
    requires Top(a) == Top(b)
    ensures a == b
    decreases |a|
  {
    if |a| > 1 && |b| > 1 {
      LevelKeeps(a, height);
      LevelKeeps(b, height);
      TopIsInjective(Level(a), Level(b), height + 1);
      LevelIsInjective(a, b);
    } else if |a| > 1 {
      var top := TopIsHigher(a, height);
      HeightIsUnique(Top(a), top, height);
    } else if |b| > 1 {
      var top := TopIsHigher(b, height);
      HeightIsUnique(Top(b), top, height);
    }
  }

  /** With digests of one length a leaf text splits in one way only. */
  lemma LeafTextIsInjective(p: string, h: string, q: string, g: string)
    requires |h| == |g| && LeafText(p, h) == LeafText(q, g)
    ensures p == q && h == g
  {
    var text := LeafText(p, h);
    assert text[..|p|] == p && text[..|q|] == q;
    assert text[|p| + 1..] == h && text[|q| + 1..] == g;
  }

  /** Every digest is the hex text of a SHA-256 value. */
  predicate FixedLength(hashes: map<string, string>) {
    forall p :: p in hashes ==> |hashes[p]| == 64
  }

  lemma LeavesAreDistinct(hashes: map<string, string>, paths: seq<string>)
    requires FixedLength(hashes) && PathsOf(hashes, paths)
    ensures Distinct(Leaves(paths, hashes)) && AllAtHeight(Leaves(paths, hashes), 0)
  {
    forall i, j | 0 <= i < j < |paths|
      ensures Leaves(paths, hashes)[i] != Leaves(paths, hashes)[j]
    {
      assert paths[i] in hashes && paths[j] in hashes;
      if Leaves(paths, hashes)[i] == Leaves(paths, hashes)[j] {
        LeafTextIsInjective(paths[i], hashes[paths[i]], paths[j], hashes[paths[j]]);
        LessIrreflexive(paths[i]);
      }
    }
  }

  lemma LeavesDetermineMap(a: map<string, string>, b: map<string, string>, paths: seq<string>, other: seq<string>)
    requires FixedLength(a) && FixedLength(b) && PathsOf(a, paths) && PathsOf(b, other)
    requires Leaves(paths, a) == Leaves(other, b)
    ensures a == b
  {
    assert |paths| == |Leaves(paths, a)| == |other|;
    forall i | 0 <= i < |paths|
      ensures paths[i] == other[i] && a[paths[i]] == b[other[i]]
    {
      assert paths[i] in a && other[i] in b;
      assert Leaves(paths, a)[i] == Leaves(other, b)[i];
      LeafTextIsInjective(paths[i], a[paths[i]], other[i], b[other[i]]);
    }
    assert paths == other;
    forall p | p in a || p in b
      ensures p in a && p in b && a[p] == b[p]
    {
      assert p in paths;
      var i :| 0 <= i < |paths| && paths[i] == p;
    }
  }

  /** The root identifies the digest map: two maps have the same root exactly when they are equal. */
  lemma RootIdentifiesMap(a: map<string, string>, b: map<string, string>, rootA: Root, rootB: Root)
    requires FixedLength(a) && FixedLength(b) && IsRoot(a, rootA) && IsRoot(b, rootB)
    ensures rootA == rootB <==> a == b
  {
    if a != map[] && b != map[] {
      var paths :| paths != [] && PathsOf(a, paths) && rootA == Hex(Top(Leaves(paths, a)));
      var other :| other != [] && PathsOf(b, other) && rootB == Hex(Top(Leaves(other, b)));
      if a == b {
        SortedIsUnique(paths, other);
      }
      if rootA == rootB {
        LeavesAreDistinct(a, paths);
        LeavesAreDistinct(b, other);
        TopIsInjective(Leaves(paths, a), Leaves(other, b), 0);
        LeavesDetermineMap(a, b, paths, other);
      }
    }
  }

  /** Without the fixed length the separator is ambiguous: different maps, one root. */
  lemma FixedLengthIsNeeded()
    ensures var a: map<string, string>, b: map<string, string> := map["a" := "b:c"], map["a:b" := "c"];
            a != b && exists root :: IsRoot(a, root) && IsRoot(b, root)
  {
    var a: map<string, string>, b: map<string, string> := map["a" := "b:c"], map["a:b" := "c"];
    assert "a" in a && "a" !in b && "a:b" in b;
    assert PathsOf(a, ["a"]) && PathsOf(b, ["a:b"]);
    assert LeafText("a", "b:c") == "a:b:c" == LeafText("a:b", "c");
    assert Leaves(["a"], a) == [Leaf("a:b:c")] == Leaves(["a:b"], b);
    var root := Hex(Leaf("a:b:c"));
    assert IsRoot(a, root) && IsRoot(b, root);
  }

  // -------------------------------------------------------------------- its shape

  /** How many levels are above n nodes. */
  function Height(n: nat): nat
    requires n > 0
  {
    if n == 1 then 0 else 1 + Height((n + 1) / 2)
  }

  /** The node reached from the top by the last `height` binary digits of i: left for 0, right for 1. */
  function Reached(d: Digest, i: nat, height: nat): Digest {
    if height == 0 then d
    else
      var up := Reached(d, i / 2, height - 1);
      if up.Leaf? then up else if i % 2 == 0 then up.left else up.right
  }

  /**
   Where the nodes are in the tree: number i is found by the binary digits of i, so the tree keeps their order, and an
   odd last node is found again as its own neighbour.
   */
  lemma {:induction false} NodesAreInOrder(nodes: seq<Digest>, i: nat)
    requires i < |nodes| || (i == |nodes| && |nodes| > 1 && |nodes| % 2 == 1)
    ensures Reached(Top(nodes), i, Height(|nodes|)) == if i < |nodes| then nodes[i] else nodes[i - 1]
    decreases |nodes|
  {
    if |nodes| > 1 {
      var next := Level(nodes);
      assert |next| == (|nodes| + 1) / 2;
      NodesAreInOrder(next, i / 2);
      assert next[i / 2] == Node(nodes[2 * (i / 2)],
                                 if 2 * (i / 2) + 1 < |nodes| then nodes[2 * (i / 2) + 1] else nodes[2 * (i / 2)]);
    }
  }

  lemma TwoAndThree(a: Digest, b: Digest, c: Digest)
    ensures Top([a]) == a && Top([a, b]) == Node(a, b) && Top([a, b, c]) == Node(Node(a, b), Node(c, c))
  {
    var next := [Node(a, b), Node(c, c)];
    assert Level([a, b]) == [Node(a, b)];
    assert Level([a, b, c]) == next;
    assert Level(next) == [Node(Node(a, b), Node(c, c))];
    assert Top([a, b, c]) == Top(next) == Top([Node(Node(a, b), Node(c, c))]);
  }

  /** The root of two files: the leaf of the smaller path on the left. */
  lemma RootOfTwoFiles(p: string, h: string, q: string, g: string, root: Root)
    requires Less(p, q) && IsRoot(map[p := h, q := g], root)
    ensures root == Hex(Node(Leaf(p + ":" + h), Leaf(q + ":" + g)))
  {
    LessIrreflexive(p);
    var m := map[p := h, q := g];
    assert p in m;
    var paths :| paths != [] && PathsOf(m, paths) && root == Hex(Top(Leaves(paths, m)));
    assert PathsOf(m, [p, q]);
    SortedIsUnique(paths, [p, q]);
    assert Leaves([p, q], m) == [Leaf(LeafText(p, h)), Leaf(LeafText(q, g))];
    TwoAndThree(Leaf(LeafText(p, h)), Leaf(LeafText(q, g)), Leaf(LeafText(q, g)));
  }
}
