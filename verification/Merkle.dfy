/** Merkle proofs over sorted pairs, for any hash function with 32-byte results. */
module Merkle {
  import opened Prelude
  import opened Bytes

  type hash = bytes -> bytes

  ghost predicate Is32(h: hash) {
    forall x: bytes :: |h(x)| == 32
  }

  predicate All32(nodes: seq<bytes>) {
    forall i | 0 <= i < |nodes| :: |nodes[i]| == 32
  }

  function CombineTwoHash(a: bytes, b: bytes): bytes {
    if Less(a, b) then a + b else b + a
  }

  /** Hash the leaf up along `nodes`, lowest node first. */
  function Fold(h: hash, leaf: bytes, nodes: seq<bytes>): bytes {
    if nodes == [] then leaf
    else h(CombineTwoHash(nodes[|nodes| - 1], Fold(h, leaf, nodes[..|nodes| - 1])))
  }

  /** The 32-byte pieces of a proof. */
  function Pieces(proof: bytes): (nodes: seq<bytes>)
    requires |proof| % 32 == 0
    ensures |nodes| == |proof| / 32 && All32(nodes)
    ensures forall i | 0 <= i < |nodes| :: nodes[i] == proof[32 * i..32 * i + 32]
  {
    seq(|proof| / 32, i requires 0 <= i < |proof| / 32 => proof[32 * i..32 * i + 32])
  }

  function Join(nodes: seq<bytes>): bytes {
    if nodes == [] then [] else Join(nodes[..|nodes| - 1]) + nodes[|nodes| - 1]
  }

  lemma {:induction false} PiecesOfJoin(nodes: seq<bytes>)
    requires All32(nodes)
    ensures |Join(nodes)| == 32 * |nodes| && Pieces(Join(nodes)) == nodes
  {
    if nodes != [] {
      var n := |nodes| - 1;
      PiecesOfJoin(nodes[..n]);
      forall i | 0 <= i < |nodes|
        ensures Join(nodes)[32 * i..32 * i + 32] == nodes[i]
      {
        if i < n {
          assert Join(nodes)[32 * i..32 * i + 32] == Join(nodes[..n])[32 * i..32 * i + 32];
          assert Pieces(Join(nodes[..n]))[i] == nodes[..n][i];
        }
      }
    }
  }

  predicate Accepts(h: hash, root: bytes, proof: bytes, leaf: bytes) {
    |leaf| == 32 && |proof| % 32 == 0 && Fold(h, leaf, Pieces(proof)) == root
  }

  method VerifyMerkleProof(h: hash, root: bytes, proof: bytes, leaf: bytes) returns (r: Result<bool>)
    ensures r.Throw? <==> |leaf| != 32 || |proof| % 32 != 0
    ensures r.Ok? ==> (r.value <==> Accepts(h, root, proof, leaf))
  {
    if |leaf| != 32 {
      return Throw;
    }
    if |proof| % 32 != 0 {
      return Throw;
    }
    ghost var nodes := Pieces(proof);
    var computedHash := leaf;
    var offset := 0;
    while offset < |proof|
      invariant 0 <= offset <= |proof| && offset % 32 == 0
      invariant computedHash == Fold(h, leaf, nodes[..offset / 32])
    {
      var node := proof[offset..offset + 32];
      ghost var k := offset / 32;
      assert node == nodes[k];
      assert nodes[..k + 1][..k] == nodes[..k];
      computedHash := h(CombineTwoHash(node, computedHash));
      offset := offset + 32;
    }
    assert nodes[..|proof| / 32] == nodes;
    return Ok(root == computedHash);
  }

  // ---- Trees ----

  datatype Tree = Leaf(value: bytes) | Node(left: Tree, right: Tree)

  function Root(h: hash, t: Tree): bytes {
    match t
    case Leaf(v) => v
    case Node(l, r) => h(CombineTwoHash(Root(h, l), Root(h, r)))
  }

  predicate Leaves32(t: Tree) {
    match t
    case Leaf(v) => |v| == 32
    case Node(l, r) => Leaves32(l) && Leaves32(r)
  }

  predicate Perfect(t: Tree, depth: nat) {
    match t
    case Leaf(_) => depth == 0
    case Node(l, r) => depth > 0 && Perfect(l, depth - 1) && Perfect(r, depth - 1)
  }

  /** The subtree at `path`: false goes left, true goes right. */
  function At(t: Tree, path: seq<bool>): Option<Tree> {
    if path == [] then Some(t)
    else match t
      case Leaf(_) => None
      case Node(l, r) => At(if path[0] then r else l, path[1..])
  }

  /** The hashes beside `path`, lowest first. */
  function Siblings(h: hash, t: Tree, path: seq<bool>): seq<bytes>
    requires At(t, path).Some?
  {
    if path == [] then []
    else if path[0] then Siblings(h, t.right, path[1..]) + [Root(h, t.left)]
    else Siblings(h, t.left, path[1..]) + [Root(h, t.right)]
  }

  lemma {:induction false} Root32(h: hash, t: Tree)
    requires Is32(h) && Leaves32(t)
    ensures |Root(h, t)| == 32
  {
  }

  lemma CombineIsSymmetric(a: bytes, b: bytes)
    ensures CombineTwoHash(a, b) == CombineTwoHash(b, a)
  {
    LessTotal(a, b);
    if Less(a, b) {
      LessAsymmetric(a, b);
    }
  }

  /** A combination of 32-byte strings determines them up to order. */
  lemma CombineIsInjective(a: bytes, b: bytes, c: bytes, d: bytes)
    requires |a| == |b| == |c| == |d| == 32
    requires CombineTwoHash(a, b) == CombineTwoHash(c, d)
    ensures (a == c && b == d) || (a == d && b == c)
  {
    var x, y := CombineTwoHash(a, b), CombineTwoHash(c, d);
    assert (x[..32] == a && x[32..] == b) || (x[..32] == b && x[32..] == a);
    assert (y[..32] == c && y[32..] == d) || (y[..32] == d && y[32..] == c);
  }

  // ---- What is hashed, byte by byte ----

  /** Of two parts the smaller one, by the first byte that differs, is written first. */
  lemma SmallerPartFirst(a: bytes, b: bytes, i: nat)
    requires i < |a| && i < |b| && a[..i] == b[..i] && a[i] < b[i]
    ensures CombineTwoHash(a, b) == CombineTwoHash(b, a) == a + b
  {
    LessAtFirstDifference(a, b, i);
  }

  /** The first node of a proof is combined with the leaf. */
  lemma {:induction false} LowestNodeFirst(h: hash, leaf: bytes, node: bytes, rest: seq<bytes>)
    ensures Fold(h, leaf, [node] + rest) == Fold(h, h(CombineTwoHash(node, leaf)), rest)
  {
    var nodes := [node] + rest;
    if rest != [] {
      var n := |rest| - 1;
      assert nodes[..|nodes| - 1] == [node] + rest[..n];
      LowestNodeFirst(h, leaf, node, rest[..n]);
    } else {
      assert nodes[..0] == [];
    }
  }

  /** Two leaves, the first smaller by the first byte that differs: each is accepted with the other as proof. */
  lemma TwoLeavesAreAccepted(h: hash, a: bytes, b: bytes, i: nat)
    requires |a| == |b| == 32 && i < 32 && a[..i] == b[..i] && a[i] < b[i]
    ensures Accepts(h, h(a + b), b, a) && Accepts(h, h(a + b), a, b)
  {
    SmallerPartFirst(a, b, i);
    OneNode(h, a, b);
    OneNode(h, b, a);
  }

  lemma OneNode(h: hash, leaf: bytes, node: bytes)
    requires |node| == 32
    ensures Fold(h, leaf, Pieces(node)) == h(CombineTwoHash(node, leaf))
  {
    assert Pieces(node)[0] == node[0..32] == node;
    assert Pieces(node) == [node] + [];
    LowestNodeFirst(h, leaf, node, []);
  }

  // ---- Completeness ----

  /** In a tree of any shape, hashing a subtree up along its siblings gives the root. */
  lemma {:induction false} SiblingsFoldToRoot(h: hash, t: Tree, path: seq<bool>)
    requires At(t, path).Some?
    ensures Fold(h, Root(h, At(t, path).value), Siblings(h, t, path)) == Root(h, t)
  {
    if path != [] {
      var child, other := if path[0] then t.right else t.left, if path[0] then t.left else t.right;
      SiblingsFoldToRoot(h, child, path[1..]);
      var nodes := Siblings(h, t, path);
      assert nodes[..|nodes| - 1] == Siblings(h, child, path[1..]);
      CombineIsSymmetric(Root(h, t.left), Root(h, t.right));
    }
  }

  lemma {:induction false} Siblings32(h: hash, t: Tree, path: seq<bool>)
    requires Is32(h) && Leaves32(t) && At(t, path).Some?
    ensures All32(Siblings(h, t, path)) && |Siblings(h, t, path)| == |path|
    ensures Leaves32(At(t, path).value)
  {
    if path != [] {
      var child, other := if path[0] then t.right else t.left, if path[0] then t.left else t.right;
      Siblings32(h, child, path[1..]);
      Root32(h, other);
    }
  }

  /** Every leaf's sibling path is accepted. */
  lemma EveryLeafIsAccepted(h: hash, t: Tree, path: seq<bool>)
    requires Is32(h) && Leaves32(t) && At(t, path).Some? && At(t, path).value.Leaf?
    ensures Accepts(h, Root(h, t), Join(Siblings(h, t, path)), At(t, path).value.value)
  {
    Siblings32(h, t, path);
    PiecesOfJoin(Siblings(h, t, path));
    SiblingsFoldToRoot(h, t, path);
  }

  // ---- Soundness ----

  /** Why a proof can be accepted: it follows a path; or here are colliding inputs; or it runs past a leaf. */
  datatype Reason =
    | Follows(path: seq<bool>)
    | Collides(x: bytes, y: bytes)
    | Digs(path: seq<bool>, preimage: bytes)

  function Prefixed(step: bool, r: Reason): Reason {
    match r
    case Follows(path) => Follows([step] + path)
    case Collides(_, _) => r
    case Digs(path, p) => Digs([step] + path, p)
  }

  /** Computes the reason from the tree and the proof alone. */
  function Explain(h: hash, t: Tree, leaf: bytes, nodes: seq<bytes>): Reason {
    if nodes == [] then Follows([])
    else
      var lower := nodes[..|nodes| - 1];
      var below := Fold(h, leaf, lower);
      var x := CombineTwoHash(nodes[|nodes| - 1], below);
      match t
      case Leaf(_) => Digs([], x)
      case Node(l, r) =>
        var y := CombineTwoHash(Root(h, l), Root(h, r));
        if x != y then Collides(x, y)
        else if below == Root(h, l) then Prefixed(false, Explain(h, l, leaf, lower))
        else Prefixed(true, Explain(h, r, leaf, lower))
  }

  ghost predicate Justifies(r: Reason, h: hash, t: Tree, leaf: bytes, nodes: seq<bytes>) {
    match r
    case Follows(path) =>
      At(t, path).Some? && leaf == Root(h, At(t, path).value) && nodes == Siblings(h, t, path)
    case Collides(x, y) => x != y && h(x) == h(y)
    case Digs(path, p) => |path| < |nodes| && At(t, path) == Some(Leaf(h(p)))
  }

  lemma Fold32(h: hash, leaf: bytes, nodes: seq<bytes>)
    requires Is32(h) && |leaf| == 32
    ensures |Fold(h, leaf, nodes)| == 32
  {
  }

  /** The computed reason holds of every proof accepted against any tree. */
  lemma {:induction false} AcceptedHasReason(h: hash, t: Tree, leaf: bytes, nodes: seq<bytes>)
    requires Is32(h) && Leaves32(t) && All32(nodes) && |leaf| == 32
    requires Fold(h, leaf, nodes) == Root(h, t)
    ensures Justifies(Explain(h, t, leaf, nodes), h, t, leaf, nodes)
  {
    if nodes != [] && t.Node? {
      var n := |nodes| - 1;
      var below := Fold(h, leaf, nodes[..n]);
      if CombineTwoHash(nodes[n], below) == CombineTwoHash(Root(h, t.left), Root(h, t.right)) {
        Fold32(h, leaf, nodes[..n]);
        Root32(h, t.left);
        Root32(h, t.right);
        CombineIsInjective(nodes[n], below, Root(h, t.left), Root(h, t.right));
        var left := below == Root(h, t.left);
        var child := if left then t.left else t.right;
        AcceptedHasReason(h, child, leaf, nodes[..n]);
        JustifiesAbove(!left, Explain(h, child, leaf, nodes[..n]), h, t, leaf, nodes);
      }
    }
  }

  lemma JustifiesAbove(right: bool, r: Reason, h: hash, t: Tree, leaf: bytes, nodes: seq<bytes>)
    requires t.Node? && nodes != []
    requires nodes[|nodes| - 1] == Root(h, if right then t.left else t.right)
    requires Justifies(r, h, if right then t.right else t.left, leaf, nodes[..|nodes| - 1])
    ensures Justifies(Prefixed(right, r), h, t, leaf, nodes)
  {
  }

  lemma {:induction false} PerfectDepth(t: Tree, depth: nat, path: seq<bool>)
    requires Perfect(t, depth) && At(t, path).Some?
    ensures |path| <= depth && Perfect(At(t, path).value, depth - |path|)
  {
    if path != [] {
      PerfectDepth(if path[0] then t.right else t.left, depth - 1, path[1..]);
    }
  }

  /**
    * Against a perfect tree, a proof of full length that is accepted starts from the leaf it leads to
    * and lists that leaf's siblings, or else yields two inputs that collide.
    */
  lemma AcceptedStartsFromALeaf(h: hash, t: Tree, depth: nat, proof: bytes, leaf: bytes)
    requires Is32(h) && Leaves32(t) && Perfect(t, depth)
    requires |proof| == 32 * depth && Accepts(h, Root(h, t), proof, leaf)
    ensures match Explain(h, t, leaf, Pieces(proof))
            case Follows(path) => At(t, path) == Some(Leaf(leaf)) && Pieces(proof) == Siblings(h, t, path)
            case Collides(x, y) => x != y && h(x) == h(y)
            case Digs(_, _) => false
  {
    var nodes := Pieces(proof);
    AcceptedHasReason(h, t, leaf, nodes);
    var r := Explain(h, t, leaf, nodes);
    if !r.Collides? {
      PerfectDepth(t, depth, r.path);
      if r.Follows? {
        Siblings32(h, t, r.path);
      }
    }
  }

  lemma ByteInPiece(proof: bytes, depth: nat, j: nat)
    requires |proof| == 32 * depth && j < |proof|
    ensures j / 32 < depth && proof[j] == Pieces(proof)[j / 32][j % 32]
  {
    var i := j / 32;
    assert Pieces(proof)[i] == proof[32 * i..32 * i + 32];
  }

  lemma PiecesDetermine(proof1: bytes, proof2: bytes, depth: nat)
    requires |proof1| == |proof2| == 32 * depth && Pieces(proof1) == Pieces(proof2)
    ensures proof1 == proof2
  {
    forall j | 0 <= j < |proof1|
      ensures proof1[j] == proof2[j]
    {
      ByteInPiece(proof1, depth, j);
      ByteInPiece(proof2, depth, j);
    }
  }

  predicate IsCollision(h: hash, r: Reason) {
    r.Collides? && r.x != r.y && h(r.x) == h(r.y)
  }

  /**
    * Two different claims, of a leaf and its proof, that are both accepted at full length are about two leaves of the
    * tree at different paths, or one of them yields a collision.
    */
  lemma AcceptedProofsDiffer(h: hash, t: Tree, depth: nat, proof1: bytes, leaf1: bytes, proof2: bytes, leaf2: bytes)
    requires Is32(h) && Leaves32(t) && Perfect(t, depth)
    requires |proof1| == |proof2| == 32 * depth && (leaf1, proof1) != (leaf2, proof2)
    requires Accepts(h, Root(h, t), proof1, leaf1) && Accepts(h, Root(h, t), proof2, leaf2)
    ensures var r1, r2 := Explain(h, t, leaf1, Pieces(proof1)), Explain(h, t, leaf2, Pieces(proof2));
            || IsCollision(h, r1)
            || IsCollision(h, r2)
            || (&& r1.Follows? && r2.Follows? && r1.path != r2.path
                && At(t, r1.path) == Some(Leaf(leaf1)) && At(t, r2.path) == Some(Leaf(leaf2)))
  {
    AcceptedStartsFromALeaf(h, t, depth, proof1, leaf1);
    AcceptedStartsFromALeaf(h, t, depth, proof2, leaf2);
    if Pieces(proof1) == Pieces(proof2) {
      PiecesDetermine(proof1, proof2, depth);
    }
  }
}
