/** Merkle trees (Blockchain/merkle.go). Leaves hold the raw data items (the last one doubled when
    their number is odd); an inner node holds the SHA-256 of its children's data joined. */
module Merkle {
  import opened ByteStrings
  import opened Outcomes
  import opened Crypto

  datatype MerkleNode = MerkleNode(left: Option<MerkleNode>, right: Option<MerkleNode>, data: Bytes)

  datatype MerkleTree = MerkleTree(root: MerkleNode)

  /** NewMerkleNode: with no children the node holds the hash of data; with both it holds the hash
      of their data joined and data is ignored; with one child it dereferences nil. */
  function NewMerkleNode(p: Primitives, left: Option<MerkleNode>, right: Option<MerkleNode>, data: Bytes)
    : (r: Result<MerkleNode>)
    ensures r.Ok? <==> (left.Some? <==> right.Some?)
    ensures r.Err? ==> r.error == NilDereference
    ensures r.Ok? ==> r.value.left == left && r.value.right == right && |r.value.data| == 32
    ensures r.Ok? && left.None? ==> r.value.data == p.sha256(data)
    ensures r.Ok? && left.Some? ==> r.value.data == p.sha256(left.value.data + right.value.data)
  {
    if left.None? && right.None? then
      Ok(MerkleNode(left, right, p.sha256(data)))
    else if left.Some? && right.Some? then
      Ok(MerkleNode(left, right, p.sha256(left.value.data + right.value.data)))
    else
      Err(NilDereference)
  }

  function Leaf(info: Bytes): MerkleNode {
    MerkleNode(None, None, info)
  }

  function Parent(p: Primitives, left: MerkleNode, right: MerkleNode): MerkleNode {
    MerkleNode(Some(left), Some(right), p.sha256(left.data + right.data))
  }

  /** An odd-length sequence gets its last element repeated. */
  function PadOdd<T>(s: seq<T>): (r: seq<T>)
    ensures |r| % 2 == 0 && s <= r
    ensures |s| % 2 == 0 ==> r == s
    ensures |s| % 2 != 0 ==> |r| == |s| + 1 && r[|s|] == s[|s| - 1]
  {
    if |s| % 2 != 0 then s + [s[|s| - 1]] else s
  }

  function Leaves(data: seq<Bytes>): (r: seq<MerkleNode>)
    ensures |r| == |data| && forall k :: 0 <= k < |r| ==> r[k] == Leaf(data[k])
  {
    seq(|data|, k requires 0 <= k < |data| => Leaf(data[k]))
  }

  /** The level above an even number of nodes: node k pairs nodes 2k and 2k+1. */
  function ParentLevel(p: Primitives, nodes: seq<MerkleNode>): (r: seq<MerkleNode>)
    requires |nodes| % 2 == 0
    ensures |r| == |nodes| / 2
    ensures forall k :: 0 <= k < |r| ==> r[k] == Parent(p, nodes[2 * k], nodes[2 * k + 1])
    decreases |nodes|
  {
    if nodes == [] then []
    else
      var n := |nodes|;
      ParentLevel(p, nodes[..n - 2]) + [Parent(p, nodes[n - 2], nodes[n - 1])]
  }

  /** As written: k rounds of pairing, each of which fails on an odd number of nodes; then the
      first node is the root. */
  function Levels(p: Primitives, nodes: seq<MerkleNode>, k: nat): Result<MerkleNode>
    decreases k
  {
    if k == 0 then
      if nodes == [] then Err(IndexOutOfRange) else Ok(nodes[0])
    else if |nodes| % 2 != 0 then Err(IndexOutOfRange)
    else Levels(p, ParentLevel(p, nodes), k - 1)
  }

  /** The tree merkle.go builds: pad, then |padded| / 2 rounds of pairing. */
  function TreeAsWritten(p: Primitives, data: seq<Bytes>): Result<MerkleTree> {
    var padded := PadOdd(data);
    var root :- Levels(p, Leaves(padded), |padded| / 2);
    Ok(MerkleTree(root))
  }

  /** NewMerkleTree, step by step as in the source. */
  method NewMerkleTree(p: Primitives, data: seq<Bytes>) returns (r: Result<MerkleTree>)
    ensures r == TreeAsWritten(p, data)
    ensures r.Ok? <==> 1 <= |data| <= 4
  {
    var padded := data;
    if |padded| % 2 != 0 {
      padded := padded + [padded[|padded| - 1]];
    }
    assert padded == PadOdd(data);
    var nodes := MakeLeaves(padded);
    var root := Rounds(p, nodes, |padded| / 2);
    r := if root.Ok? then Ok(MerkleTree(root.value)) else Err(root.error);
    TreeAsWrittenSucceeds(p, data);
  }

  /** The first loop: one leaf per item, holding the item itself. */
  method MakeLeaves(padded: seq<Bytes>) returns (nodes: seq<MerkleNode>)
    ensures nodes == Leaves(padded)
  {
    nodes := [];
    for k := 0 to |padded|
      invariant nodes == Leaves(padded[..k])
    {
      nodes := nodes + [MerkleNode(None, None, padded[k])];
    }
    assert padded[..|padded|] == padded;
  }

  /** The second loop: rounds of pairing, then nodes[0]. */
  method Rounds(p: Primitives, leaves: seq<MerkleNode>, rounds: nat) returns (r: Result<MerkleNode>)
    ensures r == Levels(p, leaves, rounds)
  {
    var nodes := leaves;
    var i := 0;
    while i < rounds
      invariant 0 <= i <= rounds
      invariant Levels(p, nodes, rounds - i) == Levels(p, leaves, rounds)
    {
      var newLevel := PairUp(p, nodes);
      if newLevel.Err? {
        return Err(newLevel.error);
      }
      nodes := newLevel.value;
      i := i + 1;
    }
    if nodes == [] {
      return Err(IndexOutOfRange);  // nodes[0] of no data
    }
    r := Ok(nodes[0]);
  }

  /** One round of the inner loop: parents of nodes j and j+1 for j = 0, 2, ...; an odd level
      reads past its end. */
  method PairUp(p: Primitives, nodes: seq<MerkleNode>) returns (r: Result<seq<MerkleNode>>)
    ensures |nodes| % 2 != 0 ==> r == Err(IndexOutOfRange)
    ensures |nodes| % 2 == 0 ==> r == Ok(ParentLevel(p, nodes))
  {
    var newLevel: seq<MerkleNode> := [];
    var j := 0;
    while j < |nodes|
      invariant 0 <= j <= |nodes| && j % 2 == 0
      invariant newLevel == ParentLevel(p, nodes[..j])
    {
      if j + 1 >= |nodes| {
        return Err(IndexOutOfRange);  // nodes[j+1]
      }
      var node := NewMerkleNode(p, Some(nodes[j]), Some(nodes[j + 1]), []);
      assert nodes[..j + 2][..j] == nodes[..j];
      newLevel := newLevel + [node.value];
      j := j + 2;
    }
    assert nodes[..j] == nodes;
    r := Ok(newLevel);
  }

  /** Pairing fails when there are fewer nodes than 2^k. */
  lemma {:induction false} LevelsFailBelowPower(p: Primitives, nodes: seq<MerkleNode>, k: nat)
    requires |nodes| < Pow2(k)
    ensures Levels(p, nodes, k).Err?
    decreases k
  {
    if k > 0 && |nodes| % 2 == 0 {
      LevelsFailBelowPower(p, ParentLevel(p, nodes), k - 1);
    }
  }

  lemma {:induction false} PowOutgrows(m: nat)
    requires m >= 3
    ensures 2 * m < Pow2(m)
    decreases m
  {
    if m > 3 {
      PowOutgrows(m - 1);
    }
  }

  /** The root for one to four items: the leaves are paired, then the pairs. */
  lemma TreeAsWrittenRoots(p: Primitives, data: seq<Bytes>)
    ensures |data| == 1 ==>
      TreeAsWritten(p, data) == Ok(MerkleTree(Parent(p, Leaf(data[0]), Leaf(data[0]))))
    ensures |data| == 2 ==>
      TreeAsWritten(p, data) == Ok(MerkleTree(Parent(p, Leaf(data[0]), Leaf(data[1]))))
    ensures |data| == 3 ==>
      TreeAsWritten(p, data) == Ok(MerkleTree(Parent(p, Parent(p, Leaf(data[0]), Leaf(data[1])),
                                                        Parent(p, Leaf(data[2]), Leaf(data[2])))))
    ensures |data| == 4 ==>
      TreeAsWritten(p, data) == Ok(MerkleTree(Parent(p, Parent(p, Leaf(data[0]), Leaf(data[1])),
                                                        Parent(p, Leaf(data[2]), Leaf(data[3])))))
  {
    var leaves := Leaves(PadOdd(data));
    if |data| == 1 || |data| == 2 {
      var top := ParentLevel(p, leaves);
      assert Levels(p, leaves, 1) == Levels(p, top, 0);
    } else if |data| == 3 || |data| == 4 {
      var middle := ParentLevel(p, leaves);
      var top := ParentLevel(p, middle);
      assert Levels(p, leaves, 2) == Levels(p, top, 0);
    }
  }

  /** The tree as written has a root exactly for one to four items. */
  lemma TreeAsWrittenSucceeds(p: Primitives, data: seq<Bytes>)
    ensures TreeAsWritten(p, data).Ok? <==> 1 <= |data| <= 4
  {
    var padded := PadOdd(data);
    if data == [] {
      LevelsFailBelowPower(p, Leaves(padded), 0);
    } else if |data| <= 4 {
      TreeAsWrittenRoots(p, data);
    } else {
      PowOutgrows(|padded| / 2);
      LevelsFailBelowPower(p, Leaves(padded), |padded| / 2);
    }
  }

  /** A block of five transactions already has no tree. */
  lemma FiveItemsHaveNoTree(p: Primitives, data: seq<Bytes>)
    requires |data| == 5
    ensures TreeAsWritten(p, data) == Err(IndexOutOfRange)
  {
    TreeAsWrittenSucceeds(p, data);
    var padded := PadOdd(data);
    var l1 := ParentLevel(p, Leaves(padded));
    assert Levels(p, Leaves(padded), 3) == Levels(p, l1, 2);
  }

  /** The evident intent: pair levels until one node is left, repeating the last node of an odd
      level. */
  function Build(p: Primitives, nodes: seq<MerkleNode>): MerkleNode
    requires nodes != []
    decreases |nodes|
  {
    if |nodes| == 1 then nodes[0]
    else Build(p, ParentLevel(p, PadOdd(nodes)))
  }

  function TreeCorrected(p: Primitives, data: seq<Bytes>): (r: Result<MerkleTree>)
    ensures r.Ok? <==> data != []
    ensures r.Err? ==> r.error == IndexOutOfRange
  {
    if data == [] then Err(IndexOutOfRange)
    else Ok(MerkleTree(Build(p, Leaves(PadOdd(data)))))
  }

  /** The corrected tree has the root the source builds wherever the source builds one. */
  lemma TreeCorrectedAgrees(p: Primitives, data: seq<Bytes>)
    requires TreeAsWritten(p, data).Ok?
    ensures TreeCorrected(p, data) == TreeAsWritten(p, data)
  {
    TreeAsWrittenSucceeds(p, data);
    TreeAsWrittenRoots(p, data);
    var leaves := Leaves(PadOdd(data));
    if |data| <= 2 {
      assert Build(p, leaves) == Build(p, ParentLevel(p, leaves));
    } else {
      var middle := ParentLevel(p, leaves);
      assert Build(p, leaves) == Build(p, ParentLevel(p, middle));
    }
  }
}
