/** The buddy allocator: a tree of blocks, a sorted list of the free ones and a
    map from process ids to the blocks they hold. */
module BuddySystem {
  import opened BuddyTree

  class BuddyBlock {
    var pId: int
    var size: nat
    var start: nat
    var free: bool
    var sizeUsed: int
    var left: BuddyBlock?
    var right: BuddyBlock?
    var parent: BuddyBlock?
    ghost const path: Path

    constructor (pId: int, size: nat, start: nat, free: bool, sizeUsed: int,
                 left: BuddyBlock?, right: BuddyBlock?, parent: BuddyBlock?, ghost path: Path)
      ensures this.pId == pId && this.size == size && this.start == start && this.free == free
      ensures this.sizeUsed == sizeUsed && this.left == left && this.right == right && this.parent == parent
      ensures this.path == path
    {
      this.pId, this.size, this.start, this.free, this.sizeUsed := pId, size, start, free, sizeUsed;
      this.left, this.right, this.parent := left, right, parent;
      this.path := path;
    }
  }

  // The order of the free list: smaller blocks first, then higher addresses.
  predicate CompareBlocks(b1: BuddyBlock, b2: BuddyBlock)
    reads b1, b2
  {
    if b1.size != b2.size then b1.size < b2.size else b1.start > b2.start
  }

  ghost function Places(m: map<int, Path>): set<Path> {
    set pid | pid in m :: m[pid]
  }

  ghost function Paths(l: seq<BuddyBlock>): (s: seq<Path>)
    ensures |s| == |l| && forall i :: 0 <= i < |l| ==> s[i] == l[i].path
  {
    seq(|l|, i requires 0 <= i < |l| => l[i].path)
  }

  class Buddies {
    var lowerSize: nat
    var upperSize: nat
    var root: BuddyBlock
    var blockMap: map<int, BuddyBlock?>
    var freeList: seq<BuddyBlock>

    ghost const u: nat                        // upperSize is 2^u
    ghost const d: nat                        // lowerSize is 2^(u - d)
    ghost var nodes: map<Path, BuddyBlock>    // the blocks reachable from root
    ghost var used: map<int, Path>            // where the block of each process is

    /** --- Invariant --- */

    ghost predicate Linked()
      reads this`nodes, this`root, nodes.Values
    {
      && Root in nodes && nodes[Root] == root
      && forall p :: p in nodes ==> Placed(p)
    }

    // Node p is the object the tree says, with the links the tree says.
    ghost predicate Placed(p: Path)
      requires p in nodes
      reads this`nodes, nodes.Values
    {
      var b := nodes[p];
      && b.path == p && p.Depth() <= u
      && b.size == Size(u, p) && b.start == Start(u, p)
      && b.parent == (if p.Root? then null else if p.up in nodes then nodes[p.up] else null)
      && b.left == (if Left(p) in nodes then nodes[Left(p)] else null)
      && b.right == (if Right(p) in nodes then nodes[Right(p)] else null)
      && (Left(p) in nodes ==> !b.free)
    }

    // Block b is a leaf of the tree.
    ghost predicate IsLeaf(b: BuddyBlock)
      reads this`nodes
    {
      b.path in nodes && nodes[b.path] == b && Left(b.path) !in nodes
    }

    // The blocks processes hold, and the map that finds them.
    ghost predicate Held()
      reads this`used, this`blockMap, this`nodes, nodes.Values
    {
      && 0 !in used && 0 in blockMap
      && (forall pid :: pid in used ==> pid in blockMap && used[pid] in nodes && blockMap[pid] == nodes[used[pid]])
      && (forall pid :: pid in used ==> Left(used[pid]) !in nodes && !nodes[used[pid]].free)
      && (forall pid :: pid in blockMap && pid != 0 && pid !in used ==> blockMap[pid] == null)
      && (forall i, j :: i in used && j in used && i != j ==> used[i] != used[j])
    }

    ghost function FreePaths(): seq<Path>
      reads this`freeList
    {
      Paths(freeList)
    }

    // Every leaf is held, on the free list, or in the hands of the allocator.
    ghost predicate Listed(hold: set<Path>)
      reads this`freeList, this`nodes, this`used, nodes.Values
    {
      && InOrder(u, FreePaths())
      && (forall i :: 0 <= i < |freeList| ==>
            var p := freeList[i].path; p in nodes && nodes[p] == freeList[i] && nodes[p].free)
      && (forall p :: p in FreePaths() <==> Leaf(nodes.Keys, p) && p !in hold && p !in Places(used))
    }

    ghost predicate ValidWith(hold: set<Path>)
      reads this, nodes.Values
    {
      && d <= u && upperSize == Pow2(u) && lowerSize == Pow2(u - d)
      && Linked() && Held() && Listed(hold)
      && hold !! Places(used)
      && Merged(nodes.Keys, Places(used) + hold, d)
    }

    ghost predicate Valid()
      reads this, nodes.Values
    {
      ValidWith({})
    }

    constructor (ghost l: nat, ghost u: nat, lower: nat, upper: nat)
      requires l <= u && lower == Pow2(l) && upper == Pow2(u)
      ensures Valid() && this.u == u && this.d == u - l && used == map[]
      ensures fresh(nodes.Values)
    {
      this.u, this.d := u, u - l;
      lowerSize, upperSize := lower, upper;
      var b := new BuddyBlock(-1, upper, 0, true, 0, null, null, null, Root);
      root := b;
      blockMap := map[0 := b];
      freeList := [b];
      assert Paths([b]) == [Root];
      nodes := map[Root := b];
      used := map[];
    }

    /** --- The free list --- */

    // The order of the list is the order of the nodes.
    lemma ComparesAs(b: BuddyBlock, c: BuddyBlock)
      requires Linked() && b.path in nodes && nodes[b.path] == b && c.path in nodes && nodes[c.path] == c
      ensures b.path.Depth() <= u && c.path.Depth() <= u
      ensures CompareBlocks(b, c) <==> Before(u, b.path, c.path)
      ensures CompareBlocks(b, c) <==> b.size < c.size || (b.size == c.size && c.start < b.start)
    {
      assert Placed(b.path) && Placed(c.path);
    }

    // Sizes never fall along the free list, and among blocks of one size the addresses do.
    lemma FreeListOrder(i: nat, j: nat)
      requires Valid() && i < j < |freeList|
      ensures freeList[i].size <= freeList[j].size
      ensures freeList[i].size == freeList[j].size ==> freeList[i].start >= freeList[j].start + freeList[j].size
    {
      hide Held, Merged, Leaf;
      var p, q := freeList[i].path, freeList[j].path;
      assert FreePaths()[i] == p && FreePaths()[j] == q;
      assert Before(u, p, q) && Placed(p) && Placed(q);
      FreeApart(p, q);
    }

    lemma FreeApart(p: Path, q: Path)
      requires Valid() && p in FreePaths() && q in FreePaths() && p != q
      ensures p.Depth() <= u && q.Depth() <= u
      ensures Start(u, p) + Size(u, p) <= Start(u, q) || Start(u, q) + Size(u, q) <= Start(u, p)
    {
      hide Held;
      TreeOf(Places(used) + {});
      LeavesApart(u, nodes.Keys, d, p, q);
    }

    // std::lower_bound on the free list.
    method LowerBound(b: BuddyBlock) returns (i: nat)
      ensures i <= |freeList|
      ensures forall j :: 0 <= j < i ==> CompareBlocks(freeList[j], b)
      ensures i < |freeList| ==> !CompareBlocks(freeList[i], b)
    {
      i := 0;
      while i < |freeList| && CompareBlocks(freeList[i], b)
        invariant 0 <= i <= |freeList|
        invariant forall j :: 0 <= j < i ==> CompareBlocks(freeList[j], b)
      {
        i := i + 1;
      }
    }

    // A leaf in the allocator's hands goes onto the free list.
    method Insert(b: BuddyBlock, ghost hold: set<Path>)
      requires ValidWith(hold) && IsLeaf(b) && b.path in hold && b.free
      requires Merged(nodes.Keys, Places(used) + (hold - {b.path}), d)
      modifies this`freeList
      ensures ValidWith(hold - {b.path})
    {
      hide Held, Linked, Merged, InOrder, Leaf, CompareBlocks;
      var i := LowerBound(b);
      InsertPosition(b, hold, i);
      freeList := freeList[..i] + [b] + freeList[i..];
      Relisted(old(freeList), i, b, hold);
    }

    // Listed again after the insertion of b at i.
    lemma Relisted(before: seq<BuddyBlock>, i: nat, b: BuddyBlock, hold: set<Path>)
      requires i <= |before| && freeList == before[..i] + [b] + before[i..]
      requires IsLeaf(b) && b.free && b.path in hold && hold !! Places(used)
      requires var l := Paths(before);
               && InOrder(u, l[..i] + [b.path] + l[i..])
               && (forall q :: q in l[..i] + [b.path] + l[i..] <==> q == b.path || q in l)
               && (forall p :: p in l <==> Leaf(nodes.Keys, p) && p !in hold && p !in Places(used))
      requires forall j :: 0 <= j < |before| ==>
                 var p := before[j].path; p in nodes && nodes[p] == before[j] && nodes[p].free
      ensures Listed(hold - {b.path})
    {
      hide InOrder;
      var l := Paths(before);
      assert FreePaths() == l[..i] + [b.path] + l[i..];
      assert forall j :: 0 <= j < |freeList| ==> freeList[j] == if j < i then before[j] else if j == i then b else before[j - 1];
    }

    lemma InsertPosition(b: BuddyBlock, hold: set<Path>, i: nat)
      requires ValidWith(hold) && IsLeaf(b) && b.path in hold && b.free && i <= |freeList|
      requires forall j :: 0 <= j < i ==> CompareBlocks(freeList[j], b)
      requires i < |freeList| ==> !CompareBlocks(freeList[i], b)
      ensures var l := FreePaths();
              && InOrder(u, l[..i] + [b.path] + l[i..])
              && (forall q :: q in l[..i] + [b.path] + l[i..] <==> q == b.path || q in l)
    {
      hide Held, Merged, Before, CompareBlocks;
      var l := FreePaths();
      TreeOf(Places(used) + hold);
      assert Placed(b.path);
      forall j | 0 <= j < |freeList|
        ensures Before(u, l[j], b.path) || Before(u, b.path, l[j])
        ensures CompareBlocks(freeList[j], b) <==> Before(u, l[j], b.path)
      {
        assert l[j] in FreePaths();
        ComparesAs(freeList[j], b);
        LeavesOrdered(u, nodes.Keys, d, l[j], b.path);
      }
      InsertInOrder(u, l, i, b.path);
    }

    lemma TreeOf(s: set<Path>)
      requires Merged(nodes.Keys, s, d)
      ensures IsTree(nodes.Keys, d)
    {
    }

    // The free list without entry i, which is in the allocator's hands now.
    method EraseAt(i: nat, ghost hold: set<Path>)
      requires ValidWith(hold) && i < |freeList|
      modifies this`freeList
      ensures ValidWith(hold + {old(freeList[i].path)}) && IsLeaf(old(freeList[i]))
      ensures freeList == old(freeList[..i] + freeList[i + 1..])
    {
      hide Held, Linked, Merged, InOrder, Leaf;
      ErasePosition(i, hold);
      freeList := freeList[..i] + freeList[i + 1..];
      Unlisted(old(freeList), i, hold);
    }

    lemma ErasePosition(i: nat, hold: set<Path>)
      requires ValidWith(hold) && i < |freeList|
      ensures var l, p := FreePaths(), freeList[i].path;
              && IsLeaf(freeList[i])
              && InOrder(u, l[..i] + l[i + 1..])
              && (forall q :: q in l[..i] + l[i + 1..] <==> q in l && q != p)
              && Leaf(nodes.Keys, p) && p !in Places(used)
              && Merged(nodes.Keys, Places(used) + (hold + {p}), d)
    {
      hide Held, Linked;
      var l, p := FreePaths(), freeList[i].path;
      assert l[i] in FreePaths();
      RemoveInOrder(u, l, i);
      MergedWith(nodes.Keys, Places(used) + hold, d, p);
      assert Places(used) + hold + {p} == Places(used) + (hold + {p});
    }

    lemma Unlisted(before: seq<BuddyBlock>, i: nat, hold: set<Path>)
      requires i < |before| && freeList == before[..i] + before[i + 1..]
      requires var l := Paths(before);
               && InOrder(u, l[..i] + l[i + 1..])
               && (forall q :: q in l[..i] + l[i + 1..] <==> q in l && q != before[i].path)
               && (forall p :: p in l <==> Leaf(nodes.Keys, p) && p !in hold && p !in Places(used))
      requires forall j :: 0 <= j < |before| ==>
                 var p := before[j].path; p in nodes && nodes[p] == before[j] && nodes[p].free
      ensures Listed(hold + {before[i].path})
    {
      hide InOrder;
      var l := Paths(before);
      assert FreePaths() == l[..i] + l[i + 1..];
      assert forall j :: 0 <= j < |freeList| ==> freeList[j] == if j < i then before[j] else before[j + 1];
    }

    /** --- Halving and joining blocks --- */

    // One turn of the split loop: block gets two free halves.
    method Halve(block: BuddyBlock) returns (leftBlock: BuddyBlock, rightBlock: BuddyBlock)
      requires block.path in nodes && nodes[block.path] == block
      requires Left(block.path) !in nodes && Right(block.path) !in nodes
      requires forall q :: q in nodes ==> nodes[q].path == q
      modifies this`nodes, block
      ensures fresh(leftBlock) && fresh(rightBlock)
      ensures SplitInto(block, leftBlock, rightBlock)
      ensures leftBlock.size == rightBlock.size == old(block.size) / 2
      ensures leftBlock.start == old(block.start) && rightBlock.start == old(block.start) + old(block.size) / 2
    {
      ghost var p := block.path;
      leftBlock := new BuddyBlock(0, block.size / 2, block.start, true, 0, null, null, block, Left(p));
      rightBlock := new BuddyBlock(0, block.size / 2, block.start + block.size / 2, true, 0, null, null, block, Right(p));
      block.left := leftBlock;
      block.right := rightBlock;
      block.free := false;
      leftBlock.parent := block;
      rightBlock.parent := block;
      nodes := nodes[Left(p) := leftBlock][Right(p) := rightBlock];
    }

    // The invariant over one turn; both halves are in the allocator's hands.
    method Split(block: BuddyBlock) returns (leftBlock: BuddyBlock, rightBlock: BuddyBlock)
      requires ValidWith({block.path}) && IsLeaf(block) && block.path.Depth() < d
      modifies this`nodes, block
      ensures ValidWith({Left(block.path), Right(block.path)})
      ensures fresh(leftBlock) && fresh(rightBlock)
      ensures SplitInto(block, leftBlock, rightBlock)
    {
      hide Linked, Held, Listed, Merged, Leaf, Size, Pow2, Start, Path.Depth;
      ghost var p := block.path;
      SplitFacts(block);
      SplitMerged(nodes.Keys, Places(used), d, p);
      OwnPaths();
      leftBlock, rightBlock := Halve(block);
      SplitKeys(block, leftBlock, rightBlock);
      SplitLinked(block, leftBlock, rightBlock);
      SplitHeld(block, leftBlock, rightBlock);
      SplitListed(block, leftBlock, rightBlock);
      hide SplitInto;
    }

    twostate lemma SplitKeys(block: BuddyBlock, new leftBlock: BuddyBlock, new rightBlock: BuddyBlock)
      requires SplitInto(block, leftBlock, rightBlock)
      ensures nodes.Keys == old(nodes).Keys + {Left(block.path), Right(block.path)}
    {
    }

    lemma OwnPaths()
      requires Linked()
      ensures forall q :: q in nodes ==> nodes[q].path == q
    {
      forall q | q in nodes ensures nodes[q].path == q { assert Placed(q); }
    }

    lemma SplitFacts(block: BuddyBlock)
      requires ValidWith({block.path}) && IsLeaf(block) && block.path.Depth() < d
      ensures var p := block.path;
              && Placed(p) && p.Depth() < u && Leaf(nodes.Keys, p)
              && Size(u, Left(p)) == Size(u, Right(p)) == block.size / 2
              && Start(u, Left(p)) == block.start && Start(u, Right(p)) == block.start + block.size / 2
    {
      hide Held, Listed, Merged, Pow2;
      assert Placed(block.path);
      HalfFits(u, d, block.path);
    }

    // Every block but block is as it was, and block has the two new halves.
    twostate predicate SplitInto(block: BuddyBlock, new leftBlock: BuddyBlock, new rightBlock: BuddyBlock)
      reads this, nodes.Values, block, leftBlock, rightBlock
    {
      var p := block.path;
      && p in old(nodes) && old(nodes)[p] == block && Left(p) !in old(nodes) && Right(p) !in old(nodes)
      && nodes == old(nodes)[Left(p) := leftBlock][Right(p) := rightBlock]
      && root == old(root) && used == old(used) && blockMap == old(blockMap) && freeList == old(freeList)
      && (forall q :: q in old(nodes) && q != p ==> q in nodes && nodes[q] == old(nodes)[q] && unchanged(nodes[q]))
      && block.size == old(block.size) && block.start == old(block.start) && block.parent == old(block.parent)
      && block.left == leftBlock && block.right == rightBlock && !block.free
      && leftBlock.path == Left(p) && rightBlock.path == Right(p) && leftBlock.free && rightBlock.free
      && leftBlock.left == null == leftBlock.right && rightBlock.left == null == rightBlock.right
      && leftBlock.parent == block == rightBlock.parent
    }

    twostate lemma SplitLinked(block: BuddyBlock, new leftBlock: BuddyBlock, new rightBlock: BuddyBlock)
      requires SplitInto(block, leftBlock, rightBlock) && old(Linked()) && block.path.Depth() < u
      requires Left(Left(block.path)) !in old(nodes) && Right(Left(block.path)) !in old(nodes)
      requires Left(Right(block.path)) !in old(nodes) && Right(Right(block.path)) !in old(nodes)
      requires leftBlock.size == Size(u, Left(block.path)) && leftBlock.start == Start(u, Left(block.path))
      requires rightBlock.size == Size(u, Right(block.path)) && rightBlock.start == Start(u, Right(block.path))
      ensures Linked()
    {
      hide Size, Start;
      var p := block.path;
      forall q | q in nodes ensures Placed(q) {
        if q in old(nodes) { assert old(Placed(q)); }
      }
    }

    twostate lemma SplitHeld(block: BuddyBlock, new leftBlock: BuddyBlock, new rightBlock: BuddyBlock)
      requires SplitInto(block, leftBlock, rightBlock) && old(Held())
      requires block.path !in Places(old(used))
      ensures Held()
    {
      forall pid | pid in used
        ensures used[pid] in old(nodes) && used[pid] != block.path && unchanged(old(nodes)[used[pid]])
      {
        assert used[pid] in Places(old(used));
      }
    }

    twostate lemma SplitListed(block: BuddyBlock, new leftBlock: BuddyBlock, new rightBlock: BuddyBlock)
      requires SplitInto(block, leftBlock, rightBlock) && old(Listed({block.path}))
      requires forall q :: Leaf(nodes.Keys, q)
                           <==> q == Left(block.path) || q == Right(block.path) || (Leaf(old(nodes).Keys, q) && q != block.path)
      ensures Listed({Left(block.path), Right(block.path)})
    {
      hide InOrder;
      var p := block.path;
      assert FreePaths() == old(FreePaths());
      forall i | 0 <= i < |freeList|
        ensures var q := freeList[i].path; q in nodes && nodes[q] == freeList[i] && nodes[q].free
      {
        assert FreePaths()[i] in FreePaths();
      }
      forall q ensures q in FreePaths() <==> Leaf(nodes.Keys, q) && q !in {Left(p), Right(p)} && q !in Places(used) {
        if q in FreePaths() { assert Leaf(old(nodes).Keys, q); }
      }
    }

    // Every block but those of the two halves of p is as it was; p has no halves.
    twostate predicate JoinInto(p: Path)
      reads this, nodes.Values
    {
      && Left(p) in old(nodes) && Right(p) in old(nodes) && p in nodes
      && nodes == old(nodes) - {Left(p), Right(p)}
      && root == old(root) && used == old(used) && blockMap == old(blockMap) && freeList == old(freeList)
      && (forall q :: q in nodes && q != p ==> unchanged(nodes[q]))
      && nodes[p].size == old(nodes[p].size) && nodes[p].start == old(nodes[p].start)
      && nodes[p].parent == old(nodes[p].parent) && nodes[p].left == null == nodes[p].right
    }

    // Two leaves become their parent. Which of them is called block depends on
    // the addresses of the two; it makes no difference.
    method Join(block0: BuddyBlock, buddy0: BuddyBlock, ghost p: Path) returns (up: BuddyBlock)
      requires p in nodes && Left(p) in nodes && Right(p) in nodes && p != Left(p) && p != Right(p)
      requires {block0, buddy0} == {nodes[Left(p)], nodes[Right(p)]} && block0 != buddy0
      requires forall q :: q in nodes ==> nodes[q].path == q
      requires block0.parent == nodes[p] == buddy0.parent
      requires nodes[p].left == nodes[Left(p)] && nodes[p].right == nodes[Right(p)]
      modifies this`nodes, block0, buddy0, nodes[p]
      ensures JoinInto(p) && up == nodes[p] == old(nodes)[p]
    {
      var block, buddy := block0, buddy0;
      if * {
        block, buddy := buddy, block;
      }
      block.size := block.size * 2;
      block.right := buddy.right;
      block.free := true;
      if block == block.parent.left {
        block.parent.right := null;
        block.parent.left := null;
      } else if block == block.parent.right {
        block.parent.left := null;
        block.parent.right := null;
      }
      up := block.parent;
      nodes := nodes - {Left(p), Right(p)};
    }

    twostate lemma JoinKeys(p: Path)
      requires JoinInto(p)
      ensures nodes.Keys == old(nodes).Keys - {Left(p), Right(p)}
    {
    }

    twostate lemma JoinLinked(p: Path)
      requires JoinInto(p) && old(Linked()) && old(IsTree(nodes.Keys, d))
      requires old(Leaf(nodes.Keys, Left(p)) && Leaf(nodes.Keys, Right(p)))
      ensures Linked()
    {
      hide IsTree, Leaf, Size, Start, Path.Depth;
      JoinLinks(old(nodes).Keys, d, p);
      forall q | q in nodes ensures Placed(q) {
        assert old(Placed(q));
        if q != p {
          assert unchanged(nodes[q]) && nodes[q] == old(nodes)[q];
          assert Left(q) in nodes <==> Left(q) in old(nodes);
          assert Right(q) in nodes <==> Right(q) in old(nodes);
        }
      }
    }

    twostate lemma JoinHeld(p: Path)
      requires JoinInto(p) && old(Held()) && p !in Places(old(used))
      requires Left(p) !in Places(old(used)) && Right(p) !in Places(old(used))
      ensures Held()
    {
      forall pid | pid in used
        ensures used[pid] in nodes && used[pid] != p && unchanged(nodes[used[pid]])
      {
        assert used[pid] in Places(old(used));
      }
    }

    twostate lemma JoinListed(p: Path)
      requires JoinInto(p) && old(Listed({Left(p), Right(p)}))
      requires p !in Places(old(used)) && !old(Leaf(nodes.Keys, p))
      requires forall q :: Leaf(nodes.Keys, q)
                           <==> q == p || (Leaf(old(nodes).Keys, q) && q != Left(p) && q != Right(p))
      ensures Listed({p})
    {
      hide InOrder;
      assert FreePaths() == old(FreePaths());
      forall i | 0 <= i < |freeList|
        ensures var q := freeList[i].path; q in nodes && nodes[q] == freeList[i] && nodes[q].free
      {
        assert FreePaths()[i] in FreePaths();
      }
      forall q ensures q in FreePaths() <==> Leaf(nodes.Keys, q) && q !in {p} && q !in Places(used) {
        if q in FreePaths() { assert Leaf(old(nodes).Keys, q); }
      }
    }

    // The facts about two sibling leaves in the allocator's hands.
    lemma JoinFacts(p: Path)
      requires ValidWith({Left(p), Right(p)})
      requires Leaf(nodes.Keys, Left(p)) && Leaf(nodes.Keys, Right(p))
      ensures p in nodes && p != Left(p) && p != Right(p) && !Leaf(nodes.Keys, p)
      ensures nodes[Left(p)].parent == nodes[p] == nodes[Right(p)].parent
      ensures nodes[p].left == nodes[Left(p)] && nodes[p].right == nodes[Right(p)]
      ensures IsTree(nodes.Keys, d)
      ensures Left(p) !in Places(used) && Right(p) !in Places(used) && p !in Places(used)
    {
      hide Held, Listed, Size, Start, Pow2;
      JoinLinks(nodes.Keys, d, p);
      assert Placed(p) && Placed(Left(p)) && Placed(Right(p));
      assert p in Places(used) ==> p in Places(used) + {Left(p), Right(p)};
    }

    // The invariant over one join.
    method MergeUp(block: BuddyBlock, buddy: BuddyBlock, ghost p: Path) returns (up: BuddyBlock)
      requires ValidWith({Left(p), Right(p)})
      requires Leaf(nodes.Keys, Left(p)) && Leaf(nodes.Keys, Right(p))
      requires {block, buddy} == {nodes[Left(p)], nodes[Right(p)]} && block != buddy
      modifies this`nodes, block, buddy, nodes[p]
      ensures ValidWith({p}) && JoinInto(p)
      ensures p in nodes && up == nodes[p] == old(nodes)[p] && up.path == p && IsLeaf(up)
    {
      hide Linked, Held, Listed, Merged, IsTree, Size, Pow2, Start, Path.Depth;
      JoinFacts(p);
      OwnPaths();
      JoinMerged(nodes.Keys, Places(used), d, p);
      up := Join(block, buddy, p);
      JoinKeys(p);
      JoinLinked(p);
      JoinHeld(p);
      JoinListed(p);
      hide JoinInto;
    }

    // The other half of the block's parent, if it has one.
    method GetBuddy(block: BuddyBlock, ghost hold: set<Path>) returns (buddy: BuddyBlock?)
      requires ValidWith(hold) && IsLeaf(block)
      ensures block.path.Root? <==> buddy == null
      ensures buddy != null ==>
                var q := block.path.Buddy(); q in nodes && buddy == nodes[q] && buddy.path == q
    {
      hide Held, Listed, Size, Start, Pow2;
      ghost var p := block.path;
      assert Placed(p);
      if block.parent == null {
        if !p.Root? { BuddyInTree(nodes.Keys, d, p); }
        return null;
      }
      BuddyInTree(nodes.Keys, d, p);
      assert Placed(p.up) && Placed(p.Buddy()) && Placed(Left(p.up)) && Placed(Right(p.up));
      if block == block.parent.left {
        return block.parent.right;
      } else {
        return block.parent.left;
      }
    }

    // Taking a block off the free list by name; the list has it only once.
    method RemoveFree(b: BuddyBlock, ghost hold: set<Path>)
      requires ValidWith(hold) && b in freeList
      modifies this`freeList
      ensures ValidWith(hold + {b.path}) && IsLeaf(b)
    {
      hide ValidWith, IsLeaf;
      var i := 0;
      while freeList[i] != b
        invariant 0 <= i < |freeList| && b !in freeList[..i]
        decreases |freeList| - i
      {
        i := i + 1;
      }
      EraseAt(i, hold);
    }

    /** --- releaseProcess --- */

    ghost function Unused(m: map<int, Path>, pid: int): map<int, Path> {
      m - {pid}
    }

    lemma UnusedValues(m: map<int, Path>, pid: int)
      requires pid in m && forall i, j :: i in m && j in m && i != j ==> m[i] != m[j]
      ensures Places(Unused(m, pid)) == Places(m) - {m[pid]}
      ensures m[pid] in Places(m)
    {
      forall v ensures v in Places(Unused(m, pid)) <==> v in Places(m) && v != m[pid] {
        if v in Places(m) && v != m[pid] {
          var i :| i in m && m[i] == v;
          assert Unused(m, pid)[i] == v;
        }
      }
    }

    // The block of pid is taken out of the map, into the allocator's hands. Looking
    // up a pid that is not in the map leaves a null entry for it.
    method TakeBack(pid: int) returns (block: BuddyBlock?)
      requires Valid() && pid != 0
      modifies this`blockMap, this`used, nodes.Values
      ensures block == null <==> pid !in old(used)
      ensures block == null ==> Valid()
      ensures used == Unused(old(used), pid)
      ensures block != null ==>
                && pid in old(used) && ValidWith({block.path}) && IsLeaf(block)
    {
      hide Linked, Listed, Merged;
      if pid !in blockMap {
        blockMap := blockMap[pid := null];
      }
      block := blockMap[pid];
      if block == null {
        assert Listed({});
        assert used == Unused(used, pid);
        return;
      }
      TakeFacts(pid);
      block.free := true;
      blockMap := blockMap - {pid};
      used := Unused(used, pid);
      TakenLinked(block);
      TakenListed(block);
    }

    lemma TakeFacts(pid: int)
      requires Valid() && pid in used
      ensures var p := used[pid];
              && p in nodes && nodes[p].path == p && Left(p) !in nodes
              && p in Places(used)
              && Places(Unused(used, pid)) == Places(used) - {p}
              && Merged(nodes.Keys, Places(Unused(used, pid)) + {p}, d)
              && Places(used) + {} == Places(used)
      ensures forall q :: q in nodes ==> nodes[q].path == q
    {
      hide Listed;
      OwnPaths();
      UnusedValues(used, pid);
      assert Places(Unused(used, pid)) + {used[pid]} == Places(used) + {};
    }

    twostate lemma TakenLinked(block: BuddyBlock)
      requires old(Linked()) && nodes == old(nodes) && root == old(root)
      requires block.path in nodes && nodes[block.path] == block && Left(block.path) !in nodes
      requires forall q :: q in nodes && q != block.path ==> unchanged(nodes[q])
      requires block.size == old(block.size) && block.start == old(block.start) && block.parent == old(block.parent)
      requires block.left == old(block.left) && block.right == old(block.right)
      ensures Linked()
    {
      hide Size, Start, Path.Depth;
      forall q | q in nodes ensures Placed(q) {
        assert old(Placed(q));
      }
    }

    twostate lemma TakenListed(block: BuddyBlock)
      requires old(Listed({})) && nodes == old(nodes) && freeList == old(freeList)
      requires block.path in nodes && nodes[block.path] == block && block.free
      requires forall q :: q in nodes && q != block.path ==> unchanged(nodes[q])
      requires block.path in Places(old(used)) && Places(used) == Places(old(used)) - {block.path}
      ensures Listed({block.path})
    {
      hide InOrder;
      assert FreePaths() == old(FreePaths());
    }

    // A free buddy is a leaf and on the free list.
    lemma FreeBuddyListed(block: BuddyBlock, buddy: BuddyBlock)
      requires ValidWith({block.path}) && IsLeaf(block) && !block.path.Root?
      requires block.path.Buddy() in nodes && buddy == nodes[block.path.Buddy()]
      ensures buddy.path == block.path.Buddy()
      ensures buddy.free ==> buddy in freeList
      ensures !buddy.free ==> !Leaf(nodes.Keys, buddy.path) || buddy.path in Places(used)
    {
      hide Merged, InOrder, Size, Start, Path.Depth;
      var q := block.path.Buddy();
      assert Placed(q);
      assert q != block.path;
      if q in FreePaths() {
        var i :| 0 <= i < |FreePaths()| && FreePaths()[i] == q;
        assert freeList[i].path == q;
      }
      if q in Places(used) {
        var pid :| pid in used && used[pid] == q;
        assert !nodes[q].free;
      }
    }

    lemma UpInTree(block: BuddyBlock, hold: set<Path>)
      requires ValidWith(hold) && IsLeaf(block) && !block.path.Root?
      ensures block.path.up in nodes && nodes[block.path.up] in nodes.Values
    {
      BuddyInTree(nodes.Keys, d, block.path);
    }

    lemma SiblingLeaves(block: BuddyBlock, buddy: BuddyBlock)
      requires !block.path.Root? && IsLeaf(block) && IsLeaf(buddy) && buddy.path == block.path.Buddy()
      ensures {block.path} + {buddy.path} == {Left(block.path.up), Right(block.path.up)}
      ensures Leaf(nodes.Keys, Left(block.path.up)) && Leaf(nodes.Keys, Right(block.path.up))
      ensures {block, buddy} == {nodes[Left(block.path.up)], nodes[Right(block.path.up)]} && block != buddy
    {
    }

    // The block goes back to the free list: its buddy is not free.
    method PutBack(block: BuddyBlock)
      requires ValidWith({block.path}) && IsLeaf(block)
      requires block.path.Root? || !Leaf(nodes.Keys, block.path.Buddy()) || block.path.Buddy() in Places(used)
      modifies this`freeList, block
      ensures Valid()
    {
      hide Linked, Held, Listed, Merged;
      HoldFacts(block);
      block.free := true;
      TakenLinked(block);
      Freed(block);
      Insert(block, {block.path});
      assert {block.path} - {block.path} == {};
    }

    lemma HoldFacts(block: BuddyBlock)
      requires ValidWith({block.path}) && IsLeaf(block)
      requires block.path.Root? || !Leaf(nodes.Keys, block.path.Buddy()) || block.path.Buddy() in Places(used)
      ensures Merged(nodes.Keys, Places(used) + ({block.path} - {block.path}), d)
      ensures forall q :: q in nodes ==> nodes[q].path == q
    {
      hide Held, Listed;
      OwnPaths();
      UnholdMerged(nodes.Keys, Places(used), d, block.path);
      assert Places(used) + ({block.path} - {block.path}) == Places(used);
    }

    twostate lemma Freed(block: BuddyBlock)
      requires old(Held()) && old(Listed({block.path}))
      requires nodes == old(nodes) && freeList == old(freeList) && used == old(used) && blockMap == old(blockMap)
      requires block.path in nodes && nodes[block.path] == block && block.free && block.path !in Places(used)
      requires forall q :: q in nodes && q != block.path ==> unchanged(nodes[q])
      ensures Held() && Listed({block.path})
    {
      hide InOrder;
      assert FreePaths() == old(FreePaths());
      forall pid | pid in used ensures used[pid] != block.path {
        assert used[pid] in Places(used);
      }
    }

    // One turn of the release loop: the block joined with its free buddy, or null
    // when the block has been put on the free list and the loop ends.
    method JoinOrStop(block: BuddyBlock) returns (up: BuddyBlock?)
      requires ValidWith({block.path}) && IsLeaf(block)
      modifies this`nodes, this`freeList, nodes.Values
      ensures nodes.Values <= old(nodes.Values)
      ensures up == null ==> Valid()
      ensures up != null ==> ValidWith({up.path}) && IsLeaf(up) && !block.path.Root? && up.path == block.path.up
    {
      hide Linked, Held, Listed, Merged, Path.Depth;
      ghost var q := block.path;
      var buddy := GetBuddy(block, {q});
      if buddy != null {
        FreeBuddyListed(block, buddy);
        UpInTree(block, {q});
        if buddy.free {
          RemoveFree(buddy, {q});
          SiblingLeaves(block, buddy);
          up := MergeUp(block, buddy, q.up);
          hide JoinInto;
          return;
        }
      }
      PutBack(block);
      up := null;
    }

    method ReleaseProcess(pid: int)
      requires Valid() && pid != 0
      modifies this`blockMap, this`used, this`nodes, this`freeList, nodes.Values
      ensures Valid() && used == Unused(old(used), pid)
      ensures nodes.Values <= old(nodes.Values)
      ensures pid !in old(used) ==> nodes == old(nodes) && freeList == old(freeList)
    {
      hide ValidWith, Valid, IsLeaf, Unused;
      var block := TakeBack(pid);
      if block == null {
        return;
      }
      while block != null
        invariant if block == null then Valid() else ValidWith({block.path}) && IsLeaf(block)
        invariant nodes.Values <= old(nodes.Values) && used == Unused(old(used), pid)
        decreases block != null, if block == null then Root else block.path
      {
        block := JoinOrStop(block);
      }
    }

    /** --- allocateProcess --- */

    // One turn of the split loop: the right half is free, the left one is next.
    method SplitOff(block: BuddyBlock) returns (leftBlock: BuddyBlock)
      requires ValidWith({block.path}) && IsLeaf(block) && block.path.Depth() < d
      modifies this`nodes, this`freeList, block
      ensures ValidWith({leftBlock.path}) && IsLeaf(leftBlock) && leftBlock.path == Left(block.path)
      ensures fresh(leftBlock) && fresh(nodes.Values - old(nodes.Values))
    {
      hide Linked, Held, Listed, Merged, Path.Depth;
      var rightBlock;
      leftBlock, rightBlock := Split(block);
      ghost var l, r := Left(block.path), Right(block.path);
      SplitLeaves(block.path);
      assert {l, r} - {r} == {l};
      UnholdHalf(block.path);
      Insert(rightBlock, {l, r});
    }

    lemma SplitLeaves(p: Path)
      requires ValidWith({Left(p), Right(p)}) && Left(p) in nodes && Right(p) in nodes
      ensures Left(Left(p)) !in nodes && Left(Right(p)) !in nodes
    {
      assert Left(p) in Places(used) + {Left(p), Right(p)} && Right(p) in Places(used) + {Left(p), Right(p)};
    }

    lemma UnholdHalf(p: Path)
      requires ValidWith({Left(p), Right(p)})
      ensures Merged(nodes.Keys, Places(used) + {Left(p)}, d)
    {
      assert Places(used) + {Left(p), Right(p)} == (Places(used) + {Left(p)}) + {Right(p)};
      UnholdMerged(nodes.Keys, Places(used) + {Left(p)}, d, Right(p));
    }

    // Whether the loop may split this block again.
    lemma SplitGuard(block: BuddyBlock)
      requires ValidWith({block.path}) && IsLeaf(block)
      ensures block.path.Depth() <= d && block.size == Size(u, block.path)
      ensures block.size / 2 >= lowerSize <==> block.path.Depth() < d
      ensures block.path.Depth() < d ==> Size(u, Left(block.path)) == block.size / 2
      ensures block.path.Depth() < d ==> Start(u, Left(block.path)) == Start(u, block.path)
    {
      hide Held, Listed;
      assert Placed(block.path);
      HalfFits(u, d, block.path);
    }

    // What is promised of the block chosen for a request: f was the first block of
    // the free list that is large enough, b is cut from its low end, large enough,
    // no more than twice the request unless it is of the least size, and larger
    // than the request if f was.
    ghost predicate Fits(f: Path, b: Path, size: int, list: seq<Path>)
      requires b.Depth() <= u
      reads this`lowerSize
    {
      && f in list && f.Depth() <= u && Size(u, f) >= size
      && (forall p :: p in list && p.Depth() <= u && Size(u, p) >= size && p != f ==>
            Size(u, f) < Size(u, p) || (Size(u, f) == Size(u, p) && Start(u, f) > Start(u, p)))
      && f.Covers(b) && Start(u, b) == Start(u, f) && b.Depth() <= d
      && Size(u, b) >= size
      && (Size(u, b) <= 2 * size || Size(u, b) == lowerSize)
      && (Size(u, f) > size ==> Size(u, b) > size)
    }

    method FindFreeBlock(size: int) returns (block: BuddyBlock?, ghost f: Path)
      requires Valid()
      modifies this`nodes, this`freeList, nodes.Values
      ensures block == null ==>
                && Valid() && nodes == old(nodes) && freeList == old(freeList)
                && forall p :: p in FreePaths() ==> p.Depth() <= u && Size(u, p) < size
      ensures block != null ==>
                && ValidWith({block.path}) && IsLeaf(block) && fresh(nodes.Values - old(nodes.Values))
                && block.path.Depth() <= u
                && Fits(f, block.path, size, old(FreePaths()))
    {
      hide Linked, Held, Listed, Merged;
      f := Root;
      ghost var list := FreePaths();
      ListFacts();
      var it := 0;
      while it < |freeList|
        invariant 0 <= it <= |freeList|
        invariant forall j :: 0 <= j < it ==> Size(u, list[j]) < size
      {
        block := freeList[it];
        if block.size >= size {
          f := block.path;
          assert list[it] == f;
          EraseAt(it, {});
          assert {} + {f} == {f};
          block := SplitDown(block, size);
          FirstFits(list, it, size);
          return;
        }
        it := it + 1;
      }
      block := null;
    }

    lemma ListFacts()
      requires Valid()
      ensures lowerSize > 0
      ensures forall j :: 0 <= j < |freeList| ==>
                var p := FreePaths()[j]; p.Depth() <= u && freeList[j].size == Size(u, p)
      ensures InOrder(u, FreePaths())
      ensures forall p :: p in FreePaths() ==> p.Depth() <= u
    {
      hide Held, Merged;
      forall j | 0 <= j < |freeList| ensures freeList[j].size == Size(u, freeList[j].path) {
        assert FreePaths()[j] == freeList[j].path;
        assert Placed(freeList[j].path);
      }
    }

    lemma FirstFits(list: seq<Path>, i: nat, size: int)
      requires InOrder(u, list) && i < |list| && Size(u, list[i]) >= size
      requires forall j :: 0 <= j < i ==> Size(u, list[j]) < size
      ensures forall p :: p in list && Size(u, p) >= size ==> p == list[i] || Before(u, list[i], p)
    {
      forall p | p in list && Size(u, p) >= size ensures p == list[i] || Before(u, list[i], p) {
        var j :| 0 <= j < |list| && list[j] == p;
        assert j > i ==> Before(u, list[i], list[j]);
      }
    }

    // The split loop.
    method SplitDown(block0: BuddyBlock, size: int) returns (block: BuddyBlock)
      requires ValidWith({block0.path}) && IsLeaf(block0)
      modifies this`nodes, this`freeList, nodes.Values
      ensures ValidWith({block.path}) && IsLeaf(block) && fresh(nodes.Values - old(nodes.Values))
      ensures block0.path.Depth() <= u && block.path.Depth() <= u
      ensures block0.path.Covers(block.path) && Start(u, block.path) == Start(u, block0.path)
      ensures block.path.Depth() <= d
      ensures Size(u, block0.path) >= size ==> Size(u, block.path) >= size
      ensures Size(u, block0.path) > size ==> Size(u, block.path) > size
      ensures Size(u, block.path) <= 2 * size || Size(u, block.path) == lowerSize
    {
      hide Linked, Held, Listed, Merged, Pow2;
      block := block0;
      SplitGuard(block);
      while block.size / 2 > size && block.size / 2 >= lowerSize
        invariant ValidWith({block.path}) && IsLeaf(block) && fresh(nodes.Values - old(nodes.Values))
        invariant block.path.Depth() <= d && block.size == Size(u, block.path)
        invariant block.size / 2 >= lowerSize <==> block.path.Depth() < d
        invariant block0.path.Covers(block.path) && Start(u, block.path) == Start(u, block0.path)
        invariant Size(u, block0.path) >= size ==> Size(u, block.path) >= size
        invariant Size(u, block0.path) > size ==> Size(u, block.path) > size
        decreases d - block.path.Depth()
      {
        SplitGuard(block);
        block := SplitOff(block);
        SplitGuard(block);
      }
      LeastSize(block);
      SizeBound(u, d, block.path, size);
    }

    lemma LeastSize(block: BuddyBlock)
      requires ValidWith({block.path})
      ensures d <= u && lowerSize == Pow2(u - d)
    {
    }

    // The block found is given to pid.
    method Grant(block: BuddyBlock, pid: int, size: int)
      requires ValidWith({block.path}) && IsLeaf(block) && pid != 0 && pid !in used
      modifies this`blockMap, this`used, block
      ensures Valid()
      ensures used == old(used)[pid := block.path]
      ensures blockMap == old(blockMap)[pid := block]
      ensures block.pId == pid && block.sizeUsed == size
    {
      hide Linked, Listed, Merged;
      GrantFacts(block, pid);
      block.pId := pid;
      block.sizeUsed := size;
      block.free := false;
      blockMap := blockMap[pid := block];
      used := used[pid := block.path];
      TakenLinked(block);
      GrantedListed(block);
    }

    lemma GrantFacts(block: BuddyBlock, pid: int)
      requires ValidWith({block.path}) && IsLeaf(block) && pid !in used
      ensures Places(used[pid := block.path]) == Places(used) + {block.path}
      ensures Merged(nodes.Keys, Places(used[pid := block.path]) + {}, d)
      ensures forall q :: q in nodes ==> nodes[q].path == q
      ensures forall i :: i in used ==> used[i] != block.path
    {
      hide Listed, Held;
      OwnPaths();
      forall i | i in used ensures used[i] != block.path { assert used[i] in Places(used); }
      var m := used[pid := block.path];
      forall v ensures v in Places(m) <==> v in Places(used) + {block.path} {
        if v in Places(used) {
          var i :| i in used && used[i] == v;
          assert m[i] == v;
        }
        assert m[pid] == block.path;
      }
      assert Places(m) + {} == Places(used) + {block.path};
    }

    twostate lemma GrantedListed(block: BuddyBlock)
      requires old(Listed({block.path})) && nodes == old(nodes) && freeList == old(freeList)
      requires block.path in nodes && nodes[block.path] == block
      requires forall q :: q in nodes && q != block.path ==> unchanged(nodes[q])
      requires Places(used) == Places(old(used)) + {block.path}
      ensures Listed({})
    {
      hide InOrder;
      assert FreePaths() == old(FreePaths());
    }

    // Marking the blocks above as not free; they are split, so they are not.
    method MarkAbove(block0: BuddyBlock)
      requires Valid() && block0.path in nodes && nodes[block0.path] == block0
      modifies nodes.Values
      ensures Valid() && forall q :: q in nodes ==> unchanged(nodes[q])
    {
      hide Valid;
      var block: BuddyBlock := block0;
      ParentOf(block);
      while block.parent != null
        invariant Valid() && block.path in nodes && nodes[block.path] == block
        invariant block.parent != null ==> IsParent(block, block.parent)
        invariant forall q :: q in nodes ==> unchanged(nodes[q])
        decreases block.path
      {
        block := block.parent;
        block.free := false;
        ParentOf(block);
      }
    }

    ghost predicate IsParent(block: BuddyBlock, up: BuddyBlock)
      reads this`nodes, up
    {
      !block.path.Root? && block.path.up in nodes && up == nodes[block.path.up] && up.path == block.path.up && !up.free
    }

    lemma ParentOf(block: BuddyBlock)
      requires Valid() && block.path in nodes && nodes[block.path] == block
      ensures block.parent != null ==> IsParent(block, block.parent)
    {
      hide Held, Listed, Size, Start, Pow2;
      assert Placed(block.path);
      if !block.path.Root? {
        BuddyInTree(nodes.Keys, d, block.path);
        assert Placed(block.path.up);
      }
    }

    method AllocateProcess(pid: int, size: int) returns (ghost f: Path)
      requires Valid() && pid != 0 && pid !in used
      modifies this`nodes, this`freeList, this`blockMap, this`used, nodes.Values
      ensures Valid() && fresh(nodes.Values - old(nodes.Values))
      ensures pid !in used ==>
                && used == old(used) && nodes == old(nodes) && freeList == old(freeList) && blockMap == old(blockMap)
                && forall p :: p in FreePaths() ==> p.Depth() <= u && Size(u, p) < size
      ensures pid in used ==>
                && used == old(used)[pid := used[pid]]
                && used[pid].Depth() <= u
                && Fits(f, used[pid], size, old(FreePaths()))
                && size <= Size(u, used[pid]) && (Size(u, used[pid]) <= 2 * size || Size(u, used[pid]) == lowerSize)
                && used[pid] in nodes && nodes[used[pid]].pId == pid && nodes[used[pid]].sizeUsed == size
                && nodes[used[pid]].start == Start(u, f) && nodes[used[pid]].size == Size(u, used[pid])
    {
      hide ValidWith, Size, Path.Depth, Start, Path.Covers;
      var block;
      block, f := FindFreeBlock(size);
      if block == null {
        return;
      }
      assert block in nodes.Values;
      Grant(block, pid, size);
      GrantedNode(pid);
      MarkAbove(block);
    }

    lemma GrantedNode(pid: int)
      requires Valid() && pid in used && pid in blockMap
      ensures used[pid] in nodes && nodes[used[pid]] == blockMap[pid]
      ensures used[pid].Depth() <= u
      ensures nodes[used[pid]].start == Start(u, used[pid]) && nodes[used[pid]].size == Size(u, used[pid])
    {
      hide Size, Start, Path.Depth, Merged, Listed;
      assert Placed(used[pid]);
    }

    // When a smaller block would have done: the loop stops one halving early exactly
    // for a request that is a power of two no smaller than the least size, if the
    // smallest free block that fits is larger than it.
    lemma HalvedTooSeldom(f: Path, b: Path, size: int, list: seq<Path>)
      requires Valid() && b.Depth() <= u && Fits(f, b, size, list)
      ensures Size(u, b) / 2 >= size && Size(u, b) / 2 >= lowerSize
         <==> IsPower(size) && size >= lowerSize && Size(u, f) > size
    {
      hide Linked, Held, Listed, Merged, Size, Start, Pow2, Before, Path.Covers, IsPower;
      TightFit(u, d, f, b, size);
    }

    /** --- Over whole runs --- */

    // The state is determined by which blocks are held: the tree and the free list
    // have no memory of how they came about.
    twostate lemma HeldDetermineState()
      requires old(Valid()) && Valid() && used == old(used)
      ensures nodes.Keys == old(nodes).Keys && FreePaths() == old(FreePaths())
    {
      UsedDeterminesShape(nodes.Keys, old(nodes).Keys, Places(used) + {}, d, d);
      OrderDetermines(u, FreePaths(), old(FreePaths()));
    }

    // When no process holds memory the free list is the root alone.
    lemma WholeWhenUnused()
      requires Valid() && used == map[]
      ensures freeList == [root] && nodes.Keys == {Root}
    {
      forall p ensures p in nodes.Keys <==> p in {Root} {
        ShapeIsNeeded(nodes.Keys, Places(used) + {}, d, p);
      }
      assert InOrder(u, [Root]);
      OrderDetermines(u, FreePaths(), [Root]);
    }

    // A request that is refused could not have been met: every aligned region of
    // sufficient size has a held block in it.
    lemma RefusedOnlyIfNoRegion(size: int, q: Path)
      requires Valid() && q.Depth() <= u && Size(u, q) >= size
      requires forall p :: p in FreePaths() ==> p.Depth() <= u && Size(u, p) < size
      ensures exists pid :: pid in used && used[pid].Depth() <= u && !Disjoint(u, used[pid], q)
    {
      hide Linked, Held, Size, Start, Pow2;
      HeldDepth();
      if forall pid :: pid in used ==> Disjoint(u, used[pid], q) {
        assert forall v :: v in Places(used) + {} ==> Disjoint(u, v, q);
        var leaf := FreeRegion(u, nodes.Keys, Places(used) + {}, d, q);
        LargerAbove(leaf, q);
        assert false;
      }
    }

    // The same for addresses: every region of a power of two, large enough and
    // beginning at a multiple of its size, has a held address in it.
    lemma RefusedEverywhere(size: int, a: nat, n: nat)
      requires Valid() && n <= u && a % Pow2(n) == 0 && a + Pow2(n) <= Pow2(u) && Pow2(n) >= size
      requires forall p :: p in FreePaths() ==> p.Depth() <= u && Size(u, p) < size
      ensures exists pid, x :: pid in used && used[pid].Depth() <= u && a <= x < a + Pow2(n) && Within(u, used[pid], x)
    {
      hide Valid, Size, Start, Pow2;
      var q := RegionIsNode(u, a, n);
      RefusedOnlyIfNoRegion(size, q);
      var pid :| pid in used && used[pid].Depth() <= u && !Disjoint(u, used[pid], q);
      var x := if a >= Start(u, used[pid]) then a else Start(u, used[pid]);
      SizePositive(u, used[pid]);
      assert Within(u, used[pid], x);
    }

    lemma SizePositive(u: nat, p: Path)
      requires p.Depth() <= u
      ensures Size(u, p) > 0
    {
    }

    lemma HeldSize(pid: int)
      requires Valid() && pid in used
      ensures pid in blockMap && blockMap[pid] != null && used[pid].Depth() <= u && blockMap[pid].size == Size(u, used[pid])
    {
      assert Placed(used[pid]);
    }

    lemma OnlyRoot()
      requires Valid() && freeList == [root]
      ensures FreePaths() == [Root]
    {
      assert Placed(Root);
    }

    lemma HeldDepth()
      requires Valid()
      ensures forall pid :: pid in used ==> used[pid].Depth() <= u
    {
      forall pid | pid in used ensures used[pid].Depth() <= u {
        assert Placed(used[pid]);
      }
    }

    lemma LargerAbove(p: Path, q: Path)
      requires q.Depth() <= u && p.Covers(q)
      ensures p.Depth() <= u && Size(u, p) >= Size(u, q)
    {
      CoveredInside(u, p, q);
    }

    // Blocks held by different processes have no address in common, and every
    // block is at least of the least size.
    lemma HeldApart(i: int, j: int)
      requires Valid() && i in used && j in used && i != j
      ensures used[i].Depth() <= d && used[j].Depth() <= d && Disjoint(u, used[i], used[j])
    {
      assert used[i] in Places(used) + {} && used[j] in Places(used) + {};
      LeavesApart(u, nodes.Keys, d, used[i], used[j]);
    }

    // Allocating and releasing again gives back the tree and the free list.
    method AllocateAndRelease(pid: int, size: int)
      requires Valid() && pid != 0 && pid !in used
      modifies this`nodes, this`freeList, this`blockMap, this`used, nodes.Values
      ensures Valid() && used == old(used)
      ensures nodes.Keys == old(nodes).Keys && FreePaths() == old(FreePaths())
    {
      hide ValidWith, Fits, Linked, Held;
      ghost var f := AllocateProcess(pid, size);
      ReleaseProcess(pid);
      assert used == old(used);
      HeldDetermineState();
    }

    /** Any run of requests in which no process asks for a second block: the
        invariant holds throughout, and who holds what fixes the final state. */
    method ProcessRequests(requests: seq<Request>)
      requires Valid() && Orderly(requests, used.Keys)
      modifies this`nodes, this`freeList, this`blockMap, this`used, nodes.Values
      ensures Valid() && fresh(nodes.Values - old(nodes.Values))
      ensures used == old(used) ==> nodes.Keys == old(nodes).Keys && FreePaths() == old(FreePaths())
      ensures used == map[] ==> freeList == [root]
    {
      hide ValidWith, Fits;
      var requestQueue := requests;
      ghost var asked := used.Keys;
      while requestQueue != []
        invariant Valid() && fresh(nodes.Values - old(nodes.Values))
        invariant Orderly(requestQueue, asked) && used.Keys <= asked
        decreases |requestQueue|
      {
        var request := requestQueue[0];
        requestQueue := requestQueue[1..];
        if request.terminate {
          ReleaseProcess(request.pid);
          asked := asked - {request.pid};
        } else {
          ghost var f := AllocateProcess(request.pid, request.size);
          asked := asked + {request.pid};
        }
      }
      if used == old(used) { HeldDetermineState(); }
      if used == map[] { WholeWhenUnused(); }
    }
  }

  /** A block twice the size of the request, from a memory of 4 with least size 1. */
  method LooseBlock() returns (size: nat)
    ensures size == 4
  {
    var b := new Buddies(0, 2, 1, 4);
    b.WholeWhenUnused();
    b.OnlyRoot();
    ghost var f := b.AllocateProcess(1, 2);
    FourForTwo();
    if 1 in b.used {
      assert f == Root;
      FourOrLess(b.used[1]);
    }
    b.HeldSize(1);
    size := b.blockMap[1].size;
  }

  lemma FourForTwo()
    ensures Size(2, Root) == 4
  {
    assert Pow2(1) == 2 && Pow2(2) == 4;
  }

  lemma FourOrLess(p: Path)
    requires p.Depth() <= 2
    ensures Size(2, p) == 4 || Size(2, p) <= 2
  {
    assert Pow2(0) == 1 && Pow2(1) == 2 && Pow2(2) == 4;
  }

  datatype Request = Request(pid: int, size: int, terminate: bool)

  // No process asks for a block while an earlier request of its own stands; pid 0
  // is taken by the root.
  predicate Orderly(requests: seq<Request>, asked: set<int>) {
    requests == [] ||
    (requests[0].pid != 0 &&
     if requests[0].terminate then Orderly(requests[1..], asked - {requests[0].pid})
     else requests[0].pid !in asked && Orderly(requests[1..], asked + {requests[0].pid}))
  }
}
