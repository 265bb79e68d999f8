/** The shape of a buddy tree as a set of paths, and why the blocks in use
    determine it. */
module BuddyTree {

  /** A node of the tree: the root, or a half of its parent. */
  datatype Path = Root | Left(up: Path) | Right(up: Path) {
    function Depth(): nat {
      if Root? then 0 else up.Depth() + 1
    }

    function Buddy(): Path
      requires !Root?
    {
      if Left? then Right(up) else Left(up)
    }

    // q is this node or below it.
    predicate Covers(q: Path) {
      q == this || (!q.Root? && Covers(q.up))
    }
  }

  function Pow2(n: nat): nat
    ensures Pow2(n) > 0
  {
    if n == 0 then 1 else 2 * Pow2(n - 1)
  }

  function Size(u: nat, p: Path): nat
    requires p.Depth() <= u
  {
    Pow2(u - p.Depth())
  }

  function Start(u: nat, p: Path): nat
    requires p.Depth() <= u
  {
    match p
    case Root => 0
    case Left(up) => Start(u, up)
    case Right(up) => Start(u, up) + Size(u, p)
  }

  // The addresses of a node.
  predicate Within(u: nat, p: Path, a: int)
    requires p.Depth() <= u
  {
    Start(u, p) <= a < Start(u, p) + Size(u, p)
  }

  ghost predicate Disjoint(u: nat, p: Path, q: Path)
    requires p.Depth() <= u && q.Depth() <= u
  {
    Start(u, p) + Size(u, p) <= Start(u, q) || Start(u, q) + Size(u, q) <= Start(u, p)
  }

  lemma {:induction false} CoveredInside(u: nat, p: Path, q: Path)
    requires q.Depth() <= u && p.Covers(q)
    ensures p.Depth() <= q.Depth()
    ensures Start(u, p) <= Start(u, q) && Start(u, q) + Size(u, q) <= Start(u, p) + Size(u, p)
    ensures p != q ==> p.Depth() < q.Depth()
  {
    if p != q {
      CoveredInside(u, p, q.up);
    }
  }

  lemma {:induction false} CoversTrans(p: Path, q: Path, r: Path)
    requires p.Covers(q) && q.Covers(r)
    ensures p.Covers(r)
  {
    if q != r { CoversTrans(p, q, r.up); }
  }

  // Two nodes above the same node are one above the other.
  lemma {:induction false} CoversComparable(p: Path, q: Path, r: Path)
    requires p.Covers(r) && q.Covers(r)
    ensures p.Covers(q) || q.Covers(p)
  {
    if p != r && q != r { CoversComparable(p, q, r.up); }
  }

  // Nodes not above one another have no address in common.
  lemma {:induction false} Apart(u: nat, p: Path, q: Path)
    requires p.Depth() <= u && q.Depth() <= u && !p.Covers(q) && !q.Covers(p)
    ensures Disjoint(u, p, q)
    decreases p.Depth() + q.Depth()
  {
    if p.Depth() > q.Depth() {
      if p.up.Covers(q) { CoveredInside(u, p.up, q); }
      Apart(u, p.up, q);
      CoveredInside(u, p.up, p);
    } else if q.Depth() > p.Depth() {
      if q.up.Covers(p) { CoveredInside(u, q.up, p); }
      Apart(u, p, q.up);
      CoveredInside(u, q.up, q);
    } else if p.up != q.up {
      if p.up.Covers(q.up) { CoveredInside(u, p.up, q.up); }
      if q.up.Covers(p.up) { CoveredInside(u, q.up, p.up); }
      Apart(u, p.up, q.up);
      CoveredInside(u, p.up, p);
      CoveredInside(u, q.up, q);
    }
  }

  // The position of a node among the nodes of its size.
  function Index(p: Path): nat {
    match p
    case Root => 0
    case Left(up) => 2 * Index(up)
    case Right(up) => 2 * Index(up) + 1
  }

  // A node starts at a multiple of its size.
  lemma {:induction false} Aligned(u: nat, p: Path)
    requires p.Depth() <= u
    ensures Start(u, p) == Index(p) * Size(u, p)
  {
    if !p.Root? {
      Aligned(u, p.up);
      Halved(Index(p.up), Size(u, p));
    }
  }

  lemma Halved(n: nat, s: nat)
    ensures n * (2 * s) == (2 * n) * s
    ensures (2 * n + 1) * s == (2 * n) * s + s
  {
  }

  // Every aligned region of a power of two of the memory is a node, split off or not.
  function NodeAt(depth: nat, i: nat): (p: Path)
    requires i < Pow2(depth)
    ensures p.Depth() == depth && Index(p) == i
  {
    if depth == 0 then Root
    else if i % 2 == 0 then Left(NodeAt(depth - 1, i / 2))
    else Right(NodeAt(depth - 1, i / 2))
  }

  /** --- Tree shapes --- */

  // Nodes come in pairs below a node of the tree, down to a largest depth.
  ghost predicate IsTree(s: set<Path>, d: nat) {
    && Root in s
    && (forall p :: p in s ==> p.Depth() <= d)
    && (forall p :: Left(p) in s <==> Right(p) in s)
    && (forall p :: Left(p) in s ==> p in s)
  }

  predicate Leaf(s: set<Path>, p: Path) {
    p in s && Left(p) !in s
  }

  // The used nodes are leaves, and no two buddies are both unused leaves.
  ghost predicate Merged(s: set<Path>, used: set<Path>, d: nat) {
    && IsTree(s, d)
    && (forall p :: p in used ==> Leaf(s, p))
    && (forall p :: Leaf(s, Left(p)) && Leaf(s, Right(p)) ==> Left(p) in used || Right(p) in used)
  }

  lemma MergedWith(s: set<Path>, used: set<Path>, d: nat, p: Path)
    requires Merged(s, used, d) && Leaf(s, p)
    ensures Merged(s, used + {p}, d)
  {
  }

  lemma SplitTree(s: set<Path>, d: nat, p: Path)
    requires IsTree(s, d) && Leaf(s, p) && p.Depth() < d
    ensures IsTree(s + {Left(p), Right(p)}, d)
    ensures forall q :: Leaf(s + {Left(p), Right(p)}, q) <==> q == Left(p) || q == Right(p) || (Leaf(s, q) && q != p)
  {
    SplitIsTree(s, d, p);
    assert Right(p) !in s;
    hide Path.Depth;
    forall q ensures Leaf(s + {Left(p), Right(p)}, q) <==> q == Left(p) || q == Right(p) || (Leaf(s, q) && q != p) {
      SplitLeaf(s, d, p, q);
    }
  }

  lemma SplitLeaf(s: set<Path>, d: nat, p: Path, q: Path)
    requires IsTree(s, d) && Leaf(s, p)
    ensures Leaf(s + {Left(p), Right(p)}, q) <==> q == Left(p) || q == Right(p) || (Leaf(s, q) && q != p)
  {
    hide Path.Depth;
    assert Right(p) !in s;
    assert Left(q) in s + {Left(p), Right(p)} <==> Left(q) in s || q == p;
    if q == Left(p) || q == Right(p) { assert Left(q) !in s; }
  }

  lemma SplitIsTree(s: set<Path>, d: nat, p: Path)
    requires IsTree(s, d) && Leaf(s, p) && p.Depth() < d
    ensures IsTree(s + {Left(p), Right(p)}, d)
  {
    var t := s + {Left(p), Right(p)};
    assert Left(p).Depth() <= d && Right(p).Depth() <= d;
    forall q ensures Left(q) in t <==> Right(q) in t {
      assert Left(q) in s <==> Right(q) in s;
    }
    forall q | Left(q) in t ensures q in t {
      assert Left(q) in s ==> q in s;
    }
  }

  // Halving an unused leaf that the allocator holds.
  lemma SplitMerged(s: set<Path>, used: set<Path>, d: nat, p: Path)
    requires Merged(s, used + {p}, d) && Leaf(s, p) && p.Depth() < d && p !in used
    ensures Left(p) !in s && Right(p) !in s && Left(p) !in used && Right(p) !in used
    ensures Left(Left(p)) !in s && Right(Left(p)) !in s && Left(Right(p)) !in s && Right(Right(p)) !in s
    ensures Merged(s + {Left(p), Right(p)}, used + {Left(p), Right(p)}, d)
    ensures forall q :: Leaf(s + {Left(p), Right(p)}, q) <==> q == Left(p) || q == Right(p) || (Leaf(s, q) && q != p)
  {
    SplitTree(s, d, p);
    assert p in used + {p};
    var t, v := s + {Left(p), Right(p)}, used + {Left(p), Right(p)};
    forall q | Leaf(t, Left(q)) && Leaf(t, Right(q)) ensures Left(q) in v || Right(q) in v {
      if q != p {
        assert Leaf(s, Left(q)) && Leaf(s, Right(q));
      }
    }
    hide IsTree, Leaf;
  }

  // Joining two leaves that the allocator holds.
  lemma JoinMerged(s: set<Path>, used: set<Path>, d: nat, p: Path)
    requires Merged(s, used + {Left(p), Right(p)}, d) && Leaf(s, Left(p)) && Leaf(s, Right(p))
    requires Left(p) !in used && Right(p) !in used
    ensures Merged(s - {Left(p), Right(p)}, used + {p}, d)
    ensures forall q :: Leaf(s - {Left(p), Right(p)}, q) <==> q == p || (Leaf(s, q) && q != Left(p) && q != Right(p))
  {
    var t, l, r := s - {Left(p), Right(p)}, Left(p), Right(p);
    hide Path.Depth;
    assert Left(l) !in s && Left(r) !in s && p in s;
    assert IsTree(t, d);
    forall q ensures Leaf(t, q) <==> q == p || (Leaf(s, q) && q != l && q != r) {
      assert Left(q) in t <==> Left(q) in s && q != p;
    }
    hide IsTree;
  }

  lemma JoinLinks(s: set<Path>, d: nat, p: Path)
    requires IsTree(s, d) && Leaf(s, Left(p)) && Leaf(s, Right(p))
    ensures p in s && p != Left(p) && p != Right(p)
    ensures forall q :: q in s && !q.Root? ==> q.up in s && q.up != Left(p) && q.up != Right(p)
  {
    assert p.Depth() < Left(p).Depth() && p.Depth() < Right(p).Depth();
    hide Path.Depth;
    forall q | q in s && !q.Root? ensures q.up in s && q.up != Left(p) && q.up != Right(p) {
      BuddyInTree(s, d, q);
    }
  }

  // A leaf whose buddy is split or in use may stay unused.
  lemma UnholdMerged(s: set<Path>, used: set<Path>, d: nat, p: Path)
    requires Merged(s, used + {p}, d)
    requires p.Root? || !Leaf(s, p.Buddy()) || p.Buddy() in used
    ensures Merged(s, used, d)
  {
    forall q | Leaf(s, Left(q)) && Leaf(s, Right(q)) ensures Left(q) in used || Right(q) in used {
      assert Left(q) in used + {p} || Right(q) in used + {p};
      assert p == Left(q) ==> p.Buddy() == Right(q);
      assert p == Right(q) ==> p.Buddy() == Left(q);
    }
  }

  lemma BuddyInTree(s: set<Path>, d: nat, p: Path)
    requires IsTree(s, d) && p in s && !p.Root?
    ensures p.up in s && p.Buddy() in s && Left(p.up) in s && Right(p.up) in s
  {
    assert p == Left(p.up) || p == Right(p.up);
  }

  lemma {:induction false} AboveInTree(s: set<Path>, d: nat, p: Path, q: Path)
    requires IsTree(s, d) && q in s && p.Covers(q)
    ensures p in s && (p != q ==> Left(p) in s)
  {
    if p != q {
      assert Left(q.up) in s;
      AboveInTree(s, d, p, q.up);
    }
  }

  // A node that is split has a used leaf below it.
  lemma {:induction false} UsedBelow(s: set<Path>, used: set<Path>, d: nat, p: Path) returns (v: Path)
    requires Merged(s, used, d) && Left(p) in s
    ensures v in used && p.Covers(v) && v != p
    decreases d - p.Depth()
  {
    var l, r := Left(p), Right(p);
    if l in used {
      v := l;
    } else if r in used {
      v := r;
    } else if !Leaf(s, l) {
      v := UsedBelow(s, used, d, l);
      CoveredInside(v.Depth(), l, v);
      CoversTrans(p, l, v);
    } else {
      v := UsedBelow(s, used, d, r);
      CoveredInside(v.Depth(), r, v);
      CoversTrans(p, r, v);
    }
  }

  // The shape is the root and the halves of the nodes above used leaves ...
  ghost predicate Needed(used: set<Path>, p: Path) {
    p.Root? || exists v :: v in used && p.up.Covers(v) && v != p.up
  }

  lemma ShapeIsNeeded(s: set<Path>, used: set<Path>, d: nat, p: Path)
    requires Merged(s, used, d)
    ensures p in s <==> Needed(used, p)
  {
    if p in s && !p.Root? {
      assert Left(p.up) in s;
      var v := UsedBelow(s, used, d, p.up);
    }
    if Needed(used, p) && !p.Root? {
      var v :| v in used && p.up.Covers(v) && v != p.up;
      AboveInTree(s, d, p.up, v);
    }
  }

  /** ... so two trees with the same used leaves are the same tree: nothing of the
      order of requests that led there remains in it. */
  lemma UsedDeterminesShape(s: set<Path>, t: set<Path>, used: set<Path>, d: nat, e: nat)
    requires Merged(s, used, d) && Merged(t, used, e)
    ensures s == t
  {
    forall p ensures p in s <==> p in t {
      ShapeIsNeeded(s, used, d, p);
      ShapeIsNeeded(t, used, e, p);
    }
  }

  /** --- Tiling --- */

  lemma {:induction false} LeafAt(u: nat, s: set<Path>, d: nat, p: Path, a: int) returns (leaf: Path)
    requires IsTree(s, d) && d <= u && p in s && Within(u, p, a)
    ensures Leaf(s, leaf) && Within(u, leaf, a)
    decreases d - p.Depth()
  {
    if Leaf(s, p) {
      leaf := p;
    } else if Within(u, Left(p), a) {
      leaf := LeafAt(u, s, d, Left(p), a);
    } else {
      leaf := LeafAt(u, s, d, Right(p), a);
    }
  }

  lemma LeavesApart(u: nat, s: set<Path>, d: nat, p: Path, q: Path)
    requires IsTree(s, d) && d <= u && Leaf(s, p) && Leaf(s, q) && p != q
    ensures Disjoint(u, p, q)
  {
    if p.Covers(q) { AboveInTree(s, d, p, q); }
    if q.Covers(p) { AboveInTree(s, d, q, p); }
    Apart(u, p, q);
  }

  // Every address of the memory lies in exactly one leaf.
  lemma LeavesTile(u: nat, s: set<Path>, d: nat, a: int)
    requires IsTree(s, d) && d <= u && 0 <= a < Pow2(u)
    ensures exists p :: Leaf(s, p) && Within(u, p, a)
    ensures forall p, q :: Leaf(s, p) && Leaf(s, q) && Within(u, p, a) && Within(u, q, a) ==> p == q
  {
    var leaf := LeafAt(u, s, d, Root, a);
    forall p, q | Leaf(s, p) && Leaf(s, q) && Within(u, p, a) && Within(u, q, a) ensures p == q {
      if p != q { LeavesApart(u, s, d, p, q); }
    }
  }

  /** --- Completeness --- */

  // An aligned region with no used leaf in it lies inside one unused leaf.
  lemma {:induction false} FreeRegion(u: nat, s: set<Path>, used: set<Path>, d: nat, q: Path) returns (leaf: Path)
    requires Merged(s, used, d) && d <= u && q.Depth() <= u
    requires forall v :: v in used ==> Disjoint(u, v, q)
    ensures Leaf(s, leaf) && leaf !in used && leaf.Covers(q)
  {
    if q in s {
      if Leaf(s, q) {
        leaf := q;
      } else {
        var v := UsedBelow(s, used, d, q);
        CoveredInside(u, q, v);
        assert false;
      }
    } else {
      leaf := LeafAbove(s, d, q);
      CoveredInside(u, leaf, q);
    }
  }

  lemma {:induction false} LeafAbove(s: set<Path>, d: nat, q: Path) returns (leaf: Path)
    requires IsTree(s, d) && q !in s
    ensures Leaf(s, leaf) && leaf.Covers(q)
  {
    if q.up in s {
      leaf := q.up;
      assert q == Left(q.up) || q == Right(q.up);
    } else {
      leaf := LeafAbove(s, d, q.up);
    }
  }

  lemma {:induction false} PowMono(a: nat, b: nat)
    requires a <= b
    ensures Pow2(a) <= Pow2(b) && (a < b ==> Pow2(a) < Pow2(b))
  {
    if a < b { PowMono(a, b - 1); }
  }

  // A node can be halved within the lower bound exactly when it is not too deep.
  lemma HalfFits(u: nat, d: nat, p: Path)
    requires d <= u && p.Depth() <= u
    ensures Size(u, p) / 2 >= Pow2(u - d) <==> p.Depth() < d
    ensures p.Depth() < u ==> Size(u, Left(p)) == Size(u, p) / 2 && Size(u, p) == 2 * (Size(u, p) / 2)
  {
    if p.Depth() < d {
      PowMono(u - d, u - p.Depth() - 1);
    } else if Size(u, p) / 2 >= Pow2(u - d) {
      PowMono(u - p.Depth(), u - d);
    }
  }

  /** --- The order of free blocks --- */

  ghost predicate Before(u: nat, p: Path, q: Path)
    requires p.Depth() <= u && q.Depth() <= u
  {
    if Size(u, p) != Size(u, q) then Size(u, p) < Size(u, q) else Start(u, p) > Start(u, q)
  }

  lemma LeavesOrdered(u: nat, s: set<Path>, d: nat, p: Path, q: Path)
    requires IsTree(s, d) && d <= u && Leaf(s, p) && Leaf(s, q) && p != q
    ensures Before(u, p, q) || Before(u, q, p)
  {
    LeavesApart(u, s, d, p, q);
  }

  ghost predicate InOrder(u: nat, l: seq<Path>) {
    && (forall i :: 0 <= i < |l| ==> l[i].Depth() <= u)
    && (forall i, j :: 0 <= i < j < |l| ==> Before(u, l[i], l[j]))
  }

  // A list in strict order is determined by its members.
  lemma {:induction false} OrderDetermines(u: nat, l: seq<Path>, m: seq<Path>)
    requires InOrder(u, l) && InOrder(u, m)
    requires forall p :: p in l <==> p in m
    ensures l == m
  {
    assert (l != [] ==> l[0] in l) && (m != [] ==> m[0] in m);
    if l != [] {
      var i :| 0 <= i < |m| && m[i] == l[0];
      var j :| 0 <= j < |l| && l[j] == m[0];
      assert (i > 0 ==> Before(u, m[0], m[i])) && (j > 0 ==> Before(u, l[0], l[j]));
      assert l[0] == m[0];
      HeadOnce(u, l);
      HeadOnce(u, m);
      assert l == [l[0]] + l[1..] && m == [m[0]] + m[1..];
      forall p ensures p in l[1..] <==> p in m[1..] {
        assert p in l <==> p in m;
      }
      OrderDetermines(u, l[1..], m[1..]);
    }
  }

  lemma HeadOnce(u: nat, l: seq<Path>)
    requires InOrder(u, l) && l != []
    ensures l[0] !in l[1..]
  {
    forall a | 1 <= a < |l| ensures l[a] != l[0] {
      assert Before(u, l[0], l[a]);
    }
  }

  // Insertion at the lower bound.
  lemma InsertInOrder(u: nat, l: seq<Path>, i: nat, p: Path)
    requires InOrder(u, l) && p.Depth() <= u && i <= |l|
    requires forall j :: 0 <= j < |l| ==> Before(u, l[j], p) || Before(u, p, l[j])
    requires forall j :: 0 <= j < i ==> Before(u, l[j], p)
    requires i < |l| ==> !Before(u, l[i], p)
    ensures InOrder(u, l[..i] + [p] + l[i..])
    ensures forall q :: q in l[..i] + [p] + l[i..] <==> q == p || q in l
  {
    forall j | i <= j < |l| ensures Before(u, p, l[j]) {
      assert j > i ==> Before(u, l[i], l[j]);
    }
    hide Before, Path.Depth;
    var m := l[..i] + [p] + l[i..];
    InsertMembers(l, i, p);
    forall k | 0 <= k < |m| ensures m[k] == (if k < i then l[k] else if k == i then p else l[k - 1]) {
      Inserted(l, i, p, k);
    }
    forall a, b | 0 <= a < b < |m|
      ensures m[a].Depth() <= u && m[b].Depth() <= u && Before(u, m[a], m[b])
    {
      var x, y := m[a], m[b];
      if a != i && b != i {
        assert Before(u, l[if a < i then a else a - 1], l[if b < i then b else b - 1]);
      }
    }
  }

  lemma Inserted(l: seq<Path>, i: nat, p: Path, k: nat)
    requires i <= |l| && k <= |l|
    ensures (l[..i] + [p] + l[i..])[k] == if k < i then l[k] else if k == i then p else l[k - 1]
  {
  }

  lemma InsertMembers(l: seq<Path>, i: nat, p: Path)
    requires i <= |l|
    ensures forall q :: q in l[..i] + [p] + l[i..] <==> q == p || q in l
  {
    assert l == l[..i] + l[i..];
  }

  lemma RemoveInOrder(u: nat, l: seq<Path>, i: nat)
    requires InOrder(u, l) && i < |l|
    ensures InOrder(u, l[..i] + l[i + 1..])
    ensures forall q :: q in l[..i] + l[i + 1..] <==> q in l && q != l[i]
  {
    forall j | 0 <= j < |l| && j != i ensures l[j] != l[i] {
      assert Before(u, l[j], l[i]) || Before(u, l[i], l[j]);
    }
    hide Before;
    assert l == l[..i] + [l[i]] + l[i + 1..];
  }

  // A node of at least the least size whose half is too small, or no larger than
  // the request, is no larger than twice the request, or is of the least size.
  lemma SizeBound(u: nat, d: nat, p: Path, size: int)
    requires d <= u && p.Depth() <= d
    requires Size(u, p) / 2 <= size || Size(u, p) / 2 < Pow2(u - d)
    ensures Size(u, p) <= 2 * size || Size(u, p) == Pow2(u - d)
  {
    HalfFits(u, d, p);
  }

  ghost predicate IsPower(x: int) {
    exists n: nat :: x == Pow2(n)
  }

  /** For a request of size a node b is cut from the node f: large enough, at most
      twice the request or of the least size, and larger than the request if f is.
      Half of b would have served too exactly if the request is a power of two, no
      smaller than the least size, and f is larger than it. */
  lemma TightFit(u: nat, d: nat, f: Path, b: Path, size: int)
    requires d <= u && b.Depth() <= d && f.Covers(b) && f.Depth() <= u
    requires Size(u, b) >= size && (Size(u, b) <= 2 * size || Size(u, b) == Pow2(u - d))
    requires Size(u, f) > size ==> Size(u, b) > size
    ensures Size(u, b) / 2 >= size && Size(u, b) / 2 >= Pow2(u - d)
       <==> IsPower(size) && size >= Pow2(u - d) && Size(u, f) > size
  {
    HalfFits(u, d, b);
    CoveredInside(u, f, b);
    if IsPower(size) && size >= Pow2(u - d) && Size(u, f) > size {
      var n: nat :| size == Pow2(n);
      if u - b.Depth() <= n {
        PowMono(u - b.Depth(), n);
      } else {
        PowMono(n + 1, u - b.Depth());
      }
    }
    if Size(u, b) / 2 >= size && Size(u, b) / 2 >= Pow2(u - d) {
      assert size == Pow2(u - b.Depth() - 1);
    }
  }

  lemma {:induction false} PowSum(m: nat, n: nat)
    ensures Pow2(m + n) == Pow2(m) * Pow2(n)
  {
    if m > 0 {
      PowSum(m - 1, n);
      Doubled(Pow2(m - 1), Pow2(n));
    }
  }

  lemma Doubled(x: nat, y: nat)
    ensures 2 * (x * y) == (2 * x) * y
  {
  }

  // Every region of a power of two that begins at a multiple of its size is a node.
  lemma RegionIsNode(u: nat, a: nat, n: nat) returns (q: Path)
    requires n <= u && a % Pow2(n) == 0 && a + Pow2(n) <= Pow2(u)
    ensures q.Depth() == u - n && Start(u, q) == a && Size(u, q) == Pow2(n)
  {
    var s, k := Pow2(n), Pow2(u - n);
    var i := a / s;
    assert a == s * i;
    PowSum(u - n, n);
    Fewer(s, i, k);
    q := NodeAt(u - n, i);
    Aligned(u, q);
  }

  lemma Fewer(s: nat, i: nat, k: nat)
    requires s * i < k * s
    ensures i < k && s * i == i * s
  {
    if i >= k { More(s, k, i); }
  }

  lemma More(s: nat, k: nat, i: nat)
    requires k <= i
    ensures k * s <= s * i
  {
  }
}
