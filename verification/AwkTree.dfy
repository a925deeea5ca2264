/** The parse tree on the heap and the in-place passes over it (b.c: penter, first, follow, cfoll).
  *
  * The passes are proved against the functions First, Enter and Agrees of AwkPositions.
  */
module AwkTree {
  import opened AwkRegex
  import opened AwkPositions
  import opened AwkPattern

  const MAXLIN: nat := 256

  datatype Kind = LeafKind(leaf: Leaf) | StarKind | PlusKind | QuestKind | CatKind | OrKind {
    predicate Unary() { StarKind? || PlusKind? || QuestKind? }
    predicate Binary() { CatKind? || OrKind? }
  }

  function UnaryTree(k: Kind, t: Re): Re
    requires k.Unary()
  {
    if k.StarKind? then Star(t) else if k.PlusKind? then Plus(t) else Quest(t)
  }

  function BinaryTree(k: Kind, a: Re, b: Re): Re
    requires k.Binary()
  {
    if k.CatKind? then Cat(a, b) else Or(a, b)
  }

  // The positions that follow the only child of a unary node whose own followers are k.
  function UnaryFollowers(kind: Kind, t: Re, off: nat, k: set<nat>): set<nat>
    requires kind.Unary()
  {
    if kind.QuestKind? then k else First(t, off) + k
  }

  // The positions that follow the left child of a binary node whose own followers are k.
  function LeftFollowers(kind: Kind, a: Re, b: Re, off: nat, k: set<nat>): set<nat>
    requires kind.Binary()
  {
    if kind.CatKind? then Enter(b, off + Leaves(a), k) else k
  }

  /** A parse-tree node. The children never change after op2 builds the node; penter fills in
    * the parent pointer and, at a leaf, the index. */
  class Node {
    const kind: Kind
    const left: Node?
    const right: Node?
    var parent: Node?
    var index: nat
    ghost const tree: Re
    ghost const Repr: set<Node>

    ghost predicate Shape()
      ensures Shape() ==> this in Repr
      decreases tree
    {
      || (kind.LeafKind? && left == null && right == null && tree == Unit(kind.leaf) && Repr == {this})
      || (kind.Unary() && left != null && right == null && tree == UnaryTree(kind, left.tree) &&
          Repr == {this} + left.Repr && this !in left.Repr && left.Shape())
      || (kind.Binary() && left != null && right != null && tree == BinaryTree(kind, left.tree, right.tree) &&
          Repr == {this} + left.Repr + right.Repr && this !in left.Repr && this !in right.Repr &&
          left.Repr !! right.Repr && left.Shape() && right.Shape())
    }

    // op2
    constructor (kind: Kind, left: Node?, right: Node?)
      requires kind.LeafKind? ==> left == null && right == null
      requires kind.Unary() ==> left != null && right == null && left.Shape()
      requires kind.Binary() ==>
                 left != null && right != null && left.Shape() && right.Shape() && left.Repr !! right.Repr
      ensures Shape() && fresh(this)
      ensures this.kind == kind && this.left == left && this.right == right
      ensures Repr == {this} + (if left == null then {} else left.Repr) + (if right == null then {} else right.Repr)
    {
      this.kind := kind;
      this.left := left;
      this.right := right;
      this.parent := null;
      this.index := 0;
      this.tree := if kind.LeafKind? then Unit(kind.leaf)
                   else if kind.Unary() then UnaryTree(kind, left.tree)
                   else BinaryTree(kind, left.tree, right.tree);
      this.Repr := {this} + (if left == null then {} else left.Repr) + (if right == null then {} else right.Repr);
    }

    /** Leaves are numbered from off, left to right, and every child points to its parent. */
    ghost predicate Numbered(off: nat)
      requires Shape()
      reads Repr`index, (Repr - {this})`parent
      decreases tree
    {
      || (kind.LeafKind? && index == off)
      || (kind.Unary() && left.parent == this && left.Numbered(off))
      || (kind.Binary() && left.parent == this && right.parent == this &&
          left.Numbered(off) && right.Numbered(off + Leaves(left.tree)))
    }
  }

  /** Node v occurs in the tree at n, with its leaves numbered from voff and followers vk, when n's
    * own leaves are numbered from off and its followers are k. */
  ghost predicate Occurs(n: Node, off: nat, k: set<nat>, v: Node, voff: nat, vk: set<nat>)
    requires n.Shape()
    decreases n.tree
  {
    (v == n && voff == off && vk == k) ||
    (n.kind.Unary() && Occurs(n.left, off, UnaryFollowers(n.kind, n.left.tree, off, k), v, voff, vk)) ||
    (n.kind.Binary() &&
     (Occurs(n.left, off, LeftFollowers(n.kind, n.left.tree, n.right.tree, off, k), v, voff, vk) ||
      Occurs(n.right, off + Leaves(n.left.tree), k, v, voff, vk)))
  }

  /** How the followers of a node are obtained from those of its parent. */
  ghost predicate ChildOf(p: Node, poff: nat, pk: set<nat>, v: Node, voff: nat, vk: set<nat>)
    requires p.Shape()
  {
    (p.kind.Unary() && v == p.left && voff == poff && vk == UnaryFollowers(p.kind, v.tree, voff, pk)) ||
    (p.kind.Binary() && v == p.left && voff == poff &&
     vk == LeftFollowers(p.kind, v.tree, p.right.tree, voff, pk)) ||
    (p.kind.Binary() && v == p.right && voff == poff + Leaves(p.left.tree) && vk == pk)
  }

  lemma {:induction false} OccursInside(n: Node, off: nat, k: set<nat>, v: Node, voff: nat, vk: set<nat>)
    requires n.Shape() && Occurs(n, off, k, v, voff, vk)
    ensures v.Shape() && v.Repr <= n.Repr
    ensures off <= voff && voff + Leaves(v.tree) <= off + Leaves(n.tree)
    ensures n.Numbered(off) ==> v.Numbered(voff)
    ensures v != n ==> v.Repr <= n.Repr - {n}
    decreases n.tree
  {
    if v == n && voff == off && vk == k {
    } else if n.kind.Unary() {
      OccursInside(n.left, off, UnaryFollowers(n.kind, n.left.tree, off, k), v, voff, vk);
    } else {
      var lk := LeftFollowers(n.kind, n.left.tree, n.right.tree, off, k);
      if Occurs(n.left, off, lk, v, voff, vk) {
        OccursInside(n.left, off, lk, v, voff, vk);
      } else {
        OccursInside(n.right, off + Leaves(n.left.tree), k, v, voff, vk);
      }
    }
  }

  /** Following a parent pointer leads to the node whose followers determine this node's. */
  lemma {:induction false} ParentOccurs(n: Node, off: nat, k: set<nat>, v: Node, voff: nat, vk: set<nat>)
    returns (poff: nat, pk: set<nat>)
    requires n.Shape() && n.Numbered(off) && Occurs(n, off, k, v, voff, vk) && v != n
    ensures v.parent != null && v.parent.Shape()
    ensures Occurs(n, off, k, v.parent, poff, pk)
    ensures ChildOf(v.parent, poff, pk, v, voff, vk)
    decreases n.tree
  {
    if n.kind.Unary() {
      var lk := UnaryFollowers(n.kind, n.left.tree, off, k);
      if v == n.left && voff == off && vk == lk {
        poff, pk := off, k;
      } else {
        OccursInside(n.left, off, lk, v, voff, vk);
        SelfOccursOnce(n.left, off, lk, v, voff, vk);
        poff, pk := ParentOccurs(n.left, off, lk, v, voff, vk);
      }
    } else {
      var lk := LeftFollowers(n.kind, n.left.tree, n.right.tree, off, k);
      var roff := off + Leaves(n.left.tree);
      if Occurs(n.left, off, lk, v, voff, vk) {
        if v == n.left && voff == off && vk == lk {
          poff, pk := off, k;
        } else {
          SelfOccursOnce(n.left, off, lk, v, voff, vk);
          poff, pk := ParentOccurs(n.left, off, lk, v, voff, vk);
        }
      } else {
        if v == n.right && voff == roff && vk == k {
          poff, pk := off, k;
        } else {
          SelfOccursOnce(n.right, roff, k, v, voff, vk);
          poff, pk := ParentOccurs(n.right, roff, k, v, voff, vk);
        }
      }
    }
  }

  // A node is not inside one of its own children.
  lemma SelfOccursOnce(n: Node, off: nat, k: set<nat>, v: Node, voff: nat, vk: set<nat>)
    requires n.Shape() && Occurs(n, off, k, v, voff, vk)
    requires !(v == n && voff == off && vk == k)
    ensures v != n
  {
    if n.kind.Unary() {
      OccursInside(n.left, off, UnaryFollowers(n.kind, n.left.tree, off, k), v, voff, vk);
    } else {
      var lk := LeftFollowers(n.kind, n.left.tree, n.right.tree, off, k);
      if Occurs(n.left, off, lk, v, voff, vk) {
        OccursInside(n.left, off, lk, v, voff, vk);
      } else {
        OccursInside(n.right, off + Leaves(n.left.tree), k, v, voff, vk);
      }
    }
  }

  /** The working storage shared by the passes: a bit per position and a count of the bits set.
    * The ghost field is the set of positions whose bit is on. */
  class Globals {
    const setvec: array<int>
    const tmpset: array<nat>
    var setcnt: int
    var poscnt: nat
    ghost var marked: set<nat>

    constructor ()
      ensures Ready() && fresh(setvec) && fresh(tmpset)
    {
      setvec := new int[MAXLIN](_ => 0);
      tmpset := new nat[MAXLIN](_ => 0);
      setcnt := 0;
      poscnt := 0;
      marked := {};
    }

    ghost predicate Ready() {
      setvec.Length == tmpset.Length == MAXLIN && (setvec as object) != tmpset
    }

    // The bits of positions 0..n are in order.
    ghost predicate Counted(n: nat)
      reads this, setvec
    {
      n <= setvec.Length && setcnt == |marked| &&
      (forall i :: i in marked ==> i < n) &&
      (forall i :: 0 <= i < n ==> setvec[i] == if i in marked then 1 else 0)
    }

    // setvec[0..n) := 0; setcnt := 0
    method Clear(n: nat)
      requires Ready() && n <= MAXLIN
      modifies this`setcnt, this`marked, setvec
      ensures marked == {} && Counted(n)
    {
      for i := 0 to n
        invariant forall j :: 0 <= j < i ==> setvec[j] == 0
      {
        setvec[i] := 0;
      }
      setcnt := 0;
      marked := {};
    }

    // One more bit on.
    method Mark(i: nat, ghost n: nat)
      requires Counted(n) && i < n && setvec[i] != 1
      modifies this`setcnt, this`marked, setvec
      ensures marked == old(marked) + {i} && Counted(n)
    {
      setvec[i] := 1;
      setcnt := setcnt + 1;
      marked := marked + {i};
    }
  }

  /** penter: numbers the leaves from poscnt on and sets the parent pointers. */
  method EnterLeaves(p: Node, g: Globals)
    requires p.Shape()
    modifies p.Repr`index, (p.Repr - {p})`parent, g`poscnt
    ensures p.Numbered(old(g.poscnt))
    ensures g.poscnt == old(g.poscnt) + Leaves(p.tree)
    decreases p.tree
  {
    if p.kind.LeafKind? {
      p.index := g.poscnt;
      g.poscnt := g.poscnt + 1;
    } else if p.kind.Unary() {
      EnterLeaves(p.left, g);
      p.left.parent := p;
    } else {
      EnterLeaves(p.left, g);
      EnterLeaves(p.right, g);
      assert p.left.Numbered(old(g.poscnt));
      Adopt(p, old(g.poscnt));
    }
  }

  // Both children of p get p for their parent.
  method Adopt(p: Node, ghost off: nat)
    requires p.Shape() && p.kind.Binary()
    requires p.left.Numbered(off) && p.right.Numbered(off + Leaves(p.left.tree))
    modifies p.left`parent, p.right`parent
    ensures p.Numbered(off)
  {
    p.left.parent := p;
    p.right.parent := p;
  }

  // The bits in s were turned on, and no others.
  ghost predicate Added(before: set<nat>, after: set<nat>, s: set<nat>) {
    forall x :: x in after <==> x in before || x in s
  }

  /** first: turns on the bits of the positions at which p can begin; the result is 0 exactly when
    * p matches the empty word. */
  method CollectFirst(p: Node, g: Globals, ghost off: nat, ghost n: nat) returns (b: int)
    requires p.Shape() && p.Numbered(off) && off + Leaves(p.tree) <= n <= MAXLIN
    requires g.Ready() && g.Counted(n)
    modifies g`setcnt, g`marked, g.setvec
    ensures g.Counted(n) && Added(old(g.marked), g.marked, First(p.tree, off))
    ensures b == if Nullable(p.tree) then 0 else 1
    decreases p.tree
  {
    if p.kind.LeafKind? {
      if g.setvec[p.index] != 1 {
        g.Mark(p.index, n);
      }
      b := if IsEmptyClass(p.kind.leaf) then 0 else 1;
    } else if p.kind.PlusKind? {
      b := CollectFirst(p.left, g, off, n);
      b := if b == 0 then 0 else 1;
    } else if p.kind.Unary() {
      b := CollectFirst(p.left, g, off, n);
      b := 0;
    } else if p.kind.CatKind? {
      b := CollectFirstCat(p, g, off, n);
    } else {
      b := CollectFirstOr(p, g, off, n);
    }
  }

  // The CAT arm: the right child is visited only when the left one can be empty.
  method CollectFirstCat(p: Node, g: Globals, ghost off: nat, ghost n: nat) returns (b: int)
    requires p.Shape() && p.Numbered(off) && off + Leaves(p.tree) <= n <= MAXLIN
    requires p.kind.CatKind? && g.Ready() && g.Counted(n)
    modifies g`setcnt, g`marked, g.setvec
    ensures g.Counted(n) && Added(old(g.marked), g.marked, First(p.tree, off))
    ensures b == if Nullable(p.tree) then 0 else 1
    decreases p.tree, 0
  {
    FirstOfCat(p.left.tree, p.right.tree, off);
    b := CollectFirst(p.left, g, off, n);
    if b == 0 {
      b := CollectFirst(p.right, g, off + Leaves(p.left.tree), n);
    }
    b := if b == 0 then 0 else 1;
  }

  lemma FirstOfCat(a: Re, b: Re, off: nat)
    ensures First(Cat(a, b), off) == First(a, off) + (if Nullable(a) then First(b, off + Leaves(a)) else {})
    ensures Nullable(Cat(a, b)) <==> Nullable(a) && Nullable(b)
  {
  }

  // The OR arm: both children are visited, the right one first.
  method CollectFirstOr(p: Node, g: Globals, ghost off: nat, ghost n: nat) returns (b: int)
    requires p.Shape() && p.Numbered(off) && off + Leaves(p.tree) <= n <= MAXLIN
    requires p.kind.OrKind? && g.Ready() && g.Counted(n)
    modifies g`setcnt, g`marked, g.setvec
    ensures g.Counted(n) && Added(old(g.marked), g.marked, First(p.tree, off))
    ensures b == if Nullable(p.tree) then 0 else 1
    decreases p.tree, 0
  {
    FirstOfOr(p.left.tree, p.right.tree, off);
    b := CollectFirst(p.right, g, off + Leaves(p.left.tree), n);
    var b1 := CollectFirst(p.left, g, off, n);
    b := if b1 == 0 || b == 0 then 0 else 1;
  }

  lemma FirstOfOr(a: Re, b: Re, off: nat)
    ensures First(Or(a, b), off) == First(a, off) + First(b, off + Leaves(a))
    ensures Nullable(Or(a, b)) <==> Nullable(a) || Nullable(b)
  {
  }

  // FINAL occurs only as the last leaf, where nothing follows it.
  lemma {:induction false} FinalIsLast(n: Node, off: nat, k: set<nat>, v: Node, voff: nat, vk: set<nat>)
    requires n.Shape() && Occurs(n, off, k, v, voff, vk) && NoFinal(n.tree)
    ensures NoFinal(v.tree)
    decreases n.tree
  {
    if v == n {
    } else if n.kind.Unary() {
      FinalIsLast(n.left, off, UnaryFollowers(n.kind, n.left.tree, off, k), v, voff, vk);
    } else {
      var lk := LeftFollowers(n.kind, n.left.tree, n.right.tree, off, k);
      if Occurs(n.left, off, lk, v, voff, vk) {
        FinalIsLast(n.left, off, lk, v, voff, vk);
      } else {
        FinalIsLast(n.right, off + Leaves(n.left.tree), k, v, voff, vk);
      }
    }
  }

  lemma FinalHasNoFollowers(top: Node, r: Re, v: Node, voff: nat, vk: set<nat>)
    requires top.Shape() && top.tree == Full(r) && NoFinal(r)
    requires Occurs(top, 0, {}, v, voff, vk) && v != top
    ensures v.kind == LeafKind(Final) ==> vk == {}
    ensures v == top.right ==> v.kind == LeafKind(Final)
  {
    var lk := LeftFollowers(top.kind, top.left.tree, top.right.tree, 0, {});
    if Occurs(top.left, 0, lk, v, voff, vk) {
      FinalIsLast(top.left, 0, lk, v, voff, vk);
      OccursInside(top.left, 0, lk, v, voff, vk);
    }
  }

  // What follow adds at one level, by the kind of the parent.
  lemma ChildFollowers(p: Node, poff: nat, pk: set<nat>, v: Node, voff: nat, vk: set<nat>)
    requires p.Shape() && ChildOf(p, poff, pk, v, voff, vk) && p.Numbered(poff)
    ensures v.Repr <= p.Repr - {p}
    ensures v.Shape() && v.Numbered(voff) && voff + Leaves(v.tree) <= poff + Leaves(p.tree)
    ensures p.kind.StarKind? || p.kind.PlusKind? ==> vk == First(v.tree, voff) + pk
    ensures p.kind.CatKind? && v == p.left ==>
              p.right != null && p.right.Shape() && p.right.Numbered(poff + Leaves(v.tree)) &&
              vk == First(p.right.tree, poff + Leaves(v.tree)) + (if Nullable(p.right.tree) then pk else {})
    ensures p.kind.OrKind? || p.kind.QuestKind? || (p.kind.CatKind? && v != p.left) ==> vk == pk
  {
  }

  /** One climb of follow, from v to its parent: where the parent occurs, and that the climb goes on
    * only below the root. */
  lemma Climb(top: Node, r: Re, v: Node, voff: nat, vk: set<nat>) returns (poff: nat, pk: set<nat>)
    requires top.Shape() && top.tree == Full(r) && NoFinal(r) && top.Numbered(0)
    requires Occurs(top, 0, {}, v, voff, vk) && v != top && v.kind != LeafKind(Final)
    ensures v.parent != null && v.parent.Shape() && Occurs(top, 0, {}, v.parent, poff, pk)
    ensures ChildOf(v.parent, poff, pk, v, voff, vk)
    ensures v.parent.Numbered(poff) && poff + Leaves(v.parent.tree) <= Leaves(top.tree)
    ensures v.parent in top.Repr
    ensures v.parent == top ==> top.kind.CatKind? && v == top.left && !Nullable(top.right.tree)
    ensures v.Repr <= v.parent.Repr - {v.parent}
  {
    FinalHasNoFollowers(top, r, v, voff, vk);
    poff, pk := ParentOccurs(top, 0, {}, v, voff, vk);
    OccursInside(top, 0, {}, v.parent, poff, pk);
    ChildFollowers(v.parent, poff, pk, v, voff, vk);
  }

  /** One level of follow, at parent p of v: what is turned on here, plus the parent's own followers
    * if the climb goes on, is what was on before plus v's followers. */
  method CollectLevel(v: Node, p: Node, g: Globals, ghost poff: nat, ghost pk: set<nat>, ghost voff: nat,
                      ghost vk: set<nat>, ghost n: nat)
    returns (climb: bool)
    requires p.Shape() && p.Numbered(poff) && ChildOf(p, poff, pk, v, voff, vk)
    requires poff + Leaves(p.tree) <= n <= MAXLIN
    requires g.Ready() && g.Counted(n)
    modifies g`setcnt, g`marked, g.setvec
    ensures g.Counted(n)
    ensures forall x :: x in g.marked || (climb && x in pk) <==> x in old(g.marked) || x in vk
    ensures p.kind.CatKind? && v == p.left && !Nullable(p.right.tree) ==> !climb
  {
    ChildFollowers(p, poff, pk, v, voff, vk);
    climb := true;
    if p.kind.StarKind? || p.kind.PlusKind? {
      var b := CollectFirst(v, g, voff, n);
    } else if p.kind.CatKind? && v == p.left {
      var b := CollectFirst(p.right, g, poff + Leaves(v.tree), n);
      climb := b == 0;
    }
  }

  /** follow: turns on the bits of the positions that can come after v, climbing parent pointers.
    * It stops below the root: the root is never asked for its parent. */
  method CollectFollow(v: Node, g: Globals, ghost top: Node, ghost r: Re, ghost voff: nat, ghost vk: set<nat>)
    requires top.Shape() && top.tree == Full(r) && NoFinal(r) && top.Numbered(0)
    requires Leaves(top.tree) <= MAXLIN
    requires Occurs(top, 0, {}, v, voff, vk) && v != top
    requires g.Ready() && g.Counted(Leaves(top.tree))
    modifies g`setcnt, g`marked, g.setvec
    ensures g.Counted(Leaves(top.tree))
    ensures Added(old(g.marked), g.marked, vk)
    decreases top.Repr - v.Repr
  {
    if v.kind == LeafKind(Final) {
      FinalHasNoFollowers(top, r, v, voff, vk);
      return;
    }
    ghost var poff, pk := Climb(top, r, v, voff, vk);
    var climb := CollectLevel(v, v.parent, g, poff, pk, voff, vk, Leaves(top.tree));
    if climb {
      CollectFollow(v.parent, g, top, r, poff, pk);
    }
  }

  lemma {:induction false} ChildOccurs(n: Node, off: nat, k: set<nat>, p: Node, poff: nat, pk: set<nat>,
                                       v: Node, voff: nat, vk: set<nat>)
    requires n.Shape() && p.Shape() && Occurs(n, off, k, p, poff, pk) && ChildOf(p, poff, pk, v, voff, vk)
    ensures Occurs(n, off, k, v, voff, vk)
    decreases n.tree
  {
    if n.kind.Unary() {
      var lk := UnaryFollowers(n.kind, n.left.tree, off, k);
      if Occurs(n.left, off, lk, p, poff, pk) { ChildOccurs(n.left, off, lk, p, poff, pk, v, voff, vk); }
    } else if n.kind.Binary() {
      var lk := LeftFollowers(n.kind, n.left.tree, n.right.tree, off, k);
      var roff := off + Leaves(n.left.tree);
      if Occurs(n.left, off, lk, p, poff, pk) {
        ChildOccurs(n.left, off, lk, p, poff, pk, v, voff, vk);
      } else if Occurs(n.right, roff, k, p, poff, pk) {
        ChildOccurs(n.right, roff, k, p, poff, pk, v, voff, vk);
      }
    }
  }

  /** The positions whose bit is on, as a list in descending order. */
  method ListMarked(g: Globals, n: nat) returns (l: seq<nat>)
    requires g.Counted(n)
    ensures l == Descending(n, g.marked) && |l| == g.setcnt
  {
    l := [];
    var i := n;
    while i > 0
      invariant 0 <= i <= n
      invariant l + Descending(i, g.marked) == Descending(n, g.marked)
    {
      i := i - 1;
      if g.setvec[i] == 1 {
        l := l + [i];
      }
    }
    DescendingLength(n, g.marked);
  }

  /** cfoll: fills in the rows of the leaves of v. */
  method FillRows(re: array<Row>, v: Node, g: Globals, ghost top: Node, ghost r: Re, ghost voff: nat,
                  ghost vk: set<nat>)
    requires top.Shape() && top.tree == Full(r) && NoFinal(r) && top.Numbered(0)
    requires re.Length == Leaves(top.tree) <= MAXLIN && g.Ready()
    requires Occurs(top, 0, {}, v, voff, vk)
    modifies re, g`setcnt, g`marked, g.setvec
    ensures voff + Leaves(v.tree) <= re.Length && Agrees(re[..], v.tree, voff, vk)
    ensures forall i :: 0 <= i < re.Length && !(voff <= i < voff + Leaves(v.tree)) ==> re[i] == old(re[i])
    ensures forall i :: voff <= i < voff + Leaves(v.tree) ==> Stored(re[i].follow, re.Length)
    decreases v.tree
  {
    OccursInside(top, 0, {}, v, voff, vk);
    if v.kind.LeafKind? {
      FillLeaf(re, v, g, top, r, voff, vk);
    } else if v.kind.Unary() {
      ghost var lk := UnaryFollowers(v.kind, v.left.tree, voff, vk);
      ChildOccurs(top, 0, {}, v, voff, vk, v.left, voff, lk);
      FillRows(re, v.left, g, top, r, voff, lk);
    } else {
      FillBoth(re, v, g, top, r, voff, vk);
    }
  }

  // cfoll on both children.
  method FillBoth(re: array<Row>, v: Node, g: Globals, ghost top: Node, ghost r: Re, ghost voff: nat,
                  ghost vk: set<nat>)
    requires top.Shape() && top.tree == Full(r) && NoFinal(r) && top.Numbered(0)
    requires re.Length == Leaves(top.tree) <= MAXLIN && g.Ready()
    requires v.Shape() && v.kind.Binary() && Occurs(top, 0, {}, v, voff, vk)
    modifies re, g`setcnt, g`marked, g.setvec
    ensures voff + Leaves(v.tree) <= re.Length && Agrees(re[..], v.tree, voff, vk)
    ensures forall i :: 0 <= i < re.Length && !(voff <= i < voff + Leaves(v.tree)) ==> re[i] == old(re[i])
    ensures forall i :: voff <= i < voff + Leaves(v.tree) ==> Stored(re[i].follow, re.Length)
    decreases v.tree, 1
  {
    ghost var a := v.left.tree;
    ghost var lk := LeftFollowers(v.kind, a, v.right.tree, voff, vk);
    ChildOccurs(top, 0, {}, v, voff, vk, v.left, voff, lk);
    FillRows(re, v.left, g, top, r, voff, lk);
    FillRight(re, v, g, top, r, voff, vk, a, v.right.tree);
  }

  // cfoll on the right child, when the left one, whose tree is a, is done.
  method FillRight(re: array<Row>, v: Node, g: Globals, ghost top: Node, ghost r: Re, ghost voff: nat,
                   ghost vk: set<nat>, ghost a: Re, ghost b: Re)
    requires top.Shape() && top.tree == Full(r) && NoFinal(r) && top.Numbered(0)
    requires re.Length == Leaves(top.tree) <= MAXLIN && g.Ready()
    requires v.Shape() && v.kind.Binary() && Occurs(top, 0, {}, v, voff, vk)
    requires a == v.left.tree && b == v.right.tree && v.tree == BinaryTree(v.kind, a, b)
    requires voff + Leaves(a) <= re.Length && Agrees(re[..], a, voff, LeftFollowers(v.kind, a, b, voff, vk))
    modifies re, g`setcnt, g`marked, g.setvec
    ensures voff + Leaves(v.tree) <= re.Length && Agrees(re[..], v.tree, voff, vk)
    ensures forall i :: 0 <= i < re.Length && !(voff + Leaves(a) <= i < voff + Leaves(v.tree)) ==> re[i] == old(re[i])
    ensures forall i :: voff + Leaves(a) <= i < voff + Leaves(v.tree) ==> Stored(re[i].follow, re.Length)
    decreases v.tree, 0
  {
    ghost var before := re[..];
    ChildOccurs(top, 0, {}, v, voff, vk, v.right, voff + Leaves(a), vk);
    FillRows(re, v.right, g, top, r, voff + Leaves(a), vk);
    BinaryAgrees(before, re[..], v.kind, a, b, voff, vk);
  }

  // The left operand's rows do not change while the right operand's are made.
  lemma BinaryAgrees(before: seq<Row>, rows: seq<Row>, kind: Kind, a: Re, b: Re, off: nat, k: set<nat>)
    requires kind.Binary() && off + Leaves(a) + Leaves(b) <= |rows| == |before|
    requires Agrees(before, a, off, LeftFollowers(kind, a, b, off, k)) && Agrees(rows, b, off + Leaves(a), k)
    requires forall i :: off <= i < off + Leaves(a) ==> rows[i] == before[i]
    ensures Leaves(BinaryTree(kind, a, b)) == Leaves(a) + Leaves(b)
    ensures Agrees(rows, BinaryTree(kind, a, b), off, k)
  {
    AgreesFrame(before, rows, a, off, LeftFollowers(kind, a, b, off, k));
  }

  method FillLeaf(re: array<Row>, v: Node, g: Globals, ghost top: Node, ghost r: Re, ghost voff: nat,
                  ghost vk: set<nat>)
    requires top.Shape() && top.tree == Full(r) && NoFinal(r) && top.Numbered(0)
    requires re.Length == Leaves(top.tree) <= MAXLIN && g.Ready()
    requires v.kind.LeafKind? && v.index == voff < re.Length
    requires Occurs(top, 0, {}, v, voff, vk)
    modifies re, g`setcnt, g`marked, g.setvec
    ensures re[voff].leaf == v.kind.leaf && Elems(re[voff].follow) == vk && Stored(re[voff].follow, re.Length)
    ensures forall i :: 0 <= i < re.Length && i != voff ==> re[i] == old(re[i])
  {
    g.Clear(re.Length);
    CollectFollow(v, g, top, r, voff, vk);
    var p := ListMarked(g, re.Length);
    assert g.marked == vk;
    StoredDescending(re.Length, g.marked);
    re[v.index] := Row(v.kind.leaf, p);
  }

  // mkdfa's three op2 calls.
  method Wrap(p: Node) returns (top: Node)
    requires p.Shape()
    ensures top.Shape() && top.tree == Full(p.tree)
    ensures p.Repr <= top.Repr && fresh(top.Repr - p.Repr)
  {
    var all := new Node(LeafKind(All), null, null);
    var star := new Node(StarKind, all, null);
    assert star.tree == Star(Unit(All));
    var cat := new Node(CatKind, star, p);
    assert cat.tree == Cat(Star(Unit(All)), p.tree);
    var final := new Node(LeafKind(Final), null, null);
    top := new Node(CatKind, cat, final);
  }

  /** The front half of mkdfa: from an expression's tree to its position automaton. */
  method BuildRows(p: Node, g: Globals) returns (re: array<Row>)
    requires p.Shape() && NoFinal(p.tree) && Leaves(p.tree) + 2 <= MAXLIN && g.Ready()
    modifies p.Repr, g, g.setvec
    ensures fresh(re) && re.Length == Leaves(Full(p.tree)) == Leaves(p.tree) + 2
    ensures Compiled(re[..], p.tree)
    ensures forall i :: 0 <= i < re.Length ==> Stored(re[i].follow, re.Length)
  {
    var top := Wrap(p);
    g.poscnt := 0;
    EnterLeaves(top, g);
    re := new Row[g.poscnt](_ => Row(Final, []));
    FillRows(re, top, g, top, p.tree, 0, {});
    FullCompiles(re[..], p.tree);
  }
}
