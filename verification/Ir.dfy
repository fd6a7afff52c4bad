/** The straight-line SSA form of a `constrain` body: operations by identity, held
    together by the block order, and the source expressions they stand for. */
module Ir {
  type Id = nat

  /** Member names: those the program declares and those the lowering pass generates. */
  datatype Name = Declared(n: nat) | Auxiliary(k: nat)

  /** Where a felt leaf takes its value from. */
  datatype Source = Arg(index: nat) | NonDet(site: nat) | Member(name: Name)

  datatype BinKind = AddK | SubK | MulK | DivK

  /** Value operations, plus the two kinds of operation that consume values: the emitted
      equality, and any other user of felt values (a lookup row, a constrain call). */
  datatype Op =
    | Const(c: int)
    | Leaf(src: Source)
    | Bin(kind: BinKind, l: Id, r: Id)
    | Neg(x: Id)
    | Eq(lhs: Id, rhs: Id)
    | Use(tag: nat, args: seq<Id>)
  {
    predicate IsValue() { !Eq? && !Use? }
    predicate IsMul() { Bin? && kind == MulK }
  }

  /** A value operation unfolded into the tree of source operations it computes. */
  datatype Expr = EConst(c: int) | ELeaf(src: Source) | EBin(kind: BinKind, l: Expr, r: Expr) | ENeg(x: Expr)

  /** A constraint, in terms of source expressions. */
  datatype Check = EqCheck(lhs: Expr, rhs: Expr) | UseCheck(tag: nat, args: seq<Expr>)

  function Operands(op: Op): seq<Id> {
    match op
    case Const(_) => []
    case Leaf(_) => []
    case Bin(_, l, r) => [l, r]
    case Neg(x) => [x]
    case Eq(l, r) => [l, r]
    case Use(_, args) => args
  }

  function Swap(x: Id, a: Id, b: Id): Id { if x == a then b else x }

  /** `op` with every use of `a` replaced by `b`. */
  function Subst(op: Op, a: Id, b: Id): Op {
    match op
    case Const(_) => op
    case Leaf(_) => op
    case Bin(k, l, r) => Bin(k, Swap(l, a, b), Swap(r, a, b))
    case Neg(x) => Neg(Swap(x, a, b))
    case Eq(l, r) => Eq(Swap(l, a, b), Swap(r, a, b))
    case Use(t, args) => Use(t, seq(|args|, i requires 0 <= i < |args| => Swap(args[i], a, b)))
  }

  lemma SubstOperands(op: Op, a: Id, b: Id)
    ensures forall y ::
        y in Operands(Subst(op, a, b)) ==> (y == b && a in Operands(op)) || (y != a && y in Operands(op))
    ensures a !in Operands(op) ==> Subst(op, a, b) == op
  {}

  /** The position of an operation in its block. */
  ghost function Pos(order: seq<Id>, x: Id): (k: nat)
    requires x in order
    ensures k < |order| && order[k] == x
  {
    var k :| 0 <= k < |order| && order[k] == x;
    k
  }

  /** No operation occurs twice: looking up what stands at `i` gives back `i`. */
  ghost predicate NoDup(order: seq<Id>) {
    forall i :: 0 <= i < |order| ==> Pos(order, order[i]) == i
  }

  /** Single-block SSA: every operation occurs once, after the values it uses. */
  ghost predicate WellFormed(ops: map<Id, Op>, order: seq<Id>) {
    && NoDup(order)
    && (forall x :: x in order <==> x in ops)
    && (forall x, y :: x in ops && y in Operands(ops[x]) ==> UsesBefore(ops, order, x, y))
  }

  ghost predicate UsesBefore(ops: map<Id, Op>, order: seq<Id>, x: Id, y: Id) {
    x in order && y in order && y in ops && ops[y].IsValue() && Pos(order, y) < Pos(order, x)
  }

  function Insert(order: seq<Id>, k: nat, more: seq<Id>): seq<Id>
    requires k <= |order|
  {
    order[..k] + more + order[k..]
  }

  lemma InsertPos(order: seq<Id>, k: nat, more: seq<Id>)
    requires k <= |order| && NoDup(order) && NoDup(more)
    requires forall x :: x in more ==> x !in order
    ensures NoDup(Insert(order, k, more))
    ensures forall x :: x in Insert(order, k, more) <==> x in order || x in more
    ensures forall x :: x in order ==> Pos(Insert(order, k, more), x) == Pos(order, x) + if Pos(order, x) < k then 0
        else |more|
    ensures forall i :: 0 <= i < |more| ==> Pos(Insert(order, k, more), more[i]) == k + i
  {
    var ins := Insert(order, k, more);
    forall i | 0 <= i < |ins| ensures Pos(ins, ins[i]) == i {
      var j := Pos(ins, ins[i]);
      InsertAt(order, k, more, i);
      InsertAt(order, k, more, j);
      assert ins[i] in more <==> k <= i < k + |more|;
      assert ins[j] in more <==> k <= j < k + |more|;
    }
    assert forall i :: 0 <= i < k ==> ins[i] == order[i];
    assert forall i :: k <= i < |order| ==> ins[i + |more|] == order[i];
    assert forall i :: 0 <= i < |more| ==> ins[k + i] == more[i];
  }

  lemma InsertPair(order: seq<Id>, k: nat, a: Id, e: Id)
    requires k <= |order| && NoDup(order) && a != e && a !in order && e !in order
    ensures NoDup(Insert(order, k, [a, e]))
    ensures forall x :: x in Insert(order, k, [a, e]) <==> x in order || x == a || x == e
    ensures forall x :: x in order ==> Pos(Insert(order, k, [a, e]), x) == Pos(order, x) + if Pos(order, x) < k then 0
        else 2
    ensures Pos(Insert(order, k, [a, e]), a) == k && Pos(Insert(order, k, [a, e]), e) == k + 1
  {
    var more := [a, e];
    assert more[0] == a && more[1] == e;
    assert Pos(more, a) == 0 && Pos(more, e) == 1;
    InsertPos(order, k, more);
  }

  lemma InsertAt(order: seq<Id>, k: nat, more: seq<Id>, i: nat)
    requires k <= |order| && i < |order| + |more|
    ensures Insert(order, k, more)[i] == if i < k then order[i] else if i < k + |more| then more[i - k]
        else order[i - |more|]
  {}

  function Remove(order: seq<Id>, k: nat): seq<Id>
    requires k < |order|
  {
    order[..k] + order[k + 1..]
  }

  lemma RemovePos(order: seq<Id>, k: nat)
    requires k < |order| && NoDup(order)
    ensures NoDup(Remove(order, k))
    ensures forall x :: x in Remove(order, k) <==> x in order && x != order[k]
    ensures forall x :: x in Remove(order, k) ==> Pos(Remove(order, k), x) == Pos(order, x) - if Pos(order, x) < k
        then 0 else 1
  {
    var rem := Remove(order, k);
    assert forall i :: 0 <= i < |rem| ==> rem[i] == order[if i < k then i else i + 1];
    forall i | 0 <= i < |rem| ensures Pos(rem, rem[i]) == i {
      var j := Pos(rem, rem[i]);
      assert order[if i < k then i else i + 1] == order[if j < k then j else j + 1];
    }
    assert forall i :: 0 <= i < k ==> rem[i] == order[i];
    assert forall i :: k < i < |order| ==> rem[i - 1] == order[i];
  }

  /** Polynomial degree of a source expression. */
  function Degree(e: Expr): nat {
    match e
    case EConst(_) => 0
    case ELeaf(_) => 1
    case EBin(k, l, r) => if k == AddK || k == SubK then Max(Degree(l), Degree(r)) else Degree(l) + Degree(r)
    case ENeg(x) => Degree(x)
  }

  function Max(x: nat, y: nat): nat { if x < y then y else x }

  ghost function Size(e: Expr): nat {
    match e
    case EConst(_) => 1
    case ELeaf(_) => 1
    case EBin(_, l, r) => 1 + Size(l) + Size(r)
    case ENeg(x) => 1 + Size(x)
  }

  /** The expression reads no generated member. */
  ghost predicate Pure(e: Expr) {
    match e
    case EConst(_) => true
    case ELeaf(src) => !IsAux(src)
    case EBin(_, l, r) => Pure(l) && Pure(r)
    case ENeg(x) => Pure(x)
  }

  predicate IsAux(src: Source) { src.Member? && src.name.Auxiliary? }
}
