/** The column solver: which columns are given to whom, and at which clock level. */
module SolverSpec {
  import opened Prelude
  import opened ContextLists

  const MAX_COL: nat := 128

  datatype Part = Part(start: nat, ncols: nat, nshared: int, exclusive: bool)

  datatype Node = Node(rid: nat, part: Id, level: nat, startCols: seq<u32>)

  /** `part` holds the live partition records, and `order` lists them as the driver does. */
  datatype Pool = Pool(nodes: seq<Node>, order: seq<Id>, part: map<Id, Part>, resbit: set<nat>,
                       nnode: int, npart: int)

  // Columns

  predicate Within(start: nat, ncols: nat, c: nat) {
    start <= c < start + ncols
  }

  predicate Has(p: Part, c: nat) {
    Within(p.start, p.ncols, c)
  }

  function Columns(start: nat, ncols: nat): set<nat> {
    set c: nat | c < start + ncols && Within(start, ncols, c)
  }

  /** The first set bit from `col` on, or `size` if there is none below it. */
  function NextBit(bits: set<nat>, size: nat, col: nat): nat
    decreases size - col
  {
    if col >= size then size
    else if col in bits then col
    else NextBit(bits, size, col + 1)
  }

  /** The columns are inside the bitmap and none of them is taken. */
  predicate Free(bits: set<nat>, start: nat, ncols: nat) {
    start + ncols <= MAX_COL && forall c: nat | Within(start, ncols, c) :: c !in bits
  }

  lemma {:induction false} NextBitShowsFree(bits: set<nat>, col: nat, ncols: nat)
    ensures NextBit(bits, MAX_COL, col) >= col + ncols <==> Free(bits, col, ncols)
    decreases MAX_COL - col
  {
    if col < MAX_COL && col !in bits && ncols > 0 {
      NextBitShowsFree(bits, col + 1, ncols - 1);
    } else if ncols == 0 {
      NextBitBounds(bits, MAX_COL, col);
    }
  }

  lemma {:induction false} NextBitBounds(bits: set<nat>, size: nat, col: nat)
    ensures col <= size ==> col <= NextBit(bits, size, col) <= size
    decreases size - col
  {
    if col < size && col !in bits {
      NextBitBounds(bits, size, col + 1);
    }
  }

  /** The driver's test for free columns, the sum in 32 bits. */
  predicate FreeCheck(bits: set<nat>, col: u32, ncols: u32) {
    NextBit(bits, MAX_COL, col) >= (col + ncols) % TWO_32
  }

  /** The sum wraps to a column inside the bitmap, or just behind it. */
  predicate Wraps(col: u32, ncols: u32) {
    TWO_32 <= col + ncols <= TWO_32 + MAX_COL
  }

  /** It is right except where the sum wraps to a column inside the bitmap. */
  lemma FreeCheckIff(bits: set<nat>, col: u32, ncols: u32)
    ensures FreeCheck(bits, col, ncols) <==>
            Free(bits, col, ncols) || Wraps(col, ncols)
  {
    NextBitShowsFree(bits, col, ncols);
    NextBitBounds(bits, MAX_COL, col);
  }

  /**
   For the last 32-bit column the test passes, although the column is outside the bitmap. The lists of start
   columns that the driver makes hold no such column.
   */
  lemma FreeCheckWraps()
    ensures FreeCheck({}, TWO_32 - 1, 1) && !Free({}, TWO_32 - 1, 1)
  {
    FreeCheckIff({}, TWO_32 - 1, 1);
  }

  // Sharing

  /** How many requests use a partition. */
  function Users(nodes: seq<Node>, a: Id): nat {
    if nodes == [] then 0 else Users(nodes[1..], a) + if nodes[0].part == a then 1 else 0
  }

  lemma {:induction false} UsersConcat(xs: seq<Node>, ys: seq<Node>, a: Id)
    ensures Users(xs + ys, a) == Users(xs, a) + Users(ys, a)
  {
    if xs == [] {
      assert xs + ys == ys;
    } else {
      UsersConcat(xs[1..], ys, a);
      assert (xs + ys)[1..] == xs[1..] + ys;
    }
  }

  function DropAt(nodes: seq<Node>, k: nat): seq<Node>
    requires k < |nodes|
  {
    nodes[..k] + nodes[k + 1..]
  }

  lemma UsersDrop(nodes: seq<Node>, k: nat, a: Id)
    requires k < |nodes|
    ensures Users(nodes, a) == Users(DropAt(nodes, k), a) + if nodes[k].part == a then 1 else 0
  {
    assert nodes == nodes[..k] + nodes[k..];
    assert nodes[k..][1..] == nodes[k + 1..];
    UsersConcat(nodes[..k], nodes[k..], a);
    UsersConcat(nodes[..k], nodes[k + 1..], a);
  }

  lemma UsersAppend(nodes: seq<Node>, n: Node, a: Id)
    ensures Users(nodes + [n], a) == Users(nodes, a) + if n.part == a then 1 else 0
  {
    UsersConcat(nodes, [n], a);
  }

  lemma {:induction false} NoUsers(nodes: seq<Node>, a: Id)
    ensures Users(nodes, a) == 0 <==> forall n <- nodes :: n.part != a
  {
    if nodes != [] {
      NoUsers(nodes[1..], a);
      assert nodes == [nodes[0]] + nodes[1..];
    }
  }

  // The invariant

  /** Live partitions are disjoint, and the bitmap is exactly their union. */
  ghost predicate ColumnsOk(part: map<Id, Part>, resbit: set<nat>) {
    && (forall a <- part :: part[a].start + part[a].ncols <= MAX_COL)
    && (forall a <- part, b <- part, c: nat | Has(part[a], c) && Has(part[b], c) :: a == b)
    && (forall c: nat :: c in resbit <==> exists a <- part :: Has(part[a], c))
  }

  /** Each share count is the number of requests that use the partition, and nobody's partition is gone. */
  predicate SharesOk(nodes: seq<Node>, part: map<Id, Part>) {
    && (forall a <- part :: 0 < part[a].nshared == Users(nodes, a) && !part[a].exclusive)
    && (forall n <- nodes :: n.part in part)
  }

  ghost predicate ListsOk(s: Pool) {
    && NoDup(s.order) && (forall a :: a in s.order <==> a in s.part)
    && (forall i, j | 0 <= i < j < |s.nodes| :: s.nodes[i].rid != s.nodes[j].rid)
    && s.nnode == |s.nodes| && s.npart == |s.order|
  }

  ghost predicate Inv(s: Pool) {
    ColumnsOk(s.part, s.resbit) && SharesOk(s.nodes, s.part) && ListsOk(s)
  }

  // The steps

  /** A request gets free columns of its own. */
  function Fresh(s: Pool, a: Id, n: Node, start: nat, ncols: nat): Pool {
    Pool(s.nodes + [n.(part := a)], s.order + [a], s.part[a := Part(start, ncols, 1, false)],
         s.resbit + Columns(start, ncols), s.nnode + 1, s.npart + 1)
  }

  /** A request joins a live partition. */
  function Share(s: Pool, a: Id, n: Node): Pool
    requires a in s.part
  {
    s.(nodes := s.nodes + [n.(part := a)], nnode := s.nnode + 1,
       part := s.part[a := s.part[a].(nshared := s.part[a].nshared + 1)])
  }

  /** A request goes; the last one to go returns the columns. */
  function Drop(s: Pool, k: nat): Pool
    requires k < |s.nodes| && s.nodes[k].part in s.part
  {
    var a := s.nodes[k].part;
    var p := s.part[a];
    var t := s.(nodes := DropAt(s.nodes, k), nnode := s.nnode - 1);
    if p.nshared > 1 then t.(part := s.part[a := p.(nshared := p.nshared - 1)])
    else t.(order := Without(s.order, a), part := s.part - {a}, npart := s.npart - 1,
            resbit := s.resbit - Columns(p.start, p.ncols))
  }

  lemma FreshKeepsInv(s: Pool, a: Id, n: Node, start: nat, ncols: nat)
    requires Inv(s) && a !in s.part && Free(s.resbit, start, ncols)
    requires forall m <- s.nodes :: m.rid != n.rid
    ensures Inv(Fresh(s, a, n, start, ncols))
    ensures forall c: nat ::
              c in Fresh(s, a, n, start, ncols).resbit <==> c in s.resbit || start <= c < start + ncols
  {
    FreshColumns(s.part, s.resbit, a, start, ncols);
    FreshShares(s.nodes, s.part, a, n, start, ncols);
  }

  lemma FreshColumns(part: map<Id, Part>, resbit: set<nat>, a: Id, start: nat, ncols: nat)
    requires ColumnsOk(part, resbit) && a !in part && Free(resbit, start, ncols)
    ensures ColumnsOk(part[a := Part(start, ncols, 1, false)], resbit + Columns(start, ncols))
  {
    var q := part[a := Part(start, ncols, 1, false)];
    assert forall b <- part, c: nat | Has(part[b], c) :: c in resbit;
    forall c: nat
      ensures c in resbit + Columns(start, ncols) <==> exists b <- q :: Has(q[b], c)
    {
      if c in resbit {
        var b :| b in part && Has(part[b], c);
        assert Has(q[b], c);
      } else if c in Columns(start, ncols) {
        assert Has(q[a], c);
      }
    }
  }

  lemma FreshShares(nodes: seq<Node>, part: map<Id, Part>, a: Id, n: Node, start: nat, ncols: nat)
    requires SharesOk(nodes, part) && a !in part
    ensures SharesOk(nodes + [n.(part := a)], part[a := Part(start, ncols, 1, false)])
  {
    var m := n.(part := a);
    NoUsers(nodes, a);
    forall b
      ensures Users(nodes + [m], b) == Users(nodes, b) + if a == b then 1 else 0
    {
      UsersAppend(nodes, m, b);
    }
  }

  lemma ShareKeepsInv(s: Pool, a: Id, n: Node)
    requires Inv(s) && a in s.part
    requires forall m <- s.nodes :: m.rid != n.rid
    ensures Inv(Share(s, a, n))
  {
    var m, t := n.(part := a), Share(s, a, n);
    SameColumns(s.part, t.part, s.resbit);
    forall b
      ensures Users(t.nodes, b) == Users(s.nodes, b) + if a == b then 1 else 0
    {
      UsersAppend(s.nodes, m, b);
    }
  }

  lemma SameColumns(part: map<Id, Part>, q: map<Id, Part>, resbit: set<nat>)
    requires ColumnsOk(part, resbit) && q.Keys == part.Keys
    requires forall a <- part :: q[a].start == part[a].start && q[a].ncols == part[a].ncols
    ensures ColumnsOk(q, resbit)
  {
    assert forall a <- part, c: nat :: Has(q[a], c) <==> Has(part[a], c);
    forall c: nat
      ensures c in resbit <==> exists a <- q :: Has(q[a], c)
    {
      if c in resbit {
        var a :| a in part && Has(part[a], c);
        assert Has(q[a], c);
      }
    }
  }

  lemma DropKeepsInv(s: Pool, k: nat)
    requires Inv(s) && k < |s.nodes|
    ensures s.nodes[k].part in s.part && Inv(Drop(s, k))
  {
    var a, nodes := s.nodes[k].part, DropAt(s.nodes, k);
    assert s.nodes[k] in s.nodes;
    forall b
      ensures Users(s.nodes, b) == Users(nodes, b) + if a == b then 1 else 0
    {
      UsersDrop(s.nodes, k, b);
    }
    DropShares(s.nodes, nodes, s.part, a);
    DropLists(s, k);
    if s.part[a].nshared > 1 {
      SameColumns(s.part, Drop(s, k).part, s.resbit);
    } else {
      DropColumns(s.part, s.resbit, a);
    }
  }

  lemma DropLists(s: Pool, k: nat)
    requires ListsOk(s) && k < |s.nodes| && s.nodes[k].part in s.part
    ensures ListsOk(Drop(s, k))
  {
    WithoutKeepsNoDup(s.order, s.nodes[k].part);
  }

  lemma DropShares(nodes: seq<Node>, rest: seq<Node>, part: map<Id, Part>, a: Id)
    requires SharesOk(nodes, part) && a in part && forall n <- rest :: n in nodes
    requires forall b :: Users(nodes, b) == Users(rest, b) + if a == b then 1 else 0
    ensures SharesOk(rest, if part[a].nshared > 1 then part[a := part[a].(nshared := part[a].nshared - 1)]
                           else part - {a})
  {
    NoUsers(rest, a);
  }

  lemma DropColumns(part: map<Id, Part>, resbit: set<nat>, a: Id)
    requires ColumnsOk(part, resbit) && a in part
    ensures ColumnsOk(part - {a}, resbit - Columns(part[a].start, part[a].ncols))
  {
    var q := part - {a};
    forall c: nat
      ensures c in resbit - Columns(part[a].start, part[a].ncols) <==> exists b <- q :: Has(q[b], c)
    {
      assert c in Columns(part[a].start, part[a].ncols) <==> Has(part[a], c);
      if c in resbit && !Has(part[a], c) {
        var b :| b in part && Has(part[b], c);
        assert Has(q[b], c);
      }
    }
  }

  /** Backing out restores everything: the lists, the records, the bitmap and the counters. */
  lemma DropUndoesFresh(s: Pool, a: Id, n: Node, start: nat, ncols: nat)
    requires Inv(s) && a !in s.part && Free(s.resbit, start, ncols)
    ensures Drop(Fresh(s, a, n, start, ncols), |s.nodes|) == s
  {
    var t := Fresh(s, a, n, start, ncols);
    var u := Drop(t, |s.nodes|);
    assert u.nodes == s.nodes;
    WithoutAppend(s.order, a);
    WithoutIsSame(s.order, a);
    assert u.part == s.part;
    assert u.resbit == s.resbit;
  }

  lemma DropUndoesShare(s: Pool, a: Id, n: Node)
    requires Inv(s) && a in s.part
    ensures Drop(Share(s, a, n), |s.nodes|) == s
  {
    var u := Drop(Share(s, a, n), |s.nodes|);
    assert u.nodes == s.nodes;
    assert u.part == s.part;
  }
}
