/** The handshaking kernel: token pairs (i, j) with i <= j, flattened row by row.  A row of
    the triangle holds the pairs of one first token; the index formula of the kernel is
    proved against the position in the flattened triangle, in both directions. */
module Handshake {

  /** The documented flat index: i * L - i * (i - 1) / 2 + (j - i). */
  function Index(L: nat, i: nat, j: nat): int
    requires i <= j < L
  {
    i * L - i * (i - 1) / 2 + (j - i)
  }

  /** i * (i - 1) / 2 without the division. */
  function Triangle(i: nat): nat {
    if i == 0 then 0 else Triangle(i - 1) + (i - 1)
  }

  lemma {:induction false} TriangleIsHalf(i: nat)
    ensures 2 * Triangle(i) == i * (i - 1)
    ensures Triangle(i) == i * (i - 1) / 2
  {
    if i > 0 {
      TriangleIsHalf(i - 1);
      assert i * (i - 1) == (i - 1) * (i - 2) + 2 * (i - 1);
    }
  }

  /** `torch.triu(torch.ones(L, L))`. */
  function Guide(i: nat, j: nat): int {
    if i <= j then 1 else 0
  }

  /** The first j cells of row i of `torch.where(guide > 0)`. */
  function WhereInRow(i: nat, j: nat): (r: seq<(nat, nat)>) {
    if j == 0 then []
    else WhereInRow(i, j - 1) + (if Guide(i, j - 1) > 0 then [(i, j - 1)] else [])
  }

  /** The cells of the first i rows, row-major. */
  function WhereRows(L: nat, i: nat): seq<(nat, nat)> {
    if i == 0 then [] else WhereRows(L, i - 1) + WhereInRow(i - 1, L)
  }

  function Where(L: nat): seq<(nat, nat)> { WhereRows(L, L) }

  lemma {:induction false} RowCells(i: nat, j: nat)
    ensures |WhereInRow(i, j)| == if j <= i then 0 else j - i
    ensures forall k: nat | i <= k < j :: WhereInRow(i, j)[k - i] == (i, k)
  {
    if j > 0 {
      RowCells(i, j - 1);
    }
  }

  lemma RowStart(L: nat, i: nat)
    requires i < L
    ensures (i + 1) * L - Triangle(i + 1) == i * L - Triangle(i) + (L - i)
  {
    assert (i + 1) * L == i * L + L;
  }

  lemma {:induction false} RowsLength(L: nat, i: nat)
    requires i <= L
    ensures |WhereRows(L, i)| == i * L - Triangle(i)
  {
    if i > 0 {
      RowsLength(L, i - 1);
      RowCells(i - 1, L);
      RowStart(L, i - 1);
    }
  }

  /** Rows enumerated later leave the earlier cells where they are. */
  lemma {:induction false} CellStays(L: nat, m: nat, i: nat, j: nat)
    requires i <= j < L && i < m <= L
    ensures var k := i * L - Triangle(i) + (j - i);
            0 <= k < |WhereRows(L, m)| && WhereRows(L, m)[k] == (i, j)
  {
    RowsLength(L, m - 1);
    if i == m - 1 {
      RowCells(i, L);
      assert WhereInRow(i, L)[j - i] == (i, j);
    } else {
      CellStays(L, m - 1, i, j);
    }
  }

  /** The formula is the position of (i, j) in the enumeration the kernel indexes with. */
  lemma IndexIsPosition(L: nat, i: nat, j: nat)
    requires i <= j < L
    ensures 0 <= Index(L, i, j) < |Where(L)| && Where(L)[Index(L, i, j)] == (i, j)
  {
    TriangleIsHalf(i);
    CellStays(L, L, i, j);
  }

  lemma LengthIsTriangular(L: nat)
    ensures |Where(L)| == L * (L + 1) / 2
  {
    RowsLength(L, L);
    TriangleIsHalf(L);
    assert L * (L + 1) == L * L + L && L * (L - 1) == L * L - L;
  }

  lemma RowEntry(i: nat, L: nat, d: nat)
    requires d < |WhereInRow(i, L)|
    ensures i + d < L && WhereInRow(i, L)[d] == (i, i + d)
  {
    RowCells(i, L);
    assert WhereInRow(i, L)[(i + d) - i] == (i, i + d);
  }

  /** The pair at position k has k as its index. */
  lemma {:induction false} EntryKnowsPosition(L: nat, m: nat, k: nat)
    requires m <= L && k < |WhereRows(L, m)|
    ensures var (i, j) := WhereRows(L, m)[k]; i <= j < L && i < m && k == i * L - Triangle(i) + (j - i)
  {
    var before := |WhereRows(L, m - 1)|;
    RowsLength(L, m - 1);
    if k < before {
      EntryKnowsPosition(L, m - 1, k);
    } else {
      RowEntry(m - 1, L, k - before);
    }
  }

  /** Every flat position is the index of the pair that stands there: with IndexIsPosition,
      a bijection between the pairs and 0 .. L(L+1)/2. */
  lemma PositionHasPair(L: nat, k: nat)
    requires k < L * (L + 1) / 2
    ensures k < |Where(L)|
    ensures var (i, j) := Where(L)[k]; i <= j < L && Index(L, i, j) == k
  {
    LengthIsTriangular(L);
    EntryKnowsPosition(L, L, k);
    TriangleIsHalf(Where(L)[k].0);
  }

  /** The index grows with the pair in lexicographic order. */
  lemma IndexIsMonotone(L: nat, i: nat, j: nat, i': nat, j': nat)
    requires i <= j < L && i' <= j' < L
    ensures Index(L, i, j) < Index(L, i', j') <==> i < i' || (i == i' && j < j')
  {
    TriangleIsHalf(i);
    TriangleIsHalf(i');
    if i < i' {
      RowStartsGrow(L, i, i');
    } else if i' < i {
      RowStartsGrow(L, i', i);
    }
  }

  lemma {:induction false} RowStartsGrow(L: nat, i: nat, i': nat)
    requires i < i' <= L
    ensures i * L - Triangle(i) + (L - i) <= i' * L - Triangle(i')
  {
    RowStart(L, i' - 1);
    if i < i' - 1 {
      RowStartsGrow(L, i, i' - 1);
    }
  }

  // ---------------------------------------------------------------- the kernel

  datatype Shaking = Cat | CatPlus | Product

  /** Vector operations and the learned layer, as library functions. */
  datatype Library<!V> = Library(
    cat2: (V, V) -> V, cat3: (V, V, V) -> V, minus: (V, V) -> V, times: (V, V) -> V, combine: V -> V, tanh: V -> V)

  /** What the kernel computes for one pair of token vectors. */
  function Shake<V>(lib: Library<V>, kind: Shaking, head: V, tail: V): V {
    match kind
    case Cat => lib.tanh(lib.combine(lib.cat2(head, tail)))
    case CatPlus => lib.tanh(lib.combine(lib.cat3(head, tail, lib.minus(head, tail))))
    case Product => lib.tanh(lib.times(head, tail))
  }

  function Gather<V>(hidden: seq<V>, index: seq<nat>): (r: seq<V>)
    requires forall k | 0 <= k < |index| :: index[k] < |hidden|
    ensures |r| == |index|
    ensures forall k {:trigger r[k]} | 0 <= k < |r| :: r[k] == hidden[index[k]]
  {
    if index == [] then [] else Gather(hidden, index[..|index| - 1]) + [hidden[index[|index| - 1]]]
  }

  function FirstOf(pairs: seq<(nat, nat)>): (r: seq<nat>)
    ensures |r| == |pairs|
    ensures forall k {:trigger r[k]} | 0 <= k < |r| :: r[k] == pairs[k].0
  {
    if pairs == [] then [] else FirstOf(pairs[..|pairs| - 1]) + [pairs[|pairs| - 1].0]
  }

  function SecondOf(pairs: seq<(nat, nat)>): (r: seq<nat>)
    ensures |r| == |pairs|
    ensures forall k {:trigger r[k]} | 0 <= k < |r| :: r[k] == pairs[k].1
  {
    if pairs == [] then [] else SecondOf(pairs[..|pairs| - 1]) + [pairs[|pairs| - 1].1]
  }

  function ShakeAll<V>(lib: Library<V>, kind: Shaking, heads: seq<V>, tails: seq<V>): (r: seq<V>)
    requires |heads| == |tails|
    ensures |r| == |heads|
    ensures forall k {:trigger r[k]} | 0 <= k < |r| :: r[k] == Shake(lib, kind, heads[k], tails[k])
  {
    if heads == [] then []
    else
      var m := |heads| - 1;
      ShakeAll(lib, kind, heads[..m], tails[..m]) + [Shake(lib, kind, heads[m], tails[m])]
  }

  lemma WhereInRange(L: nat, k: nat)
    requires k < |Where(L)|
    ensures Where(L)[k].0 < L && Where(L)[k].1 < L
  {
    EntryKnowsPosition(L, L, k);
  }

  /** `HandshakingKernel.forward` on one sequence. */
  function Forward<V>(lib: Library<V>, kind: Shaking, hidden: seq<V>): (r: seq<V>)
    ensures |r| == |Where(|hidden|)|
  {
    var pairs := Where(|hidden|);
    var rowIdx, colIdx := FirstOf(pairs), SecondOf(pairs);
    assert forall k | 0 <= k < |pairs| :: rowIdx[k] < |hidden| && colIdx[k] < |hidden| by {
      forall k: nat | k < |pairs|
        ensures rowIdx[k] < |hidden| && colIdx[k] < |hidden|
      {
        WhereInRange(|hidden|, k);
      }
    }
    ShakeAll(lib, kind, Gather(hidden, rowIdx), Gather(hidden, colIdx))
  }

  /** At the documented index the kernel's output belongs to the tokens i and j, and the
      output has L(L+1)/2 entries. */
  lemma ForwardAtIndex<V>(lib: Library<V>, kind: Shaking, hidden: seq<V>, i: nat, j: nat)
    requires i <= j < |hidden|
    ensures |Forward(lib, kind, hidden)| == |hidden| * (|hidden| + 1) / 2
    ensures 0 <= Index(|hidden|, i, j) < |Forward(lib, kind, hidden)|
    ensures var out, head, tail := Forward(lib, kind, hidden)[Index(|hidden|, i, j)], hidden[i], hidden[j];
      match kind
      case Cat => out == lib.tanh(lib.combine(lib.cat2(head, tail)))
      case CatPlus => out == lib.tanh(lib.combine(lib.cat3(head, tail, lib.minus(head, tail))))
      case Product => out == lib.tanh(lib.times(head, tail))
  {
    LengthIsTriangular(|hidden|);
    IndexIsPosition(|hidden|, i, j);
  }
}
