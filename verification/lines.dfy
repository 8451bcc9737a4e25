/**
 * Pieces, cells and lines of the board, and the bit-level test of whether a
 * line of four pieces is a winning line.
 */
module Lines {
  import opened Wrappers

  /** A piece id 0..15. */
  newtype Piece = x: int | 0 <= x < 16

  /** A board square: empty, or holding a piece. */
  type Cell = Option<Piece>

  /** A row, column or diagonal of the board, read in order. */
  type Line = seq<Cell>

  /** The id as four bits; bit k (k < 4) is the piece's k-th binary attribute. */
  function Bits(p: Piece): bv4 {
    p as int as bv4
  }

  /** The one-bit mask selecting attribute k. */
  function Mask(k: nat): bv4
    requires k < 4
  {
    if k == 0 then 0x1 else if k == 1 then 0x2 else if k == 2 then 0x4 else 0x8
  }

  predicate BitSet(x: bv4, k: nat)
    requires k < 4
  {
    x & Mask(k) != 0
  }

  predicate HasAttribute(p: Piece, k: nat)
    requires k < 4
  {
    BitSet(Bits(p), k)
  }

  /** No square of the line is empty. */
  predicate IsFull(v: Line) {
    forall i :: 0 <= i < |v| ==> v[i].Some?
  }

  /** The piece ids of a full line, in order. */
  function Ids(v: Line): (ids: seq<Piece>)
    requires IsFull(v)
    ensures |ids| == |v|
    ensures forall i :: 0 <= i < |v| ==> v[i] == Some(ids[i])
  {
    if |v| == 0 then [] else Ids(v[..|v| - 1]) + [v[|v| - 1].value]
  }

  /**
   * Left fold of `&` over the ids, starting from 0b1111: attribute bit k
   * survives exactly when every id has attribute k.
   */
  function AndOfIds(ids: seq<Piece>): (x: bv4)
    ensures forall k :: 0 <= k < 4 ==>
      (BitSet(x, k) <==> forall i :: 0 <= i < |ids| ==> HasAttribute(ids[i], k))
  {
    if |ids| == 0 then 0xF
    else
      var init := ids[..|ids| - 1];
      assert ids == init + [ids[|ids| - 1]];
      FoldStep(init, ids[|ids| - 1], true, AndOfIds(init), Bits(ids[|ids| - 1]), AndOfIds(init) & Bits(ids[|ids| - 1]));
      AndOfIds(init) & Bits(ids[|ids| - 1])
  }

  /**
   * Left fold of `x & (0b1111 - y)` over the ids, starting from 0b1111:
   * attribute bit k survives exactly when no id has attribute k.
   */
  function AndOfComplements(ids: seq<Piece>): (x: bv4)
    ensures forall k :: 0 <= k < 4 ==>
      (BitSet(x, k) <==> forall i :: 0 <= i < |ids| ==> !HasAttribute(ids[i], k))
  {
    if |ids| == 0 then 0xF
    else
      var init := ids[..|ids| - 1];
      ComplementAttribute(ids[|ids| - 1]);
      assert ids == init + [ids[|ids| - 1]];
      FoldStep(init, ids[|ids| - 1], false, AndOfComplements(init), Bits(15 - ids[|ids| - 1]),
               AndOfComplements(init) & Bits(15 - ids[|ids| - 1]));
      AndOfComplements(init) & Bits(15 - ids[|ids| - 1])
  }

  /**
   * One step of either fold: if `acc` has bit k exactly when every id of
   * `init` has (or lacks) attribute k, and `last` has bit k exactly when `p`
   * does, then `acc & last` has bit k exactly when every id of `init + [p]` does.
   */
  lemma FoldStep(init: seq<Piece>, p: Piece, want: bool, acc: bv4, last: bv4, both: bv4)
    requires forall k :: 0 <= k < 4 ==>
      (BitSet(acc, k) <==> forall i :: 0 <= i < |init| ==> HasAttribute(init[i], k) == want)
    requires forall k :: 0 <= k < 4 ==> (BitSet(last, k) <==> HasAttribute(p, k) == want)
    requires both == acc & last
    ensures forall k :: 0 <= k < 4 ==>
      (BitSet(both, k) <==> forall i :: 0 <= i < |init| + 1 ==> HasAttribute((init + [p])[i], k) == want)
  {
    BitSetAnd(acc, last);
    assert (init + [p])[|init|] == p;
    assert forall i :: 0 <= i < |init| ==> (init + [p])[i] == init[i];
  }

  /** Bit k of a conjunction of bit vectors is set exactly when it is set in both. */
  lemma BitSetAnd(a: bv4, b: bv4)
    ensures forall k :: 0 <= k < 4 ==> (BitSet(a & b, k) <==> BitSet(a, k) && BitSet(b, k))
  {
  }

  /** Subtracting an id from 15 flips each of its four attributes. */
  lemma ComplementAttribute(p: Piece)
    ensures forall k :: 0 <= k < 4 ==> (HasAttribute(15 - p, k) <==> !HasAttribute(p, k))
  {
  }

  /** Reference meaning of a win: the line is full and all its pieces agree on attribute k. */
  predicate AgreeOn(v: Line, k: nat)
    requires k < 4
  {
    IsFull(v) &&
    forall i, j :: 0 <= i < |v| && 0 <= j < |v| ==>
      (HasAttribute(v[i].value, k) <==> HasAttribute(v[j].value, k))
  }

  predicate SharesAttribute(v: Line) {
    IsFull(v) && exists k :: 0 <= k < 4 && AgreeOn(v, k)
  }

  /**
   * The win test of a single line: every square is filled, and the AND of the
   * ids OR'd with the AND of their 4-bit complements is non-zero. That is
   * exactly "the line is full and some attribute is constant across its pieces".
   */
  function WinVec(v: Line): (wins: bool)
    ensures wins <==> SharesAttribute(v)
  {
    if !IsFull(v) then false
    else
      BitTestSharesAttribute(v);
      (AndOfIds(Ids(v)) | AndOfComplements(Ids(v))) != 0
  }

  /** The pieces placed on a line, as a multiset. */
  function Filled(v: Line): (ms: multiset<Piece>)
    ensures |ms| <= |v|
    ensures |ms| == |v| <==> IsFull(v)
    ensures forall p :: p in ms <==> Some(p) in v
  {
    if |v| == 0 then multiset{}
    else
      assert v == [v[0]] + v[1..];
      (if v[0].Some? then multiset{v[0].value} else multiset{}) + Filled(v[1..])
  }

  lemma NonZeroBitSet(x: bv4)
    ensures x != 0 <==> exists k :: 0 <= k < 4 && BitSet(x, k)
  {
    if x != 0 {
      if x & 0x1 != 0 {
        assert BitSet(x, 0);
      } else if x & 0x2 != 0 {
        assert BitSet(x, 1);
      } else if x & 0x4 != 0 {
        assert BitSet(x, 2);
      } else {
        assert BitSet(x, 3);
      }
    }
  }

  /** On a full line, a set bit of the test names an attribute all its pieces agree on. */
  lemma BitTestImpliesShared(v: Line)
    requires IsFull(v) && (AndOfIds(Ids(v)) | AndOfComplements(Ids(v))) != 0
    ensures exists k :: 0 <= k < 4 && AgreeOn(v, k)
  {
    var ids := Ids(v);
    var x := AndOfIds(ids) | AndOfComplements(ids);
    NonZeroBitSet(x);
    var k :| 0 <= k < 4 && BitSet(x, k);
    assert BitSet(AndOfIds(ids), k) || BitSet(AndOfComplements(ids), k);
    assert AgreeOn(v, k);
  }

  /** On a full line, an attribute all its pieces agree on keeps its bit in the test. */
  lemma SharedImpliesBitTest(v: Line, k: nat)
    requires k < 4 && AgreeOn(v, k)
    ensures (AndOfIds(Ids(v)) | AndOfComplements(Ids(v))) != 0
  {
    var ids := Ids(v);
    if |v| > 0 && HasAttribute(ids[0], k) {
      assert BitSet(AndOfIds(ids), k);
    } else {
      assert BitSet(AndOfComplements(ids), k);
    }
    assert BitSet(AndOfIds(ids) | AndOfComplements(ids), k);
  }

  /** The bit test on a full line holds exactly when some attribute is shared. */
  lemma BitTestSharesAttribute(v: Line)
    requires IsFull(v)
    ensures (AndOfIds(Ids(v)) | AndOfComplements(Ids(v))) != 0 <==> exists k :: 0 <= k < 4 && AgreeOn(v, k)
  {
    if (AndOfIds(Ids(v)) | AndOfComplements(Ids(v))) != 0 {
      BitTestImpliesShared(v);
    }
    if exists k :: 0 <= k < 4 && AgreeOn(v, k) {
      var k :| 0 <= k < 4 && AgreeOn(v, k);
      SharedImpliesBitTest(v, k);
    }
  }

  /** A line on whose pieces every attribute varies does not win. */
  lemma NoSharedAttributeLoses(v: Line)
    requires !AgreeOn(v, 0) && !AgreeOn(v, 1) && !AgreeOn(v, 2) && !AgreeOn(v, 3)
    ensures !WinVec(v)
  {
  }

  /** Fullness depends only on which cells a line holds. */
  lemma SameCellsFull(v: Line, w: Line)
    requires forall c :: c in v <==> c in w
    ensures IsFull(v) <==> IsFull(w)
  {
    assert IsFull(v) <==> None !in v;
    assert IsFull(w) <==> None !in w;
  }

  /** Agreement on an attribute depends only on which cells a full line holds. */
  lemma SameCellsAgree(v: Line, w: Line, k: nat)
    requires k < 4 && IsFull(v) && IsFull(w)
    requires forall c :: c in v <==> c in w
    ensures AgreeOn(v, k) <==> AgreeOn(w, k)
  {
    assert AgreeOn(v, k) <==> forall c, d :: c in v && d in v ==> (HasAttribute(c.value, k) <==> HasAttribute(d.value, k));
    assert AgreeOn(w, k) <==> forall c, d :: c in w && d in w ==> (HasAttribute(c.value, k) <==> HasAttribute(d.value, k));
  }

  /** Whether a line wins depends only on which cells it holds, not their order. */
  lemma WinVecSameCells(v: Line, w: Line)
    requires forall c :: c in v <==> c in w
    ensures WinVec(v) <==> WinVec(w)
  {
    SameCellsFull(v, w);
    if IsFull(v) {
      forall k | 0 <= k < 4
        ensures AgreeOn(v, k) <==> AgreeOn(w, k)
      {
        SameCellsAgree(v, w, k);
      }
    }
  }

  /** Placing a piece on an empty square of a line adds exactly that piece to its filled multiset. */
  lemma {:induction false} FilledUpdate(v: Line, c: nat, p: Piece)
    requires c < |v| && v[c] == None
    ensures Filled(v[c := Some(p)]) == Filled(v) + multiset{p}
  {
    var w := v[c := Some(p)];
    if c == 0 {
      assert w[1..] == v[1..];
    } else {
      FilledUpdate(v[1..], c - 1, p);
      assert w[1..] == v[1..][c - 1 := Some(p)];
    }
  }
}
