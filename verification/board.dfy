/** The board of one level: a row-major sequence of grid * grid cells, every
    one holding the level's common emoji except the single odd cell. */
module Board {
  import opened Catalog

  /** `cells` is a board for level `l` whose odd emoji sits at `odd`. */
  predicate IsBoard(cells: seq<string>, odd: int, l: Level) {
    && |cells| == l.grid * l.grid
    && 0 <= odd < |cells|
    && forall i :: 0 <= i < |cells| ==> cells[i] == (if i == odd then l.odd else l.emoji)
  }

  /** The board laid out at the start of level `l`: every cell filled with the
      common emoji, then the cell chosen at random overwritten with the odd one. */
  function NewBoard(l: Level, r: int): (cells: seq<string>)
    requires 0 <= r < l.grid * l.grid
    ensures IsBoard(cells, r, l)
  {
    seq(l.grid * l.grid, _ => l.emoji)[r := l.odd]
  }

  /** How many cells of `cells` hold `x`. */
  function Count(cells: seq<string>, x: string): (n: nat)
    ensures n <= |cells|
  {
    if cells == [] then 0
    else (if cells[0] == x then 1 else 0) + Count(cells[1..], x)
  }

  /** In a sequence where every cell other than the one at `k` holds `y`, a
      value `x` different from `y` occurs at most once: exactly once if it sits
      at `k`, and not at all otherwise. */
  lemma {:induction false} CountAllBut(cells: seq<string>, k: int, x: string, y: string)
    requires x != y
    requires forall i :: 0 <= i < |cells| && i != k ==> cells[i] == y
    ensures Count(cells, x) == (if 0 <= k < |cells| && cells[k] == x then 1 else 0)
  {
    if cells != [] {
      CountAllBut(cells[1..], k - 1, x, y);
    }
  }

  /** A sequence holding `x` at `k` and `y` in every other cell holds `y` in
      all its cells but one. */
  lemma {:induction false} CountCommon(cells: seq<string>, k: int, x: string, y: string)
    requires x != y
    requires 0 <= k < |cells| && cells[k] == x
    requires forall i :: 0 <= i < |cells| && i != k ==> cells[i] == y
    ensures Count(cells, y) == |cells| - 1
  {
    if k == 0 {
      assert forall i :: 0 <= i < |cells[1..]| ==> cells[1..][i] == y;
      CountAllOf(cells[1..], y);
    } else {
      CountCommon(cells[1..], k - 1, x, y);
    }
  }

  /** A sequence holding only `y` has `y` in every cell. */
  lemma {:induction false} CountAllOf(cells: seq<string>, y: string)
    requires forall i :: 0 <= i < |cells| ==> cells[i] == y
    ensures Count(cells, y) == |cells|
  {
    if cells != [] {
      CountAllOf(cells[1..], y);
    }
  }

  /** On a board of a well-formed level exactly one cell holds the odd emoji,
      it is the cell at `odd`, and all the others hold the common emoji. */
  lemma ExactlyOneOdd(cells: seq<string>, odd: int, l: Level)
    requires WellFormed(l) && IsBoard(cells, odd, l)
    ensures Count(cells, l.odd) == 1
    ensures Count(cells, l.emoji) == |cells| - 1
    ensures forall i :: 0 <= i < |cells| ==> (cells[i] == l.odd <==> i == odd)
  {
    CountAllBut(cells, odd, l.odd, l.emoji);
    CountCommon(cells, odd, l.odd, l.emoji);
  }
}
