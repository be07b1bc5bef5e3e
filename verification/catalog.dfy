/** The fixed, ordered table of the fifteen levels of the "find the odd emoji"
    game. The index in the table is the order in which levels are played. */
module Catalog {

  /** One level: the side length of its square grid, the emoji that fills the
      grid, the odd emoji hidden once in it, and the seconds allowed for it. */
  datatype Level = Level(grid: nat, emoji: string, odd: string, time: nat)

  const Levels: seq<Level> := [
    // Easy levels
    Level(3, "😀", "😃", 10),
    Level(4, "🐶", "🐱", 12),
    Level(4, "⭐", "✨", 12),
    Level(5, "🍎", "🍏", 15),
    Level(5, "🔵", "🔴", 15),
    // Medium levels
    Level(6, "😊", "😉", 18),
    Level(6, "🌙", "☀️", 18),
    Level(7, "💙", "💚", 20),
    Level(7, "🦁", "🐯", 20),
    Level(8, "🌸", "🌺", 22),
    // Hard levels
    Level(8, "😄", "😁", 22),
    Level(9, "🟢", "🟩", 25),
    Level(9, "🌟", "⭐", 25),
    Level(10, "😺", "😸", 28),
    Level(10, "🔷", "🔶", 28)
  ]

  /** What every entry of the table is authored to satisfy: a grid of at least
      3 by 3, a positive time budget, and an odd emoji that differs from the
      common one. */
  predicate WellFormed(l: Level) {
    l.grid >= 3 && l.time > 0 && l.emoji != l.odd
  }

  /** The table has fifteen entries and every one of them is well formed. */
  lemma CatalogWellFormed()
    ensures |Levels| == 15
    ensures forall i :: 0 <= i < |Levels| ==> WellFormed(Levels[i])
  {
  }

  /** Number of cells on the board of level `lvl`. */
  function Cells(lvl: nat): (n: nat)
    requires lvl < |Levels|
    ensures n >= 9 && n == Levels[lvl].grid * Levels[lvl].grid
  {
    CatalogWellFormed();
    var g := Levels[lvl].grid;
    assert g * g >= 3 * g >= 9;
    g * g
  }

  /** Difficulty never goes down along the table: a later level has a grid at
      least as large and a time budget at least as long as an earlier one. */
  lemma DifficultyNonDecreasing(i: nat, j: nat)
    requires i <= j < |Levels|
    ensures Levels[i].grid <= Levels[j].grid
    ensures Levels[i].time <= Levels[j].time
  {
  }
}
