/** Points of the logical grid. */
module Geometry {
  datatype GridPoint = GridPoint(x: int, y: int)

  /** One unit along one axis. */
  predicate UnitApart(p: GridPoint, q: GridPoint) {
    Square(p.x - q.x) + Square(p.y - q.y) == 1
  }

  function Square(n: int): int {
    n * n
  }

  lemma SquareAtLeast(a: int)
    ensures if a == 0 then Square(a) == 0 else if a == 1 || a == -1 then Square(a) == 1 else Square(a) >= 4
  {
    if a >= 2 {
      assert a * a >= 2 * a;
    } else if a <= -2 {
      assert (-a) * (-a) >= 2 * -a;
    }
  }

  lemma UnitSquares(a: int, b: int)
    ensures Square(a) + Square(b) == 1 <==> (a == 0 && (b == 1 || b == -1)) || (b == 0 && (a == 1 || a == -1))
  {
    SquareAtLeast(a);
    SquareAtLeast(b);
  }
}
