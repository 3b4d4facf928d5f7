/** Board coordinates: file labels in bijective base 26, and the map between tiles and the drawing plane. */
module Coordinates {
  import opened Rules

  // ----- file labels -----

  const BASE: nat := 26

  type Letter = n: nat | n < BASE

  /** The label of a file, as letter numbers: `a` to `z`, then `aa`, and so on. */
  function Label(x: nat): (digits: seq<Letter>)
    ensures digits != []
  {
    if x < BASE then [x] else Label(x / BASE - 1) + [x % BASE]
  }

  /** The file a label names; every non-empty label names one. */
  function File(digits: seq<Letter>): nat
    requires digits != []
  {
    var last := digits[|digits| - 1];
    if |digits| == 1 then last else (File(digits[..|digits| - 1]) + 1) * BASE + last
  }

  function Reversed(s: seq<Letter>): (r: seq<Letter>)
    ensures |r| == |s|
  {
    if s == [] then [] else Reversed(s[1..]) + [s[0]]
  }

  lemma {:induction false} ReversedAppend(s: seq<Letter>, last: Letter)
    ensures Reversed(s + [last]) == [last] + Reversed(s)
  {
    if s == [] {
      assert s + [last] == [last];
    } else {
      assert (s + [last])[1..] == s[1..] + [last];
      ReversedAppend(s[1..], last);
    }
  }

  /** The loop pushes the last letter first and reverses at the end. */
  method FileLabel(file: nat) returns (text: seq<Letter>)
    ensures text == Label(file)
    ensures File(text) == file
  {
    var x: nat := file;
    var reversed: seq<Letter> := [];
    while x >= BASE
      invariant Label(file) == Label(x) + Reversed(reversed)
    {
      ReversedAppend(reversed, x % BASE);
      reversed := reversed + [x % BASE];
      x := x / BASE - 1;
    }
    ReversedAppend(reversed, x);
    reversed := reversed + [x];
    text := Reversed(reversed);
    FileOfLabel(file);
  }

  lemma {:induction false} FileOfLabel(x: nat)
    ensures File(Label(x)) == x
  {
    if x >= BASE {
      var head := Label(x / BASE - 1);
      FileOfLabel(x / BASE - 1);
      assert Label(x)[..|Label(x)| - 1] == head;
    }
  }

  lemma {:induction false} LabelOfFile(digits: seq<Letter>)
    requires digits != []
    ensures Label(File(digits)) == digits
  {
    var head, last := digits[..|digits| - 1], digits[|digits| - 1];
    assert digits == head + [last];
    if |digits| > 1 {
      LabelOfFile(head);
      Shifted(File(head), last);
    }
  }

  lemma Shifted(n: nat, digit: Letter)
    ensures ((n + 1) * BASE + digit) / BASE == n + 1 && ((n + 1) * BASE + digit) % BASE == digit
  {
  }

  /** Labels and files are in one-to-one correspondence: each decodes the other, and no two files share a label. */
  lemma LabelsAreExact(x: nat, digits: seq<Letter>)
    requires digits != []
    ensures Label(x) == digits <==> File(digits) == x
  {
    FileOfLabel(x);
    LabelOfFile(digits);
  }

  /** Shorter labels first, and labels of one length by their letters from the left. */
  predicate ShortLex(a: seq<Letter>, b: seq<Letter>) {
    |a| < |b| || (|a| == |b| && Before(a, b))
  }

  predicate Before(a: seq<Letter>, b: seq<Letter>)
    requires |a| == |b|
  {
    a != [] && (a[0] < b[0] || (a[0] == b[0] && Before(a[1..], b[1..])))
  }

  lemma {:induction false} BeforeAppend(a: seq<Letter>, b: seq<Letter>, c: Letter, d: Letter)
    requires |a| == |b|
    ensures Before(a + [c], b + [d]) <==> Before(a, b) || (a == b && c < d)
  {
    if a == [] {
      assert a + [c] == [c] && b + [d] == [d];
      assert !Before([], []);
    } else {
      assert (a + [c])[1..] == a[1..] + [c] && (b + [d])[1..] == b[1..] + [d];
      BeforeAppend(a[1..], b[1..], c, d);
      assert a == b <==> a[0] == b[0] && a[1..] == b[1..] by {
        assert a == [a[0]] + a[1..] && b == [b[0]] + b[1..];
      }
    }
  }

  /** The order of the files is the shortlex order of their labels. */
  lemma {:induction false} LabelsInOrder(x: nat, y: nat)
    ensures x < y <==> ShortLex(Label(x), Label(y))
    decreases x + y
  {
    if x < BASE && y < BASE {
      assert Before([x], [y]) <==> x < y;
    } else if x >= BASE && y >= BASE {
      var a, b := x / BASE - 1, y / BASE - 1;
      LabelsInOrder(a, b);
      FileOfLabel(a);
      FileOfLabel(b);
      if |Label(a)| == |Label(b)| {
        BeforeAppend(Label(a), Label(b), x % BASE, y % BASE);
      }
    } else if x < BASE {
      assert |Label(y)| > 1;
    } else {
      assert |Label(x)| > 1;
    }
  }

  // ----- the board on the plane -----

  datatype Orientation = NorthAtTop | SouthAtTop

  datatype Point = Point(x: real, y: real)

  /** A board drawn around the origin with square tiles; y grows upwards on the plane. */
  datatype Geometry = Geometry(width: nat, height: nat, tile: real, orientation: Orientation) {

    predicate Contains(at: Coord) {
      at.x < width && at.y < height
    }

    function HalfWidth(): real {
      width as real * tile / 2.0
    }

    function HalfHeight(): real {
      height as real * tile / 2.0
    }

    /** Turns the board round, or leaves it. */
    function Orient(at: Coord): (r: Coord)
      requires Contains(at)
      ensures Contains(r)
    {
      if orientation == NorthAtTop then at else Coord(width - 1 - at.x, height - 1 - at.y)
    }

    function BoardToWorld(at: Coord): Option<Point> {
      if !Contains(at) || tile <= 0.0 then None
      else
        var display := Orient(at);
        Some(Point(-HalfWidth() + (display.x as real + 0.5) * tile, HalfHeight() - (display.y as real + 0.5) * tile))
    }

    predicate OnBoard(p: Point) {
      -HalfWidth() <= p.x < HalfWidth() && -HalfHeight() < p.y <= HalfHeight()
    }

    /** The column and row of a point, counted from the top left of the drawing. */
    function Column(p: Point): int
      requires tile > 0.0
    {
      ((p.x + HalfWidth()) / tile).Floor
    }

    function Row(p: Point): int
      requires tile > 0.0
    {
      ((HalfHeight() - p.y) / tile).Floor
    }

    function WorldToBoard(p: Point): Option<Coord> {
      if tile <= 0.0 || !OnBoard(p) then None
      else
        ColumnInRange(p);
        RowInRange(p);
        Some(Orient(Coord(Column(p), Row(p))))
    }

    lemma ColumnInRange(p: Point)
      requires tile > 0.0 && OnBoard(p)
      ensures 0 <= Column(p) < width
    {
      FloorBetween(p.x + HalfWidth(), tile, width);
    }

    lemma RowInRange(p: Point)
      requires tile > 0.0 && OnBoard(p)
      ensures 0 <= Row(p) < height
    {
      FloorBetween(HalfHeight() - p.y, tile, height);
    }
  }

  /** Scaling by a positive size keeps order. */
  lemma Scaled(a: real, b: real, tile: real)
    requires tile > 0.0
    ensures a < b <==> a * tile < b * tile
  {
    assert (b - a) * tile == b * tile - a * tile;
    if a < b {
      assert (b - a) * tile > 0.0;
    } else {
      assert (a - b) * tile >= 0.0;
      assert (a - b) * tile == a * tile - b * tile;
    }
  }

  lemma BelowEdge(distance: real, tile: real, n: int)
    requires tile > 0.0
    ensures distance / tile < n as real <==> distance < n as real * tile
  {
    var q := distance / tile;
    assert q * tile == distance;
    Scaled(q, n as real, tile);
  }

  /** Which tile a distance falls in: the lower edge belongs to the tile, the upper one to the next. */
  lemma FloorIs(distance: real, tile: real, n: int)
    requires tile > 0.0
    ensures (distance / tile).Floor == n <==> n as real * tile <= distance < (n + 1) as real * tile
  {
    var q := distance / tile;
    BelowEdge(distance, tile, n);
    BelowEdge(distance, tile, n + 1);
    assert q.Floor == n <==> n as real <= q < (n + 1) as real;
  }

  lemma FloorBetween(distance: real, tile: real, count: nat)
    requires tile > 0.0 && 0.0 <= distance < count as real * tile
    ensures 0 <= (distance / tile).Floor < count
  {
    BelowEdge(distance, tile, 0);
    BelowEdge(distance, tile, count);
  }

  /** The half-open tile a coordinate is drawn on: left and top edges included, right and bottom excluded. */
  predicate OnTile(g: Geometry, at: Coord, p: Point)
    requires g.Contains(at)
  {
    var display := g.Orient(at);
    && display.x as real * g.tile <= p.x + g.HalfWidth() < (display.x + 1) as real * g.tile
    && display.y as real * g.tile <= g.HalfHeight() - p.y < (display.y + 1) as real * g.tile
  }

  lemma OrientInvolution(g: Geometry, at: Coord)
    requires g.Contains(at)
    ensures g.Orient(g.Orient(at)) == at
  {
  }

  lemma WithinCount(distance: real, tile: real, n: nat, count: nat)
    requires n < count && tile > 0.0 && n as real * tile <= distance < (n + 1) as real * tile
    ensures 0.0 <= distance < count as real * tile
  {
    FloorIs(distance, tile, n);
    BelowEdge(distance, tile, 0);
    BelowEdge(distance, tile, count);
    assert (n + 1) as real <= count as real;
  }

  lemma TilesAreOnBoard(g: Geometry, at: Coord, p: Point)
    requires g.tile > 0.0 && g.Contains(at) && OnTile(g, at, p)
    ensures g.OnBoard(p)
  {
    WithinCount(p.x + g.HalfWidth(), g.tile, g.Orient(at).x, g.width);
    WithinCount(g.HalfHeight() - p.y, g.tile, g.Orient(at).y, g.height);
  }

  lemma SameTile(g: Geometry, p: Point, at: Coord)
    requires g.tile > 0.0 && g.Contains(at)
    ensures OnTile(g, at, p) <==> g.Column(p) == g.Orient(at).x && g.Row(p) == g.Orient(at).y
  {
    FloorIs(p.x + g.HalfWidth(), g.tile, g.Orient(at).x);
    FloorIs(g.HalfHeight() - p.y, g.tile, g.Orient(at).y);
  }

  /** A point maps to a coordinate exactly when it lies on that coordinate's tile, in both orientations; a
      point on no tile, and any point of a board without a positive tile size, maps to none. */
  lemma WorldToBoardExactly(g: Geometry, p: Point, at: Coord)
    ensures g.WorldToBoard(p) == Some(at) <==> g.tile > 0.0 && g.Contains(at) && OnTile(g, at, p)
  {
    if g.WorldToBoard(p) == Some(at) {
      g.ColumnInRange(p);
      g.RowInRange(p);
      OrientInvolution(g, Coord(g.Column(p), g.Row(p)));
      SameTile(g, p, at);
    } else if g.tile > 0.0 && g.Contains(at) && OnTile(g, at, p) {
      TilesAreOnBoard(g, at, p);
      SameTile(g, p, at);
      OrientInvolution(g, at);
      assert false;
    }
  }

  /** The centre of a coordinate's tile maps back to it. */
  lemma RoundTrip(g: Geometry, at: Coord)
    ensures g.BoardToWorld(at).Some? <==> g.tile > 0.0 && g.Contains(at)
    ensures g.BoardToWorld(at).Some? ==> g.WorldToBoard(g.BoardToWorld(at).value) == Some(at)
  {
    if g.tile > 0.0 && g.Contains(at) {
      var p := g.BoardToWorld(at).value;
      Centred(g.Orient(at).x, g.tile);
      Centred(g.Orient(at).y, g.tile);
      assert OnTile(g, at, p);
      WorldToBoardExactly(g, p, at);
    }
  }

  lemma Centred(n: nat, tile: real)
    requires tile > 0.0
    ensures n as real * tile <= (n as real + 0.5) * tile < (n + 1) as real * tile
  {
    assert (n as real + 0.5) * tile == n as real * tile + 0.5 * tile;
    assert (n + 1) as real * tile == n as real * tile + tile;
  }
}
