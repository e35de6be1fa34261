/** The router grids of configs/topologies: Torus.py, whose rows and columns close to rings,
    and Mesh.py, whose rows and columns end at the border. */
module GridTopology {
  import opened Graph

  datatype Shape = Torus | Mesh

  // ------------------------------------------------------------------------------------
  // Coordinates
  // ------------------------------------------------------------------------------------

  function Id(columns: nat, row: nat, col: nat): nat { col + row * columns }

  /** The coordinates of a router number. */
  function Row(columns: nat, id: nat): nat
    requires columns > 0
  {
    if id < columns then 0 else 1 + Row(columns, id - columns)
  }

  function Col(columns: nat, id: nat): nat
    requires columns > 0
  {
    if id < columns then id else Col(columns, id - columns)
  }

  lemma {:induction false} Coordinates(columns: nat, row: nat, col: nat)
    requires col < columns
    ensures Row(columns, Id(columns, row, col)) == row && Col(columns, Id(columns, row, col)) == col
  {
    if row > 0 {
      assert Id(columns, row, col) == Id(columns, row - 1, col) + columns;
      Coordinates(columns, row - 1, col);
    }
  }

  lemma {:induction false} InGrid(rows: nat, columns: nat, row: nat, col: nat)
    requires row < rows && col < columns
    ensures Id(columns, row, col) < rows * columns
  {
    if row + 1 < rows {
      InGrid(rows - 1, columns, row, col);
    }
    assert rows * columns == (rows - 1) * columns + columns;
  }

  lemma {:induction false} FromId(rows: nat, columns: nat, id: nat)
    requires columns > 0 && id < rows * columns
    ensures Row(columns, id) < rows && Col(columns, id) < columns
    ensures Id(columns, Row(columns, id), Col(columns, id)) == id
  {
    if id >= columns {
      assert rows * columns == (rows - 1) * columns + columns;
      FromId(rows - 1, columns, id - columns);
      assert Id(columns, Row(columns, id), Col(columns, id))
        == Id(columns, Row(columns, id - columns), Col(columns, id - columns)) + columns;
    }
  }

  // ------------------------------------------------------------------------------------
  // Distance along one dimension
  // ------------------------------------------------------------------------------------

  /** Position x has a link to the next position. */
  predicate HasNext(shape: Shape, x: nat, n: nat) { shape == Torus || x + 1 < n }

  function Next(x: nat, n: nat): nat { if x + 1 < n then x + 1 else 0 }

  function Abs(x: int): nat { if x < 0 then -x else x }
  function Min(x: nat, y: nat): nat { if x < y then x else y }

  /** Steps between two positions of a line or a ring of length n. */
  function Steps(shape: Shape, x: nat, y: nat, n: nat): nat {
    if shape == Torus && Abs(x - y) <= n then Min(Abs(x - y), n - Abs(x - y)) else Abs(x - y)
  }

  lemma StepsZero(shape: Shape, x: nat, y: nat, n: nat)
    requires x < n && y < n
    ensures Steps(shape, x, y, n) == 0 <==> x == y
  {}

  lemma StepsNext(shape: Shape, x: nat, y: nat, n: nat)
    requires x < n && y < n && HasNext(shape, x, n)
    ensures Next(x, n) < n
    ensures Abs(Steps(shape, x, y, n) - Steps(shape, Next(x, n), y, n)) <= 1
  {}

  /** From x one gets closer to y over the link that leaves x or over the one that enters it. */
  lemma StepsDescend(shape: Shape, x: nat, y: nat, n: nat) returns (z: nat)
    requires x < n && y < n && x != y
    ensures z < n && Steps(shape, z, y, n) + 1 == Steps(shape, x, y, n)
    ensures (HasNext(shape, x, n) && z == Next(x, n)) || (HasNext(shape, z, n) && x == Next(z, n))
  {
    var up := if x < y then y - x <= n - (y - x) || shape == Mesh else shape == Torus && n - (x - y) < x - y;
    if up {
      z := Next(x, n);
    } else {
      z := if x == 0 then n - 1 else x - 1;
    }
  }

  // ------------------------------------------------------------------------------------
  // The internal links
  // ------------------------------------------------------------------------------------

  /** The link between columns col and the next in a row. The two scripts list its ends in
      opposite order. */
  function RowLink(shape: Shape, columns: nat, id: nat, row: nat, col: nat): Link {
    var here, next := Id(columns, row, col), Id(columns, row, Next(col, columns));
    if shape == Torus then Link(id, next, here, 1) else Link(id, here, next, 1)
  }

  function ColLink(rows: nat, columns: nat, id: nat, row: nat, col: nat): Link {
    Link(id, Id(columns, row, col), Id(columns, Next(row, rows), col), 2)
  }

  /** The east-west links of all rows before row, and those of row up to column col; first is
      the number of the first one. */
  function RowLinks(shape: Shape, columns: nat, first: nat, row: nat, col: nat): seq<Link>
    requires col <= columns
    decreases row, col
  {
    if col > 0 then
      var s := RowLinks(shape, columns, first, row, col - 1);
      if HasNext(shape, col - 1, columns) then s + [RowLink(shape, columns, first + |s|, row, col - 1)] else s
    else if row > 0 then RowLinks(shape, columns, first, row - 1, columns)
    else []
  }

  function ColLinks(shape: Shape, rows: nat, columns: nat, first: nat, col: nat, row: nat): seq<Link>
    requires row <= rows
    decreases col, row
  {
    if row > 0 then
      var s := ColLinks(shape, rows, columns, first, col, row - 1);
      if HasNext(shape, row - 1, rows) then s + [ColLink(rows, columns, first + |s|, row - 1, col)] else s
    else if col > 0 then ColLinks(shape, rows, columns, first, col - 1, rows)
    else []
  }

  function AllLinks(shape: Shape, rows: nat, columns: nat, first: nat): seq<Link> {
    var s := RowLinks(shape, columns, first, rows, 0);
    s + ColLinks(shape, rows, columns, first + |s|, columns, 0)
  }

  lemma {:induction false} RowLinksJoin(shape: Shape, columns: nat, first: nat, row: nat, col: nat, r: nat, c: nat)
    requires col <= columns && c < columns && HasNext(shape, c, columns) && (r < row || (r == row && c < col))
    ensures Adjacent(RowLinks(shape, columns, first, row, col), Id(columns, r, c), Id(columns, r, Next(c, columns)))
    decreases row, col
  {
    var s := RowLinks(shape, columns, first, row, col);
    if col > 0 {
      var t := RowLinks(shape, columns, first, row, col - 1);
      if r == row && c == col - 1 {
        assert s[|t|] in s && Joins(s[|t|], Id(columns, r, c), Id(columns, r, Next(c, columns)));
      } else {
        RowLinksJoin(shape, columns, first, row, col - 1, r, c);
        AdjacentPrefix(t, s, Id(columns, r, c), Id(columns, r, Next(c, columns)));
      }
    } else {
      RowLinksJoin(shape, columns, first, row - 1, columns, r, c);
    }
  }

  lemma AdjacentPrefix(t: seq<Link>, s: seq<Link>, u: nat, v: nat)
    requires (forall l :: l in t ==> l in s) && Adjacent(t, u, v)
    ensures Adjacent(s, u, v) && Adjacent(s, v, u)
  {
    var l :| l in t && Joins(l, u, v);
    assert Joins(l, v, u);
  }

  lemma {:induction false} RowLinksOnly(shape: Shape, columns: nat, first: nat, row: nat, col: nat, l: Link)
    returns (r: nat, c: nat)
    requires col <= columns && l in RowLinks(shape, columns, first, row, col)
    ensures r <= row && (r == row ==> col > 0) && c < columns
    ensures HasNext(shape, c, columns) && l == RowLink(shape, columns, l.id, r, c)
    decreases row, col
  {
    if col > 0 {
      if l in RowLinks(shape, columns, first, row, col - 1) {
        r, c := RowLinksOnly(shape, columns, first, row, col - 1, l);
      } else {
        r, c := row, col - 1;
      }
    } else {
      r, c := RowLinksOnly(shape, columns, first, row - 1, columns, l);
    }
  }

  lemma {:induction false} ColLinksJoin(shape: Shape, rows: nat, columns: nat, first: nat, col: nat, row: nat,
                                        r: nat, c: nat)
    requires row <= rows && r < rows && HasNext(shape, r, rows) && (c < col || (c == col && r < row))
    ensures Adjacent(ColLinks(shape, rows, columns, first, col, row), Id(columns, r, c), Id(columns, Next(r, rows), c))
    decreases col, row
  {
    var s := ColLinks(shape, rows, columns, first, col, row);
    if row > 0 {
      var t := ColLinks(shape, rows, columns, first, col, row - 1);
      if c == col && r == row - 1 {
        assert s[|t|] in s && Joins(s[|t|], Id(columns, r, c), Id(columns, Next(r, rows), c));
      } else {
        ColLinksJoin(shape, rows, columns, first, col, row - 1, r, c);
        AdjacentPrefix(t, s, Id(columns, r, c), Id(columns, Next(r, rows), c));
      }
    } else {
      ColLinksJoin(shape, rows, columns, first, col - 1, rows, r, c);
    }
  }

  lemma {:induction false} ColLinksOnly(shape: Shape, rows: nat, columns: nat, first: nat, col: nat, row: nat, l: Link)
    returns (r: nat, c: nat)
    requires row <= rows && l in ColLinks(shape, rows, columns, first, col, row)
    ensures c <= col && (c == col ==> row > 0) && r < rows
    ensures HasNext(shape, r, rows) && l == ColLink(rows, columns, l.id, r, c)
    decreases col, row
  {
    if row > 0 {
      if l in ColLinks(shape, rows, columns, first, col, row - 1) {
        r, c := ColLinksOnly(shape, rows, columns, first, col, row - 1, l);
      } else {
        r, c := row - 1, col;
      }
    } else {
      r, c := ColLinksOnly(shape, rows, columns, first, col - 1, rows, l);
    }
  }

  ghost predicate NumberedFrom(s: seq<Link>, first: nat) {
    forall i :: 0 <= i < |s| ==> s[i].id == first + i
  }

  lemma {:induction false} RowLinksNumbered(shape: Shape, columns: nat, first: nat, row: nat, col: nat)
    requires col <= columns
    ensures NumberedFrom(RowLinks(shape, columns, first, row, col), first)
    decreases row, col
  {
    if col > 0 { RowLinksNumbered(shape, columns, first, row, col - 1); }
    else if row > 0 { RowLinksNumbered(shape, columns, first, row - 1, columns); }
  }

  lemma {:induction false} ColLinksNumbered(shape: Shape, rows: nat, columns: nat, first: nat, col: nat, row: nat)
    requires row <= rows
    ensures NumberedFrom(ColLinks(shape, rows, columns, first, col, row), first)
    decreases col, row
  {
    if row > 0 { ColLinksNumbered(shape, rows, columns, first, col, row - 1); }
    else if col > 0 { ColLinksNumbered(shape, rows, columns, first, col - 1, rows); }
  }

  /** Links are numbered without a gap. */
  lemma LinksNumbered(shape: Shape, rows: nat, columns: nat, first: nat)
    ensures NumberedFrom(AllLinks(shape, rows, columns, first), first)
  {
    RowLinksNumbered(shape, columns, first, rows, 0);
    ColLinksNumbered(shape, rows, columns, first + |RowLinks(shape, columns, first, rows, 0)|, columns, 0);
  }

  // ------------------------------------------------------------------------------------
  // Distances in the grid
  // ------------------------------------------------------------------------------------

  /** The distance to a fixed router, as a function of the router number. */
  function Potential(shape: Shape, rows: nat, columns: nat, row: nat, col: nat): nat -> nat
    requires columns > 0
  {
    (u: nat) => Steps(shape, Col(columns, u), col, columns) + Steps(shape, Row(columns, u), row, rows)
  }

  lemma PotentialAt(shape: Shape, rows: nat, columns: nat, row: nat, col: nat, r: nat, c: nat)
    requires c < columns
    ensures Potential(shape, rows, columns, row, col)(Id(columns, r, c))
         == Steps(shape, c, col, columns) + Steps(shape, r, row, rows)
  {
    Coordinates(columns, r, c);
  }

  lemma LinkBounds(shape: Shape, rows: nat, columns: nat, first: nat, row: nat, col: nat, l: Link)
    requires row < rows && col < columns && l in AllLinks(shape, rows, columns, first)
    ensures l.a < rows * columns && l.b < rows * columns
    ensures var d := Potential(shape, rows, columns, row, col);
      d(l.a) <= d(l.b) + 1 && d(l.b) <= d(l.a) + 1
  {
    hide RowLinks, ColLinks, Potential, Id, Steps;
    var s := RowLinks(shape, columns, first, rows, 0);
    if l in s {
      var r, c := RowLinksOnly(shape, columns, first, rows, 0, l);
      StepsNext(shape, c, col, columns);
      InGrid(rows, columns, r, c);
      InGrid(rows, columns, r, Next(c, columns));
      PotentialAt(shape, rows, columns, row, col, r, c);
      PotentialAt(shape, rows, columns, row, col, r, Next(c, columns));
    } else {
      var r, c := ColLinksOnly(shape, rows, columns, first + |s|, columns, 0, l);
      StepsNext(shape, r, row, rows);
      InGrid(rows, columns, r, c);
      InGrid(rows, columns, Next(r, rows), c);
      PotentialAt(shape, rows, columns, row, col, r, c);
      PotentialAt(shape, rows, columns, row, col, Next(r, rows), c);
    }
  }

  lemma RowNeighbours(shape: Shape, rows: nat, columns: nat, first: nat, r: nat, c: nat)
    requires r < rows && c < columns && HasNext(shape, c, columns)
    ensures var s, u, v := AllLinks(shape, rows, columns, first), Id(columns, r, c), Id(columns, r, Next(c, columns));
      Adjacent(s, u, v) && Adjacent(s, v, u)
  {
    hide RowLinks, ColLinks, Id;
    RowLinksJoin(shape, columns, first, rows, 0, r, c);
    AdjacentPrefix(RowLinks(shape, columns, first, rows, 0), AllLinks(shape, rows, columns, first),
                   Id(columns, r, c), Id(columns, r, Next(c, columns)));
  }

  lemma ColNeighbours(shape: Shape, rows: nat, columns: nat, first: nat, r: nat, c: nat)
    requires r < rows && c < columns && HasNext(shape, r, rows)
    ensures var s, u, v := AllLinks(shape, rows, columns, first), Id(columns, r, c), Id(columns, Next(r, rows), c);
      Adjacent(s, u, v) && Adjacent(s, v, u)
  {
    hide RowLinks, ColLinks, Id;
    var k := first + |RowLinks(shape, columns, first, rows, 0)|;
    ColLinksJoin(shape, rows, columns, k, columns, 0, r, c);
    AdjacentPrefix(ColLinks(shape, rows, columns, k, columns, 0), AllLinks(shape, rows, columns, first),
                   Id(columns, r, c), Id(columns, Next(r, rows), c));
  }

  lemma Descends(shape: Shape, rows: nat, columns: nat, first: nat, row: nat, col: nat, r: nat, c: nat)
    requires row < rows && col < columns && r < rows && c < columns && (r != row || c != col)
    ensures CanDescend(AllLinks(shape, rows, columns, first), rows * columns,
                       Potential(shape, rows, columns, row, col), Id(columns, r, c))
  {
    hide AllLinks, Potential, Id, Steps, Adjacent;
    PotentialAt(shape, rows, columns, row, col, r, c);
    if c != col {
      var z := StepsDescend(shape, c, col, columns);
      InGrid(rows, columns, r, z);
      PotentialAt(shape, rows, columns, row, col, r, z);
      if HasNext(shape, c, columns) && z == Next(c, columns) {
        RowNeighbours(shape, rows, columns, first, r, c);
      } else {
        RowNeighbours(shape, rows, columns, first, r, z);
      }
    } else {
      var z := StepsDescend(shape, r, row, rows);
      InGrid(rows, columns, z, c);
      PotentialAt(shape, rows, columns, row, col, z, c);
      if HasNext(shape, r, rows) && z == Next(r, rows) {
        ColNeighbours(shape, rows, columns, first, r, c);
      } else {
        ColNeighbours(shape, rows, columns, first, z, c);
      }
    }
  }

  /** The shortest path between two routers has as many links as the two dimensions need
      steps. */
  lemma GridDistance(shape: Shape, rows: nat, columns: nat, first: nat, r1: nat, c1: nat, r2: nat, c2: nat)
    requires r1 < rows && r2 < rows && c1 < columns && c2 < columns
    ensures Distance(AllLinks(shape, rows, columns, first), Id(columns, r1, c1), Id(columns, r2, c2),
                     Steps(shape, c1, c2, columns) + Steps(shape, r1, r2, rows))
  {
    hide AllLinks, Potential, Id, Steps, CanDescend, Distance;
    var d := Potential(shape, rows, columns, r2, c2);
    var s, n, v := AllLinks(shape, rows, columns, first), rows * columns, Id(columns, r2, c2);
    InGrid(rows, columns, r2, c2);
    InGrid(rows, columns, r1, c1);
    Coordinates(columns, r2, c2);
    forall u | 0 <= u < n ensures (d(u) == 0 <==> u == v) && (u != v ==> CanDescend(s, n, d, u)) {
      FromId(rows, columns, u);
      var r, c := Row(columns, u), Col(columns, u);
      PotentialAt(shape, rows, columns, r2, c2, r, c);
      StepsZero(shape, c, c2, columns);
      StepsZero(shape, r, r2, rows);
      if u != v { Descends(shape, rows, columns, first, r2, c2, r, c); }
    }
    forall l | l in s ensures l.a < n && l.b < n && d(l.a) <= d(l.b) + 1 && d(l.b) <= d(l.a) + 1 {
      LinkBounds(shape, rows, columns, first, r2, c2, l);
    }
    PotentialIsDistance(s, n, v, d, Id(columns, r1, c1));
    PotentialAt(shape, rows, columns, r2, c2, r1, c1);
  }

  // ------------------------------------------------------------------------------------
  // Weights
  // ------------------------------------------------------------------------------------

  /** Where a link lies, by router numbers: the routers of a row are consecutive, those of a
      column are a row apart, and a torus closes both. Weight 1 means along a row, weight 2
      along a column. */
  ghost predicate Placed(shape: Shape, rows: nat, columns: nat, l: Link) {
    && columns > 0 && (l.weight == 1 || l.weight == 2)
    && (l.weight == 1 ==>
          && Row(columns, l.a) == Row(columns, l.b)
          && match shape
             case Mesh => l.b == l.a + 1
             case Torus => l.a == l.b + 1 || l.b == l.a + columns - 1)
    && (l.weight == 2 ==>
          && Col(columns, l.a) == Col(columns, l.b)
          && (l.b == l.a + columns || (shape == Torus && l.a == l.b + (rows - 1) * columns)))
  }

  lemma RowPlaced(shape: Shape, rows: nat, columns: nat, id: nat, r: nat, c: nat)
    requires c < columns && HasNext(shape, c, columns)
    ensures Placed(shape, rows, columns, RowLink(shape, columns, id, r, c))
    ensures RowLink(shape, columns, id, r, c).weight == 1
  {
    Coordinates(columns, r, c);
    Coordinates(columns, r, Next(c, columns));
    hide Row, Col;
  }

  lemma ColPlaced(shape: Shape, rows: nat, columns: nat, id: nat, r: nat, c: nat)
    requires r < rows && c < columns && HasNext(shape, r, rows)
    ensures Placed(shape, rows, columns, ColLink(rows, columns, id, r, c))
    ensures ColLink(rows, columns, id, r, c).weight == 2
  {
    Coordinates(columns, r, c);
    Coordinates(columns, Next(r, rows), c);
    hide Row, Col;
    assert r + 1 < rows ==> Id(columns, r + 1, c) == Id(columns, r, c) + columns;
    assert Id(columns, 0, c) == c;
  }

  lemma LinkPlaced(shape: Shape, rows: nat, columns: nat, first: nat, l: Link)
    requires l in AllLinks(shape, rows, columns, first)
    ensures Placed(shape, rows, columns, l)
    ensures l.weight == 1 <==> l in RowLinks(shape, columns, first, rows, 0)
  {
    hide RowLinks, ColLinks, RowLink, ColLink, Placed;
    var s := RowLinks(shape, columns, first, rows, 0);
    if l in s {
      var r, c := RowLinksOnly(shape, columns, first, rows, 0, l);
      RowPlaced(shape, rows, columns, l.id, r, c);
    } else {
      var r, c := ColLinksOnly(shape, rows, columns, first + |s|, columns, 0, l);
      ColPlaced(shape, rows, columns, l.id, r, c);
    }
  }

  lemma AllPlaced(shape: Shape, rows: nat, columns: nat, first: nat)
    ensures forall l :: l in AllLinks(shape, rows, columns, first) ==> Placed(shape, rows, columns, l)
  {
    forall l | l in AllLinks(shape, rows, columns, first) ensures Placed(shape, rows, columns, l) {
      LinkPlaced(shape, rows, columns, first, l);
    }
  }

  /** The number of links of a row or column. */
  function PerLine(shape: Shape, n: nat): nat { if shape == Torus || n == 0 then n else n - 1 }

  lemma {:induction false} RowLinksCount(shape: Shape, columns: nat, first: nat, row: nat, col: nat)
    requires col <= columns
    ensures |RowLinks(shape, columns, first, row, col)|
         == row * PerLine(shape, columns) + (if shape == Torus || col < columns then col else PerLine(shape, columns))
    decreases row, col
  {
    if col > 0 {
      RowLinksCount(shape, columns, first, row, col - 1);
    } else if row > 0 {
      RowLinksCount(shape, columns, first, row - 1, columns);
      assert row * PerLine(shape, columns) == (row - 1) * PerLine(shape, columns) + PerLine(shape, columns);
    }
  }

  lemma {:induction false} ColLinksCount(shape: Shape, rows: nat, columns: nat, first: nat, col: nat, row: nat)
    requires row <= rows
    ensures |ColLinks(shape, rows, columns, first, col, row)|
         == col * PerLine(shape, rows) + (if shape == Torus || row < rows then row else PerLine(shape, rows))
    decreases col, row
  {
    if row > 0 {
      ColLinksCount(shape, rows, columns, first, col, row - 1);
    } else if col > 0 {
      ColLinksCount(shape, rows, columns, first, col - 1, rows);
      assert col * PerLine(shape, rows) == (col - 1) * PerLine(shape, rows) + PerLine(shape, rows);
    }
  }

  lemma LinksCount(shape: Shape, rows: nat, columns: nat, first: nat)
    ensures |AllLinks(shape, rows, columns, first)| == rows * PerLine(shape, columns) + columns * PerLine(shape, rows)
  {
    RowLinksCount(shape, columns, first, rows, 0);
    ColLinksCount(shape, rows, columns, first + |RowLinks(shape, columns, first, rows, 0)|, columns, 0);
    hide RowLinks, ColLinks;
  }

  /** Over link l from u to w a shortest walk to v goes on. */
  ghost predicate Leads(s: seq<Link>, l: Link, u: nat, w: nat, v: nat, k: nat) {
    l in s && Joins(l, u, w) && Distance(s, u, v, k + 1) && Distance(s, w, v, k)
  }

  lemma OneDistance(s: seq<Link>, u: nat, v: nat, j: nat, k: nat)
    requires Distance(s, u, v, j) && Distance(s, u, v, k)
    ensures j == k
  {
    var a :| Connects(s, a, u, v) && |a| == j + 1;
    var b :| Connects(s, b, u, v) && |b| == k + 1;
  }

  lemma RowLinkLeads(shape: Shape, rows: nat, columns: nat, first: nat, r1: nat, c1: nat, r2: nat, c2: nat)
    returns (l: Link, w: nat, k: nat)
    requires r1 < rows && r2 < rows && c1 < columns && c2 < columns && c1 != c2
    ensures l.weight == 1
    ensures Leads(AllLinks(shape, rows, columns, first), l, Id(columns, r1, c1), w, Id(columns, r2, c2), k)
  {
    hide RowLinks, ColLinks, Id, Steps, Distance;
    var z := StepsDescend(shape, c1, c2, columns);
    w, k := Id(columns, r1, z), Steps(shape, z, c2, columns) + Steps(shape, r1, r2, rows);
    var s := RowLinks(shape, columns, first, rows, 0);
    var c := if HasNext(shape, c1, columns) && z == Next(c1, columns) then c1 else z;
    RowLinksJoin(shape, columns, first, rows, 0, r1, c);
    l :| l in s && Joins(l, Id(columns, r1, c), Id(columns, r1, Next(c, columns)));
    LinkPlaced(shape, rows, columns, first, l);
    GridDistance(shape, rows, columns, first, r1, c1, r2, c2);
    GridDistance(shape, rows, columns, first, r1, z, r2, c2);
  }

  lemma LeadsAlongRow(shape: Shape, rows: nat, columns: nat, first: nat, l: Link, r1: nat, c1: nat, w: nat,
                      r2: nat, c2: nat, k: nat)
    requires r1 < rows && r2 < rows && c1 < columns && c2 < columns && l.weight == 1
    requires Leads(AllLinks(shape, rows, columns, first), l, Id(columns, r1, c1), w, Id(columns, r2, c2), k)
    ensures c1 != c2
  {
    hide RowLinks, ColLinks, Id, Steps, Distance, Placed;
    LinkPlaced(shape, rows, columns, first, l);
    var r, c := RowLinksOnly(shape, columns, first, rows, 0, l);
    var d := Next(c, columns);
    Coordinates(columns, r1, c1);
    Coordinates(columns, r, c);
    Coordinates(columns, r, d);
    var z := if c1 == c && w == Id(columns, r, d) then d else c;
    assert r == r1 && w == Id(columns, r1, z);
    var s := AllLinks(shape, rows, columns, first);
    GridDistance(shape, rows, columns, first, r1, c1, r2, c2);
    GridDistance(shape, rows, columns, first, r1, z, r2, c2);
    OneDistance(s, Id(columns, r1, c1), Id(columns, r2, c2), k + 1,
                Steps(shape, c1, c2, columns) + Steps(shape, r1, r2, rows));
    OneDistance(s, w, Id(columns, r2, c2), k, Steps(shape, z, c2, columns) + Steps(shape, r1, r2, rows));
    StepsZero(shape, c1, c2, columns);
  }

  /** The weights give XY routing: as long as the column is wrong, and only then, a shortest
      walk can go on over a link of weight 1, which keeps the row. */
  lemma RowFirst(shape: Shape, rows: nat, columns: nat, first: nat, r1: nat, c1: nat, r2: nat, c2: nat)
    requires r1 < rows && r2 < rows && c1 < columns && c2 < columns
    ensures c1 != c2 <==> exists l: Link, w, k ::
      l.weight == 1 && Leads(AllLinks(shape, rows, columns, first), l, Id(columns, r1, c1), w, Id(columns, r2, c2), k)
  {
    hide AllLinks, Leads, Id;
    if c1 != c2 {
      var l, w, k := RowLinkLeads(shape, rows, columns, first, r1, c1, r2, c2);
    }
    forall l: Link, w, k | l.weight == 1
      && Leads(AllLinks(shape, rows, columns, first), l, Id(columns, r1, c1), w, Id(columns, r2, c2), k)
      ensures c1 != c2
    {
      LeadsAlongRow(shape, rows, columns, first, l, r1, c1, w, r2, c2, k);
    }
  }

  // ------------------------------------------------------------------------------------
  // makeTopology
  // ------------------------------------------------------------------------------------

  /** The link between controller node and its router. */
  datatype ExtLink = ExtLink(id: nat, node: nat, router: nat)

  /** A failing assertion or division, or the links of the network. */
  datatype Outcome = Failed | Built(rows: nat, columns: nat, ext: seq<ExtLink>, links: seq<Link>)

  ghost predicate Factors(rows: nat, columns: nat, routers: nat) {
    columns * rows == routers
  }

  /** The controllers beyond a multiple of the number of routers must be DMA controllers. */
  ghost predicate RemainderIsDma(isDma: seq<bool>, routers: nat)
    requires routers > 0
  {
    forall i :: |isDma| - |isDma| % routers <= i < |isDma| ==> isDma[i]
  }

  /** All links are numbered 0, 1, 2, ..., external ones first. */
  ghost predicate Numbered(r: Outcome)
    requires r.Built?
  {
    (forall i :: 0 <= i < |r.ext| ==> r.ext[i].id == i) && NumberedFrom(r.links, |r.ext|)
  }

  method MakeTopology(shape: Shape, isDma: seq<bool>, numRouters: nat, numRows: nat) returns (r: Outcome)
    ensures r.Built? <==> numRouters > 0 && (exists columns: nat :: Factors(numRows, columns, numRouters))
                          && RemainderIsDma(isDma, numRouters)
    ensures r.Built? ==> r.rows == numRows && Factors(r.rows, r.columns, numRouters)
    ensures r.Built? ==> r.links == AllLinks(shape, r.rows, r.columns, |isDma|) && Numbered(r)
    ensures r.Built? ==> forall l :: l in r.links ==> Placed(shape, r.rows, r.columns, l)
    ensures r.Built? ==> Attached(r.ext, |isDma|, numRouters)
  {
    hide Factors, AllLinks, NumberedFrom, RemainderIsDma, Attached, Placed, PerLine;
    if numRouters == 0 { return Failed; }
    var fits, columns := CountColumns(numRows, numRouters);
    if !fits { return Failed; }
    var allDma, ext := MakeExtLinks(isDma, numRouters);
    if !allDma { return Failed; }
    var links := MakeLinks(shape, numRows, columns, |ext|);
    LinksNumbered(shape, numRows, columns, |ext|);
    return Built(numRows, columns, ext, links);
  }

  method CountColumns(rows: nat, routers: nat) returns (fits: bool, columns: nat)
    requires routers > 0
    ensures fits <==> exists columns: nat :: Factors(rows, columns, routers)
    ensures fits ==> Factors(rows, columns, routers)
  {
    if rows == 0 || rows > routers {
      NoFactor(rows, routers);
      return false, 0;
    }
    columns := routers / rows;
    ColumnsExact(rows, routers);
    fits := columns * rows == routers;
    assert fits ==> Factors(rows, columns, routers);
  }

  /** Controllers are dealt to the routers in turn; what is left over goes to router 0. */
  ghost predicate Attached(ext: seq<ExtLink>, n: nat, routers: nat)
    requires routers > 0
  {
    |ext| == n && forall i :: 0 <= i < n ==>
      ext[i].node == i && ext[i].router == (if i < n - n % routers then i % routers else 0)
  }

  /** The level of a controller that is dealt to the routers. */
  lemma LevelBelow(i: nat, n: nat, routers: nat)
    requires routers > 0 && i < n - n % routers
    ensures i / routers < n / routers
  {
    if n / routers <= i / routers { MulMonotone(n / routers, i / routers, routers); }
  }

  /** Both assertions of the source on levels and on left-over controllers hold. */
  method MakeExtLinks(isDma: seq<bool>, routers: nat) returns (allDma: bool, ext: seq<ExtLink>)
    requires routers > 0
    ensures allDma <==> RemainderIsDma(isDma, routers)
    ensures allDma ==> Attached(ext, |isDma|, routers) && forall i :: 0 <= i < |ext| ==> ext[i].id == i
  {
    ext := [];
    var n, remainder := |isDma|, |isDma| % routers;
    for i := 0 to n
      invariant |ext| == i
      invariant forall k :: 0 <= k < i ==> ext[k] == ExtLink(k, k, if k < n - remainder then k % routers else 0)
      invariant forall k :: n - remainder <= k < i ==> isDma[k]
    {
      if i < n - remainder {
        LevelBelow(i, n, routers);
        assert i / routers < n / routers;
        ext := ext + [ExtLink(|ext|, i, i % routers)];
      } else {
        if !isDma[i] { return false, []; }
        assert i - (n - remainder) < remainder;
        ext := ext + [ExtLink(|ext|, i, 0)];
      }
    }
    allDma := true;
  }

  method MakeLinks(shape: Shape, rows: nat, columns: nat, first: nat) returns (links: seq<Link>)
    ensures links == AllLinks(shape, rows, columns, first)
    ensures |links| == rows * PerLine(shape, columns) + columns * PerLine(shape, rows)
    ensures forall l :: l in links ==> Placed(shape, rows, columns, l)
  {
    AllPlaced(shape, rows, columns, first);
    LinksCount(shape, rows, columns, first);
    hide Placed, PerLine;
    links := [];
    for row: nat := 0 to rows
      invariant links == RowLinks(shape, columns, first, row, 0)
    {
      for col: nat := 0 to columns
        invariant links == RowLinks(shape, columns, first, row, col)
      {
        if HasNext(shape, col, columns) {
          links := links + [RowLink(shape, columns, first + |links|, row, col)];
        }
      }
    }
    ghost var across := links;
    for col: nat := 0 to columns
      invariant links == across + ColLinks(shape, rows, columns, first + |across|, col, 0)
    {
      for row: nat := 0 to rows
        invariant links == across + ColLinks(shape, rows, columns, first + |across|, col, row)
      {
        if HasNext(shape, row, rows) {
          links := links + [ColLink(rows, columns, first + |links|, row, col)];
        }
      }
    }
  }

  lemma NoFactor(rows: nat, routers: nat)
    requires routers > 0 && (rows == 0 || rows > routers)
    ensures forall columns: nat :: !Factors(rows, columns, routers)
  {
    forall columns: nat ensures !Factors(rows, columns, routers) {
      if columns > 0 { assert columns * rows >= rows; }
    }
  }

  lemma ColumnsExact(rows: nat, routers: nat)
    requires 0 < rows
    ensures forall columns: nat :: Factors(rows, columns, routers) ==> columns == routers / rows
  {
    var q := routers / rows;
    assert q * rows <= routers < (q + 1) * rows;
    forall columns: nat | Factors(rows, columns, routers) ensures columns == q {
      Cancel(columns, q + 1, rows);
      Cancel(q, columns + 1, rows);
    }
  }

  lemma Cancel(a: nat, b: nat, c: nat)
    requires a * c < b * c
    ensures a < b
  {
    if a >= b { MulMonotone(b, a, c); }
  }

  lemma MulMonotone(a: nat, b: nat, c: nat)
    requires a <= b
    ensures a * c <= b * c
  {
  }
}
