/** How many other faces each face touches, counted from triangles alone: the sort-and-group
    computation of `anchors._boundary` against its one-line meaning. */
module MeshAdjacency {

  datatype Point = Point(x: real, y: real, z: real)
  datatype Triangle = Triangle(a: nat, b: nat, c: nat)
  datatype Edge = Edge(face: nat, a: nat, b: nat)
  datatype Mesh = Mesh(positions: seq<Point>, triangles: seq<Triangle>, ids: seq<nat>, faces: nat)

  predicate ValidMesh(m: Mesh) {
    && |m.ids| == |m.triangles|
    && (forall t :: t in m.triangles ==> t.a < |m.positions| && t.b < |m.positions| && t.c < |m.positions|)
    && (forall f :: f in m.ids ==> f < m.faces)
  }

  // ------------------------------------------------------------ boundary edges

  predicate InMesh(m: Mesh, e: Edge) {
    e.face < m.faces && e.a < |m.positions| && e.b < |m.positions|
  }

  predicate AllInMesh(m: Mesh, es: seq<Edge>) {
    forall e :: e in es ==> InMesh(m, e)
  }

  /** Side number 0, 1 or 2 of a triangle. */
  function SideOf(t: Triangle, face: nat, side: nat): Edge {
    if side == 0 then Edge(face, t.a, t.b) else if side == 1 then Edge(face, t.b, t.c) else Edge(face, t.c, t.a)
  }

  function Side(m: Mesh, side: nat): (es: seq<Edge>)
    requires ValidMesh(m)
    ensures |es| == |m.triangles| && AllInMesh(m, es)
  {
    assert forall i :: 0 <= i < |m.triangles| ==> m.triangles[i] in m.triangles && m.ids[i] in m.ids;
    seq(|m.triangles|, i requires 0 <= i < |m.triangles| => SideOf(m.triangles[i], m.ids[i], side))
  }

  /** The three edges of every triangle: all first edges, then all second, then all third. */
  function Edges(m: Mesh): (es: seq<Edge>)
    requires ValidMesh(m)
    ensures |es| == 3 * |m.triangles| && AllInMesh(m, es)
  {
    Side(m, 0) + Side(m, 1) + Side(m, 2)
  }

  /** The key an edge is counted under: its face and its two vertices in increasing order. */
  function Key(e: Edge): (nat, nat, nat) {
    (e.face, if e.a <= e.b then e.a else e.b, if e.a <= e.b then e.b else e.a)
  }

  /** Edge `i` is used by exactly one triangle of its own face. */
  predicate Lone(es: seq<Edge>, i: nat)
    requires i < |es|
  {
    forall j :: 0 <= j < |es| && j != i ==> Key(es[j]) != Key(es[i])
  }

  /** `edges[lone]`: the edges used once. */
  method KeepLone(es: seq<Edge>) returns (kept: seq<Edge>)
    ensures forall e :: e in kept <==> exists i :: 0 <= i < |es| && es[i] == e && Lone(es, i)
    ensures |kept| <= |es|
  {
    kept := [];
    for i := 0 to |es|
      invariant |kept| <= i
      invariant forall e :: e in kept <==> exists j :: 0 <= j < i && es[j] == e && Lone(es, j)
    {
      if Lone(es, i) {
        kept := kept + [es[i]];
      }
    }
  }

  /** The number of triangle sides of face `f` between the vertices `a` and `b`. */
  function Uses(es: seq<Edge>, key: (nat, nat, nat)): nat {
    if es == [] then 0 else (if Key(es[0]) == key then 1 else 0) + Uses(es[1..], key)
  }

  lemma {:induction false} UsesZero(es: seq<Edge>, key: (nat, nat, nat))
    ensures Uses(es, key) == 0 <==> forall i :: 0 <= i < |es| ==> Key(es[i]) != key
  {
    if es != [] {
      UsesZero(es[1..], key);
      assert forall i :: 0 < i < |es| ==> es[i] == es[1..][i - 1];
    }
  }

  lemma {:induction false} UsesAppend(a: seq<Edge>, b: seq<Edge>, key: (nat, nat, nat))
    ensures Uses(a + b, key) == Uses(a, key) + Uses(b, key)
  {
    if a == [] {
      assert a + b == b;
    } else {
      assert (a + b)[1..] == a[1..] + b;
      UsesAppend(a[1..], b, key);
    }
  }

  /** Keeping the edges without a twin is keeping those counted once. */
  lemma LoneIsUsedOnce(es: seq<Edge>, i: nat)
    requires i < |es|
    ensures Lone(es, i) <==> Uses(es, Key(es[i])) == 1
  {
    var key, a, b := Key(es[i]), es[..i], es[i + 1..];
    assert es == a + ([es[i]] + b);
    UsesAppend(a, [es[i]] + b, key);
    assert ([es[i]] + b)[1..] == b;
    UsesZero(a, key);
    UsesZero(b, key);
    assert forall j :: 0 <= j < i ==> es[j] == a[j];
    assert forall j :: i < j < |es| ==> es[j] == b[j - i - 1];
    if Uses(a, key) == 0 && Uses(b, key) == 0 {
      forall j | 0 <= j < |es| && j != i
        ensures Key(es[j]) != key
      {
        assert if j < i then es[j] == a[j] else es[j] == b[j - i - 1];
      }
    }
  }

  // ------------------------------------------------------------ edges that coincide in space

  /** `first` comes after `second`, axis by axis. */
  predicate Swapped(first: Point, second: Point) {
    || first.x > second.x
    || (first.x == second.x && first.y > second.y)
    || (first.x == second.x && first.y == second.y && first.z > second.z)
  }

  /** The endpoints of an edge in the order that does not depend on its direction. */
  function Ends(m: Mesh, e: Edge): (Point, Point)
    requires InMesh(m, e)
  {
    var (p, q) := (m.positions[e.a], m.positions[e.b]);
    if Swapped(p, q) then (q, p) else (p, q)
  }

  /** The two edges have the same endpoints in space, in either direction. */
  predicate Coincide(m: Mesh, e: Edge, f: Edge)
    requires InMesh(m, e) && InMesh(m, f)
  {
    || (m.positions[e.a] == m.positions[f.a] && m.positions[e.b] == m.positions[f.b])
    || (m.positions[e.a] == m.positions[f.b] && m.positions[e.b] == m.positions[f.a])
  }

  lemma SameEndsCoincide(m: Mesh, e: Edge, f: Edge)
    requires InMesh(m, e) && InMesh(m, f)
    ensures Ends(m, e) == Ends(m, f) <==> Coincide(m, e, f)
  {
  }

  // ------------------------------------------------------------ the meaning

  predicate OnBoundary(es: seq<Edge>, i: nat)
    requires i < |es|
  {
    Uses(es, Key(es[i])) == 1
  }

  /** Edges `i` and `j` are boundary edges of the faces `f` and `g`, at the same place. */
  predicate TouchAt(m: Mesh, es: seq<Edge>, i: nat, j: nat, f: nat, g: nat)
    requires AllInMesh(m, es) && i < |es| && j < |es|
  {
    es[i].face == f && es[j].face == g && OnBoundary(es, i) && OnBoundary(es, j) && Coincide(m, es[i], es[j])
  }

  /** Faces `f` and `g` share a spatially coincident boundary edge. */
  predicate Touch(m: Mesh, es: seq<Edge>, f: nat, g: nat)
    requires AllInMesh(m, es)
  {
    exists i, j :: 0 <= i < |es| && 0 <= j < |es| && TouchAt(m, es, i, j, f, g)
  }

  lemma TouchSymmetric(m: Mesh, es: seq<Edge>, f: nat, g: nat)
    requires AllInMesh(m, es)
    ensures Touch(m, es, f, g) <==> Touch(m, es, g, f)
  {
    if Touch(m, es, f, g) {
      var i, j :| 0 <= i < |es| && 0 <= j < |es| && TouchAt(m, es, i, j, f, g);
      assert TouchAt(m, es, j, i, g, f);
    }
    if Touch(m, es, g, f) {
      var i, j :| 0 <= i < |es| && 0 <= j < |es| && TouchAt(m, es, i, j, g, f);
      assert TouchAt(m, es, j, i, f, g);
    }
  }

  // The same from the triangles themselves.

  /** How many of the three sides of a triangle join the vertices `a` and `b`. */
  function SidesJoining(t: Triangle, a: nat, b: nat): nat {
    (if {t.a, t.b} == {a, b} then 1 else 0)
    + (if {t.b, t.c} == {a, b} then 1 else 0)
    + (if {t.c, t.a} == {a, b} then 1 else 0)
  }

  /** How many sides of the first `n` triangles, of those labelled `f`, join `a` and `b`. */
  function FaceSides(m: Mesh, f: nat, a: nat, b: nat, n: nat): nat
    requires ValidMesh(m) && n <= |m.triangles|
  {
    if n == 0 then 0
    else FaceSides(m, f, a, b, n - 1) + if m.ids[n - 1] == f then SidesJoining(m.triangles[n - 1], a, b) else 0
  }

  /** The segment from `a` to `b` is on the boundary of face `f`: exactly one side of one of its
      triangles. */
  predicate Borders(m: Mesh, f: nat, a: nat, b: nat)
    requires ValidMesh(m)
  {
    a < |m.positions| && b < |m.positions| && FaceSides(m, f, a, b, |m.triangles|) == 1
  }

  /** Boundary segments of the two faces have the same two ends in space. */
  predicate Meet(m: Mesh, f: nat, g: nat, a: nat, b: nat, c: nat, d: nat)
    requires ValidMesh(m)
  {
    && Borders(m, f, a, b) && Borders(m, g, c, d)
    && {m.positions[a], m.positions[b]} == {m.positions[c], m.positions[d]}
  }

  ghost predicate ShareBoundary(m: Mesh, f: nat, g: nat)
    requires ValidMesh(m)
  {
    exists a, b, c, d :: Meet(m, f, g, a, b, c, d)
  }

  lemma UsesPrefix(es: seq<Edge>, n: nat, key: (nat, nat, nat))
    requires n < |es|
    ensures Uses(es[..n + 1], key) == Uses(es[..n], key) + if Key(es[n]) == key then 1 else 0
  {
    assert es[..n + 1] == es[..n] + [es[n]];
    assert [es[n]][1..] == [];
    UsesAppend(es[..n], [es[n]], key);
  }

  lemma SidesAreKeys(t: Triangle, f: nat, face: nat, a: nat, b: nat)
    requires a <= b
    ensures (if Key(SideOf(t, face, 0)) == (f, a, b) then 1 else 0)
      + (if Key(SideOf(t, face, 1)) == (f, a, b) then 1 else 0)
      + (if Key(SideOf(t, face, 2)) == (f, a, b) then 1 else 0)
      == if face == f then SidesJoining(t, a, b) else 0
  {
    SameEnds(t.a, t.b, a, b);
    SameEnds(t.b, t.c, a, b);
    SameEnds(t.c, t.a, a, b);
  }

  lemma SameEnds(p: nat, q: nat, a: nat, b: nat)
    requires a <= b
    ensures {p, q} == {a, b} <==> (if p <= q then p else q) == a && (if p <= q then q else p) == b
  {
    if {p, q} == {a, b} {
      assert p in {a, b} && q in {a, b} && a in {p, q} && b in {p, q};
    }
  }

  lemma {:induction false} UsesInTriangles(m: Mesh, f: nat, a: nat, b: nat, n: nat)
    requires ValidMesh(m) && a <= b && n <= |m.triangles|
    ensures Uses(Side(m, 0)[..n], (f, a, b)) + Uses(Side(m, 1)[..n], (f, a, b)) + Uses(Side(m, 2)[..n], (f, a, b))
         == FaceSides(m, f, a, b, n)
  {
    if n > 0 {
      UsesInTriangles(m, f, a, b, n - 1);
      UsesPrefix(Side(m, 0), n - 1, (f, a, b));
      UsesPrefix(Side(m, 1), n - 1, (f, a, b));
      UsesPrefix(Side(m, 2), n - 1, (f, a, b));
      SidesAreKeys(m.triangles[n - 1], f, m.ids[n - 1], a, b);
    }
  }

  /** An edge is counted once for every side of a triangle of its face with the same two ends. */
  lemma UsesCountsSides(m: Mesh, f: nat, a: nat, b: nat)
    requires ValidMesh(m)
    ensures Uses(Edges(m), Key(Edge(f, a, b))) == FaceSides(m, f, a, b, |m.triangles|)
  {
    var n, key := |m.triangles|, Key(Edge(f, a, b));
    var (s0, s1, s2) := (Side(m, 0), Side(m, 1), Side(m, 2));
    assert s0[..n] == s0 && s1[..n] == s1 && s2[..n] == s2;
    UsesAppend(s0, s1, key);
    UsesAppend(s0 + s1, s2, key);
    if a <= b {
      UsesInTriangles(m, f, a, b, n);
    } else {
      UsesInTriangles(m, f, b, a, n);
      FaceSidesEitherWay(m, f, a, b, n);
    }
  }

  lemma {:induction false} FaceSidesEitherWay(m: Mesh, f: nat, a: nat, b: nat, n: nat)
    requires ValidMesh(m) && n <= |m.triangles|
    ensures FaceSides(m, f, a, b, n) == FaceSides(m, f, b, a, n)
  {
    assert {a, b} == {b, a};
    if n > 0 {
      FaceSidesEitherWay(m, f, a, b, n - 1);
    }
  }

  lemma BordersIff(m: Mesh, i: nat)
    requires ValidMesh(m) && i < |Edges(m)|
    ensures var e := Edges(m)[i]; OnBoundary(Edges(m), i) <==> Borders(m, e.face, e.a, e.b)
  {
    var e := Edges(m)[i];
    assert e in Edges(m);
    UsesCountsSides(m, e.face, e.a, e.b);
  }

  /** A boundary segment is one of the edges, in one direction or the other. */
  lemma BorderHasEdge(m: Mesh, f: nat, a: nat, b: nat) returns (i: nat)
    requires ValidMesh(m) && Borders(m, f, a, b)
    ensures i < |Edges(m)| && Key(Edges(m)[i]) == Key(Edge(f, a, b)) && OnBoundary(Edges(m), i)
  {
    UsesCountsSides(m, f, a, b);
    UsesZero(Edges(m), Key(Edge(f, a, b)));
    i :| 0 <= i < |Edges(m)| && Key(Edges(m)[i]) == Key(Edge(f, a, b));
  }

  lemma SameSegment(m: Mesh, e: Edge, a: nat, b: nat)
    requires InMesh(m, e) && a < |m.positions| && b < |m.positions| && Key(e) == Key(Edge(e.face, a, b))
    ensures {m.positions[e.a], m.positions[e.b]} == {m.positions[a], m.positions[b]}
  {
  }

  lemma CoincideIff(m: Mesh, e: Edge, f: Edge)
    requires InMesh(m, e) && InMesh(m, f)
    ensures Coincide(m, e, f) <==> {m.positions[e.a], m.positions[e.b]} == {m.positions[f.a], m.positions[f.b]}
  {
    var (p, q, r, t) := (m.positions[e.a], m.positions[e.b], m.positions[f.a], m.positions[f.b]);
    if {p, q} == {r, t} {
      assert p in {r, t} && q in {r, t} && r in {p, q} && t in {p, q};
    }
  }

  /** Touching, said without edges, keys or an order of the corners. */
  lemma TouchMeans(m: Mesh, f: nat, g: nat)
    requires ValidMesh(m)
    ensures Touch(m, Edges(m), f, g) <==> ShareBoundary(m, f, g)
  {
    var es := Edges(m);
    if Touch(m, es, f, g) {
      var i, j :| 0 <= i < |es| && 0 <= j < |es| && TouchAt(m, es, i, j, f, g);
      assert es[i] in es && es[j] in es;
      BordersIff(m, i);
      BordersIff(m, j);
      CoincideIff(m, es[i], es[j]);
      assert Meet(m, f, g, es[i].a, es[i].b, es[j].a, es[j].b);
    }
    if ShareBoundary(m, f, g) {
      var a, b, c, d :| Meet(m, f, g, a, b, c, d);
      var i := BorderHasEdge(m, f, a, b);
      var j := BorderHasEdge(m, g, c, d);
      assert es[i] in es && es[j] in es;
      SameSegment(m, es[i], a, b);
      SameSegment(m, es[j], c, d);
      CoincideIff(m, es[i], es[j]);
      assert TouchAt(m, es, i, j, f, g);
    }
  }

  /** The other faces that share a boundary segment with `f`. */
  ghost function Neighbours(m: Mesh, f: nat): set<nat>
    requires ValidMesh(m)
  {
    set g | 0 <= g < m.faces && g != f && ShareBoundary(m, f, g)
  }

  // ------------------------------------------------------------ sorting and grouping

  /** `np.argsort`: every index once, in the order of its number. */
  predicate IsArgsort(inverse: seq<nat>, order: seq<nat>) {
    && |order| == |inverse|
    && (forall p :: 0 <= p < |order| ==> order[p] < |inverse|)
    && (forall i :: 0 <= i < |inverse| ==> i in order)
    && (forall p, q :: 0 <= p < q < |order| ==> inverse[order[p]] <= inverse[order[q]])
  }

  /** Two of the sorted edges before position `end`, of the faces `a` and `b`, in one group. */
  predicate Grouped(lone: seq<Edge>, inverse: seq<nat>, order: seq<nat>, end: nat, a: nat, b: nat)
    requires IsArgsort(inverse, order) && |inverse| == |lone| && end <= |order|
  {
    exists p, q :: 0 <= p < end && 0 <= q < end && SameGroup(lone, inverse, order, p, q, a, b)
  }

  predicate SameGroup(lone: seq<Edge>, inverse: seq<nat>, order: seq<nat>, p: nat, q: nat, a: nat, b: nat)
    requires IsArgsort(inverse, order) && |inverse| == |lone| && p < |order| && q < |order|
  {
    inverse[order[p]] == inverse[order[q]] && lone[order[p]].face == a && lone[order[q]].face == b
  }

  /** The faces of the run of sorted edges from `start` to `end`. */
  function Members(lone: seq<Edge>, order: seq<nat>, start: nat, end: nat): set<nat>
    requires start <= end <= |order| && forall p :: 0 <= p < |order| ==> order[p] < |lone|
  {
    set p | start <= p < end :: lone[order[p]].face
  }

  /** The ordered pairs one group contributes: none for a lone edge, both directions for a pair,
      all of them for more than two. */
  method GroupPairs(lone: seq<Edge>, order: seq<nat>, start: nat, end: nat) returns (pairs: set<(nat, nat)>)
    requires start < end <= |order| && forall p :: 0 <= p < |order| ==> order[p] < |lone|
    ensures forall a, b :: a != b ==>
              ((a, b) in pairs <==> a in Members(lone, order, start, end) && b in Members(lone, order, start, end))
  {
    var members := Members(lone, order, start, end);
    if end - start == 2 {
      var left, right := lone[order[start]].face, lone[order[start + 1]].face;
      assert members == {left, right};
      pairs := {(left, right), (right, left)};
    } else if end - start > 2 {
      pairs := set a, b | a in members && b in members :: (a, b);
    } else {
      assert members == {lone[order[start]].face};
      pairs := {};
    }
  }

  /** The end of the run of equal numbers that begins at `start`. */
  method RunEnd(inverse: seq<nat>, order: seq<nat>, start: nat) returns (end: nat)
    requires IsArgsort(inverse, order) && start < |order|
    ensures start < end <= |order|
    ensures forall p :: start <= p < end ==> inverse[order[p]] == inverse[order[start]]
    ensures end < |order| ==> inverse[order[end]] != inverse[order[start]]
  {
    end := start + 1;
    while end < |order| && inverse[order[end]] == inverse[order[end - 1]]
      invariant start < end <= |order|
      invariant forall p :: start <= p < end ==> inverse[order[p]] == inverse[order[start]]
    {
      end := end + 1;
    }
  }

  /** Nothing before `start` is in a group with anything from `start` on. */
  predicate Cut(inverse: seq<nat>, order: seq<nat>, start: nat)
    requires IsArgsort(inverse, order) && start <= |order|
  {
    forall p, q :: 0 <= p < start <= q < |order| ==> inverse[order[p]] != inverse[order[q]]
  }

  lemma RunEndCuts(inverse: seq<nat>, order: seq<nat>, start: nat, end: nat)
    requires IsArgsort(inverse, order) && start < end <= |order| && Cut(inverse, order, start)
    requires forall p :: start <= p < end ==> inverse[order[p]] == inverse[order[start]]
    requires end < |order| ==> inverse[order[end]] != inverse[order[start]]
    ensures Cut(inverse, order, end)
  {
    forall p, q | 0 <= p < end <= q < |order|
      ensures inverse[order[p]] != inverse[order[q]]
    {
      assert inverse[order[end]] <= inverse[order[q]];
      assert inverse[order[start]] <= inverse[order[end]];
      if p < start {
        assert inverse[order[p]] <= inverse[order[start]] && inverse[order[p]] != inverse[order[start]];
      }
    }
  }

  /** A run closes exactly the pairs among its own faces. */
  lemma GroupedStep(lone: seq<Edge>, inverse: seq<nat>, order: seq<nat>, start: nat, end: nat, a: nat, b: nat)
    requires IsArgsort(inverse, order) && |inverse| == |lone| && start < end <= |order| && Cut(inverse, order, start)
    requires forall p :: start <= p < end ==> inverse[order[p]] == inverse[order[start]]
    ensures Grouped(lone, inverse, order, end, a, b) <==>
            Grouped(lone, inverse, order, start, a, b)
            || (a in Members(lone, order, start, end) && b in Members(lone, order, start, end))
  {
    if Grouped(lone, inverse, order, end, a, b) {
      var p, q :| 0 <= p < end && 0 <= q < end && SameGroup(lone, inverse, order, p, q, a, b);
      assert p < start <==> q < start;
    }
    if Grouped(lone, inverse, order, start, a, b) {
      var p, q :| 0 <= p < start && 0 <= q < start && SameGroup(lone, inverse, order, p, q, a, b);
    }
    if a in Members(lone, order, start, end) && b in Members(lone, order, start, end) {
      var p :| start <= p < end && lone[order[p]].face == a;
      var q :| start <= q < end && lone[order[q]].face == b;
      assert SameGroup(lone, inverse, order, p, q, a, b);
    }
  }

  /** The grouping loop: all ordered pairs of different faces with edges in one group. */
  method AllPairs(lone: seq<Edge>, inverse: seq<nat>, order: seq<nat>) returns (pairs: set<(nat, nat)>)
    requires IsArgsort(inverse, order) && |inverse| == |lone|
    ensures forall a: nat, b: nat :: (a, b) in pairs <==> a != b && Grouped(lone, inverse, order, |order|, a, b)
  {
    var both: set<(nat, nat)> := {};
    var start := 0;
    while start < |order|
      invariant start <= |order| && Cut(inverse, order, start)
      invariant forall a: nat, b: nat :: a != b ==> ((a, b) in both <==> Grouped(lone, inverse, order, start, a, b))
    {
      var end := RunEnd(inverse, order, start);
      var pairs := GroupPairs(lone, order, start, end);
      forall a: nat, b: nat
        ensures Grouped(lone, inverse, order, end, a, b) <==>
                Grouped(lone, inverse, order, start, a, b)
                || (a in Members(lone, order, start, end) && b in Members(lone, order, start, end))
      {
        GroupedStep(lone, inverse, order, start, end, a, b);
      }
      RunEndCuts(inverse, order, start, end);
      both := both + pairs;
      start := end;
    }
    pairs := set pair | pair in both && pair.0 != pair.1;
  }

  /** `np.bincount` of the first components. */
  method CountFirsts(pairs: set<(nat, nat)>, faces: nat) returns (neighbours: seq<nat>)
    requires forall p :: p in pairs ==> p.1 < faces
    ensures |neighbours| == faces
    ensures forall f :: 0 <= f < faces ==> neighbours[f] == |set g | 0 <= g < faces && (f, g) in pairs|
  {
    neighbours := [];
    for f := 0 to faces
      invariant |neighbours| == f
      invariant forall h :: 0 <= h < f ==> neighbours[h] == |set g | 0 <= g < faces && (h, g) in pairs|
    {
      var row := set g | 0 <= g < faces && (f, g) in pairs;
      neighbours := neighbours + [|row|];
    }
  }

  // ------------------------------------------------------------ the whole computation

  /** `np.unique(..., return_inverse=True)`: equal rows, and only those, get the same number. */
  ghost predicate RanksRows(unique: seq<(Point, Point)> -> seq<nat>) {
    forall rows :: |unique(rows)| == |rows| && SameRank(rows, unique(rows))
  }

  predicate SameRank(rows: seq<(Point, Point)>, ranks: seq<nat>)
    requires |ranks| == |rows|
  {
    forall i, j :: 0 <= i < |rows| && 0 <= j < |rows| ==> (ranks[i] == ranks[j] <==> rows[i] == rows[j])
  }

  ghost predicate Sorts(argsort: seq<nat> -> seq<nat>) {
    forall keys :: IsArgsort(keys, argsort(keys))
  }

  /** The kept edges are the boundary edges. */
  predicate KeepsBoundary(es: seq<Edge>, lone: seq<Edge>) {
    && (forall e :: e in lone ==> exists i :: 0 <= i < |es| && es[i] == e && OnBoundary(es, i))
    && (forall i :: 0 <= i < |es| && OnBoundary(es, i) ==> es[i] in lone)
  }

  /** The rows that are ranked: the canonical endpoints of the kept edges. */
  function Rows(m: Mesh, lone: seq<Edge>): (rows: seq<(Point, Point)>)
    requires AllInMesh(m, lone)
    ensures |rows| == |lone| && forall i :: 0 <= i < |lone| ==> rows[i] == Ends(m, lone[i])
  {
    seq(|lone|, i requires 0 <= i < |lone| => assert lone[i] in lone; Ends(m, lone[i]))
  }

  lemma GroupedTouch(m: Mesh, es: seq<Edge>, lone: seq<Edge>, inverse: seq<nat>, order: seq<nat>, f: nat, g: nat)
    requires AllInMesh(m, es) && AllInMesh(m, lone) && KeepsBoundary(es, lone)
    requires |inverse| == |lone| && SameRank(Rows(m, lone), inverse) && IsArgsort(inverse, order)
    requires Grouped(lone, inverse, order, |order|, f, g)
    ensures Touch(m, es, f, g)
  {
    var p, q :| 0 <= p < |order| && 0 <= q < |order| && SameGroup(lone, inverse, order, p, q, f, g);
    var (k, l) := (order[p], order[q]);
    assert lone[k] in lone && lone[l] in lone;
    var i :| 0 <= i < |es| && es[i] == lone[k] && OnBoundary(es, i);
    var j :| 0 <= j < |es| && es[j] == lone[l] && OnBoundary(es, j);
    assert Rows(m, lone)[k] == Rows(m, lone)[l];
    SameEndsCoincide(m, lone[k], lone[l]);
    assert TouchAt(m, es, i, j, f, g);
  }

  lemma TouchGrouped(m: Mesh, es: seq<Edge>, lone: seq<Edge>, inverse: seq<nat>, order: seq<nat>, f: nat, g: nat)
    requires AllInMesh(m, es) && AllInMesh(m, lone) && KeepsBoundary(es, lone)
    requires |inverse| == |lone| && SameRank(Rows(m, lone), inverse) && IsArgsort(inverse, order)
    requires Touch(m, es, f, g)
    ensures Grouped(lone, inverse, order, |order|, f, g)
  {
    var i, j :| 0 <= i < |es| && 0 <= j < |es| && TouchAt(m, es, i, j, f, g);
    SameEndsCoincide(m, es[i], es[j]);
    var k :| 0 <= k < |lone| && lone[k] == es[i];
    var l :| 0 <= l < |lone| && lone[l] == es[j];
    assert k in order && l in order;
    var p :| 0 <= p < |order| && order[p] == k;
    var q :| 0 <= q < |order| && order[q] == l;
    assert Rows(m, lone)[k] == Rows(m, lone)[l];
    assert SameGroup(lone, inverse, order, p, q, f, g);
  }

  /** `_boundary`, for any library that numbers equal rows equally and sorts. */
  method Boundary(m: Mesh, unique: seq<(Point, Point)> -> seq<nat>, argsort: seq<nat> -> seq<nat>)
    returns (neighbours: seq<nat>)
    requires ValidMesh(m) && RanksRows(unique) && Sorts(argsort)
    ensures |neighbours| == m.faces
    ensures forall f :: 0 <= f < m.faces ==> neighbours[f] == |Neighbours(m, f)|
  {
    var es := Edges(m);
    var lone := KeepLone(es);
    LoneKeepsBoundary(m, es, lone);
    var rows := Rows(m, lone);
    var inverse := unique(rows);
    assert SameRank(rows, inverse);
    var order := argsort(inverse);
    assert IsArgsort(inverse, order);
    var pairs := AllPairs(lone, inverse, order);
    forall f: nat, g: nat
      ensures (f, g) in pairs <==> f != g && Touch(m, es, f, g)
    {
      if Touch(m, es, f, g) {
        TouchGrouped(m, es, lone, inverse, order, f, g);
      }
      if Grouped(lone, inverse, order, |order|, f, g) {
        GroupedTouch(m, es, lone, inverse, order, f, g);
      }
    }
    neighbours := CountTouching(m, pairs);
  }

  lemma LoneKeepsBoundary(m: Mesh, es: seq<Edge>, lone: seq<Edge>)
    requires AllInMesh(m, es)
    requires forall e :: e in lone <==> exists i :: 0 <= i < |es| && es[i] == e && Lone(es, i)
    ensures AllInMesh(m, lone) && KeepsBoundary(es, lone)
  {
    forall i | 0 <= i < |es|
      ensures Lone(es, i) <==> OnBoundary(es, i)
    {
      LoneIsUsedOnce(es, i);
    }
  }

  method CountTouching(m: Mesh, pairs: set<(nat, nat)>) returns (neighbours: seq<nat>)
    requires ValidMesh(m)
    requires forall f: nat, g: nat :: (f, g) in pairs <==> f != g && Touch(m, Edges(m), f, g)
    ensures |neighbours| == m.faces
    ensures forall f :: 0 <= f < m.faces ==> neighbours[f] == |Neighbours(m, f)|
  {
    forall p | p in pairs
      ensures p.1 < m.faces
    {
      var (f, g) := p;
      assert Touch(m, Edges(m), f, g);
      var i, j :| 0 <= i < |Edges(m)| && 0 <= j < |Edges(m)| && TouchAt(m, Edges(m), i, j, f, g);
      assert Edges(m)[j] in Edges(m);
    }
    neighbours := CountFirsts(pairs, m.faces);
    forall f | 0 <= f < m.faces
      ensures (set g | 0 <= g < m.faces && (f, g) in pairs) == Neighbours(m, f)
    {
      forall g | 0 <= g < m.faces
        ensures (f, g) in pairs <==> g in Neighbours(m, f)
      {
        TouchMeans(m, f, g);
      }
    }
  }

  /** A face never counts itself: a seam, where a face meets itself, adds nothing. */
  lemma SeamAddsNothing(m: Mesh, f: nat)
    requires ValidMesh(m)
    ensures f !in Neighbours(m, f)
  {
  }

  /** Neighbourhood is mutual. */
  lemma NeighboursSymmetric(m: Mesh, f: nat, g: nat)
    requires ValidMesh(m) && f < m.faces && g < m.faces
    ensures g in Neighbours(m, f) <==> f in Neighbours(m, g)
  {
    TouchMeans(m, f, g);
    TouchMeans(m, g, f);
    TouchSymmetric(m, Edges(m), f, g);
  }
}
