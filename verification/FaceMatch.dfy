/** Re-identifying a face by its signature: candidacy, scoring, the ambiguity margin and the gates
    of `anchors.match_face`. */
module FaceMatch {
  import opened Arith
  import opened Options

  const NORMAL_DOT := 0.99
  const UVW_DIST := 0.15
  const AMBIGUITY_MARGIN := 0.20
  const AREA_REL := 0.5
  const LONE_AREA_REL := 0.30
  const TINY := 0.000000000001

  datatype Vec = Vec(x: real, y: real, z: real)
  datatype Row = Row(index: nat, present: bool, normal: Vec, uvw: Vec, area: real, neighbours: Option<nat>)

  /** The stored evidence; `frac` is missing in signatures written before it existed. */
  datatype Signature = Signature(normal: Vec, uvw: Vec, frac: Option<real>, area: real, neighbours: Option<nat>)

  datatype Refusal = NoCandidate | Ambiguous | AreaMismatch | TopologyMismatch
  datatype Scored = Scored(score: real, row: Row, areaRel: real)
  datatype Verdict = Verdict(answer: Result<Row, Refusal>, score: real, margin: real)

  function Dot(a: Vec, b: Vec): real {
    a.x * b.x + a.y * b.y + a.z * b.z
  }

  function Minus(a: Vec, b: Vec): Vec {
    Vec(a.x - b.x, a.y - b.y, a.z - b.z)
  }

  /** Euclidean length. */
  ghost predicate IsNorm(norm: Vec -> real) {
    forall v :: norm(v) >= 0.0 && norm(v) * norm(v) == Dot(v, v)
  }

  function TotalArea(table: seq<Row>): real {
    if table == [] then 0.0 else (if table[0].present then table[0].area else 0.0) + TotalArea(table[1..])
  }

  // ------------------------------------------------------------ scoring

  /** How far two areas, or two shares of the whole, are apart relative to the larger. */
  function AreaRel(mine: real, theirs: real): (r: real)
    requires mine >= 0.0 && theirs >= 0.0
    ensures 0.0 <= r <= 1.0 && (mine == theirs ==> r == 0.0)
  {
    var larger := Max(Max(mine, theirs), TINY);
    QuotientInUnit(Abs(theirs - mine), larger);
    Abs(theirs - mine) / larger
  }

  lemma QuotientInUnit(a: real, b: real)
    requires 0.0 <= a <= b && b > 0.0
    ensures 0.0 <= a / b <= 1.0 && (a == 0.0 ==> a / b == 0.0)
  {
  }

  function Share(area: real, whole: real): (s: real)
    requires area >= 0.0
    ensures s >= 0.0
  {
    if whole > 0.0 then (assert area / whole >= 0.0 by { QuotientNotNegative(area, whole); } area / whole) else 0.0
  }

  /** The row's area difference to the signature, by share when the signature has one. */
  function RowRel(sig: Signature, row: Row, whole: real): real
    requires ValidSignature(sig) && row.area >= 0.0
  {
    match sig.frac
    case None => AreaRel(sig.area, row.area)
    case Some(frac) => AreaRel(frac, Share(row.area, whole))
  }

  /** Same orientation, near the same normalised place. */
  predicate Candidate(norm: Vec -> real, sig: Signature, row: Row) {
    row.present && Dot(sig.normal, row.normal) >= NORMAL_DOT && norm(Minus(sig.uvw, row.uvw)) <= UVW_DIST
  }

  function Score(norm: Vec -> real, sig: Signature, row: Row, whole: real): real
    requires ValidSignature(sig) && row.area >= 0.0
  {
    0.5 * Dot(sig.normal, row.normal)
    + 0.3 * (1.0 - RowRel(sig, row, whole))
    + 0.2 * (1.0 - norm(Minus(sig.uvw, row.uvw)) / UVW_DIST)
  }

  predicate ValidSignature(sig: Signature) {
    sig.area >= 0.0 && (sig.frac.Some? ==> sig.frac.value >= 0.0)
  }

  predicate AreasNotNegative(table: seq<Row>) {
    forall r :: r in table ==> r.area >= 0.0
  }

  /** A normal has length one, or zero where the triangles cancel out. */
  predicate UnitNormals(table: seq<Row>) {
    forall r :: r in table ==> Dot(r.normal, r.normal) == 1.0 || r.normal == Vec(0.0, 0.0, 0.0)
  }

  function ScoredRow(norm: Vec -> real, sig: Signature, row: Row, whole: real): Scored
    requires ValidSignature(sig) && row.area >= 0.0
  {
    Scored(Score(norm, sig, row, whole), row, RowRel(sig, row, whole))
  }

  /** The scored candidates, in table order. */
  function Candidates(norm: Vec -> real, sig: Signature, table: seq<Row>, whole: real): (c: seq<Scored>)
    requires ValidSignature(sig) && AreasNotNegative(table)
    ensures forall s :: s in c ==>
      s.row in table && Candidate(norm, sig, s.row) && s == ScoredRow(norm, sig, s.row, whole)
    ensures forall r :: r in table && Candidate(norm, sig, r) ==> ScoredRow(norm, sig, r, whole) in c
  {
    if table == [] then []
    else
      (if Candidate(norm, sig, table[0]) then [ScoredRow(norm, sig, table[0], whole)] else [])
      + Candidates(norm, sig, table[1..], whole)
  }

  lemma {:induction false} CandidatesOfBoth(norm: Vec -> real, sig: Signature, t: seq<Row>, u: seq<Row>, whole: real)
    requires ValidSignature(sig) && AreasNotNegative(t) && AreasNotNegative(u) && AreasNotNegative(t + u)
    ensures Candidates(norm, sig, t + u, whole) == Candidates(norm, sig, t, whole) + Candidates(norm, sig, u, whole)
  {
    if t == [] {
      assert t + u == u;
    } else {
      assert (t + u)[1..] == t[1..] + u;
      CandidatesOfBoth(norm, sig, t[1..], u, whole);
    }
  }

  // ------------------------------------------------------------ ranking

  /** The sort key `(-score, index)`. */
  predicate AtOrBefore(a: Scored, b: Scored) {
    a.score > b.score || (a.score == b.score && a.row.index <= b.row.index)
  }

  predicate Ranked(c: seq<Scored>) {
    |c| > 1 ==> AtOrBefore(c[0], c[1]) && Ranked(c[1..])
  }

  function Insert(x: Scored, c: seq<Scored>): (r: seq<Scored>)
    ensures multiset(r) == multiset{x} + multiset(c)
  {
    if c == [] || AtOrBefore(x, c[0]) then
      [x] + c
    else
      assert c == [c[0]] + c[1..];
      [c[0]] + Insert(x, c[1..])
  }

  /** `scored.sort(...)`: stable, by the key. */
  function Rank(c: seq<Scored>): (r: seq<Scored>)
    ensures multiset(r) == multiset(c)
  {
    if c == [] then []
    else
      assert c == [c[0]] + c[1..];
      Insert(c[0], Rank(c[1..]))
  }

  lemma {:induction false} InsertRanked(x: Scored, c: seq<Scored>)
    requires Ranked(c)
    ensures Ranked(Insert(x, c))
  {
    if c == [] || AtOrBefore(x, c[0]) {
      assert ([x] + c)[1..] == c;
    } else {
      InsertRanked(x, c[1..]);
      assert Insert(x, c)[1..] == Insert(x, c[1..]);
      assert Insert(x, c[1..])[0] == x || Insert(x, c[1..])[0] == c[1];
    }
  }

  lemma {:induction false} RankRanked(c: seq<Scored>)
    ensures Ranked(Rank(c))
  {
    if c != [] {
      RankRanked(c[1..]);
      InsertRanked(c[0], Rank(c[1..]));
    }
  }

  lemma {:induction false} HeadComesFirst(c: seq<Scored>, s: Scored)
    requires Ranked(c) && s in c
    ensures AtOrBefore(c[0], s)
  {
    if s != c[0] {
      assert s in c[1..];
      HeadComesFirst(c[1..], s);
    }
  }

  lemma SameHead(a: seq<Scored>, b: seq<Scored>)
    requires Ranked(a) && Ranked(b) && multiset(a) == multiset(b) && a != []
    requires forall s, t :: s in a && t in a && s.row.index == t.row.index ==> s == t
    ensures b != [] && a[0] == b[0]
  {
    assert a[0] in multiset(a);
    assert a[0] in multiset(b);
    assert b[0] in multiset(b);
    assert b[0] in multiset(a);
    HeadComesFirst(a, b[0]);
    HeadComesFirst(b, a[0]);
  }

  lemma TailHolds(a: seq<Scored>)
    requires a != []
    ensures multiset(a[1..]) == multiset(a) - multiset{a[0]}
  {
    assert a == [a[0]] + a[1..];
  }

  /** A sorted sequence is determined by what it holds, when no two keys tie. */
  lemma {:induction false} RankingUnique(a: seq<Scored>, b: seq<Scored>)
    requires Ranked(a) && Ranked(b) && multiset(a) == multiset(b)
    requires forall s, t :: s in a && t in a && s.row.index == t.row.index ==> s == t
    ensures a == b
  {
    if a == [] {
      assert |multiset(b)| == 0;
    } else {
      SameHead(a, b);
      TailHolds(a);
      TailHolds(b);
      RankingUnique(a[1..], b[1..]);
    }
  }

  // ------------------------------------------------------------ the verdict

  predicate SameNeighbourhood(sig: Signature, row: Row) {
    sig.neighbours.Some? && row.neighbours.Some? ==> sig.neighbours == row.neighbours
  }

  function Decide(sig: Signature, ranked: seq<Scored>): Verdict {
    if ranked == [] then Verdict(Err(NoCandidate), 0.0, 0.0)
    else
      var best := ranked[0];
      var margin := best.score - if |ranked| > 1 then ranked[1].score else 0.0;
      var answer :=
        if |ranked| > 1 && margin < AMBIGUITY_MARGIN then Err(Ambiguous)
        else if best.areaRel > (if |ranked| > 1 then AREA_REL else LONE_AREA_REL) then Err(AreaMismatch)
        else if |ranked| == 1 && !SameNeighbourhood(sig, best.row) then Err(TopologyMismatch)
        else Ok(best.row);
      Verdict(answer, best.score, margin)
  }

  function Match(norm: Vec -> real, sig: Signature, table: seq<Row>): Verdict
    requires ValidSignature(sig) && AreasNotNegative(table)
  {
    Decide(sig, Rank(Candidates(norm, sig, table, TotalArea(table))))
  }

  method MatchFace(norm: Vec -> real, sig: Signature, table: seq<Row>) returns (v: Verdict)
    requires ValidSignature(sig) && AreasNotNegative(table)
    ensures v == Match(norm, sig, table)
  {
    var whole := TotalArea(table);
    var scored: seq<Scored> := [];
    for i := 0 to |table|
      invariant scored == Candidates(norm, sig, table[..i], whole)
    {
      assert table[..i + 1] == table[..i] + [table[i]];
      CandidatesOfBoth(norm, sig, table[..i], [table[i]], whole);
      if Candidate(norm, sig, table[i]) {
        scored := scored + [ScoredRow(norm, sig, table[i], whole)];
      }
    }
    assert table[..|table|] == table;
    v := Decide(sig, Rank(scored));
  }

  // ------------------------------------------------------------ when a row is the answer

  predicate DistinctIndices(table: seq<Row>) {
    forall i, j :: 0 <= i < j < |table| ==> table[i].index != table[j].index
  }

  predicate Rival(norm: Vec -> real, sig: Signature, table: seq<Row>, row: Row, other: Row) {
    other in table && other != row && Candidate(norm, sig, other)
  }

  /** The conditions on an answer, without any ranking: a candidate that clears every other one by
      the ambiguity margin, and whose area, or for a lone candidate area and neighbours, agree. */
  ghost predicate Accepted(norm: Vec -> real, sig: Signature, table: seq<Row>, row: Row)
    requires ValidSignature(sig) && AreasNotNegative(table)
  {
    var whole := TotalArea(table);
    && row in table && Candidate(norm, sig, row)
    && (forall other :: Rival(norm, sig, table, row, other) ==>
         Score(norm, sig, row, whole) - Score(norm, sig, other, whole) >= AMBIGUITY_MARGIN)
    && (if exists other :: Rival(norm, sig, table, row, other) then
          RowRel(sig, row, whole) <= AREA_REL
        else
          RowRel(sig, row, whole) <= LONE_AREA_REL && SameNeighbourhood(sig, row))
  }

  lemma RankHolds(c: seq<Scored>, s: Scored)
    ensures s in Rank(c) <==> s in c
  {
    assert s in multiset(Rank(c)) <==> s in multiset(c);
  }

  predicate NoRowTwice(c: seq<Scored>) {
    forall i, j :: 0 <= i < j < |c| ==> c[i].row != c[j].row
  }

  lemma {:induction false} CandidatesOnce(norm: Vec -> real, sig: Signature, table: seq<Row>, whole: real)
    requires ValidSignature(sig) && AreasNotNegative(table) && DistinctIndices(table)
    ensures NoRowTwice(Candidates(norm, sig, table, whole))
  {
    if table != [] {
      var rest := Candidates(norm, sig, table[1..], whole);
      CandidatesOnce(norm, sig, table[1..], whole);
      forall i | 0 <= i < |rest|
        ensures rest[i].row != table[0]
      {
        assert rest[i] in rest;
      }
    }
  }

  lemma {:induction false} CountedOnce(c: seq<Scored>, s: Scored)
    requires NoRowTwice(c)
    ensures multiset(c)[s] <= 1
  {
    if c != [] {
      assert c == [c[0]] + c[1..];
      CountedOnce(c[1..], s);
      assert c[0] !in c[1..];
    }
  }

  lemma RankedOnce(c: seq<Scored>)
    requires NoRowTwice(c) && |Rank(c)| > 1
    ensures Rank(c)[1] != Rank(c)[0]
  {
    var r := Rank(c);
    CountedOnce(c, r[0]);
    assert r == [r[0], r[1]] + r[2..];
    assert multiset(r) == multiset{r[0], r[1]} + multiset(r[2..]);
  }

  /** In a ranking, one entry clears all others exactly when it stands first and clears the second. */
  lemma FirstClears(r: seq<Scored>, own: Scored)
    requires Ranked(r) && own in r && (|r| > 1 ==> r[1] != r[0])
    ensures (forall s :: s in r && s != own ==> own.score - s.score >= AMBIGUITY_MARGIN)
      <==> (r[0] == own && (|r| > 1 ==> own.score - r[1].score >= AMBIGUITY_MARGIN))
  {
    if r[0] == own && |r| > 1 && own.score - r[1].score >= AMBIGUITY_MARGIN {
      forall s | s in r && s != own
        ensures own.score - s.score >= AMBIGUITY_MARGIN
      {
        RunnerUpAtLeast(r, s);
      }
    }
    if forall s :: s in r && s != own ==> own.score - s.score >= AMBIGUITY_MARGIN {
      HeadComesFirst(r, own);
      assert r[0] in r;
      assert |r| > 1 ==> r[1] in r;
    }
  }

  lemma RivalsAreRanked(norm: Vec -> real, sig: Signature, table: seq<Row>, row: Row)
    requires ValidSignature(sig) && AreasNotNegative(table) && row in table && Candidate(norm, sig, row)
    ensures var r, whole := Rank(Candidates(norm, sig, table, TotalArea(table))), TotalArea(table);
      && ScoredRow(norm, sig, row, whole) in r
      && (forall other :: Rival(norm, sig, table, row, other) ==> ScoredRow(norm, sig, other, whole) in r)
      && (forall s :: s in r && s != ScoredRow(norm, sig, row, whole) ==>
           Rival(norm, sig, table, row, s.row) && s == ScoredRow(norm, sig, s.row, whole))
  {
    var whole := TotalArea(table);
    var c := Candidates(norm, sig, table, whole);
    RankHolds(c, ScoredRow(norm, sig, row, whole));
    forall other | Rival(norm, sig, table, row, other)
      ensures ScoredRow(norm, sig, other, whole) in Rank(c)
    {
      RankHolds(c, ScoredRow(norm, sig, other, whole));
    }
    forall s | s in Rank(c) && s != ScoredRow(norm, sig, row, whole)
      ensures Rival(norm, sig, table, row, s.row) && s == ScoredRow(norm, sig, s.row, whole)
    {
      RankHolds(c, s);
    }
  }

  lemma LoneOrNot(r: seq<Scored>, own: Scored)
    requires own in r && (|r| > 1 ==> r[1] != r[0])
    ensures (|r| > 1) <==> exists s :: s in r && s != own
  {
    if |r| > 1 {
      var s := if r[0] == own then r[1] else r[0];
      assert s in r && s != own;
    } else {
      assert r == [own];
    }
  }

  lemma OnlyCandidatesAnswer(norm: Vec -> real, sig: Signature, table: seq<Row>, row: Row)
    requires ValidSignature(sig) && AreasNotNegative(table) && Match(norm, sig, table).answer == Ok(row)
    ensures row in table && Candidate(norm, sig, row)
  {
    var c := Candidates(norm, sig, table, TotalArea(table));
    RankHolds(c, Rank(c)[0]);
  }

  lemma RankingOfTable(norm: Vec -> real, sig: Signature, table: seq<Row>)
    requires ValidSignature(sig) && AreasNotNegative(table) && DistinctIndices(table)
    ensures var r := Rank(Candidates(norm, sig, table, TotalArea(table))); Ranked(r) && (|r| > 1 ==> r[1] != r[0])
  {
    var c := Candidates(norm, sig, table, TotalArea(table));
    RankRanked(c);
    CandidatesOnce(norm, sig, table, TotalArea(table));
    if |Rank(c)| > 1 {
      RankedOnce(c);
    }
  }

  /** The answer is a given row exactly when that row is accepted. */
  lemma AnswerIff(norm: Vec -> real, sig: Signature, table: seq<Row>, row: Row)
    requires ValidSignature(sig) && AreasNotNegative(table) && DistinctIndices(table)
    ensures Match(norm, sig, table).answer == Ok(row) <==> Accepted(norm, sig, table, row)
  {
    if row in table && Candidate(norm, sig, row) {
      RankingOfTable(norm, sig, table);
      AnswerIffCandidate(norm, sig, table, row);
    } else if Match(norm, sig, table).answer == Ok(row) {
      OnlyCandidatesAnswer(norm, sig, table, row);
    }
  }

  lemma DecideIff(sig: Signature, r: seq<Scored>, own: Scored)
    requires r != [] && (r[0].row == own.row ==> r[0] == own)
    ensures Decide(sig, r).answer == Ok(own.row) <==>
      && r[0] == own && (|r| > 1 ==> own.score - r[1].score >= AMBIGUITY_MARGIN)
      && (if |r| > 1 then own.areaRel <= AREA_REL else own.areaRel <= LONE_AREA_REL && SameNeighbourhood(sig, own.row))
  {
  }

  lemma RivalsClearedIff(norm: Vec -> real, sig: Signature, table: seq<Row>, row: Row)
    requires ValidSignature(sig) && AreasNotNegative(table) && row in table && Candidate(norm, sig, row)
    ensures var whole := TotalArea(table);
      var r, own := Rank(Candidates(norm, sig, table, whole)), ScoredRow(norm, sig, row, whole);
      (forall other :: Rival(norm, sig, table, row, other) ==>
        own.score - Score(norm, sig, other, whole) >= AMBIGUITY_MARGIN)
        <==> (forall s :: s in r && s != own ==> own.score - s.score >= AMBIGUITY_MARGIN)
  {
    RivalsAreRanked(norm, sig, table, row);
    var whole := TotalArea(table);
    var r, own := Rank(Candidates(norm, sig, table, whole)), ScoredRow(norm, sig, row, whole);
    if forall s :: s in r && s != own ==> own.score - s.score >= AMBIGUITY_MARGIN {
      forall other | Rival(norm, sig, table, row, other)
        ensures own.score - Score(norm, sig, other, whole) >= AMBIGUITY_MARGIN
      {
        assert ScoredRow(norm, sig, other, whole) in r;
      }
    }
  }

  lemma AnyRivalIff(norm: Vec -> real, sig: Signature, table: seq<Row>, row: Row)
    requires ValidSignature(sig) && AreasNotNegative(table) && row in table && Candidate(norm, sig, row)
    requires var r := Rank(Candidates(norm, sig, table, TotalArea(table))); |r| > 1 ==> r[1] != r[0]
    ensures (exists other :: Rival(norm, sig, table, row, other)) <==>
      |Rank(Candidates(norm, sig, table, TotalArea(table)))| > 1
  {
    RivalsAreRanked(norm, sig, table, row);
    var whole := TotalArea(table);
    var r, own := Rank(Candidates(norm, sig, table, whole)), ScoredRow(norm, sig, row, whole);
    LoneOrNot(r, own);
    if other :| Rival(norm, sig, table, row, other) {
      assert ScoredRow(norm, sig, other, whole) in r && ScoredRow(norm, sig, other, whole) != own;
    }
  }

  lemma AnswerIffCandidate(norm: Vec -> real, sig: Signature, table: seq<Row>, row: Row)
    requires ValidSignature(sig) && AreasNotNegative(table) && row in table && Candidate(norm, sig, row)
    requires var r := Rank(Candidates(norm, sig, table, TotalArea(table))); Ranked(r) && (|r| > 1 ==> r[1] != r[0])
    ensures Match(norm, sig, table).answer == Ok(row) <==> Accepted(norm, sig, table, row)
  {
    var whole := TotalArea(table);
    var r, own := Rank(Candidates(norm, sig, table, whole)), ScoredRow(norm, sig, row, whole);
    RivalsAreRanked(norm, sig, table, row);
    FirstClears(r, own);
    AnyRivalIff(norm, sig, table, row);
    RivalsClearedIff(norm, sig, table, row);
    DecideIff(sig, r, own);
  }

  // ------------------------------------------------------------ a face is never taken for another

  /** The signature of a row, except that its area share may be off. */
  predicate SignatureOf(sig: Signature, row: Row) {
    sig.normal == row.normal && sig.uvw == row.uvw && sig.neighbours == row.neighbours
    && ValidSignature(sig) && sig.area == row.area
  }

  /** Two vectors of length one have a product of at most one. */
  lemma UnitDot(a: Vec, b: Vec)
    requires Dot(a, a) == 1.0 && Dot(b, b) == 1.0
    ensures Dot(a, b) <= 1.0
  {
    var d := Minus(a, b);
    Squares(d.x, d.y, d.z);
    Expand(a.x, b.x);
    Expand(a.y, b.y);
    Expand(a.z, b.z);
    assert Dot(d, d) == Dot(a, a) - 2.0 * Dot(a, b) + Dot(b, b);
  }

  lemma Expand(a: real, b: real)
    ensures (a - b) * (a - b) == a * a - 2.0 * (a * b) + b * b
  {
  }

  lemma Squares(x: real, y: real, z: real)
    ensures x * x + y * y + z * z >= 0.0
  {
  }

  lemma ScoreAtMostOne(norm: Vec -> real, sig: Signature, row: Row, whole: real)
    requires IsNorm(norm) && ValidSignature(sig) && row.area >= 0.0
    requires Dot(sig.normal, sig.normal) == 1.0 && Dot(row.normal, row.normal) == 1.0
    ensures Score(norm, sig, row, whole) <= 1.0
  {
    UnitDot(sig.normal, row.normal);
    QuotientNotNegative(norm(Minus(sig.uvw, row.uvw)), UVW_DIST);
  }

  lemma ZeroSquare(n: real)
    requires n * n == 0.0 && n >= 0.0
    ensures n == 0.0
  {
    if n > 0.0 {
      calc {
        0.0;
      < { ProductIsPositive(n, n); }
        n * n;
        0.0;
      }
    }
  }

  lemma ProductIsPositive(a: real, b: real)
    requires a > 0.0 && b > 0.0
    ensures a * b > 0.0
  {
  }

  lemma NormOfZero(norm: Vec -> real)
    requires IsNorm(norm)
    ensures norm(Vec(0.0, 0.0, 0.0)) == 0.0
  {
    var zero := Vec(0.0, 0.0, 0.0);
    assert norm(zero) * norm(zero) == Dot(zero, zero) == 0.0;
    ZeroSquare(norm(zero));
  }

  /** A row at the signature's own place and orientation scores one, less what its area costs it. */
  lemma ScoreInPlace(norm: Vec -> real, sig: Signature, row: Row, whole: real)
    requires IsNorm(norm) && ValidSignature(sig) && row.area >= 0.0
    requires sig.normal == row.normal && sig.uvw == row.uvw && Dot(row.normal, row.normal) == 1.0
    ensures Score(norm, sig, row, whole) == 1.0 - 0.3 * RowRel(sig, row, whole)
    ensures row.present ==> Candidate(norm, sig, row)
  {
    NormOfZero(norm);
    assert Minus(sig.uvw, row.uvw) == Vec(0.0, 0.0, 0.0);
  }

  lemma RunnerUpAtLeast(ranked: seq<Scored>, own: Scored)
    requires Ranked(ranked) && own in ranked && own != ranked[0]
    ensures |ranked| > 1 && ranked[1].score >= own.score
  {
    assert own in ranked[1..];
    HeadComesFirst(ranked[1..], own);
  }

  /** Where the triangles cancel out there is no candidate, so every candidate has a unit normal. */
  lemma CandidateScore(norm: Vec -> real, sig: Signature, table: seq<Row>, row: Row, s: Scored)
    requires IsNorm(norm) && AreasNotNegative(table) && UnitNormals(table)
    requires row in table && SignatureOf(sig, row) && s in Candidates(norm, sig, table, TotalArea(table))
    ensures s.score <= 1.0 && Dot(row.normal, row.normal) == 1.0
  {
    assert Candidate(norm, sig, s.row) && s.row in table;
    ScoreAtMostOne(norm, sig, s.row, TotalArea(table));
  }

  /** Matching a face's own signature against its own table returns that face or a refusal, never
      another face, as long as its stored share is within two thirds of the real one. */
  lemma OwnFaceOrRefusal(norm: Vec -> real, sig: Signature, table: seq<Row>, row: Row)
    requires IsNorm(norm) && AreasNotNegative(table) && UnitNormals(table)
    requires row in table && row.present && SignatureOf(sig, row)
    requires RowRel(sig, row, TotalArea(table)) * 3.0 < 2.0
    ensures Match(norm, sig, table).answer.Ok? ==> Match(norm, sig, table).answer.value == row
  {
    var whole := TotalArea(table);
    var c := Candidates(norm, sig, table, whole);
    var ranked := Rank(c);
    RankRanked(c);
    if ranked != [] {
      RankHolds(c, ranked[0]);
      CandidateScore(norm, sig, table, row, ranked[0]);
      ScoreInPlace(norm, sig, row, whole);
      var own := ScoredRow(norm, sig, row, whole);
      RankHolds(c, own);
      if own != ranked[0] {
        RunnerUpAtLeast(ranked, own);
      }
    }
  }

  // ------------------------------------------------------------ with the normal and the place rounded too

  /** Half a unit of the sixth decimal. */
  const HALF_UNIT := 0.0000005

  predicate Near(a: Vec, b: Vec) {
    Abs(a.x - b.x) <= HALF_UNIT && Abs(a.y - b.y) <= HALF_UNIT && Abs(a.z - b.z) <= HALF_UNIT
  }

  lemma ProductNotNegative(a: real, b: real)
    requires a >= 0.0 && b >= 0.0
    ensures a * b >= 0.0
  {
  }

  lemma Negated(a: real, b: real)
    ensures (-a) * (-b) == a * b
  {
  }

  lemma SmallProduct(a: real, b: real, h: real) returns (p: real)
    requires Abs(a) <= h && Abs(b) <= 1.0
    ensures p == a * b && -h <= p <= h
  {
    p := a * b;
    ProductNotNegative(h - a, 1.0 - b);
    ProductNotNegative(h + a, 1.0 + b);
    ProductNotNegative(h - a, 1.0 + b);
    ProductNotNegative(h + a, 1.0 - b);
    assert (h - a) * (1.0 + b) + (h + a) * (1.0 - b) == 2.0 * h - 2.0 * p;
    assert (h - a) * (1.0 - b) + (h + a) * (1.0 + b) == 2.0 * h + 2.0 * p;
  }

  lemma SquareDifference(n: real, h: real)
    ensures n * n - h * h == (n - h) * (n + h)
  {
  }

  lemma LargerSquare(n: real, h: real)
    requires n > h >= 0.0
    ensures n * n > h * h
  {
    SquareDifference(n, h);
    ProductIsPositive(n - h, n + h);
  }

  lemma AtMostOne(x: real)
    requires x * x <= 1.0
    ensures Abs(x) <= 1.0
  {
    Negated(x, x);
    if x > 1.0 {
      LargerSquare(x, 1.0);
    } else if x < -1.0 {
      LargerSquare(-x, 1.0);
    }
  }

  lemma UnitComponents(v: Vec)
    requires Dot(v, v) == 1.0
    ensures Abs(v.x) <= 1.0 && Abs(v.y) <= 1.0 && Abs(v.z) <= 1.0
  {
    Squares(v.x, 0.0, 0.0);
    Squares(v.y, 0.0, 0.0);
    Squares(v.z, 0.0, 0.0);
    AtMostOne(v.x);
    AtMostOne(v.y);
    AtMostOne(v.z);
  }

  lemma DotSplit(a: Vec, b: Vec, m: Vec)
    ensures Dot(a, m) == Dot(b, m) + Dot(Minus(a, b), m)
  {
    assert (a.x - b.x) * m.x == a.x * m.x - b.x * m.x;
    assert (a.y - b.y) * m.y == a.y * m.y - b.y * m.y;
    assert (a.z - b.z) * m.z == a.z * m.z - b.z * m.z;
  }

  lemma SmallSum(p: real, q: real, r: real, d: Vec, m: Vec, h: real)
    requires p == d.x * m.x && q == d.y * m.y && r == d.z * m.z
    requires -h <= p <= h && -h <= q <= h && -h <= r <= h
    ensures -3.0 * h <= Dot(d, m) <= 3.0 * h
  {
    assert Dot(d, m) == p + q + r;
  }

  lemma SmallDot(d: Vec, m: Vec, h: real)
    requires Abs(d.x) <= h && Abs(d.y) <= h && Abs(d.z) <= h
    requires Abs(m.x) <= 1.0 && Abs(m.y) <= 1.0 && Abs(m.z) <= 1.0
    ensures -3.0 * h <= Dot(d, m) <= 3.0 * h
  {
    var p := SmallProduct(d.x, m.x, h);
    var q := SmallProduct(d.y, m.y, h);
    var r := SmallProduct(d.z, m.z, h);
    SmallSum(p, q, r, d, m, h);
  }

  /** Rounding a vector moves its product with a unit vector by three half units at most. */
  lemma RoundedDot(a: Vec, b: Vec, m: Vec)
    requires Near(a, b) && Dot(m, m) == 1.0
    ensures Abs(Dot(a, m) - Dot(b, m)) <= 3.0 * HALF_UNIT
  {
    DotSplit(a, b, m);
    UnitComponents(m);
    SmallDot(Minus(a, b), m, HALF_UNIT);
  }

  lemma SmallSquare(x: real, h: real)
    requires Abs(x) <= h
    ensures x * x <= h * h
  {
    if x >= 0.0 {
      ProductMonotone(x, h, x);
      ProductMonotone(x, h, h);
    } else {
      ProductMonotone(-x, h, -x);
      ProductMonotone(-x, h, h);
    }
  }

  /** and a place by two at most. */
  lemma RoundedPlace(norm: Vec -> real, a: Vec, b: Vec)
    requires IsNorm(norm) && Near(a, b)
    ensures 0.0 <= norm(Minus(a, b)) <= 2.0 * HALF_UNIT
  {
    var d := Minus(a, b);
    SmallSquare(d.x, HALF_UNIT);
    SmallSquare(d.y, HALF_UNIT);
    SmallSquare(d.z, HALF_UNIT);
    if norm(d) > 2.0 * HALF_UNIT {
      LargerSquare(norm(d), 2.0 * HALF_UNIT);
    }
  }

  /** The signature of a row as it is stored, every component of its normal and place rounded. */
  predicate RoundedSignatureOf(sig: Signature, row: Row) {
    Near(sig.normal, row.normal) && Near(sig.uvw, row.uvw) && sig.neighbours == row.neighbours && ValidSignature(sig)
  }

  lemma RoundedOwnScore(norm: Vec -> real, sig: Signature, row: Row, whole: real)
    requires IsNorm(norm) && RoundedSignatureOf(sig, row) && row.area >= 0.0 && Dot(row.normal, row.normal) == 1.0
    ensures Score(norm, sig, row, whole) >= 1.0 - 0.3 * RowRel(sig, row, whole) - 0.000003
    ensures row.present ==> Candidate(norm, sig, row)
  {
    RoundedDot(sig.normal, row.normal, row.normal);
    RoundedPlace(norm, sig.uvw, row.uvw);
    QuotientMonotone(norm(Minus(sig.uvw, row.uvw)), 2.0 * HALF_UNIT, UVW_DIST);
  }

  lemma RoundedRivalScore(norm: Vec -> real, sig: Signature, row: Row, other: Row, whole: real)
    requires IsNorm(norm) && RoundedSignatureOf(sig, row) && other.area >= 0.0
    requires Dot(row.normal, row.normal) == 1.0 && Dot(other.normal, other.normal) == 1.0
    ensures Score(norm, sig, other, whole) <= 1.000001
  {
    UnitDot(row.normal, other.normal);
    RoundedDot(sig.normal, row.normal, other.normal);
    QuotientNotNegative(norm(Minus(sig.uvw, other.uvw)), UVW_DIST);
  }

  /** The same with the normal and the place stored to six decimals, which costs a hundred-thousandth. */
  lemma RoundedOwnFaceOrRefusal(norm: Vec -> real, sig: Signature, table: seq<Row>, row: Row)
    requires IsNorm(norm) && AreasNotNegative(table) && UnitNormals(table)
    requires row in table && row.present && RoundedSignatureOf(sig, row) && Dot(row.normal, row.normal) == 1.0
    requires RowRel(sig, row, TotalArea(table)) * 3.0 < 1.99995
    ensures Match(norm, sig, table).answer.Ok? ==> Match(norm, sig, table).answer.value == row
  {
    var whole := TotalArea(table);
    var c := Candidates(norm, sig, table, whole);
    var ranked := Rank(c);
    RankRanked(c);
    if ranked != [] {
      RankHolds(c, ranked[0]);
      assert Candidate(norm, sig, ranked[0].row) && ranked[0].row in table;
      RoundedRivalScore(norm, sig, row, ranked[0].row, whole);
      RoundedOwnScore(norm, sig, row, whole);
      var own := ScoredRow(norm, sig, row, whole);
      RankHolds(c, own);
      if own != ranked[0] {
        RunnerUpAtLeast(ranked, own);
      }
    }
  }

  // ------------------------------------------------------------ exactly when a rival can take its place

  /** What `face_table` yields: a face that is there has some area. */
  predicate FacesHaveArea(table: seq<Row>) {
    forall r :: r in table && r.present ==> r.area > 0.0
  }

  /** A face with the share `p` of the part fits beside the row, and the stored share tells the two
      apart by two thirds in favour of that face. */
  predicate RoomFor(sig: Signature, row: Row, whole: real, p: real)
    requires ValidSignature(sig) && sig.frac.Some? && row.area >= 0.0
  {
    && p > 0.0 && Share(row.area, whole) + p <= 1.0
    && (RowRel(sig, row, whole) - AreaRel(sig.frac.value, p)) * 3.0 >= 2.0
  }

  /** A table of the given total area that holds the face, a rival of the share `p` lying exactly
      where the signature says, and whatever is left of the part facing away. */
  function RivalTable(sig: Signature, row: Row, whole: real, p: real): (t: seq<Row>) {
    var away := Vec(-row.normal.x, -row.normal.y, -row.normal.z);
    var rival := Row(row.index + 1, true, row.normal, row.uvw, p * whole, row.neighbours);
    var rest := whole - row.area - p * whole;
    [row, rival, Row(row.index + 2, rest > 0.0, away, row.uvw, rest, row.neighbours)]
  }

  lemma ShareOfWhole(p: real, whole: real)
    requires p > 0.0 && whole > 0.0
    ensures p * whole > 0.0 && Share(p * whole, whole) == p
  {
    ProductIsPositive(p, whole);
    assert (p * whole) / whole == p;
  }

  lemma FillerFits(row: Row, p: real, whole: real)
    requires row.area >= 0.0 && whole > 0.0 && Share(row.area, whole) + p <= 1.0
    ensures row.area + p * whole <= whole
  {
    var share := row.area / whole;
    assert share * whole == row.area;
    assert (share + p) * whole <= 1.0 * whole;
  }

  lemma AwayIsNoCandidate(a: Vec, n: Vec)
    ensures Dot(a, Vec(-n.x, -n.y, -n.z)) == -Dot(a, n)
    ensures Dot(Vec(-n.x, -n.y, -n.z), Vec(-n.x, -n.y, -n.z)) == Dot(n, n)
  {
  }

  lemma RivalTableFacts(sig: Signature, row: Row, whole: real, p: real)
    requires row.present && row.area > 0.0 && Dot(row.normal, row.normal) == 1.0
    requires p > 0.0 && whole > 0.0 && Share(row.area, whole) + p <= 1.0
    ensures var t := RivalTable(sig, row, whole, p);
      AreasNotNegative(t) && UnitNormals(t) && FacesHaveArea(t) && TotalArea(t) == whole
  {
    ShareOfWhole(p, whole);
    FillerFits(row, p, whole);
    AwayIsNoCandidate(row.normal, row.normal);
    var t := RivalTable(sig, row, whole, p);
    assert TotalArea(t[1..]) == t[1].area + TotalArea(t[2..]);
    assert t[1..][1..] == t[2..] && t[2..] == [t[2]];
  }

  lemma RivalTableCandidates(norm: Vec -> real, sig: Signature, row: Row, whole: real, p: real)
    requires ValidSignature(sig) && Candidate(norm, sig, row) && row.area > 0.0 && Dot(row.normal, row.normal) == 1.0
    requires p > 0.0 && whole > 0.0 && Share(row.area, whole) + p <= 1.0
    ensures AreasNotNegative(RivalTable(sig, row, whole, p))
    ensures var t := RivalTable(sig, row, whole, p);
      Candidates(norm, sig, t, whole) == [ScoredRow(norm, sig, row, whole), ScoredRow(norm, sig, t[1], whole)]
  {
    RivalTableFacts(sig, row, whole, p);
    var t := RivalTable(sig, row, whole, p);
    AwayIsNoCandidate(sig.normal, row.normal);
    assert Candidate(norm, sig, t[1]) && !Candidate(norm, sig, t[2]);
    assert t[1..] == [t[1], t[2]] && t[1..][1..] == [t[2]] && [t[2]][1..] == [];
    assert Candidates(norm, sig, [t[2]], whole) == [];
    assert Candidates(norm, sig, t[1..], whole) == [ScoredRow(norm, sig, t[1], whole)];
  }

  lemma RankOfTwo(own: Scored, rival: Scored)
    requires rival.score > own.score
    ensures Rank([own, rival]) == [rival, own]
  {
    assert [own, rival][1..] == [rival] && [rival][1..] == [];
    assert Rank([rival]) == Insert(rival, []) == [rival];
    assert Insert(own, [rival]) == [rival] + Insert(own, []);
  }

  /** Two rows at the same place differ in score by what their areas cost them. */
  lemma ScoresInOnePlace(norm: Vec -> real, sig: Signature, row: Row, other: Row, whole: real)
    requires ValidSignature(sig) && row.area >= 0.0 && other.area >= 0.0
    requires other.normal == row.normal && other.uvw == row.uvw
    ensures Score(norm, sig, other, whole) - Score(norm, sig, row, whole)
      == 0.3 * (RowRel(sig, row, whole) - RowRel(sig, other, whole))
  {
  }

  lemma RivalScores(norm: Vec -> real, sig: Signature, row: Row, whole: real, p: real)
    requires ValidSignature(sig) && row.area > 0.0 && sig.frac.Some? && whole > 0.0 && RoomFor(sig, row, whole, p)
    ensures var rival := RivalTable(sig, row, whole, p)[1];
      && rival.area >= 0.0 && RowRel(sig, rival, whole) <= 1.0 / 3.0
      && Score(norm, sig, rival, whole) - Score(norm, sig, row, whole) >= AMBIGUITY_MARGIN
  {
    ShareOfWhole(p, whole);
    ScoresInOnePlace(norm, sig, row, RivalTable(sig, row, whole, p)[1], whole);
  }

  /** Such a rival is the answer in place of the face, wherever exactly the signature puts it. */
  lemma RivalWins(norm: Vec -> real, sig: Signature, row: Row, whole: real, p: real)
    requires ValidSignature(sig) && Candidate(norm, sig, row) && row.area > 0.0 && Dot(row.normal, row.normal) == 1.0
    requires sig.frac.Some? && whole > 0.0 && RoomFor(sig, row, whole, p)
    ensures var t := RivalTable(sig, row, whole, p);
      AreasNotNegative(t) && Match(norm, sig, t).answer == Ok(t[1])
  {
    RivalTableFacts(sig, row, whole, p);
    var t := RivalTable(sig, row, whole, p);
    RivalScores(norm, sig, row, whole, p);
    RivalTableCandidates(norm, sig, row, whole, p);
    RankOfTwo(ScoredRow(norm, sig, row, whole), ScoredRow(norm, sig, t[1], whole));
  }

  lemma {:induction false} AreaWithin(t: seq<Row>, r: Row)
    requires AreasNotNegative(t) && r in t && r.present
    ensures TotalArea(t) >= r.area
  {
    AreaNotNegative(t[1..]);
    if t[0] != r {
      AreaWithin(t[1..], r);
    }
  }

  lemma {:induction false} AreaNotNegative(t: seq<Row>)
    requires AreasNotNegative(t)
    ensures TotalArea(t) >= 0.0
  {
    if t != [] {
      AreaNotNegative(t[1..]);
    }
  }

  lemma {:induction false} TwoAreasWithin(t: seq<Row>, r: Row, s: Row)
    requires AreasNotNegative(t) && r in t && s in t && r != s && r.present && s.present
    ensures TotalArea(t) >= r.area + s.area
  {
    if t[0] == r {
      AreaWithin(t[1..], s);
    } else if t[0] == s {
      AreaWithin(t[1..], r);
    } else {
      TwoAreasWithin(t[1..], r, s);
    }
  }

  lemma QuotientSign(b: real, whole: real)
    requires b > 0.0 && whole > 0.0
    ensures b / whole > 0.0
  {
  }

  lemma SharesWithin(a: real, b: real, whole: real)
    requires a > 0.0 && b > 0.0 && a + b <= whole
    ensures Share(b, whole) > 0.0 && Share(a, whole) + Share(b, whole) <= 1.0
  {
    QuotientMonotone(a + b, whole, whole);
    assert a / whole + b / whole == (a + b) / whole;
    assert whole / whole == 1.0;
    QuotientSign(b, whole);
  }

  lemma ScoreWithArea(norm: Vec -> real, sig: Signature, row: Row, whole: real)
    requires IsNorm(norm) && ValidSignature(sig) && row.area >= 0.0
    requires Dot(sig.normal, sig.normal) == 1.0 && Dot(row.normal, row.normal) == 1.0
    ensures Score(norm, sig, row, whole) <= 1.0 - 0.3 * RowRel(sig, row, whole)
  {
    UnitDot(sig.normal, row.normal);
    QuotientNotNegative(norm(Minus(sig.uvw, row.uvw)), UVW_DIST);
  }

  /** Whoever is the answer in place of the face has that much less to explain. */
  lemma WinnerClears(norm: Vec -> real, sig: Signature, table: seq<Row>, row: Row)
    requires IsNorm(norm) && AreasNotNegative(table) && UnitNormals(table)
    requires row in table && row.present && SignatureOf(sig, row) && Dot(row.normal, row.normal) == 1.0
    requires Match(norm, sig, table).answer.Ok? && Match(norm, sig, table).answer.value != row
    ensures var whole, other := TotalArea(table), Match(norm, sig, table).answer.value;
      other in table && other.present && (RowRel(sig, row, whole) - RowRel(sig, other, whole)) * 3.0 >= 2.0
  {
    var whole := TotalArea(table);
    var c := Candidates(norm, sig, table, whole);
    var ranked := Rank(c);
    RankRanked(c);
    RankHolds(c, ranked[0]);
    assert Candidate(norm, sig, ranked[0].row) && ranked[0].row in table;
    ScoreWithArea(norm, sig, ranked[0].row, whole);
    ScoreInPlace(norm, sig, row, whole);
    var own := ScoredRow(norm, sig, row, whole);
    RankHolds(c, own);
    RunnerUpAtLeast(ranked, own);
  }

  /** Every table of that total area keeps the promise. */
  ghost predicate NeverMistaken(norm: Vec -> real, sig: Signature, row: Row, whole: real)
    requires ValidSignature(sig)
  {
    forall t: seq<Row> | AreasNotNegative(t) && UnitNormals(t) && FacesHaveArea(t) && row in t
      && TotalArea(t) == whole ::
      Match(norm, sig, t).answer.Ok? ==> Match(norm, sig, t).answer.value == row
  }

  ghost predicate RoomForSome(sig: Signature, row: Row, whole: real)
    requires ValidSignature(sig) && sig.frac.Some? && row.area >= 0.0
  {
    exists p :: RoomFor(sig, row, whole, p)
  }

  lemma WinnerHasRoom(norm: Vec -> real, sig: Signature, t: seq<Row>, row: Row, whole: real)
    requires IsNorm(norm) && SignatureOf(sig, row) && row.present && row.area > 0.0
    requires Dot(row.normal, row.normal) == 1.0 && sig.frac.Some?
    requires AreasNotNegative(t) && UnitNormals(t) && FacesHaveArea(t) && row in t && TotalArea(t) == whole
    requires Match(norm, sig, t).answer.Ok? && Match(norm, sig, t).answer.value != row
    ensures RoomForSome(sig, row, whole)
  {
    WinnerClears(norm, sig, t, row);
    var other := Match(norm, sig, t).answer.value;
    TwoAreasWithin(t, row, other);
    SharesWithin(row.area, other.area, whole);
    assert RoomFor(sig, row, whole, Share(other.area, whole));
  }

  lemma RoomMistakes(norm: Vec -> real, sig: Signature, row: Row, whole: real, p: real)
    requires ValidSignature(sig) && Candidate(norm, sig, row) && row.area > 0.0 && Dot(row.normal, row.normal) == 1.0
    requires sig.frac.Some? && whole > 0.0 && RoomFor(sig, row, whole, p)
    ensures !NeverMistaken(norm, sig, row, whole)
  {
    RivalTableFacts(sig, row, whole, p);
    RivalWins(norm, sig, row, whole, p);
    var t := RivalTable(sig, row, whole, p);
    assert t[0] == row && row in t;
  }

  /** No table mistakes the face exactly when there is no room for a rival. */
  lemma NeverMistakenIff(norm: Vec -> real, sig: Signature, row: Row, whole: real)
    requires IsNorm(norm) && SignatureOf(sig, row) && row.present && row.area > 0.0
    requires Dot(row.normal, row.normal) == 1.0 && sig.frac.Some? && whole > 0.0
    ensures NeverMistaken(norm, sig, row, whole) <==> !RoomForSome(sig, row, whole)
  {
    if p :| RoomFor(sig, row, whole, p) {
      ScoreInPlace(norm, sig, row, whole);
      RoomMistakes(norm, sig, row, whole, p);
    } else {
      forall t: seq<Row> | AreasNotNegative(t) && UnitNormals(t) && FacesHaveArea(t) && row in t
        && TotalArea(t) == whole
        ensures Match(norm, sig, t).answer.Ok? ==> Match(norm, sig, t).answer.value == row
      {
        if Match(norm, sig, t).answer.Ok? && Match(norm, sig, t).answer.value != row {
          WinnerHasRoom(norm, sig, t, row, whole);
        }
      }
    }
  }

  /** Towards the stored share from below the difference shrinks. */
  lemma RelShrinks(frac: real, p: real, q: real)
    requires 0.0 <= p && 0.0 <= q <= frac && p <= q
    ensures AreaRel(frac, q) <= AreaRel(frac, p)
  {
    QuotientMonotone(frac - q, frac - p, Max(frac, TINY));
  }

  /** The most room there is: the stored share itself, or what the face leaves of the part. */
  lemma RoomIff(sig: Signature, row: Row, whole: real)
    requires ValidSignature(sig) && sig.frac.Some? && row.area >= 0.0
    ensures var share, rel, frac := Share(row.area, whole), RowRel(sig, row, whole), sig.frac.value;
      RoomForSome(sig, row, whole) <==>
        && share < 1.0
        && if frac == 0.0 then rel * 3.0 > 2.0 else (rel - AreaRel(frac, Min(frac, 1.0 - share))) * 3.0 >= 2.0
  {
    var share, rel, frac := Share(row.area, whole), RowRel(sig, row, whole), sig.frac.value;
    if p :| RoomFor(sig, row, whole, p) {
      if frac == 0.0 {
        SomethingIsNotNothing(p);
      } else if p <= frac {
        RelShrinks(frac, p, Min(frac, 1.0 - share));
      } else {
        assert Min(frac, 1.0 - share) == frac;
      }
    }
    if share < 1.0 && frac == 0.0 && rel * 3.0 > 2.0 {
      SpeckFits(sig, row, whole);
    } else if share < 1.0 && frac > 0.0 && (rel - AreaRel(frac, Min(frac, 1.0 - share))) * 3.0 >= 2.0 {
      assert RoomFor(sig, row, whole, Min(frac, 1.0 - share));
    }
  }

  lemma SomethingIsNotNothing(p: real)
    requires p > 0.0
    ensures AreaRel(0.0, p) > 0.0
  {
    var larger := Max(p, TINY);
    var q := p / larger;
    assert q * larger == p;
  }

  /** A stored share of nothing is matched by a small enough speck. */
  lemma SpeckFits(sig: Signature, row: Row, whole: real)
    requires ValidSignature(sig) && sig.frac == Some(0.0) && row.area >= 0.0
    requires Share(row.area, whole) < 1.0 && RowRel(sig, row, whole) * 3.0 > 2.0
    ensures RoomForSome(sig, row, whole)
  {
    var gap := RowRel(sig, row, whole) - 2.0 / 3.0;
    var p := Min(TINY * gap, 1.0 - Share(row.area, whole));
    QuotientMonotone(p, TINY * gap, TINY);
    assert TINY * gap / TINY == gap;
    assert RoomFor(sig, row, whole, p);
  }

  // ------------------------------------------------------------ the signature as it is stored

  /** One unit of the ninth decimal. */
  const SHARE_UNIT := 0.000000001

  function GridShare(k: nat): real {
    k as real * SHARE_UNIT
  }

  /** `round(share, 9)`: on the grid of nine decimals, and off by half a unit at most. */
  ghost predicate RoundsShare(frac: real, share: real) {
    (exists k: nat :: frac == GridShare(k)) && Abs(frac - share) * 2.0 <= SHARE_UNIT
  }

  /** What `signature_of` stores for a row of a part of the given total area: normal and place rounded
      to six decimals, the share to nine. */
  ghost predicate StoredSignatureOf(sig: Signature, row: Row, whole: real)
    requires row.area >= 0.0
  {
    RoundedSignatureOf(sig, row) && sig.frac.Some? && RoundsShare(sig.frac.value, Share(row.area, whole))
  }

  lemma OnTheGrid(k: nat)
    requires k > 0
    ensures GridShare(k) >= SHARE_UNIT
  {
  }

  /** A stored share that is not zero is within half of the real one, however small the face. */
  lemma RoundedShareIsClose(frac: real, share: real)
    requires RoundsShare(frac, share) && frac > 0.0 && share >= 0.0
    ensures AreaRel(frac, share) <= 0.5
  {
    var k: nat :| frac == GridShare(k);
    OnTheGrid(k);
    var larger, gap := Max(Max(frac, share), TINY), Abs(share - frac);
    QuotientMonotone(gap, larger * 0.5, larger);
    assert larger * 0.5 / larger == 0.5;
  }

  /** Matching a face's stored signature against its own table returns that face or a refusal, never
      another face, whenever the stored share is not zero. */
  lemma StoredSignatureOwnFace(norm: Vec -> real, sig: Signature, table: seq<Row>, row: Row)
    requires IsNorm(norm) && AreasNotNegative(table) && UnitNormals(table)
    requires row in table && row.present && Dot(row.normal, row.normal) == 1.0
    requires StoredSignatureOf(sig, row, TotalArea(table)) && sig.frac.value > 0.0
    ensures Match(norm, sig, table).answer.Ok? ==> Match(norm, sig, table).answer.value == row
  {
    RoundedShareIsClose(sig.frac.value, Share(row.area, TotalArea(table)));
    RoundedOwnFaceOrRefusal(norm, sig, table, row);
  }

  lemma SmallRel(share: real)
    requires share >= 0.0
    ensures share * 3.0 < 1.99995 * TINY ==> AreaRel(0.0, share) * 3.0 < 1.99995
    ensures share * 3.0 > 2.0 * TINY ==> AreaRel(0.0, share) * 3.0 > 2.0
  {
    var larger := Max(share, TINY);
    var rel := share / larger;
    assert rel * larger == share;
  }

  lemma NeverMistakenIfClose(norm: Vec -> real, sig: Signature, row: Row, whole: real)
    requires IsNorm(norm) && RoundedSignatureOf(sig, row) && row.present && row.area > 0.0
    requires Dot(row.normal, row.normal) == 1.0 && RowRel(sig, row, whole) * 3.0 < 1.99995
    ensures NeverMistaken(norm, sig, row, whole)
  {
    forall t: seq<Row> | AreasNotNegative(t) && UnitNormals(t) && FacesHaveArea(t) && row in t && TotalArea(t) == whole
      ensures Match(norm, sig, t).answer.Ok? ==> Match(norm, sig, t).answer.value == row
    {
      RoundedOwnFaceOrRefusal(norm, sig, t, row);
    }
  }

  /** A share so near two thirds of a trillionth that it depends on how normal and place were rounded. */
  predicate OnTheEdge(share: real) {
    1.99995 * TINY <= share * 3.0 <= 2.0 * TINY
  }

  /** Exactly which faces no table mistakes for another by their stored signature: those whose stored
      share is not zero, and those too small for even a speck to be told from them. */
  lemma StoredNeverMistakenIff(norm: Vec -> real, sig: Signature, row: Row, whole: real)
    requires IsNorm(norm) && row.present && row.area > 0.0 && Dot(row.normal, row.normal) == 1.0 && whole > 0.0
    requires StoredSignatureOf(sig, row, whole) && !OnTheEdge(Share(row.area, whole))
    ensures NeverMistaken(norm, sig, row, whole)
      <==> sig.frac.value > 0.0 || Share(row.area, whole) * 3.0 < 2.0 * TINY
  {
    var share := Share(row.area, whole);
    if sig.frac.value > 0.0 {
      RoundedShareIsClose(sig.frac.value, share);
      NeverMistakenIfClose(norm, sig, row, whole);
    } else {
      SmallRel(share);
      if share * 3.0 < 2.0 * TINY {
        NeverMistakenIfClose(norm, sig, row, whole);
      } else {
        RoundedOwnScore(norm, sig, row, whole);
        SpeckFits(sig, row, whole);
        var p :| RoomFor(sig, row, whole, p);
        RoomMistakes(norm, sig, row, whole, p);
      }
    }
  }

  // ------------------------------------------------------------ the order of the rows

  lemma {:induction false} TotalAreaOfBoth(t: seq<Row>, u: seq<Row>)
    ensures TotalArea(t + u) == TotalArea(t) + TotalArea(u)
  {
    if t == [] {
      assert t + u == u;
    } else {
      assert (t + u)[1..] == t[1..] + u;
      TotalAreaOfBoth(t[1..], u);
    }
  }

  /** Where the first row of one table stands in a reordering of it. */
  function Find(row: Row, t: seq<Row>): (k: nat)
    requires row in t
    ensures k < |t| && t[k] == row
  {
    if t[0] == row then 0 else 1 + Find(row, t[1..])
  }

  lemma TakenOut(t: seq<Row>, u: seq<Row>)
    requires t != [] && multiset(t) == multiset(u)
    ensures t[0] in u
    ensures var k := Find(t[0], u); u == u[..k] + [t[0]] + u[k + 1..]
    ensures var k := Find(t[0], u); multiset(t[1..]) == multiset(u[..k] + u[k + 1..])
  {
    assert t[0] in multiset(t);
    assert t[0] in multiset(u);
    var k := Find(t[0], u);
    var p, q := u[..k], u[k + 1..];
    assert t == [t[0]] + t[1..];
    calc {
      multiset(t[1..]);
      multiset(t) - multiset{t[0]};
      { assert u == p + [t[0]] + q; }
      multiset(p + [t[0]] + q) - multiset{t[0]};
      multiset(p + q);
    }
  }

  lemma {:induction false} TotalAreaOfReordered(t: seq<Row>, u: seq<Row>)
    requires multiset(t) == multiset(u)
    ensures TotalArea(t) == TotalArea(u)
  {
    if t == [] {
      assert |multiset(u)| == 0;
    } else {
      TakenOut(t, u);
      var k := Find(t[0], u);
      TotalAreaOfReordered(t[1..], u[..k] + u[k + 1..]);
      TotalAreaOfBoth(u[..k], u[k + 1..]);
      TotalAreaOfBoth(u[..k] + [t[0]], u[k + 1..]);
      TotalAreaOfBoth(u[..k], [t[0]]);
    }
  }

  lemma {:induction false} CandidatesOfReordered(norm: Vec -> real, sig: Signature, t: seq<Row>, u: seq<Row>,
                                                 whole: real)
    requires ValidSignature(sig) && AreasNotNegative(t) && AreasNotNegative(u) && multiset(t) == multiset(u)
    ensures multiset(Candidates(norm, sig, t, whole)) == multiset(Candidates(norm, sig, u, whole))
  {
    if t == [] {
      assert |multiset(u)| == 0;
    } else {
      TakenOut(t, u);
      var k := Find(t[0], u);
      var p, q := u[..k], u[k + 1..];
      CandidatesOfReordered(norm, sig, t[1..], p + q, whole);
      CandidatesOfBoth(norm, sig, p, q, whole);
      CandidatesOfBoth(norm, sig, p + [t[0]], q, whole);
      CandidatesOfBoth(norm, sig, p, [t[0]], whole);
    }
  }

  /** The answer, its score and its margin do not depend on the order of the rows. */
  lemma RowOrderDoesNotMatter(norm: Vec -> real, sig: Signature, t: seq<Row>, u: seq<Row>)
    requires ValidSignature(sig) && AreasNotNegative(t) && AreasNotNegative(u) && multiset(t) == multiset(u)
    requires forall r, s :: r in t && s in t && r.index == s.index ==> r == s
    ensures Match(norm, sig, t) == Match(norm, sig, u)
  {
    var whole := TotalArea(t);
    TotalAreaOfReordered(t, u);
    CandidatesOfReordered(norm, sig, t, u, whole);
    var a, b := Rank(Candidates(norm, sig, t, whole)), Rank(Candidates(norm, sig, u, whole));
    RankRanked(Candidates(norm, sig, t, whole));
    RankRanked(Candidates(norm, sig, u, whole));
    forall x, y | x in a && y in a && x.row.index == y.row.index
      ensures x == y
    {
      assert x in multiset(a) && y in multiset(a);
      assert x in Candidates(norm, sig, t, whole) && y in Candidates(norm, sig, t, whole);
    }
    RankingUnique(a, b);
  }
}
