/** What the verdict of `anchors.match_face` says of the faces themselves: the limits, the area
    difference and the score in numbers, without the ranking they are found by. */
module FaceMeaning {
  import opened Options
  import opened FaceMatch

  // ------------------------------------------------------------ one row

  /** The same way up and nearly in the same place. */
  lemma CandidateIff(norm: Vec -> real, sig: Signature, row: Row)
    ensures Candidate(norm, sig, row) <==>
      && row.present
      && 100.0 * (sig.normal.x * row.normal.x + sig.normal.y * row.normal.y + sig.normal.z * row.normal.z) >= 99.0
      && 100.0 * norm(Vec(sig.uvw.x - row.uvw.x, sig.uvw.y - row.uvw.y, sig.uvw.z - row.uvw.z)) <= 15.0
  {
    assert Minus(sig.uvw, row.uvw) == Vec(sig.uvw.x - row.uvw.x, sig.uvw.y - row.uvw.y, sig.uvw.z - row.uvw.z);
  }

  /** A row adds its area to the part exactly when it is there, wherever it stands. */
  lemma TotalAreaWith(t: seq<Row>, row: Row, u: seq<Row>)
    ensures TotalArea(t + [row] + u) == TotalArea(t + u) + if row.present then row.area else 0.0
    ensures TotalArea([]) == 0.0
  {
    TotalAreaOfBoth(t, u);
    TotalAreaOfBoth(t + [row], u);
    TotalAreaOfBoth(t, [row]);
    assert TotalArea([row]) == if row.present then row.area else 0.0;
  }

  /** The larger of two areas, and a trillionth when both are below it. */
  ghost predicate Larger(larger: real, mine: real, theirs: real) {
    && larger >= mine && larger >= theirs && 1000000000000.0 * larger >= 1.0
    && (larger == mine || larger == theirs || 1000000000000.0 * larger == 1.0)
  }

  /** What a row's area is compared with: shares of the whole when the signature has one, else areas. */
  ghost predicate Compared(sig: Signature, row: Row, whole: real, mine: real, theirs: real) {
    match sig.frac
    case None => mine == sig.area && theirs == row.area
    case Some(frac) => mine == frac && if whole > 0.0 then theirs * whole == row.area else theirs == 0.0
  }

  lemma ShareOf(area: real, whole: real, theirs: real)
    requires area >= 0.0 && if whole > 0.0 then theirs * whole == area else theirs == 0.0
    ensures Share(area, whole) == theirs
  {
    if whole > 0.0 {
      assert area / whole == theirs;
    }
  }

  lemma QuotientTimes(a: real, b: real)
    requires b > 0.0
    ensures a / b * b == a
  {
  }

  lemma AreaRelMeans(mine: real, theirs: real, larger: real)
    requires mine >= 0.0 && theirs >= 0.0 && Larger(larger, mine, theirs)
    ensures AreaRel(mine, theirs) * larger == if theirs > mine then theirs - mine else mine - theirs
  {
    QuotientTimes(if theirs > mine then theirs - mine else mine - theirs, larger);
  }

  /** The area difference is the gap between the two as a part of the larger. */
  lemma RowRelMeans(sig: Signature, row: Row, whole: real, mine: real, theirs: real, larger: real)
    requires ValidSignature(sig) && row.area >= 0.0
    requires Compared(sig, row, whole, mine, theirs) && Larger(larger, mine, theirs)
    ensures RowRel(sig, row, whole) * larger == if theirs > mine then theirs - mine else mine - theirs
  {
    if sig.frac.Some? {
      ShareOf(row.area, whole, theirs);
    }
    AreaRelMeans(mine, theirs, larger);
  }

  /** A row scores one less what its turn, its area and its place cost it. */
  lemma ScoreLosses(norm: Vec -> real, sig: Signature, row: Row, whole: real)
    requires ValidSignature(sig) && row.area >= 0.0
    ensures var dot := sig.normal.x * row.normal.x + sig.normal.y * row.normal.y + sig.normal.z * row.normal.z;
      var away := norm(Vec(sig.uvw.x - row.uvw.x, sig.uvw.y - row.uvw.y, sig.uvw.z - row.uvw.z));
      30.0 * Score(norm, sig, row, whole) == 30.0 - 15.0 * (1.0 - dot) - 9.0 * RowRel(sig, row, whole) - 40.0 * away
  {
    var away := norm(Vec(sig.uvw.x - row.uvw.x, sig.uvw.y - row.uvw.y, sig.uvw.z - row.uvw.z));
    assert Minus(sig.uvw, row.uvw) == Vec(sig.uvw.x - row.uvw.x, sig.uvw.y - row.uvw.y, sig.uvw.z - row.uvw.z);
    assert away / UVW_DIST * 15.0 == 100.0 * away;
  }

  // ------------------------------------------------------------ the verdict

  /** Of two candidates the one with the higher score comes first, and at a tie the lower index. */
  ghost predicate Precedes(norm: Vec -> real, sig: Signature, whole: real, a: Row, b: Row)
    requires ValidSignature(sig) && a.area >= 0.0 && b.area >= 0.0
  {
    || Score(norm, sig, a, whole) > Score(norm, sig, b, whole)
    || (Score(norm, sig, a, whole) == Score(norm, sig, b, whole) && a.index <= b.index)
  }

  /** No candidate but `but` comes before this one. */
  ghost predicate Foremost(norm: Vec -> real, sig: Signature, table: seq<Row>, row: Row, but: Option<Row>)
    requires ValidSignature(sig) && AreasNotNegative(table)
  {
    && row in table && Candidate(norm, sig, row) && Some(row) != but
    && forall other :: other in table && Candidate(norm, sig, other) && Some(other) != but ==>
      Precedes(norm, sig, TotalArea(table), row, other)
  }

  /** Without a candidate there is no face, and nothing is scored. */
  lemma NoCandidateIff(norm: Vec -> real, sig: Signature, table: seq<Row>)
    requires ValidSignature(sig) && AreasNotNegative(table)
    ensures Match(norm, sig, table).answer == Err(NoCandidate) <==>
      forall row :: row in table ==> !Candidate(norm, sig, row)
    ensures Match(norm, sig, table).answer == Err(NoCandidate) ==>
      Match(norm, sig, table) == Verdict(Err(NoCandidate), 0.0, 0.0)
  {
    var c := Candidates(norm, sig, table, TotalArea(table));
    if Rank(c) != [] {
      RankHolds(c, Rank(c)[0]);
    }
    forall row | row in table && Candidate(norm, sig, row)
      ensures Rank(c) != []
    {
      RankHolds(c, ScoredRow(norm, sig, row, TotalArea(table)));
    }
  }

  lemma SameIndexSameRow(table: seq<Row>, a: Row, b: Row)
    requires DistinctIndices(table) && a in table && b in table && a.index == b.index
    ensures a == b
  {
  }

  /** The foremost candidate heads the ranking. */
  lemma ForemostIsFirst(norm: Vec -> real, sig: Signature, table: seq<Row>, best: Row)
    requires ValidSignature(sig) && AreasNotNegative(table) && DistinctIndices(table)
    requires Foremost(norm, sig, table, best, None)
    ensures var r := Rank(Candidates(norm, sig, table, TotalArea(table)));
      r != [] && r[0] == ScoredRow(norm, sig, best, TotalArea(table))
  {
    var whole := TotalArea(table);
    var c := Candidates(norm, sig, table, whole);
    var r, own := Rank(c), ScoredRow(norm, sig, best, whole);
    RankRanked(c);
    RankHolds(c, own);
    HeadComesFirst(r, own);
    RankHolds(c, r[0]);
    SameIndexSameRow(table, r[0].row, best);
  }

  lemma RivalsOf(norm: Vec -> real, sig: Signature, table: seq<Row>, best: Row)
    requires ValidSignature(sig) && AreasNotNegative(table) && DistinctIndices(table)
    requires Foremost(norm, sig, table, best, None)
    ensures (exists other :: Rival(norm, sig, table, best, other)) <==>
      |Rank(Candidates(norm, sig, table, TotalArea(table)))| > 1
  {
    RankingOfTable(norm, sig, table);
    AnyRivalIff(norm, sig, table, best);
  }

  /** A lone candidate is the answer only within three tenths of its area and with as many neighbours
      as the signature, when both counts are known. */
  lemma LoneVerdict(norm: Vec -> real, sig: Signature, table: seq<Row>, best: Row)
    requires ValidSignature(sig) && AreasNotNegative(table) && DistinctIndices(table)
    requires best in table && Candidate(norm, sig, best)
    requires forall other :: other in table && Candidate(norm, sig, other) ==> other == best
    ensures var rel, score := RowRel(sig, best, TotalArea(table)), Score(norm, sig, best, TotalArea(table));
      Match(norm, sig, table) == Verdict(
        if 10.0 * rel > 3.0 then Err(AreaMismatch)
        else if sig.neighbours != None && best.neighbours != None && sig.neighbours != best.neighbours then
          Err(TopologyMismatch)
        else Ok(best), score, score)
  {
    assert Foremost(norm, sig, table, best, None);
    ForemostIsFirst(norm, sig, table, best);
    RivalsOf(norm, sig, table, best);
  }

  /** With rivals, the foremost candidate must be a fifth ahead of the next and within half its area;
      neighbours are not asked. */
  lemma RivalledVerdict(norm: Vec -> real, sig: Signature, table: seq<Row>, best: Row, next: Row)
    requires ValidSignature(sig) && AreasNotNegative(table) && DistinctIndices(table)
    requires Foremost(norm, sig, table, best, None) && Foremost(norm, sig, table, next, Some(best))
    ensures var rel, score := RowRel(sig, best, TotalArea(table)), Score(norm, sig, best, TotalArea(table));
      var margin := score - Score(norm, sig, next, TotalArea(table));
      Match(norm, sig, table) == Verdict(
        if 10.0 * margin < 2.0 then Err(Ambiguous) else if 10.0 * rel > 5.0 then Err(AreaMismatch) else Ok(best),
        score, margin)
  {
    ForemostIsFirst(norm, sig, table, best);
    RivalsOf(norm, sig, table, best);
    assert Rival(norm, sig, table, best, next);
    NextIsSecond(norm, sig, table, best, next);
  }

  lemma NextIsSecond(norm: Vec -> real, sig: Signature, table: seq<Row>, best: Row, next: Row)
    requires ValidSignature(sig) && AreasNotNegative(table) && DistinctIndices(table)
    requires Foremost(norm, sig, table, best, None) && Foremost(norm, sig, table, next, Some(best))
    ensures var r := Rank(Candidates(norm, sig, table, TotalArea(table)));
      |r| > 1 && r[1].score == Score(norm, sig, next, TotalArea(table))
  {
    var whole := TotalArea(table);
    var c := Candidates(norm, sig, table, whole);
    var r, second := Rank(c), ScoredRow(norm, sig, next, whole);
    ForemostIsFirst(norm, sig, table, best);
    RankingOfTable(norm, sig, table);
    RivalsAreRanked(norm, sig, table, best);
    assert Rival(norm, sig, table, best, next);
    assert second in r && second != r[0];
    RunnerUpAtLeast(r, second);
    assert r[1] in r;
  }

  lemma HeadIsForemost(norm: Vec -> real, sig: Signature, table: seq<Row>)
    requires ValidSignature(sig) && AreasNotNegative(table)
    requires Rank(Candidates(norm, sig, table, TotalArea(table))) != []
    ensures Foremost(norm, sig, table, Rank(Candidates(norm, sig, table, TotalArea(table)))[0].row, None)
  {
    var whole := TotalArea(table);
    var c := Candidates(norm, sig, table, whole);
    var r := Rank(c);
    RankRanked(c);
    RankHolds(c, r[0]);
    forall other | other in table && Candidate(norm, sig, other)
      ensures Precedes(norm, sig, whole, r[0].row, other)
    {
      RankHolds(c, ScoredRow(norm, sig, other, whole));
      HeadComesFirst(r, ScoredRow(norm, sig, other, whole));
    }
  }

  lemma SecondIsNext(norm: Vec -> real, sig: Signature, table: seq<Row>)
    requires ValidSignature(sig) && AreasNotNegative(table) && DistinctIndices(table)
    requires |Rank(Candidates(norm, sig, table, TotalArea(table)))| > 1
    ensures var r := Rank(Candidates(norm, sig, table, TotalArea(table)));
      Foremost(norm, sig, table, r[1].row, Some(r[0].row))
  {
    var whole := TotalArea(table);
    var c := Candidates(norm, sig, table, whole);
    var r := Rank(c);
    RankingOfTable(norm, sig, table);
    RankHolds(c, r[0]);
    RankHolds(c, r[1]);
    forall other | other in table && Candidate(norm, sig, other) && other != r[0].row
      ensures Precedes(norm, sig, whole, r[1].row, other)
    {
      RankHolds(c, ScoredRow(norm, sig, other, whole));
      HeadComesFirst(r[1..], ScoredRow(norm, sig, other, whole));
    }
  }

  /** With a candidate there is a foremost one, and it is alone or has a next: one of the two verdicts above. */
  lemma LoneOrRivalled(norm: Vec -> real, sig: Signature, table: seq<Row>, row: Row)
    requires ValidSignature(sig) && AreasNotNegative(table) && DistinctIndices(table)
    requires row in table && Candidate(norm, sig, row)
    ensures (forall other :: other in table && Candidate(norm, sig, other) ==> other == row)
      || exists best, next :: Foremost(norm, sig, table, best, None) && Foremost(norm, sig, table, next, Some(best))
  {
    if other :| other in table && Candidate(norm, sig, other) && other != row {
      assert Rival(norm, sig, table, row, other);
      RankingOfTable(norm, sig, table);
      AnyRivalIff(norm, sig, table, row);
      HeadIsForemost(norm, sig, table);
      SecondIsNext(norm, sig, table);
    }
  }
}
