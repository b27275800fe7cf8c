/** What the resolver of script ranges answers, said from the lines themselves: where a stretch of
    lines stands, which stored context speaks against it, and which lines a diff carries over. */
module ScriptResolution {
  import opened Integers
  import opened Options
  import opened ScriptRange

  /** The lines `part` stand in the file from position `o` on. */
  predicate StandsAt(lines: seq<string>, part: seq<string>, o: int) {
    0 <= o <= |lines| - |part| && forall i :: 0 <= i < |part| ==> lines[o + i] == part[i]
  }

  lemma SameStretch(lines: seq<string>, part: seq<string>, o: nat)
    ensures StandsAt(lines, part, o) <==> o + |part| <= |lines| && lines[o..o + |part|] == part
  {
    if o + |part| <= |lines| && lines[o..o + |part|] == part {
      forall i | 0 <= i < |part|
        ensures lines[o + i] == part[i]
      {
        assert lines[o..o + |part|][i] == part[i];
      }
    }
  }

  lemma SliceStands(lines: seq<string>, part: seq<string>, o: nat)
    requires part != []
    ensures Slice(lines, o, o + |part|) == part <==> StandsAt(lines, part, o)
  {
    SameStretch(lines, part, o);
  }

  lemma AboveStands(lines: seq<string>, before: seq<string>, o: nat)
    requires before != []
    ensures Above(lines, o, before) == before <==> StandsAt(lines, before, o - |before|)
  {
    if o >= |before| {
      SliceStands(lines, before, o - |before|);
    }
  }

  // ------------------------------------------------------------ what an anchor stores

  /** The kept body is the longest head of the range that has at most 40 lines and at most 4096
      bytes of text. */
  lemma KeptIsLongest(lines: seq<string>, start: nat, end: nat, k: nat)
    requires 1 <= start <= end <= |lines| && k <= end - start + 1
    ensures var head := lines[start - 1..end][..k];
      && (0 < k == |Kept(lines, start, end)| ==> k <= 40 && Bytes(Join(head)) <= 4096)
      && (k > |Kept(lines, start, end)| ==> k > 40 || Bytes(Join(head)) > 4096)
  {
    var range := lines[start - 1..end];
    var body := Slice(range, 0, MAX_SNIPPET_LINES);
    if k <= |body| {
      assert body[..k] == range[..k];
      CappedIsLongest(body, k);
    }
  }

  /** The stored context is the up to three lines right above the range and the up to three right
      below it. */
  lemma ContextStands(lines: seq<string>, start: nat, end: nat)
    requires 1 <= start <= end <= |lines|
    ensures var above := ContextAbove(lines, start);
      |above| == Min(3, start - 1) && StandsAt(lines, above, start - 1 - |above|)
    ensures var below := ContextBelow(lines, end);
      |below| == Min(3, |lines| - end) && StandsAt(lines, below, end)
  {
  }

  // ------------------------------------------------------------ where the snippet is found

  /** The number of stored sides, above and below, that are where the snippet at `o` wants them. */
  function Votes(lines: seq<string>, span: nat, before: seq<string>, after: seq<string>, o: int): nat {
    (if before != [] && StandsAt(lines, before, o - |before|) then 1 else 0)
    + (if after != [] && StandsAt(lines, after, o + span) then 1 else 0)
  }

  /** Some stored side is not. */
  predicate Opposed(lines: seq<string>, span: nat, before: seq<string>, after: seq<string>, o: int) {
    || (before != [] && !StandsAt(lines, before, o - |before|))
    || (after != [] && !StandsAt(lines, after, o + span))
  }

  ghost predicate OnlyCopy(lines: seq<string>, snippet: seq<string>, o: nat) {
    StandsAt(lines, snippet, o) && forall p: nat :: StandsAt(lines, snippet, p) ==> p == o
  }

  /** A copy of the snippet the search accepts: the only one, with no stored side against it, or one
      of several that no other has more sides for. */
  ghost predicate Accepted(lines: seq<string>, snippet: seq<string>, before: seq<string>, after: seq<string>, o: nat) {
    && snippet != [] && StandsAt(lines, snippet, o)
    && (OnlyCopy(lines, snippet, o) ==> !Opposed(lines, |snippet|, before, after, o))
    && forall p: nat :: StandsAt(lines, snippet, p) ==>
         Votes(lines, |snippet|, before, after, p) <= Votes(lines, |snippet|, before, after, o)
  }

  lemma SidesStand(lines: seq<string>, span: nat, before: seq<string>, after: seq<string>, o: nat)
    ensures Agree(lines, span, before, after, o) == Votes(lines, span, before, after, o)
    ensures Contradicted(lines, span, before, after, o) <==> Opposed(lines, span, before, after, o)
  {
    if before != [] {
      AboveStands(lines, before, o);
    }
    if after != [] {
      SliceStands(lines, after, o + span);
    }
  }

  lemma HitsStand(lines: seq<string>, snippet: seq<string>, o: nat)
    ensures o in Hits(lines, snippet, |lines| + 1) <==> StandsAt(lines, snippet, o)
  {
    SameStretch(lines, snippet, o);
  }

  lemma OneHit(lines: seq<string>, snippet: seq<string>, o: nat)
    requires StandsAt(lines, snippet, o)
    ensures |Hits(lines, snippet, |lines| + 1)| == 1 <==> OnlyCopy(lines, snippet, o)
  {
    var hits := Hits(lines, snippet, |lines| + 1);
    HitsStand(lines, snippet, o);
    if |hits| == 1 {
      forall p: nat | StandsAt(lines, snippet, p)
        ensures p == o
      {
        HitsStand(lines, snippet, p);
      }
    } else {
      HitsIncrease(lines, snippet, |lines| + 1);
      HitsStand(lines, snippet, hits[0]);
      HitsStand(lines, snippet, hits[1]);
    }
  }

  /** With rivals, the copies with the most sides for them are kept, all of them. */
  lemma BestIff(lines: seq<string>, snippet: seq<string>, before: seq<string>, after: seq<string>, o: nat)
    requires StandsAt(lines, snippet, o)
    ensures var hits := Hits(lines, snippet, |lines| + 1);
      var best := Best(lines, |snippet|, before, after, hits);
      o in Filter(lines, |snippet|, before, after, hits, best) <==>
      forall p: nat :: StandsAt(lines, snippet, p) ==>
        Votes(lines, |snippet|, before, after, p) <= Votes(lines, |snippet|, before, after, o)
  {
    var hits := Hits(lines, snippet, |lines| + 1);
    var best := Best(lines, |snippet|, before, after, hits);
    HitsStand(lines, snippet, o);
    SidesStand(lines, |snippet|, before, after, o);
    forall p: nat | StandsAt(lines, snippet, p)
      ensures p in hits && Agree(lines, |snippet|, before, after, p) == Votes(lines, |snippet|, before, after, p)
    {
      HitsStand(lines, snippet, p);
      SidesStand(lines, |snippet|, before, after, p);
    }
    var top :| top in hits && Agree(lines, |snippet|, before, after, top) == best;
    HitsStand(lines, snippet, top);
  }

  /** The exact search finds exactly the accepted copies. */
  lemma FoundIff(lines: seq<string>, snippet: seq<string>, before: seq<string>, after: seq<string>, o: nat)
    ensures o in Found(lines, snippet, before, after) <==> Accepted(lines, snippet, before, after, o)
  {
    var hits := Hits(lines, snippet, |lines| + 1);
    HitsStand(lines, snippet, o);
    if snippet != [] && StandsAt(lines, snippet, o) {
      OneHit(lines, snippet, o);
      SidesStand(lines, |snippet|, before, after, o);
      if |hits| > 1 {
        BestIff(lines, snippet, before, after, o);
      }
    } else if |hits| > 1 {
      assert forall p :: p in Found(lines, snippet, before, after) ==> p in hits;
    }
  }

  predicate Increasing(s: seq<nat>) {
    forall i, j :: 0 <= i < j < |s| ==> s[i] < s[j]
  }

  lemma {:induction false} FilterIncreases(lines: seq<string>, span: nat, before: seq<string>, after: seq<string>,
                                           hits: seq<nat>, best: nat)
    requires Increasing(hits)
    ensures Increasing(Filter(lines, span, before, after, hits, best))
  {
    if hits != [] {
      var front, last := hits[..|hits| - 1], hits[|hits| - 1];
      FilterIncreases(lines, span, before, after, front, best);
      AppendIncreases(Filter(lines, span, before, after, front, best), front, last);
    }
  }

  lemma AppendIncreases(r: seq<nat>, front: seq<nat>, last: nat)
    requires Increasing(r) && Increasing(front + [last]) && forall x :: x in r ==> x in front
    ensures Increasing(r + [last])
  {
    forall i | 0 <= i < |r|
      ensures r[i] < last
    {
      assert r[i] in r;
      var k :| 0 <= k < |front| && front[k] == r[i];
      assert (front + [last])[k] < (front + [last])[|front|];
    }
  }

  lemma FoundIncreases(lines: seq<string>, snippet: seq<string>, before: seq<string>, after: seq<string>)
    ensures Increasing(Found(lines, snippet, before, after))
  {
    var hits := Hits(lines, snippet, |lines| + 1);
    HitsIncrease(lines, snippet, |lines| + 1);
    FilterIncreases(lines, |snippet|, before, after, hits, Best(lines, |snippet|, before, after, hits));
  }

  /** The one accepted copy. */
  ghost predicate Pinned(lines: seq<string>, snippet: seq<string>, before: seq<string>, after: seq<string>, o: nat) {
    && Accepted(lines, snippet, before, after, o)
    && forall p: nat :: Accepted(lines, snippet, before, after, p) ==> p == o
  }

  lemma OneFoundIff(lines: seq<string>, snippet: seq<string>, before: seq<string>, after: seq<string>, o: nat)
    ensures Found(lines, snippet, before, after) == [o] <==> Pinned(lines, snippet, before, after, o)
  {
    var found := Found(lines, snippet, before, after);
    forall p: nat
      ensures p in found <==> Accepted(lines, snippet, before, after, p)
    {
      FoundIff(lines, snippet, before, after, p);
    }
    FoundIncreases(lines, snippet, before, after);
    OneMember(found, o);
  }

  lemma OneMember(s: seq<nat>, o: nat)
    requires Increasing(s)
    ensures s == [o] <==> o in s && forall p :: p in s ==> p == o
  {
    if |s| > 1 {
      assert s[0] in s && s[1] in s;
    } else if |s| == 1 {
      assert s == [s[0]];
    }
  }

  lemma PinnedIff(lines: seq<string>, snippet: seq<string>, before: seq<string>, after: seq<string>)
    ensures var found := Found(lines, snippet, before, after);
      && (|found| == 1 <==> exists o: nat :: Pinned(lines, snippet, before, after, o))
      && (|found| == 1 ==> Pinned(lines, snippet, before, after, found[0]))
  {
    var found := Found(lines, snippet, before, after);
    if |found| == 1 {
      assert found == [found[0]];
      OneFoundIff(lines, snippet, before, after, found[0]);
    }
    if o: nat :| Pinned(lines, snippet, before, after, o) {
      OneFoundIff(lines, snippet, before, after, o);
    }
  }

  // ------------------------------------------------------------ what a diff carries over

  predicate Holding(b: Block, k: int) {
    b.i <= k < b.i + b.len
  }

  /** Line `k` of the old text is in some equal block. */
  predicate Survives(blocks: seq<Block>, k: int) {
    exists b :: b in blocks && Holding(b, k)
  }

  /** And it is line `j` of the new text there. */
  predicate Carried(blocks: seq<Block>, k: int, j: int) {
    exists b :: b in blocks && Holding(b, k) && j == b.j + k - b.i
  }

  predicate InOrder(blocks: seq<Block>) {
    forall x, y :: 0 <= x < y < |blocks| ==> Precedes(blocks[x], blocks[y])
  }

  /** The line map is that: it knows exactly the lines of the blocks, each where its block puts it. */
  lemma {:induction false} MappingIff(blocks: seq<Block>, k: int)
    requires InOrder(blocks)
    ensures k in Mapping(blocks) <==> Survives(blocks, k)
    ensures forall b :: b in blocks && Holding(b, k) ==> k in Mapping(blocks) && Mapping(blocks)[k] == b.j + k - b.i
  {
    if blocks != [] {
      var front, last := blocks[..|blocks| - 1], blocks[|blocks| - 1];
      assert blocks == front + [last];
      MappingIff(front, k);
      MappingWithin(front, last);
      assert Survives(blocks, k) <==> Survives(front, k) || Holding(last, k);
    }
  }

  lemma CarriedMapped(blocks: seq<Block>, k: int, j: int)
    requires InOrder(blocks)
    ensures Carried(blocks, k, j) <==> k in Mapping(blocks) && Mapping(blocks)[k] == j
  {
    MappingIff(blocks, k);
  }

  /** The lines of `lo..hi` that survive. */
  ghost function Alive(blocks: seq<Block>, lo: int, hi: int): set<int> {
    set k | lo <= k < hi && Survives(blocks, k)
  }

  lemma {:induction false} SurvivorsAlive(blocks: seq<Block>, lo: int, hi: int)
    requires InOrder(blocks) && lo <= hi
    ensures |Survivors(Mapping(blocks), lo, hi)| == |Alive(blocks, lo, hi)|
    decreases hi - lo
  {
    if lo < hi {
      SurvivorsAlive(blocks, lo, hi - 1);
      MappingIff(blocks, hi - 1);
      OneMoreAlive(blocks, lo, hi);
    }
  }

  lemma OneMoreAlive(blocks: seq<Block>, lo: int, hi: int)
    requires lo < hi
    ensures |Alive(blocks, lo, hi)| == |Alive(blocks, lo, hi - 1)| + if Survives(blocks, hi - 1) then 1 else 0
  {
    var few := Alive(blocks, lo, hi - 1);
    assert Alive(blocks, lo, hi) == if Survives(blocks, hi - 1) then few + {hi - 1} else few;
  }

  /** Line `k` is the first of the range to survive, as line `j`. */
  ghost predicate FirstCarried(blocks: seq<Block>, lo: int, hi: int, k: int, j: int) {
    k in Alive(blocks, lo, hi) && Carried(blocks, k, j) && forall l :: l in Alive(blocks, lo, hi) ==> k <= l
  }

  ghost predicate LastCarried(blocks: seq<Block>, lo: int, hi: int, k: int, j: int) {
    k in Alive(blocks, lo, hi) && Carried(blocks, k, j) && forall l :: l in Alive(blocks, lo, hi) ==> l <= k
  }

  /** Both ends of a diff's answer: where the first surviving line of the range went, and the last. */
  ghost predicate RightEnds(blocks: seq<Block>, lo: int, hi: int, start: int, end: int) {
    && (forall k, j :: FirstCarried(blocks, lo, hi, k, j) ==> start == j + 1)
    && (forall k, j :: LastCarried(blocks, lo, hi, k, j) ==> end == j + 1)
  }

  /** The meaning of an answer after a diff by which `alive` lines of the range survive: it is given
      exactly when they are at least six in ten; it runs from where the first of them went to where
      the last went; its confidence is the surviving share; and it is in place exactly when both ends
      are the anchor's. */
  ghost predicate DiffAnswer(a: Anchor, blocks: seq<Block>, alive: nat, otherBranch: bool, r: Resolution) {
    var n := a.end - a.start + 1;
    if 10 * alive >= 6 * n then
      && Answers(r) && RightEnds(blocks, a.start - 1, a.end, r.start, r.end)
      && r.confidence * n as real == alive as real
      && (r.InPlace? <==> r.start == a.start && r.end == a.end)
    else
      r == if otherBranch then Unverified(OtherBranch)
           else Orphaned(if alive == 0 then LinesRemoved else LowConfidence)
  }

  lemma FirstMapped(m: map<int, int>, start: nat, end: nat, k: int)
    requires 1 <= start <= end && OrderPreserving(m)
    requires start - 1 <= k < end && k in m && NoneSurvives(m, start - 1, k)
    ensures MapRange(m, start, end).Some? && MapRange(m, start, end).value.start == m[k] + 1
  {
    LeastIsFirst(m, start - 1, end, k);
  }

  lemma LastMapped(m: map<int, int>, start: nat, end: nat, k: int)
    requires 1 <= start <= end && OrderPreserving(m)
    requires start - 1 <= k < end && k in m && NoneSurvives(m, k + 1, end)
    ensures MapRange(m, start, end).Some? && MapRange(m, start, end).value.end == m[k] + 1
  {
    GreatestIsLast(m, start - 1, end, k);
  }

  lemma FirstCarriedMapped(blocks: seq<Block>, start: nat, end: nat, k: int, j: int)
    requires 1 <= start <= end && InOrder(blocks) && OrderPreserving(Mapping(blocks))
    requires FirstCarried(blocks, start - 1, end, k, j)
    ensures var r := MapRange(Mapping(blocks), start, end); r.Some? && r.value.start == j + 1
  {
    CarriedMapped(blocks, k, j);
    forall l | start - 1 <= l < k
      ensures l !in Mapping(blocks)
    {
      assert l !in Alive(blocks, start - 1, end);
      MappingIff(blocks, l);
    }
    FirstMapped(Mapping(blocks), start, end, k);
  }

  lemma LastCarriedMapped(blocks: seq<Block>, start: nat, end: nat, k: int, j: int)
    requires 1 <= start <= end && InOrder(blocks) && OrderPreserving(Mapping(blocks))
    requires LastCarried(blocks, start - 1, end, k, j)
    ensures var r := MapRange(Mapping(blocks), start, end); r.Some? && r.value.end == j + 1
  {
    CarriedMapped(blocks, k, j);
    forall l | k < l < end
      ensures l !in Mapping(blocks)
    {
      assert l !in Alive(blocks, start - 1, end);
      MappingIff(blocks, l);
    }
    LastMapped(Mapping(blocks), start, end, k);
  }

  lemma ShareTimes(k: nat, n: nat)
    requires n > 0
    ensures k as real / n as real * n as real == k as real
  {
  }

  lemma MapRangeEnds(blocks: seq<Block>, start: nat, end: nat, lo: int)
    requires 1 <= start <= end && lo == start - 1 && InOrder(blocks) && OrderPreserving(Mapping(blocks))
    ensures var r := MapRange(Mapping(blocks), start, end);
      r.Some? ==> RightEnds(blocks, lo, end, r.value.start, r.value.end)
  {
    var r := MapRange(Mapping(blocks), start, end);
    if r.Some? {
      forall k, j | FirstCarried(blocks, lo, end, k, j)
        ensures r.value.start == j + 1
      {
        FirstCarriedMapped(blocks, start, end, k, j);
      }
      forall k, j | LastCarried(blocks, lo, end, k, j)
        ensures r.value.end == j + 1
      {
        LastCarriedMapped(blocks, start, end, k, j);
      }
    }
  }

  lemma FromMapMeans(a: Anchor, blocks: seq<Block>, mapped: Option<Mapped>, alive: nat, otherBranch: bool)
    requires 1 <= a.start <= a.end && (mapped.None? <==> alive == 0)
    requires mapped.Some? ==>
      && mapped.value.confidence == alive as real / (a.end - a.start + 1) as real
      && RightEnds(blocks, a.start - 1, a.end, mapped.value.start, mapped.value.end)
    ensures DiffAnswer(a, blocks, alive, otherBranch, FromMap(a, mapped, otherBranch))
  {
    ShareAtLeast(alive, a.end - a.start + 1);
    ShareTimes(alive, a.end - a.start + 1);
  }

  /** The answer of a diff, in terms of its blocks. */
  ghost predicate DiffOwed(a: Anchor, blob: Blob, otherBranch: bool, r: Resolution) {
    DiffAnswer(a, blob.blocks, |Alive(blob.blocks, a.start - 1, a.end)|, otherBranch, r)
  }

  lemma MapRangeCounts(m: map<int, int>, start: nat, end: nat)
    requires 1 <= start <= end
    ensures MapRange(m, start, end).None? <==> |Survivors(m, start - 1, end)| == 0
    ensures MapRange(m, start, end).Some? ==>
      MapRange(m, start, end).value.confidence == |Survivors(m, start - 1, end)| as real / (end - start + 1) as real
  {
  }

  /** The answers of a diff mean what they should. */
  lemma ByDiffMeans(a: Anchor, lines: seq<string>, blob: Blob, otherBranch: bool)
    requires 1 <= a.start <= a.end && EqualBlocks(blob.lines, lines, blob.blocks)
    ensures DiffOwed(a, blob, otherBranch, ByDiff(a, blob, otherBranch))
  {
    MappingFaithful(blob.lines, lines, blob.blocks);
    MapsMean(a, blob, otherBranch);
  }

  lemma MapsMean(a: Anchor, blob: Blob, otherBranch: bool)
    requires 1 <= a.start <= a.end && InOrder(blob.blocks) && OrderPreserving(Mapping(blob.blocks))
    ensures DiffOwed(a, blob, otherBranch, ByDiff(a, blob, otherBranch))
  {
    var m := Mapping(blob.blocks);
    SurvivorsAlive(blob.blocks, a.start - 1, a.end);
    MapRangeCounts(m, a.start, a.end);
    MapRangeEnds(blob.blocks, a.start, a.end, a.start - 1);
    FromMapMeans(a, blob.blocks, MapRange(m, a.start, a.end), |Alive(blob.blocks, a.start - 1, a.end)|, otherBranch);
  }

  // ------------------------------------------------------------ the resolver

  /** What an anchor stored, as lines. */
  datatype Evidence = Evidence(snippet: seq<string>, before: seq<string>, after: seq<string>)

  function Stored(a: Anchor): Evidence {
    Evidence(Lines(a.snippet), Lines(a.before), Lines(a.after))
  }

  /** Stored context does not stand around the anchor's own range. */
  predicate ContextMoved(lines: seq<string>, e: Evidence, start: nat, end: nat) {
    || (e.before != [] && !StandsAt(lines, e.before, start - 1 - |e.before|))
    || (e.after != [] && !StandsAt(lines, e.after, end))
  }

  ghost predicate PinnedFor(lines: seq<string>, e: Evidence, o: nat) {
    Pinned(lines, e.snippet, e.before, e.after, o)
  }

  /** A verbatim hit: the one accepted copy, over the anchor's own length as far as the file goes. */
  ghost predicate VerbatimAnswer(a: Anchor, lines: seq<string>, e: Evidence, r: Resolution) {
    && r.Moved? && r.confidence == 1.0 && r.start >= 1 && PinnedFor(lines, e, r.start - 1)
    && (if r.start + (a.end - a.start) <= |lines| then r.end - r.start == a.end - a.start else r.end == |lines|)
  }

  ghost predicate SomePinned(lines: seq<string>, e: Evidence) {
    exists o: nat :: PinnedFor(lines, e, o)
  }

  /** Text and context both in place are believed; else the one accepted copy elsewhere; else the diff,
      if there is one; and without a diff what is at its address stays. */
  ghost predicate OwedBy(a: Anchor, home: bool, moved: bool, pinned: bool, verbatim: bool, diff: bool,
                         diffOwed: bool, r: Resolution) {
    if home && !moved then r == InPlace(a.start, a.end, 1.0)
    else if !home && pinned then verbatim
    else if diff then diffOwed
    else r == if home then InPlace(a.start, a.end, 1.0) else Unverified(NoBlob)
  }

  /** What the resolver owes. */
  ghost predicate Owed(a: Anchor, lines: seq<string>, blob: Option<Blob>, otherBranch: bool, r: Resolution) {
    var e := Stored(a);
    if e.snippet == [] then r == Unverified(NoSnippet)
    else
      OwedBy(a, StandsAt(lines, e.snippet, a.start - 1), ContextMoved(lines, e, a.start, a.end), SomePinned(lines, e),
             VerbatimAnswer(a, lines, e, r), blob.Some?, BlobOwed(a, blob, otherBranch, r), r)
  }

  ghost predicate BlobOwed(a: Anchor, blob: Option<Blob>, otherBranch: bool, r: Resolution) {
    blob.Some? && DiffOwed(a, blob.value, otherBranch, r)
  }

  lemma DisputedIff(lines: seq<string>, a: Anchor, e: Evidence)
    requires 1 <= a.start && e == Stored(a)
    ensures Disputed(lines, a) <==> ContextMoved(lines, e, a.start, a.end)
  {
    if e.before != [] {
      AboveStands(lines, e.before, a.start - 1);
    }
    if e.after != [] {
      SliceStands(lines, e.after, a.end);
    }
  }

  lemma VerbatimSettles(a: Anchor, lines: seq<string>, e: Evidence, hits: seq<nat>)
    requires 1 <= a.start <= a.end && hits == Found(lines, e.snippet, e.before, e.after) && |hits| == 1
    ensures VerbatimAnswer(a, lines, e,
      Moved(hits[0] + 1, Min(hits[0] + 1 + (a.end - a.start), |lines|), 1.0))
  {
    PinnedIff(lines, e.snippet, e.before, e.after);
  }

  lemma PinnedForIff(lines: seq<string>, e: Evidence, hits: seq<nat>)
    requires hits == Found(lines, e.snippet, e.before, e.after)
    ensures |hits| == 1 <==> SomePinned(lines, e)
  {
    PinnedIff(lines, e.snippet, e.before, e.after);
    if |hits| == 1 {
      assert PinnedFor(lines, e, hits[0]);
    }
    if o: nat :| PinnedFor(lines, e, o) {
      assert Pinned(lines, e.snippet, e.before, e.after, o);
    }
  }

  lemma DecideAsOwed(a: Anchor, home: bool, moved: bool, hits: seq<nat>, total: nat, diff: Option<Resolution>,
                     pinned: bool, verbatim: bool, diffOwed: bool)
    requires 1 <= a.start <= a.end && (|hits| == 1 <==> pinned)
    requires var r := Decide(a, home, moved, hits, total, diff);
      && (|hits| == 1 && r == Moved(hits[0] + 1, Min(hits[0] + 1 + (a.end - a.start), total), 1.0) ==> verbatim)
      && (diff == Some(r) ==> diffOwed)
    ensures OwedBy(a, home, moved, pinned, verbatim, diff.Some?, diffOwed, Decide(a, home, moved, hits, total, diff))
  {
  }

  lemma ResolveDecides(a: Anchor, lines: seq<string>, e: Evidence, blob: Option<Blob>, otherBranch: bool)
    requires 1 <= a.start <= a.end && e == Stored(a) && e.snippet != []
    ensures Resolve(a, lines, blob, otherBranch)
      == Decide(a, AtHome(lines, e.snippet, a.start), Disputed(lines, a), Found(lines, e.snippet, e.before, e.after),
                |lines|, Diffed(a, blob, otherBranch))
  {
  }

  function Diffed(a: Anchor, blob: Option<Blob>, otherBranch: bool): Option<Resolution>
    requires 1 <= a.start <= a.end
  {
    if blob.None? then None else Some(ByDiff(a, blob.value, otherBranch))
  }

  lemma DiffedOwed(a: Anchor, lines: seq<string>, blob: Option<Blob>, otherBranch: bool, r: Resolution)
    requires 1 <= a.start <= a.end && Diffed(a, blob, otherBranch) == Some(r)
    requires blob.Some? ==> EqualBlocks(blob.value.lines, lines, blob.value.blocks)
    ensures BlobOwed(a, blob, otherBranch, r)
  {
    ByDiffMeans(a, lines, blob.value, otherBranch);
  }

  lemma StoredAsOwed(a: Anchor, lines: seq<string>, e: Evidence, hits: seq<nat>, blob: Option<Blob>,
                     diff: Option<Resolution>, otherBranch: bool, r: Resolution)
    requires 1 <= a.start <= a.end && e.snippet != [] && hits == Found(lines, e.snippet, e.before, e.after)
    requires r == Decide(a, StandsAt(lines, e.snippet, a.start - 1), ContextMoved(lines, e, a.start, a.end), hits,
                         |lines|, diff)
    requires diff.Some? <==> blob.Some?
    requires diff == Some(r) ==> BlobOwed(a, blob, otherBranch, r)
    ensures OwedBy(a, StandsAt(lines, e.snippet, a.start - 1), ContextMoved(lines, e, a.start, a.end),
                   SomePinned(lines, e), VerbatimAnswer(a, lines, e, r), blob.Some?,
                   BlobOwed(a, blob, otherBranch, r), r)
  {
    PinnedForIff(lines, e, hits);
    if |hits| == 1 {
      VerbatimSettles(a, lines, e, hits);
    }
    DecideAsOwed(a, StandsAt(lines, e.snippet, a.start - 1), ContextMoved(lines, e, a.start, a.end), hits, |lines|,
                 diff, SomePinned(lines, e), VerbatimAnswer(a, lines, e, r), BlobOwed(a, blob, otherBranch, r));
  }

  /** Every answer of the resolver is the one owed, for any anchor, file and blob. */
  lemma ResolveAnswersAsOwed(a: Anchor, lines: seq<string>, blob: Option<Blob>, otherBranch: bool)
    requires 1 <= a.start <= a.end
    requires blob.Some? ==> EqualBlocks(blob.value.lines, lines, blob.value.blocks)
    ensures Owed(a, lines, blob, otherBranch, Resolve(a, lines, blob, otherBranch))
  {
    var (e, r, diff) := (Stored(a), Resolve(a, lines, blob, otherBranch), Diffed(a, blob, otherBranch));
    if e.snippet != [] {
      ResolveDecides(a, lines, e, blob, otherBranch);
      DisputedIff(lines, a, e);
      SliceStands(lines, e.snippet, a.start - 1);
      if diff == Some(r) {
        DiffedOwed(a, lines, blob, otherBranch, r);
      }
      StoredAsOwed(a, lines, e, Found(lines, e.snippet, e.before, e.after), blob, diff, otherBranch, r);
    }
  }
}
