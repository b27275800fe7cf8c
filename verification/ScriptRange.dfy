/** Anchors on a range of script lines: the evidence they store, the exact search, the line map and
    the two-tier resolver of `anchors.py`. */
module ScriptRange {
  import Arith
  import opened Integers
  import opened Options

  const MAX_SNIPPET_LINES := 40
  const MAX_SNIPPET_BYTES := 4096
  const CONTEXT_LINES := 3
  const LINE_CONFIDENCE_MIN := 0.6

  // ------------------------------------------------------------ lines of a text

  /** The characters at which `str.splitlines` ends a line. */
  predicate IsBreak(c: char) {
    c in {'\n', '\r', '\U{0B}', '\U{0C}', '\U{1C}', '\U{1D}', '\U{1E}', '\U{85}', '\U{2028}', '\U{2029}'}
  }

  predicate OneLine(s: string) {
    forall c :: c in s ==> !IsBreak(c)
  }

  predicate AllOneLine(lines: seq<string>) {
    forall s :: s in lines ==> OneLine(s)
  }

  /** Where the first line of a text stops. */
  function LineEnd(text: string): (k: nat)
    ensures k <= |text| && OneLine(text[..k]) && (k < |text| ==> IsBreak(text[k]))
  {
    if text == "" || IsBreak(text[0]) then 0
    else
      var k := 1 + LineEnd(text[1..]);
      assert text[..k] == [text[0]] + text[1..][..k - 1];
      k
  }

  /** What is left behind that line and its break; a carriage return takes its line feed along. */
  function Behind(text: string, k: nat): (rest: string)
    requires k <= |text|
    ensures text != "" ==> |rest| < |text|
  {
    if k == |text| then ""
    else if text[k] == '\r' && k + 1 < |text| && text[k + 1] == '\n' then text[k + 2..]
    else text[k + 1..]
  }

  /** `str.splitlines`. */
  function Lines(text: string): (lines: seq<string>)
    ensures AllOneLine(lines)
    decreases |text|
  {
    if text == "" then []
    else
      var k := LineEnd(text);
      [text[..k]] + Lines(Behind(text, k))
  }

  /** `"\n".join`. */
  function Join(lines: seq<string>): string {
    if lines == [] then ""
    else if |lines| == 1 then lines[0]
    else lines[0] + "\n" + Join(lines[1..])
  }

  /** What a join cannot carry: one blank line at the end. */
  function WithoutBlankEnd(lines: seq<string>): seq<string> {
    if lines != [] && lines[|lines| - 1] == "" then lines[..|lines| - 1] else lines
  }

  lemma {:induction false} LineEndOf(line: string, rest: string)
    requires OneLine(line) && (rest == "" || IsBreak(rest[0]))
    ensures LineEnd(line + rest) == |line|
  {
    if line == "" {
      assert line + rest == rest;
    } else {
      assert line[0] in line;
      assert (line + rest)[1..] == line[1..] + rest;
      LineEndOf(line[1..], rest);
    }
  }

  lemma LinesOfFirst(head: string, rest: string)
    requires OneLine(head)
    ensures Lines(head + "\n" + rest) == [head] + Lines(rest)
  {
    var text := head + "\n" + rest;
    LineEndOf(head, "\n" + rest);
    assert text == head + ("\n" + rest);
    assert text[..|head|] == head && text[|head|] == '\n' && text[|head| + 1..] == rest;
  }

  lemma LinesOfOne(line: string)
    requires OneLine(line)
    ensures Lines(line) == if line == "" then [] else [line]
  {
    LineEndOf(line, "");
    assert line + "" == line && line[..|line|] == line;
  }

  lemma BlankEndOfTail(lines: seq<string>)
    requires |lines| > 1
    ensures WithoutBlankEnd(lines) == [lines[0]] + WithoutBlankEnd(lines[1..])
  {
    assert lines[1..][|lines| - 2] == lines[|lines| - 1];
  }

  /** Joining lines and splitting them again loses exactly one trailing blank line. */
  lemma {:induction false} LinesOfJoin(lines: seq<string>)
    requires AllOneLine(lines)
    ensures Lines(Join(lines)) == WithoutBlankEnd(lines)
  {
    if |lines| == 1 {
      LinesOfOne(lines[0]);
      assert lines == [lines[0]];
    } else if |lines| > 1 {
      LinesOfFirst(lines[0], Join(lines[1..]));
      LinesOfJoin(lines[1..]);
      BlankEndOfTail(lines);
    }
  }

  // ------------------------------------------------------------ the stored evidence

  datatype Anchor = Anchor(start: nat, end: nat, snippet: string, before: string, after: string)

  function Utf8Width(c: char): nat {
    var n := c as int;
    if n < 0x80 then 1 else if n < 0x800 then 2 else if n < 0x10000 then 3 else 4
  }

  function Bytes(s: string): nat {
    if s == "" then 0 else Utf8Width(s[0]) + Bytes(s[1..])
  }

  /** `lines[a:b]` for indices that are not negative. */
  function Slice<T>(s: seq<T>, a: nat, b: nat): (r: seq<T>)
    ensures a <= b <= |s| ==> r == s[a..b]
  {
    if a <= Min(b, |s|) then s[a..Min(b, |s|)] else []
  }

  /** Lines are dropped from the end until the text fits. */
  function Capped(body: seq<string>): (kept: seq<string>)
    ensures kept <= body
  {
    if body == [] || Bytes(Join(body)) <= MAX_SNIPPET_BYTES then body else Capped(body[..|body| - 1])
  }

  function Kept(lines: seq<string>, start: nat, end: nat): (body: seq<string>)
    requires 1 <= start <= end <= |lines|
    ensures body <= lines[start - 1..end]
  {
    Capped(Slice(lines[start - 1..end], 0, MAX_SNIPPET_LINES))
  }

  function ContextAbove(lines: seq<string>, start: nat): seq<string>
    requires 1 <= start <= |lines|
  {
    lines[Max(0, start - 1 - CONTEXT_LINES)..start - 1]
  }

  function ContextBelow(lines: seq<string>, end: nat): seq<string>
    requires end <= |lines|
  {
    lines[end..Min(end + CONTEXT_LINES, |lines|)]
  }

  function Made(lines: seq<string>, start: nat, end: nat): Anchor
    requires 1 <= start <= end <= |lines|
  {
    Anchor(start, end, Join(Kept(lines, start, end)),
           Join(ContextAbove(lines, start)), Join(ContextBelow(lines, end)))
  }

  method SnippetOf(text: string, start: nat, end: nat) returns (a: Anchor)
    requires 1 <= start <= end <= |Lines(text)|
    ensures a == Made(Lines(text), start, end)
  {
    var lines := Lines(text);
    var body := Slice(lines[start - 1..end], 0, MAX_SNIPPET_LINES);
    while body != [] && Bytes(Join(body)) > MAX_SNIPPET_BYTES
      invariant Capped(body) == Kept(lines, start, end)
      decreases |body|
    {
      body := body[..|body| - 1];
    }
    var before := lines[Max(0, start - 1 - CONTEXT_LINES)..start - 1];
    var after := lines[end..Min(end + CONTEXT_LINES, |lines|)];
    a := Anchor(start, end, Join(body), Join(before), Join(after));
  }

  /** The snippet is the longest head of the range within both caps. */
  lemma {:induction false} CappedIsLongest(body: seq<string>, k: nat)
    requires k <= |body|
    ensures 0 < k == |Capped(body)| ==> Bytes(Join(body[..k])) <= MAX_SNIPPET_BYTES
    ensures k > |Capped(body)| ==> Bytes(Join(body[..k])) > MAX_SNIPPET_BYTES
  {
    if body != [] && Bytes(Join(body)) > MAX_SNIPPET_BYTES {
      if k == |body| {
        assert body[..k] == body;
      } else {
        assert body[..|body| - 1][..k] == body[..k];
        CappedIsLongest(body[..|body| - 1], k);
      }
    } else {
      assert body[..|body|] == body;
    }
  }

  // ------------------------------------------------------------ tier one: the exact search

  predicate Occurs(lines: seq<string>, snippet: seq<string>, offset: nat) {
    offset + |snippet| <= |lines| && lines[offset..offset + |snippet|] == snippet
  }

  /** The lines above an offset, as many as were stored. */
  function Above(lines: seq<string>, offset: nat, before: seq<string>): seq<string> {
    Slice(lines, Max(0, offset - |before|), offset)
  }

  function Below(lines: seq<string>, offset: nat, after: seq<string>): seq<string> {
    Slice(lines, offset, offset + |after|)
  }

  predicate DisputedAbove(lines: seq<string>, offset: nat, before: seq<string>) {
    before != [] && Above(lines, offset, before) != before
  }

  predicate DisputedBelow(lines: seq<string>, offset: nat, after: seq<string>) {
    after != [] && Below(lines, offset, after) != after
  }

  /** How many of the sides that stored context agree. */
  function Agree(lines: seq<string>, span: nat, before: seq<string>, after: seq<string>, offset: nat): nat {
    (if before != [] && Above(lines, offset, before) == before then 1 else 0)
    + if after != [] && Below(lines, offset + span, after) == after then 1 else 0
  }

  /** Some side that stored context disagrees. */
  predicate Contradicted(lines: seq<string>, span: nat, before: seq<string>, after: seq<string>, offset: nat) {
    DisputedAbove(lines, offset, before) || DisputedBelow(lines, offset + span, after)
  }

  function Hits(lines: seq<string>, snippet: seq<string>, upTo: nat): (hits: seq<nat>)
    ensures forall o: nat :: o in hits <==> o < upTo && Occurs(lines, snippet, o)
  {
    if upTo == 0 then []
    else Hits(lines, snippet, upTo - 1) + if Occurs(lines, snippet, upTo - 1) then [upTo - 1] else []
  }

  function Best(lines: seq<string>, span: nat, before: seq<string>, after: seq<string>, hits: seq<nat>): (best: nat)
    ensures forall o :: o in hits ==> Agree(lines, span, before, after, o) <= best
    ensures hits != [] ==> exists o :: o in hits && Agree(lines, span, before, after, o) == best
  {
    if hits == [] then 0
    else
      var rest := Best(lines, span, before, after, hits[1..]);
      assert hits == [hits[0]] + hits[1..];
      Max(Agree(lines, span, before, after, hits[0]), rest)
  }

  function Filter(lines: seq<string>, span: nat, before: seq<string>, after: seq<string>, hits: seq<nat>, best: nat)
    : (r: seq<nat>)
    ensures forall o :: o in r <==> o in hits && Agree(lines, span, before, after, o) == best
  {
    if hits == [] then []
    else
      var n := |hits| - 1;
      assert hits == hits[..n] + [hits[n]];
      Filter(lines, span, before, after, hits[..n], best)
      + if Agree(lines, span, before, after, hits[n]) == best then [hits[n]] else []
  }

  function Found(lines: seq<string>, snippet: seq<string>, before: seq<string>, after: seq<string>): (r: seq<nat>) {
    var hits := Hits(lines, snippet, |lines| + 1);
    var span := |snippet|;
    if snippet == [] || hits == [] then []
    else if |hits| == 1 then if Contradicted(lines, span, before, after, hits[0]) then [] else hits
    else Filter(lines, span, before, after, hits, Best(lines, span, before, after, hits))
  }

  method AllHits(lines: seq<string>, snippet: seq<string>) returns (hits: seq<nat>)
    ensures hits == Hits(lines, snippet, |lines| + 1)
  {
    hits := [];
    for i := 0 to |lines| + 1
      invariant hits == Hits(lines, snippet, i)
    {
      if Occurs(lines, snippet, i) {
        hits := hits + [i];
      }
    }
  }

  method Narrow(lines: seq<string>, span: nat, before: seq<string>, after: seq<string>, hits: seq<nat>, best: nat)
    returns (r: seq<nat>)
    ensures r == Filter(lines, span, before, after, hits, best)
  {
    r := [];
    for i := 0 to |hits|
      invariant r == Filter(lines, span, before, after, hits[..i], best)
    {
      assert hits[..i + 1][..i] == hits[..i];
      if Agree(lines, span, before, after, hits[i]) == best {
        r := r + [hits[i]];
      }
    }
    assert hits[..|hits|] == hits;
  }

  method FindSnippet(lines: seq<string>, snippet: seq<string>, before: seq<string>, after: seq<string>)
    returns (r: seq<nat>)
    ensures r == Found(lines, snippet, before, after)
  {
    if snippet == [] {
      return [];
    }
    var hits := AllHits(lines, snippet);
    if hits == [] {
      return [];
    }
    if |hits| == 1 {
      return if Contradicted(lines, |snippet|, before, after, hits[0]) then [] else hits;
    }
    var best := Best(lines, |snippet|, before, after, hits);
    if best == 0 {
      assert forall i :: 0 <= i < |hits| ==> hits[i] in hits;
      EverythingTies(lines, |snippet|, before, after, hits);
      return hits;
    }
    r := Narrow(lines, |snippet|, before, after, hits, best);
  }

  /** When nothing corroborates any copy, all of them are kept. */
  lemma {:induction false} EverythingTies(lines: seq<string>, span: nat, before: seq<string>, after: seq<string>,
                                          hits: seq<nat>)
    requires forall i :: 0 <= i < |hits| ==> Agree(lines, span, before, after, hits[i]) == 0
    ensures Filter(lines, span, before, after, hits, 0) == hits
  {
    if hits != [] {
      var n := |hits| - 1;
      EverythingTies(lines, span, before, after, hits[..n]);
      assert hits == hits[..n] + [hits[n]];
    }
  }

  /** Every answer of the exact search holds the snippet; an answer that is the only copy in the
      file contradicts no stored context, and one among several has at least as many agreeing
      sides as any other copy. */
  lemma FoundHoldsSnippet(lines: seq<string>, snippet: seq<string>, before: seq<string>, after: seq<string>, o: nat)
    requires o in Found(lines, snippet, before, after)
    ensures Occurs(lines, snippet, o) && snippet != []
    ensures (forall p: nat :: Occurs(lines, snippet, p) ==> p == o) ==>
      !Contradicted(lines, |snippet|, before, after, o)
    ensures forall p: nat :: Occurs(lines, snippet, p) && p != o ==>
      Agree(lines, |snippet|, before, after, p) <= Agree(lines, |snippet|, before, after, o)
  {
    var hits := Hits(lines, snippet, |lines| + 1);
    if |hits| == 1 {
      assert hits == [hits[0]];
      forall p: nat | Occurs(lines, snippet, p)
        ensures p == o
      {
        assert p in hits;
      }
    } else {
      assert hits[0] in hits && hits[1] in hits;
      HitsIncrease(lines, snippet, |lines| + 1);
      forall p: nat | Occurs(lines, snippet, p)
        ensures p in hits
      {
      }
    }
  }

  lemma {:induction false} HitsIncrease(lines: seq<string>, snippet: seq<string>, upTo: nat)
    ensures forall i, j :: 0 <= i < j < |Hits(lines, snippet, upTo)| ==>
      Hits(lines, snippet, upTo)[i] < Hits(lines, snippet, upTo)[j]
  {
    if upTo > 0 {
      HitsIncrease(lines, snippet, upTo - 1);
      var rest := Hits(lines, snippet, upTo - 1);
      forall i | 0 <= i < |rest|
        ensures rest[i] < upTo - 1
      {
        assert rest[i] in rest;
      }
    }
  }

  // ------------------------------------------------------------ tier two: the line map

  /** An `equal` opcode: `old[i..i+len]` is `new[j..j+len]`. */
  datatype Block = Block(i: nat, j: nat, len: nat)

  predicate Pairs(was: seq<string>, now: seq<string>, b: Block) {
    b.i + b.len <= |was| && b.j + b.len <= |now| && was[b.i..b.i + b.len] == now[b.j..b.j + b.len]
  }

  predicate Precedes(a: Block, b: Block) {
    a.i + a.len <= b.i && a.j + a.len <= b.j
  }

  /** What `difflib` is trusted with: its equal blocks pair equal lines and advance in both texts,
      and comparing a text with itself gives one block. */
  predicate EqualBlocks(was: seq<string>, now: seq<string>, blocks: seq<Block>) {
    && (forall b :: b in blocks ==> Pairs(was, now, b))
    && (forall x, y :: 0 <= x < y < |blocks| ==> Precedes(blocks[x], blocks[y]))
    && (was == now && was != [] ==> blocks == [Block(0, 0, |was|)])
  }

  function Part(b: Block, upTo: nat): (m: map<int, int>)
    ensures forall k :: k in m <==> b.i <= k < b.i + upTo
    ensures forall k :: k in m ==> m[k] == b.j + k - b.i
  {
    if upTo == 0 then map[] else Part(b, upTo - 1)[b.i + upTo - 1 := b.j + upTo - 1]
  }

  /** Where the surviving lines went. */
  function Mapping(blocks: seq<Block>): map<int, int> {
    if blocks == [] then map[]
    else
      var b := blocks[|blocks| - 1];
      Mapping(blocks[..|blocks| - 1]) + Part(b, b.len)
  }

  /** The images of the surviving lines of `lo..hi`, in order. */
  function Survivors(m: map<int, int>, lo: int, hi: int): (r: seq<int>)
    requires lo <= hi
    ensures |r| <= hi - lo
    decreases hi - lo
  {
    if lo == hi then [] else Survivors(m, lo, hi - 1) + if hi - 1 in m then [m[hi - 1]] else []
  }

  datatype Mapped = Mapped(start: int, end: int, confidence: real)

  function Least(s: seq<int>): (r: int)
    requires s != []
    ensures r in s && forall x :: x in s ==> r <= x
  {
    if |s| == 1 then s[0]
    else
      var rest := Least(s[1..]);
      assert s == [s[0]] + s[1..];
      Min(s[0], rest)
  }

  function Greatest(s: seq<int>): (r: int)
    requires s != []
    ensures r in s && forall x :: x in s ==> x <= r
  {
    if |s| == 1 then s[0]
    else
      var rest := Greatest(s[1..]);
      assert s == [s[0]] + s[1..];
      Max(s[0], rest)
  }

  function MapRange(m: map<int, int>, start: nat, end: nat): Option<Mapped>
    requires 1 <= start <= end
  {
    var mapped := Survivors(m, start - 1, end);
    if mapped == [] then None
    else Some(Mapped(Least(mapped) + 1, Greatest(mapped) + 1, |mapped| as real / (end - start + 1) as real))
  }

  method BuildMapping(blocks: seq<Block>) returns (mapping: map<int, int>)
    ensures mapping == Mapping(blocks)
  {
    mapping := map[];
    for n := 0 to |blocks|
      invariant mapping == Mapping(blocks[..n])
    {
      assert blocks[..n + 1][..n] == blocks[..n];
      mapping := AddBlock(mapping, blocks[n]);
    }
    assert blocks[..|blocks|] == blocks;
  }

  method AddBlock(m: map<int, int>, b: Block) returns (mapping: map<int, int>)
    ensures mapping == m + Part(b, b.len)
  {
    mapping := m;
    for offset := 0 to b.len
      invariant mapping == m + Part(b, offset)
    {
      mapping := mapping[b.i + offset := b.j + offset];
    }
  }

  method LineMap(blocks: seq<Block>, start: nat, end: nat) returns (r: Option<Mapped>)
    requires 1 <= start <= end
    ensures r == MapRange(Mapping(blocks), start, end)
  {
    var mapping := BuildMapping(blocks);
    var mapped: seq<int> := [];
    for index := start - 1 to end
      invariant mapped == Survivors(mapping, start - 1, index)
    {
      if index in mapping {
        mapped := mapped + [mapping[index]];
      }
    }
    if mapped == [] {
      return None;
    }
    r := Some(Mapped(Least(mapped) + 1, Greatest(mapped) + 1, |mapped| as real / (end - start + 1) as real));
  }

  ghost predicate OrderPreserving(m: map<int, int>) {
    forall a, b :: a in m && b in m && a < b ==> m[a] < m[b]
  }

  ghost predicate KeepsText(m: map<int, int>, was: seq<string>, now: seq<string>) {
    forall k :: k in m ==> 0 <= k < |was| && 0 <= m[k] < |now| && was[k] == now[m[k]]
  }

  lemma {:induction false} MappingWithin(blocks: seq<Block>, next: Block)
    requires forall b :: b in blocks ==> Precedes(b, next)
    ensures forall k :: k in Mapping(blocks) ==> k < next.i && Mapping(blocks)[k] < next.j
  {
    if blocks != [] {
      MappingWithin(blocks[..|blocks| - 1], next);
      assert blocks[|blocks| - 1] in blocks;
    }
  }

  /** The line map never reorders lines and pairs each with an equal one. */
  lemma {:induction false} MappingFaithful(was: seq<string>, now: seq<string>, blocks: seq<Block>)
    requires forall b :: b in blocks ==> Pairs(was, now, b)
    requires forall x, y :: 0 <= x < y < |blocks| ==> Precedes(blocks[x], blocks[y])
    ensures OrderPreserving(Mapping(blocks)) && KeepsText(Mapping(blocks), was, now)
  {
    if blocks != [] {
      var front, b := blocks[..|blocks| - 1], blocks[|blocks| - 1];
      MappingFaithful(was, now, front);
      MappingWithin(front, b);
      PartFaithful(was, now, b);
    }
  }

  lemma PartFaithful(was: seq<string>, now: seq<string>, b: Block)
    requires Pairs(was, now, b)
    ensures KeepsText(Part(b, b.len), was, now)
  {
    forall k | k in Part(b, b.len)
      ensures was[k] == now[b.j + k - b.i]
    {
      assert was[b.i..b.i + b.len][k - b.i] == now[b.j..b.j + b.len][k - b.i];
    }
  }

  predicate AllSurvive(m: map<int, int>, lo: int, hi: int) {
    forall k :: lo <= k < hi ==> k in m
  }

  predicate NoneSurvives(m: map<int, int>, lo: int, hi: int) {
    forall k :: lo <= k < hi ==> k !in m
  }

  lemma {:induction false} SurvivorsCount(m: map<int, int>, lo: int, hi: int)
    requires lo <= hi
    ensures |Survivors(m, lo, hi)| == hi - lo <==> AllSurvive(m, lo, hi)
    ensures Survivors(m, lo, hi) == [] <==> NoneSurvives(m, lo, hi)
    decreases hi - lo
  {
    if lo < hi {
      SurvivorsCount(m, lo, hi - 1);
    }
  }

  lemma {:induction false} SurvivorListed(m: map<int, int>, lo: int, hi: int, k: int)
    requires lo <= k < hi && k in m
    ensures m[k] in Survivors(m, lo, hi)
    decreases hi - lo
  {
    if k < hi - 1 {
      SurvivorListed(m, lo, hi - 1, k);
    }
  }

  lemma {:induction false} ListedSurvivor(m: map<int, int>, lo: int, hi: int, v: int) returns (k: int)
    requires lo <= hi && v in Survivors(m, lo, hi)
    ensures lo <= k < hi && k in m && m[k] == v
    decreases hi - lo
  {
    if v in Survivors(m, lo, hi - 1) {
      k := ListedSurvivor(m, lo, hi - 1, v);
    } else {
      k := hi - 1;
    }
  }

  lemma LeastIsFirst(m: map<int, int>, lo: int, hi: int, first: int)
    requires OrderPreserving(m) && lo <= first < hi && first in m && NoneSurvives(m, lo, first)
    ensures Survivors(m, lo, hi) != [] && Least(Survivors(m, lo, hi)) == m[first]
  {
    SurvivorListed(m, lo, hi, first);
    var k := ListedSurvivor(m, lo, hi, Least(Survivors(m, lo, hi)));
  }

  lemma GreatestIsLast(m: map<int, int>, lo: int, hi: int, last: int)
    requires OrderPreserving(m) && lo <= last < hi && last in m && NoneSurvives(m, last + 1, hi)
    ensures Survivors(m, lo, hi) != [] && Greatest(Survivors(m, lo, hi)) == m[last]
  {
    SurvivorListed(m, lo, hi, last);
    var k := ListedSurvivor(m, lo, hi, Greatest(Survivors(m, lo, hi)));
  }

  /** The first surviving line of `lo..hi`. */
  function First(m: map<int, int>, lo: int, hi: int): (k: int)
    requires lo <= hi && !NoneSurvives(m, lo, hi)
    ensures lo <= k < hi && k in m && NoneSurvives(m, lo, k)
    decreases hi - lo
  {
    if lo in m then lo else First(m, lo + 1, hi)
  }

  function Last(m: map<int, int>, lo: int, hi: int): (k: int)
    requires lo <= hi && !NoneSurvives(m, lo, hi)
    ensures lo <= k < hi && k in m && NoneSurvives(m, k + 1, hi)
    decreases hi - lo
  {
    if hi - 1 in m then hi - 1 else Last(m, lo, hi - 1)
  }

  /** There is no answer exactly when no line of the range survived. */
  lemma NothingSurvives(m: map<int, int>, start: nat, end: nat)
    requires 1 <= start <= end
    ensures MapRange(m, start, end).None? <==> NoneSurvives(m, start - 1, end)
  {
    SurvivorsCount(m, start - 1, end);
  }

  /** Otherwise the remapped range runs from the image of the first surviving line to the image of
      the last. */
  lemma LineMapEnds(m: map<int, int>, start: nat, end: nat)
    requires 1 <= start <= end && OrderPreserving(m) && !NoneSurvives(m, start - 1, end)
    ensures var r := MapRange(m, start, end);
      r.Some? && r.value.start == m[First(m, start - 1, end)] + 1 && r.value.end == m[Last(m, start - 1, end)] + 1
  {
    LeastIsFirst(m, start - 1, end, First(m, start - 1, end));
    GreatestIsLast(m, start - 1, end, Last(m, start - 1, end));
  }

  lemma ConfidenceMeans(m: map<int, int>, start: nat, end: nat)
    requires 1 <= start <= end && !NoneSurvives(m, start - 1, end)
    ensures MapRange(m, start, end).Some?
    ensures 0.0 < MapRange(m, start, end).value.confidence <= 1.0
    ensures MapRange(m, start, end).value.confidence == 1.0 <==> AllSurvive(m, start - 1, end)
  {
    SurvivorsCount(m, start - 1, end);
    OneIff(|Survivors(m, start - 1, end)|, end - start + 1);
  }

  lemma OneIff(a: nat, b: nat)
    requires 0 < a <= b
    ensures a as real / b as real == 1.0 <==> a == b
    ensures 0.0 < a as real / b as real <= 1.0
  {
  }

  /** The range lies inside the new text and starts and ends at lines equal to the first and last
      surviving ones; its confidence is one exactly when every line survived. */
  ghost predicate RightRange(m: map<int, int>, was: seq<string>, now: seq<string>, start: nat, end: nat, r: Mapped)
    requires 1 <= start <= end && !NoneSurvives(m, start - 1, end)
  {
    var first, last := First(m, start - 1, end), Last(m, start - 1, end);
    && 1 <= r.start <= r.end <= |now|
    && 0 <= first <= last < |was| && now[r.start - 1] == was[first] && now[r.end - 1] == was[last]
    && 0.0 < r.confidence <= 1.0 && (r.confidence == 1.0 <==> AllSurvive(m, start - 1, end))
  }

  lemma RangeIsRight(m: map<int, int>, was: seq<string>, now: seq<string>, start: nat, end: nat)
    requires 1 <= start <= end && OrderPreserving(m) && KeepsText(m, was, now) && !NoneSurvives(m, start - 1, end)
    ensures MapRange(m, start, end).Some? && RightRange(m, was, now, start, end, MapRange(m, start, end).value)
  {
    LineMapEnds(m, start, end);
    ConfidenceMeans(m, start, end);
    var first, last := First(m, start - 1, end), Last(m, start - 1, end);
    assert first == last || m[first] < m[last];
  }

  /** A diff answers exactly when some line of the range survived, and answers the right range. */
  lemma LineMapMeans(was: seq<string>, now: seq<string>, blocks: seq<Block>, start: nat, end: nat)
    requires 1 <= start <= end && EqualBlocks(was, now, blocks)
    ensures MapRange(Mapping(blocks), start, end).Some? <==> !NoneSurvives(Mapping(blocks), start - 1, end)
    ensures MapRange(Mapping(blocks), start, end).Some? ==>
      RightRange(Mapping(blocks), was, now, start, end, MapRange(Mapping(blocks), start, end).value)
  {
    var m := Mapping(blocks);
    NothingSurvives(m, start, end);
    if !NoneSurvives(m, start - 1, end) {
      MappingFaithful(was, now, blocks);
      RangeIsRight(m, was, now, start, end);
    }
  }

  lemma MapOfIdentity(m: map<int, int>, start: nat, end: nat)
    requires 1 <= start <= end && forall k :: start - 1 <= k < end ==> k in m && m[k] == k
    requires OrderPreserving(m)
    ensures MapRange(m, start, end) == Some(Mapped(start, end, 1.0))
  {
    assert start - 1 in m && end - 1 in m;
    LineMapEnds(m, start, end);
    ConfidenceMeans(m, start, end);
  }

  lemma IdentityMapping(n: nat)
    ensures forall k :: k in Mapping([Block(0, 0, n)]) <==> 0 <= k < n
    ensures forall k :: k in Mapping([Block(0, 0, n)]) ==> Mapping([Block(0, 0, n)])[k] == k
  {
    assert [Block(0, 0, n)][..0] == [];
  }

  lemma MapOfUnchanged(text: seq<string>, blocks: seq<Block>, start: nat, end: nat)
    requires 1 <= start <= end <= |text| && EqualBlocks(text, text, blocks)
    ensures MapRange(Mapping(blocks), start, end) == Some(Mapped(start, end, 1.0))
  {
    IdentityMapping(|text|);
    MappingFaithful(text, text, blocks);
    MapOfIdentity(Mapping(blocks), start, end);
  }

  // ------------------------------------------------------------ the resolver

  datatype Reason = NoSnippet | NoBlob | OtherBranch | LinesRemoved | LowConfidence

  datatype Resolution =
    | InPlace(start: int, end: int, confidence: real)
    | Moved(start: int, end: int, confidence: real)
    | Unverified(reason: Reason)
    | Orphaned(reason: Reason)

  /** The script as it was at the anchor's own commit, with the equal blocks to the current one. */
  datatype Blob = Blob(lines: seq<string>, blocks: seq<Block>)

  predicate AtHome(lines: seq<string>, snippet: seq<string>, start: nat)
    requires start >= 1
  {
    Slice(lines, start - 1, start - 1 + |snippet|) == snippet
  }

  /** The text is at its address but a side that stored context disagrees. */
  predicate Disputed(lines: seq<string>, a: Anchor)
    requires a.start >= 1
  {
    DisputedAbove(lines, a.start - 1, Lines(a.before)) || DisputedBelow(lines, a.end, Lines(a.after))
  }

  /** What is made of a mapped range. */
  function FromMap(a: Anchor, mapped: Option<Mapped>, otherBranch: bool): Resolution {
    match mapped
    case None => if otherBranch then Unverified(OtherBranch) else Orphaned(LinesRemoved)
    case Some(r) =>
      if r.confidence < LINE_CONFIDENCE_MIN then
        if otherBranch then Unverified(OtherBranch) else Orphaned(LowConfidence)
      else if r.start == a.start && r.end == a.end then InPlace(r.start, r.end, r.confidence)
      else Moved(r.start, r.end, r.confidence)
  }

  function ByDiff(a: Anchor, blob: Blob, otherBranch: bool): Resolution
    requires 1 <= a.start <= a.end
  {
    FromMap(a, MapRange(Mapping(blob.blocks), a.start, a.end), otherBranch)
  }

  /** The diff answers exactly when at least six in ten lines of the range survived. */
  lemma DiffAnswersIff(a: Anchor, blob: Blob, otherBranch: bool)
    requires 1 <= a.start <= a.end
    ensures var survivors := Survivors(Mapping(blob.blocks), a.start - 1, a.end);
      Answers(ByDiff(a, blob, otherBranch)) <==> 10 * |survivors| >= 6 * (a.end - a.start + 1)
  {
    ShareAtLeast(|Survivors(Mapping(blob.blocks), a.start - 1, a.end)|, a.end - a.start + 1);
  }

  lemma ShareAtLeast(k: nat, n: nat)
    requires n > 0
    ensures k as real / n as real >= 0.6 <==> 10 * k >= 6 * n
  {
    QuotientAtLeast(k as real / n as real, n as real, k as real);
  }

  lemma QuotientAtLeast(q: real, n: real, k: real)
    requires n > 0.0 && q * n == k
    ensures q >= 0.6 <==> k >= 0.6 * n
  {
    if q >= 0.6 {
      Arith.ProductMonotone(0.6, q, n);
    } else {
      Arith.StrictlyScaled(q, 0.6, n);
    }
  }

  /** What the resolver does once it knows whether the text is at its address, whether the context
      disputes it there, where else the text is, and what a diff says if there is one. */
  function Decide(a: Anchor, atHome: bool, disputed: bool, hits: seq<nat>, total: nat, diff: Option<Resolution>)
    : Resolution
  {
    var home := InPlace(a.start, a.end, 1.0);
    if atHome && !disputed then home
    else if |hits| == 1 && !atHome then
      Moved(hits[0] + 1, Min(hits[0] + 1 + (a.end - a.start), total), 1.0)
    else if diff.None? then if atHome then home else Unverified(NoBlob)
    else diff.value
  }

  function Settle(a: Anchor, atHome: bool, disputed: bool, hits: seq<nat>, total: nat, blob: Option<Blob>,
                  otherBranch: bool): Resolution
    requires 1 <= a.start <= a.end
  {
    Decide(a, atHome, disputed, hits, total,
           if blob.None? then None else Some(ByDiff(a, blob.value, otherBranch)))
  }

  function Resolve(a: Anchor, lines: seq<string>, blob: Option<Blob>, otherBranch: bool): Resolution
    requires 1 <= a.start <= a.end
  {
    var snippet := Lines(a.snippet);
    if snippet == [] then Unverified(NoSnippet)
    else
      var hits := Found(lines, snippet, Lines(a.before), Lines(a.after));
      Settle(a, AtHome(lines, snippet, a.start), Disputed(lines, a), hits, |lines|, blob, otherBranch)
  }

  lemma KeptOnly(lines: seq<string>, start: nat, end: nat)
    requires 1 <= start <= end <= |lines| && AllOneLine(lines)
    ensures var body := Kept(lines, start, end); Lines(Join(body)) <= body && Lines(Join(body)) <= lines[start - 1..end]
  {
    var body := Kept(lines, start, end);
    assert AllOneLine(body);
    LinesOfJoin(body);
  }

  /** What is still at its address is answered in place when no diff can be read, or when the diff
      agrees. */
  lemma HomeStands(a: Anchor, disputed: bool, hits: seq<nat>, total: nat, blob: Option<Blob>, otherBranch: bool)
    requires 1 <= a.start <= a.end
    requires blob.Some? ==> MapRange(Mapping(blob.value.blocks), a.start, a.end) == Some(Mapped(a.start, a.end, 1.0))
    ensures Settle(a, true, disputed, hits, total, blob, otherBranch) == InPlace(a.start, a.end, 1.0)
  {
  }

  lemma PrefixAtHome(lines: seq<string>, stored: seq<string>, start: nat, end: nat)
    requires 1 <= start <= end <= |lines| && stored <= lines[start - 1..end]
    ensures AtHome(lines, stored, start)
  {
    assert lines[start - 1..end][..|stored|] == lines[start - 1..start - 1 + |stored|];
  }

  lemma CutKeepsHome(lines: seq<string>, stored: seq<string>, start: nat, cut: nat)
    requires 1 <= start && AtHome(lines, stored, start) && start - 1 + |stored| <= cut <= |lines|
    ensures AtHome(lines[..cut], stored, start)
  {
    assert lines[..cut][start - 1..start - 1 + |stored|] == lines[start - 1..start - 1 + |stored|];
  }

  lemma StoredAtHome(lines: seq<string>, start: nat, end: nat)
    requires 1 <= start <= end <= |lines| && AllOneLine(lines)
    ensures AtHome(lines, Lines(Join(Kept(lines, start, end))), start)
  {
    KeptOnly(lines, start, end);
    PrefixAtHome(lines, Lines(Join(Kept(lines, start, end))), start, end);
  }

  /** An anchor just made and resolved against the same text is in place, disputed or not, with or
      without the blob, exactly when the snippet it stored has a line. */
  lemma RoundTrip(lines: seq<string>, start: nat, end: nat, blob: Option<Blob>, otherBranch: bool)
    requires 1 <= start <= end <= |lines| && AllOneLine(lines)
    requires blob.Some? ==> EqualBlocks(lines, lines, blob.value.blocks)
    ensures Resolve(Made(lines, start, end), lines, blob, otherBranch)
      == if Lines(Made(lines, start, end).snippet) == [] then Unverified(NoSnippet) else InPlace(start, end, 1.0)
  {
    var a := Made(lines, start, end);
    var snippet := Lines(a.snippet);
    StoredAtHome(lines, start, end);
    if blob.Some? {
      MapOfUnchanged(lines, blob.value.blocks, start, end);
    }
    HomeStands(a, Disputed(lines, a), Found(lines, snippet, Lines(a.before), Lines(a.after)), |lines|, blob,
               otherBranch);
  }

  /** The stored snippet has no line exactly when the head of the range that fits the caps is
      nothing, or one blank line. */
  lemma StoredNothing(lines: seq<string>, start: nat, end: nat)
    requires 1 <= start <= end <= |lines| && AllOneLine(lines)
    ensures Lines(Made(lines, start, end).snippet) == [] <==> Kept(lines, start, end) in [[], [""]]
  {
    var body := Kept(lines, start, end);
    assert AllOneLine(body) by {
      KeptOnly(lines, start, end);
    }
    LinesOfJoin(body);
    if |body| == 1 {
      assert body == [body[0]];
    }
  }

  predicate AllBlank(lines: seq<string>) {
    forall s :: s in lines ==> s == ""
  }

  lemma {:induction false} ShiftedOntoItself(b: seq<string>)
    requires b != [] && b[|b| - 1] == "" && b[1..] == b[..|b| - 1]
    ensures AllBlank(b)
  {
    if |b| > 1 {
      var front := b[..|b| - 1];
      assert front[|front| - 1] == b[1..][|b| - 2] == "";
      assert front[1..] == b[1..][..|b| - 2] == front[..|front| - 1];
      ShiftedOntoItself(front);
      assert b == front + [""];
    }
  }

  lemma BlankShifts(b: seq<string>)
    requires b != [] && AllBlank(b)
    ensures b[1..] == b[..|b| - 1]
  {
    forall i | 0 <= i < |b|
      ensures b[i] == ""
    {
      assert b[i] in b;
    }
  }

  /** The line above the range is blank, and something else was stored with it. */
  predicate BlankAbove(lines: seq<string>, start: nat)
    requires 1 <= start <= |lines|
  {
    var before := ContextAbove(lines, start);
    before != [] && before[|before| - 1] == "" && !AllBlank(before)
  }

  lemma StoredAbove(lines: seq<string>, start: nat)
    requires 1 <= start <= |lines| && AllOneLine(lines)
    ensures DisputedAbove(lines, start - 1, Lines(Join(ContextAbove(lines, start)))) <==> BlankAbove(lines, start)
  {
    var before := ContextAbove(lines, start);
    assert AllOneLine(before);
    LinesOfJoin(before);
    var stored := Lines(Join(before));
    var n := |before|;
    assert |stored| <= n && Above(lines, start - 1, stored) == before[n - |stored|..];
    if stored != before {
      assert Above(lines, start - 1, stored) == before[1..] && stored == before[..n - 1];
      if before[1..] == before[..n - 1] {
        ShiftedOntoItself(before);
      } else {
        if AllBlank(before) {
          BlankShifts(before);
        }
      }
    }
  }

  lemma StoredBelow(lines: seq<string>, end: nat)
    requires end <= |lines| && AllOneLine(lines)
    ensures !DisputedBelow(lines, end, Lines(Join(ContextBelow(lines, end))))
  {
    var after := ContextBelow(lines, end);
    assert AllOneLine(after);
    LinesOfJoin(after);
    var stored := Lines(Join(after));
    assert Below(lines, end, stored) == after[..|stored|];
  }

  /** Storing context loses a trailing blank line, so unchanged text looks disputed exactly when the
      line above the range is blank and the stored context above is not all blank. */
  lemma UnchangedLooksDisputed(lines: seq<string>, start: nat, end: nat)
    requires 1 <= start <= end <= |lines| && AllOneLine(lines)
    ensures Disputed(lines, Made(lines, start, end)) <==> BlankAbove(lines, start)
  {
    StoredAbove(lines, start);
    StoredBelow(lines, end);
  }

  lemma HeldInside(lines: seq<string>, snippet: seq<string>, o: nat, end: nat)
    requires Occurs(lines, snippet, o) && o + |snippet| <= end <= |lines|
    ensures snippet <= lines[o..end]
  {
    assert lines[o..end][..|snippet|] == lines[o..o + |snippet|];
  }

  lemma LoneFound(lines: seq<string>, snippet: seq<string>, before: seq<string>, after: seq<string>)
    requires |Found(lines, snippet, before, after)| == 1
    ensures snippet != [] && Occurs(lines, snippet, Found(lines, snippet, before, after)[0])
  {
    var hits := Found(lines, snippet, before, after);
    assert hits[0] in hits;
    FoundHoldsSnippet(lines, snippet, before, after, hits[0]);
  }

  /** An answer of the exact search holds the stored snippet within the reported range, when the
      snippet is no longer than the anchor's own range. */
  lemma MovedHoldsSnippet(a: Anchor, lines: seq<string>, blob: Option<Blob>, otherBranch: bool)
    requires 1 <= a.start <= a.end && |Lines(a.snippet)| <= a.end - a.start + 1
    requires !AtHome(lines, Lines(a.snippet), a.start)
    requires |Found(lines, Lines(a.snippet), Lines(a.before), Lines(a.after))| == 1
    ensures var r := Resolve(a, lines, blob, otherBranch);
      r.Moved? && 1 <= r.start <= r.end <= |lines| && Lines(a.snippet) <= lines[r.start - 1..r.end]
  {
    var snippet := Lines(a.snippet);
    var hits := Found(lines, snippet, Lines(a.before), Lines(a.after));
    LoneFound(lines, snippet, Lines(a.before), Lines(a.after));
    HeldInside(lines, snippet, hits[0], Min(hits[0] + 1 + (a.end - a.start), |lines|));
  }

  /** The anchors the code makes store no more lines than their own range, whatever file they are
      resolved against: exactly one hit in it, and the answer holds the stored snippet. */
  lemma MadeMovedHoldsSnippet(made: seq<string>, start: nat, end: nat, lines: seq<string>, blob: Option<Blob>,
                              otherBranch: bool)
    requires 1 <= start <= end <= |made| && AllOneLine(made)
    requires var a := Made(made, start, end); !AtHome(lines, Lines(a.snippet), start)
    requires var a := Made(made, start, end); |Found(lines, Lines(a.snippet), Lines(a.before), Lines(a.after))| == 1
    ensures var a := Made(made, start, end); var r := Resolve(a, lines, blob, otherBranch);
      && r.Moved? && 1 <= r.start <= r.end <= |lines|
      && Lines(a.snippet) <= lines[r.start - 1..r.end] && Lines(a.snippet) <= made[start - 1..end]
  {
    KeptOnly(made, start, end);
    MovedHoldsSnippet(Made(made, start, end), lines, blob, otherBranch);
  }

  predicate Answers(r: Resolution) {
    r.InPlace? || r.Moved?
  }

  lemma DiffInsideFile(a: Anchor, lines: seq<string>, blob: Blob, otherBranch: bool)
    requires 1 <= a.start <= a.end && EqualBlocks(blob.lines, lines, blob.blocks)
    ensures var r := ByDiff(a, blob, otherBranch); Answers(r) ==> 1 <= r.start <= r.end <= |lines|
  {
    LineMapMeans(blob.lines, lines, blob.blocks, a.start, a.end);
  }

  /** The stored text is still at its address, no diff is asked, and the anchor's own end lies
      beyond the file. */
  predicate HomeBeyondFile(a: Anchor, lines: seq<string>, blob: Option<Blob>)
    requires 1 <= a.start
  {
    && Lines(a.snippet) != [] && AtHome(lines, Lines(a.snippet), a.start)
    && (!Disputed(lines, a) || blob.None?) && a.end > |lines|
  }

  lemma SettlesInside(a: Anchor, lines: seq<string>, hits: seq<nat>, blob: Option<Blob>, otherBranch: bool)
    requires 1 <= a.start <= a.end && Lines(a.snippet) != []
    requires |hits| == 1 ==> hits[0] < |lines|
    requires blob.Some? ==> EqualBlocks(blob.value.lines, lines, blob.value.blocks)
    ensures var r := Settle(a, AtHome(lines, Lines(a.snippet), a.start), Disputed(lines, a), hits, |lines|, blob,
                            otherBranch);
      && (Answers(r) ==> 1 <= r.start <= r.end)
      && (Answers(r) && r.end > |lines| <==> HomeBeyondFile(a, lines, blob))
  {
    if blob.Some? {
      DiffInsideFile(a, lines, blob.value, otherBranch);
    }
  }

  /** Every answered range is a non-empty stretch of lines, and it lies inside the current file but
      for exactly one family of inputs: an anchor whose stored text is still at its address though
      its own end lies beyond the file, and for which no diff is asked. */
  lemma AnswersInsideFile(a: Anchor, lines: seq<string>, blob: Option<Blob>, otherBranch: bool)
    requires 1 <= a.start <= a.end
    requires blob.Some? ==> EqualBlocks(blob.value.lines, lines, blob.value.blocks)
    ensures var r := Resolve(a, lines, blob, otherBranch);
      && (Answers(r) ==> 1 <= r.start <= r.end)
      && (Answers(r) && r.end > |lines| <==> HomeBeyondFile(a, lines, blob))
  {
    var hits := Found(lines, Lines(a.snippet), Lines(a.before), Lines(a.after));
    if Lines(a.snippet) != [] {
      if |hits| == 1 {
        LoneFound(lines, Lines(a.snippet), Lines(a.before), Lines(a.after));
      }
      SettlesInside(a, lines, hits, blob, otherBranch);
    }
  }

  /** Such anchors are made: cut a file short behind the lines a truncated snippet stored, and the
      anchor is still answered in place, ending beyond the file. */
  lemma HomeMayEndBeyondTheFile(lines: seq<string>, start: nat, end: nat, cut: nat, otherBranch: bool)
    requires 1 <= start <= end <= |lines| && AllOneLine(lines) && Lines(Made(lines, start, end).snippet) != []
    requires start - 1 + |Lines(Made(lines, start, end).snippet)| <= cut < end
    ensures Resolve(Made(lines, start, end), lines[..cut], None, otherBranch) == InPlace(start, end, 1.0)
  {
    var a := Made(lines, start, end);
    var snippet := Lines(a.snippet);
    StoredAtHome(lines, start, end);
    CutKeepsHome(lines, snippet, start, cut);
    HomeStands(a, Disputed(lines[..cut], a), Found(lines[..cut], snippet, Lines(a.before), Lines(a.after)), cut, None,
               otherBranch);
  }
}
