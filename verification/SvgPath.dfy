/** The path rewrite inside `compact_svg`: a path body is cut at " L ", read as points, compacted,
    and the surviving pieces are glued back together unchanged. */
module SvgPath {
  import opened ChordDistance
  import opened Options
  import opened PathCompaction

  const SEPARATOR := " L "

  // ------------------------------------------------------------ cutting and gluing

  predicate SeparatorAt(s: string, k: nat) {
    k + 3 <= |s| && s[k] == ' ' && s[k + 1] == 'L' && s[k + 2] == ' '
  }

  /** The first separator at or after `from`, or |s| when there is none. */
  function FirstSeparator(s: string, from: nat): (k: nat)
    requires from <= |s|
    ensures from <= k <= |s| && (k < |s| ==> SeparatorAt(s, k))
    ensures forall i :: from <= i < k ==> !SeparatorAt(s, i)
    decreases |s| - from
  {
    if from == |s| || SeparatorAt(s, from) then from else FirstSeparator(s, from + 1)
  }

  /** `body.split(" L ")`. */
  function Cut(s: string): (chunks: seq<string>)
    ensures chunks != []
    decreases |s|
  {
    var k := FirstSeparator(s, 0);
    if k == |s| then [s] else [s[..k]] + Cut(s[k + 3..])
  }

  /** `" L ".join(chunks)`. */
  function Glue(chunks: seq<string>): string {
    if chunks == [] then ""
    else if |chunks| == 1 then chunks[0]
    else chunks[0] + SEPARATOR + Glue(chunks[1..])
  }

  /** Cutting undoes gluing when no piece contains the separator's letter. */
  lemma {:induction false} CutGlue(chunks: seq<string>)
    requires chunks != []
    requires forall k :: 0 <= k < |chunks| ==> 'L' !in chunks[k]
    ensures Cut(Glue(chunks)) == chunks
  {
    var s, c := Glue(chunks), chunks[0];
    if |chunks| == 1 {
      assert FirstSeparator(s, 0) == |s| by {
        assert forall i :: 0 <= i < |s| ==> s[i] != 'L';
      }
    } else {
      var rest := Glue(chunks[1..]);
      assert s == c + SEPARATOR + rest;
      assert SeparatorAt(s, |c|);
      assert FirstSeparator(s, 0) == |c| by {
        assert forall i :: 0 <= i < |c| ==> s[i] == c[i] && s[i] != 'L';
      }
      assert s[|c| + 3..] == rest && s[..|c|] == c;
      CutGlue(chunks[1..]);
      assert chunks == [c] + chunks[1..];
    }
  }

  // ------------------------------------------------------------ reading a piece as a point

  /** The length of the leading run of non-space characters. */
  function RunLength(s: string): (k: nat)
    ensures k <= |s| && (forall i :: 0 <= i < k ==> s[i] != ' ') && (k < |s| ==> s[k] == ' ')
  {
    if s == "" || s[0] == ' ' then 0 else 1 + RunLength(s[1..])
  }

  /** `chunk.split()`; the space is the only blank a matched path body can hold. */
  function Words(s: string): seq<string>
    decreases |s|
  {
    if s == "" then []
    else if s[0] == ' ' then Words(s[1..])
    else [s[..RunLength(s)]] + Words(s[RunLength(s)..])
  }

  /** Reads every word; `None` is the ValueError of the first one that is not a number. */
  function Numbers(words: seq<string>, float: string -> Option<real>): (r: Option<seq<real>>)
    ensures r.Some? ==> |r.value| == |words|
  {
    if words == [] then Some([])
    else
      match (float(words[0]), Numbers(words[1..], float))
      case (Some(x), Some(rest)) => Some([x] + rest)
      case _ => None
  }

  function Read(chunk: string, float: string -> Option<real>): Option<seq<real>> {
    Numbers(Words(chunk), float)
  }

  /** No number is spelled with the separator's letter. */
  ghost predicate ReadsNumbers(float: string -> Option<real>) {
    forall w :: 'L' in w ==> float(w).None?
  }

  lemma {:induction false} LetterInSomeWord(s: string)
    requires 'L' in s
    ensures exists k :: 0 <= k < |Words(s)| && 'L' in Words(s)[k]
    decreases |s|
  {
    if s[0] == ' ' {
      LetterInSomeWord(s[1..]);
      assert Words(s) == Words(s[1..]);
    } else {
      var n := RunLength(s);
      assert s == s[..n] + s[n..];
      if 'L' in s[..n] {
        assert Words(s)[0] == s[..n];
      } else {
        LetterInSomeWord(s[n..]);
        var k :| 0 <= k < |Words(s[n..])| && 'L' in Words(s[n..])[k];
        assert Words(s)[k + 1] == Words(s[n..])[k];
      }
    }
  }

  lemma {:induction false} BadWordIsNone(words: seq<string>, k: nat, float: string -> Option<real>)
    requires k < |words| && float(words[k]).None?
    ensures Numbers(words, float).None?
  {
    if k > 0 {
      BadWordIsNone(words[1..], k - 1, float);
    }
  }

  lemma ReadableHasNoLetter(chunk: string, float: string -> Option<real>)
    requires ReadsNumbers(float) && Read(chunk, float).Some?
    ensures 'L' !in chunk
  {
    if 'L' in chunk {
      LetterInSomeWord(chunk);
      var k :| 0 <= k < |Words(chunk)| && 'L' in Words(chunk)[k];
      BadWordIsNone(Words(chunk), k, float);
    }
  }

  // ------------------------------------------------------------ the rewrite

  /** Every piece reads as exactly two numbers. */
  predicate AllPairs(chunks: seq<string>, float: string -> Option<real>) {
    forall k :: 0 <= k < |chunks| ==> Read(chunks[k], float).Some? && |Read(chunks[k], float).value| == 2
  }

  function PointOf(chunk: string, float: string -> Option<real>): Point
    requires Read(chunk, float).Some? && |Read(chunk, float).value| == 2
  {
    var pair := Read(chunk, float).value;
    Point(pair[0], pair[1])
  }

  function Points(chunks: seq<string>, float: string -> Option<real>): (r: seq<Point>)
    requires AllPairs(chunks, float)
    ensures |r| == |chunks| && forall k :: 0 <= k < |chunks| ==> r[k] == PointOf(chunks[k], float)
  {
    seq(|chunks|, k requires 0 <= k < |chunks| => PointOf(chunks[k], float))
  }

  /** What the rewrite makes of one path body. */
  ghost function Rewritten(body: string, float: string -> Option<real>, epsilon: real): string {
    var chunks := Cut(body);
    if |chunks| < 3 || !AllPairs(chunks, float) then body
    else Glue(Select(chunks, Kept(Points(chunks, float), CodeMetric(epsilon))))
  }

  method RewriteBody(body: string, float: string -> Option<real>, epsilon: real) returns (out: string)
    ensures out == Rewritten(body, float, epsilon)
  {
    var chunks := Cut(body);
    if |chunks| < 3 || !AllPairs(chunks, float) {
      return body;
    }
    var keep := CompactPath(Points(chunks, float), epsilon);
    out := Glue(Select(chunks, keep));
  }

  /** Pieces picked out of a readable body are found again after gluing, and read as before. */
  lemma PickedPieces(chunks: seq<string>, keep: seq<nat>, float: string -> Option<real>)
    requires ReadsNumbers(float) && AllPairs(chunks, float) && keep != []
    requires forall k :: 0 <= k < |keep| ==> keep[k] < |chunks|
    ensures var kept := Select(chunks, keep);
            && Cut(Glue(kept)) == kept
            && AllPairs(kept, float)
            && Points(kept, float) == Select(Points(chunks, float), keep)
  {
    var kept := Select(chunks, keep);
    forall k | 0 <= k < |kept|
      ensures 'L' !in kept[k]
    {
      ReadableHasNoLetter(chunks[keep[k]], float);
    }
    CutGlue(kept);
  }

  lemma PickAll(chunks: seq<string>)
    ensures Select(chunks, AllIndices(|chunks|)) == chunks
  {
  }

  /** Rewriting a rewritten path body changes nothing. */
  lemma RewriteIdempotent(body: string, float: string -> Option<real>, epsilon: real)
    requires ReadsNumbers(float)
    ensures var once := Rewritten(body, float, epsilon);
            Rewritten(once, float, epsilon) == once
  {
    var chunks := Cut(body);
    if |chunks| >= 3 && AllPairs(chunks, float) {
      var points := Points(chunks, float);
      var keep := Kept(points, CodeMetric(epsilon));
      PickedPieces(chunks, keep, float);
      CompactionIdempotent(points, CodeMetric(epsilon));
      PickAll(Select(chunks, keep));
    }
  }

  /** The pieces of a body that survive the rewrite, by index. */
  ghost function Survivors(chunks: seq<string>, float: string -> Option<real>, epsilon: real): (keep: seq<nat>)
    requires chunks != []
    ensures forall k :: 0 <= k < |keep| ==> keep[k] < |chunks|
    ensures forall j, k :: 0 <= j < k < |keep| ==> keep[j] < keep[k]
    ensures keep != [] && keep[0] == 0 && keep[|keep| - 1] == |chunks| - 1
  {
    if |chunks| < 3 || !AllPairs(chunks, float) then AllIndices(|chunks|)
    else Kept(Points(chunks, float), CodeMetric(epsilon))
  }

  /** What survives is the input's own text, byte for byte: the pieces of the result are the
      surviving pieces of the body. */
  lemma RewriteKeepsPieces(body: string, float: string -> Option<real>, epsilon: real)
    requires ReadsNumbers(float)
    ensures Cut(Rewritten(body, float, epsilon)) == Select(Cut(body), Survivors(Cut(body), float, epsilon))
  {
    var chunks := Cut(body);
    if |chunks| >= 3 && AllPairs(chunks, float) {
      PickedPieces(chunks, Kept(Points(chunks, float), CodeMetric(epsilon)), float);
    } else {
      PickAll(chunks);
    }
  }
}
