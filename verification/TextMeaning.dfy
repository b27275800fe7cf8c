/** What the small readers say of the texts they read: where a line ends, how long a text is in bytes,
    where a path body is cut, and which pieces are points. */
module TextMeaning {
  import opened ChordDistance
  import opened Options
  import opened ScriptRange
  import opened SvgPath

  // ------------------------------------------------------------ lines

  /** The line boundaries, by code point. */
  lemma BreakIff(c: char)
    ensures IsBreak(c) <==>
      10 <= c as int <= 13 || 28 <= c as int <= 30 || c as int == 133 || 8232 <= c as int <= 8233
  {
  }

  /** A break ends a line and is not part of it; a carriage return and the line feed behind it are one break. */
  lemma LinesOfNext(line: string, brk: string, rest: string)
    requires OneLine(line)
    requires brk == "\r\n" || (|brk| == 1 && IsBreak(brk[0]) && !(brk == "\r" && rest != "" && rest[0] == '\n'))
    ensures Lines(line + brk + rest) == [line] + Lines(rest)
  {
    var text := line + brk + rest;
    LineEndOf(line, brk + rest);
    assert text == line + (brk + rest);
    assert text[..|line|] == line && text[|line|] == brk[0];
    assert text[|line| + |brk|..] == rest;
    if brk != "\r\n" && rest != "" {
      assert text[|line| + 1] == rest[0];
    }
  }

  // ------------------------------------------------------------ bytes

  function Power(base: nat, n: nat): nat {
    if n == 0 then 1 else base * Power(base, n - 1)
  }

  /** How many code points fit into so many bytes of UTF-8: seven bits alone, else what the lead byte
      leaves over and six bits for every byte behind it. */
  function Capacity(width: nat): nat
    requires 1 <= width <= 4
  {
    if width == 1 then Power(2, 7) else Power(2, 7 - width) * Power(64, width - 1)
  }

  lemma Capacities()
    ensures Capacity(1) == 128 && Capacity(2) == 2048 && Capacity(3) == 65536 && Capacity(4) == 2097152
  {
    assert Power(2, 7) == 2 * 2 * 2 * 2 * 2 * 2 * 2 && Power(2, 5) == 32 && Power(2, 4) == 16 && Power(2, 3) == 8;
    assert Power(64, 1) == 64 && Power(64, 2) == 4096 && Power(64, 3) == 262144;
  }

  /** A character takes the fewest bytes it fits into. */
  lemma WidthIsLeast(c: char, width: nat)
    requires 1 <= width <= 4
    ensures 1 <= Utf8Width(c) <= 4 && (Utf8Width(c) <= width <==> c as int < Capacity(width))
  {
    Capacities();
  }

  /** A text is as long as its parts. */
  lemma {:induction false} BytesOfBoth(a: string, b: string)
    ensures Bytes(a + b) == Bytes(a) + Bytes(b)
  {
    if a == "" {
      assert a + b == b;
    } else {
      assert (a + b)[1..] == a[1..] + b;
      BytesOfBoth(a[1..], b);
    }
  }

  /** And a single character as its width. */
  lemma BytesOfOne(c: char)
    ensures Bytes([c]) == Utf8Width(c) && Bytes("") == 0
  {
    assert [c][1..] == "";
  }

  // ------------------------------------------------------------ the pieces of a path body

  ghost predicate SeparatorStands(s: string, i: nat) {
    i + 3 <= |s| && s[i..i + 3] == " L "
  }

  lemma SeparatorIff(s: string, i: nat)
    ensures SeparatorAt(s, i) <==> SeparatorStands(s, i)
  {
    if i + 3 <= |s| {
      var t := s[i..i + 3];
      assert t[0] == s[i] && t[1] == s[i + 1] && t[2] == s[i + 2];
    }
  }

  ghost predicate InOnePiece(piece: string) {
    forall i: nat :: !SeparatorStands(piece, i)
  }

  lemma FirstPiece(s: string)
    ensures InOnePiece(s[..FirstSeparator(s, 0)])
  {
    var k := FirstSeparator(s, 0);
    forall i: nat
      ensures !SeparatorStands(s[..k], i)
    {
      SeparatorIff(s[..k], i);
      SeparatorIff(s, i);
    }
  }

  /** Joining the pieces again gives the body back, and no piece holds the separator. */
  lemma {:induction false} CutLosesNothing(s: string)
    ensures Glue(Cut(s)) == s
    ensures forall k :: 0 <= k < |Cut(s)| ==> InOnePiece(Cut(s)[k])
    decreases |s|
  {
    var k := FirstSeparator(s, 0);
    FirstPiece(s);
    if k < |s| {
      var rest := s[k + 3..];
      CutLosesNothing(rest);
      SeparatorIff(s, k);
      assert s == s[..k] + " L " + rest;
      assert Cut(s)[1..] == Cut(rest);
    } else {
      assert s[..k] == s;
    }
  }

  /** The leftmost separator cuts first. */
  lemma CutAtFirst(piece: string, rest: string)
    requires forall i: nat :: i < |piece| ==> !SeparatorStands(piece + " L " + rest, i)
    ensures Cut(piece + " L " + rest) == [piece] + Cut(rest)
  {
    var s := piece + " L " + rest;
    forall i: nat
      ensures SeparatorAt(s, i) <==> SeparatorStands(s, i)
    {
      SeparatorIff(s, i);
    }
    assert s[|piece|..|piece| + 3] == " L ";
    assert SeparatorStands(s, |piece|);
    assert FirstSeparator(s, 0) == |piece|;
    assert s[..|piece|] == piece && s[|piece| + 3..] == rest;
  }

  // ------------------------------------------------------------ the numbers of a piece

  ghost predicate IsWord(w: string) {
    w != "" && ' ' !in w
  }

  /** Every word is one. */
  lemma {:induction false} WordsAreWords(s: string)
    ensures forall k :: 0 <= k < |Words(s)| ==> IsWord(Words(s)[k])
    decreases |s|
  {
    if s != "" {
      WordsAreWords(if s[0] == ' ' then s[1..] else s[RunLength(s)..]);
    }
  }

  lemma {:induction false} RunOfWord(w: string, rest: string)
    requires ' ' !in w && (rest == "" || rest[0] == ' ')
    ensures RunLength(w + rest) == |w|
  {
    if w == "" {
      assert w + rest == rest;
    } else {
      assert (w + rest)[1..] == w[1..] + rest;
      assert w[0] in w;
      RunOfWord(w[1..], rest);
    }
  }

  /** Words stand between blanks: a word in front of a blank is read first, and blanks are nothing. */
  lemma WordsOfNext(w: string, rest: string)
    requires IsWord(w)
    ensures Words(w) == [w] && Words(w + " " + rest) == [w] + Words(rest)
    ensures Words("") == [] && Words(" " + rest) == Words(rest)
  {
    assert w[0] in w;
    RunOfWord(w, "");
    assert w + "" == w && w[..|w|] == w && w[|w|..] == "";
    RunOfWord(w, " " + rest);
    var s := w + " " + rest;
    assert s == w + (" " + rest);
    assert s[..|w|] == w && s[|w|..] == " " + rest;
    assert (" " + rest)[1..] == rest;
  }

  /** A list of words reads as exactly the numbers its words spell, and as nothing when one spells none. */
  lemma {:induction false} NumbersIff(words: seq<string>, float: string -> Option<real>, numbers: seq<real>)
    ensures Numbers(words, float) == Some(numbers) <==>
      |numbers| == |words| && forall k :: 0 <= k < |words| ==> float(words[k]) == Some(numbers[k])
  {
    if words == [] {
      assert Numbers(words, float) == Some([]);
    } else if numbers != [] {
      NumbersIff(words[1..], float, numbers[1..]);
      assert numbers == [numbers[0]] + numbers[1..];
      if Numbers(words, float) == Some(numbers) {
        var rest := Numbers(words[1..], float).value;
        assert numbers[1..] == rest;
      }
      if |numbers| == |words| && forall k :: 0 <= k < |words| ==> float(words[k]) == Some(numbers[k]) {
        assert forall k :: 0 <= k < |words| - 1 ==> words[1..][k] == words[k + 1] && numbers[1..][k] == numbers[k + 1];
      }
    }
  }

  /** A piece is the point of its two numbers, the first one across and the second one down. */
  lemma PointMeans(piece: string, float: string -> Option<real>, x: real, y: real, u: string, v: string)
    requires Words(piece) == [u, v] && float(u) == Some(x) && float(v) == Some(y)
    ensures Read(piece, float) == Some([x, y])
    ensures AllPairs([piece], float) && Points([piece], float) == [Point(x, y)]
  {
    NumbersIff([u, v], float, [x, y]);
  }

  /** A body is left alone when a piece of it is not two numbers. */
  lemma UnreadableStays(body: string, float: string -> Option<real>, epsilon: real, k: nat)
    requires k < |Cut(body)|
    requires forall x, y :: Read(Cut(body)[k], float) != Some([x, y])
    ensures Rewritten(body, float, epsilon) == body
  {
    var chunks := Cut(body);
    if AllPairs(chunks, float) {
      var pair := Read(chunks[k], float).value;
      assert pair == [pair[0], pair[1]];
    }
  }
}
