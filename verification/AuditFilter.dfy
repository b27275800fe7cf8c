/** The audit query's principal clause: SQLite's LIKE with an escape character, the escaping of
    wildcards in a prefix, and what the clause then matches. */
module AuditFilter {

  // ------------------------------------------------------------ LIKE

  function Lower(c: char): char {
    if 'A' <= c <= 'Z' then c - 'A' + 'a' else c
  }

  /** Equal, or the same ASCII letter in either case. */
  predicate SameLetter(a: char, b: char) {
    Lower(a) == Lower(b)
  }

  /** `text LIKE pattern ESCAPE '\'`: `%` is any run, `_` any one character, and the character
      behind a backslash stands for itself; a backslash at the end matches nothing. */
  predicate Like(pattern: string, text: string)
    decreases |pattern| + |text|
  {
    if pattern == "" then text == ""
    else if pattern[0] == '%' then Like(pattern[1..], text) || (text != "" && Like(pattern, text[1..]))
    else if text == "" then false
    else if pattern[0] == '_' then Like(pattern[1..], text[1..])
    else if pattern[0] == '\\' then |pattern| >= 2 && SameLetter(pattern[1], text[0]) && Like(pattern[2..], text[1..])
    else SameLetter(pattern[0], text[0]) && Like(pattern[1..], text[1..])
  }

  // ------------------------------------------------------------ escaping

  /** `s.replace(c, with)` for a single character. */
  function Replace(s: string, c: char, with: string): string {
    if s == "" then "" else (if s[0] == c then with else [s[0]]) + Replace(s[1..], c, with)
  }

  /** The three replacements, in the order the program makes them. */
  function Escaped(s: string): string {
    Replace(Replace(Replace(s, '\\', "\\\\"), '%', "\\%"), '_', "\\_")
  }

  /** `prefix%` with the wildcards escaped. */
  function LikePrefix(prefix: string): string {
    Escaped(prefix) + "%"
  }

  predicate Special(c: char) {
    c == '\\' || c == '%' || c == '_'
  }

  /** One character at a time. */
  function EscapedOnce(s: string): string {
    if s == "" then "" else (if Special(s[0]) then ['\\', s[0]] else [s[0]]) + EscapedOnce(s[1..])
  }

  lemma {:induction false} ReplaceOfBoth(a: string, b: string, c: char, with: string)
    ensures Replace(a + b, c, with) == Replace(a, c, with) + Replace(b, c, with)
  {
    if a == "" {
      assert a + b == b;
    } else {
      assert (a + b)[1..] == a[1..] + b;
      ReplaceOfBoth(a[1..], b, c, with);
    }
  }

  lemma ReplaceOne(x: char, c: char, with: string)
    ensures Replace([x], c, with) == if x == c then with else [x]
  {
    assert [x][1..] == "";
  }

  lemma ReplaceTwo(x: char, y: char, c: char, with: string)
    requires x != c
    ensures Replace([x, y], c, with) == [x] + if y == c then with else [y]
  {
    assert [x, y][1..] == [y];
    ReplaceOne(y, c, with);
  }

  lemma EscapedOfOne(c: char)
    ensures Escaped([c]) == if Special(c) then ['\\', c] else [c]
  {
    ReplaceOne(c, '\\', "\\\\");
    if c == '\\' {
      ReplaceTwo('\\', '\\', '%', "\\%");
      ReplaceTwo('\\', '\\', '_', "\\_");
    } else {
      ReplaceOne(c, '%', "\\%");
      if c == '%' {
        ReplaceTwo('\\', '%', '_', "\\_");
      } else {
        ReplaceOne(c, '_', "\\_");
      }
    }
  }

  lemma EscapedOfBoth(a: string, b: string)
    ensures Escaped(a + b) == Escaped(a) + Escaped(b)
  {
    ReplaceOfBoth(a, b, '\\', "\\\\");
    var a1, b1 := Replace(a, '\\', "\\\\"), Replace(b, '\\', "\\\\");
    ReplaceOfBoth(a1, b1, '%', "\\%");
    ReplaceOfBoth(Replace(a1, '%', "\\%"), Replace(b1, '%', "\\%"), '_', "\\_");
  }

  /** The three replacements in a row escape each special character exactly once. */
  lemma {:induction false} EscapesEachOnce(s: string)
    ensures Escaped(s) == EscapedOnce(s)
  {
    if s != "" {
      assert s == [s[0]] + s[1..];
      EscapedOfBoth([s[0]], s[1..]);
      EscapedOfOne(s[0]);
      EscapesEachOnce(s[1..]);
    }
  }

  // ------------------------------------------------------------ what the pattern matches

  /** The text starts with the prefix, up to ASCII case. */
  predicate StartsWith(text: string, prefix: string) {
    |text| >= |prefix| && forall i :: 0 <= i < |prefix| ==> SameLetter(prefix[i], text[i])
  }

  lemma {:induction false} AnyRun(text: string)
    ensures Like("%", text)
  {
    if text != "" {
      AnyRun(text[1..]);
    } else {
      assert "%"[1..] == "";
    }
  }

  lemma StartsWithTail(text: string, prefix: string)
    requires prefix != ""
    ensures StartsWith(text, prefix) <==>
      text != "" && SameLetter(prefix[0], text[0]) && StartsWith(text[1..], prefix[1..])
  {
    if text != "" && SameLetter(prefix[0], text[0]) && StartsWith(text[1..], prefix[1..]) {
      forall i | 0 <= i < |prefix|
        ensures SameLetter(prefix[i], text[i])
      {
        if i > 0 {
          assert SameLetter(prefix[1..][i - 1], text[1..][i - 1]);
        }
      }
    }
  }

  lemma EscapedStep(prefix: string, rest: string)
    requires prefix != ""
    ensures var p := EscapedOnce(prefix) + rest;
      p == (if Special(prefix[0]) then ['\\', prefix[0]] else [prefix[0]]) + (EscapedOnce(prefix[1..]) + rest)
  {
  }

  lemma {:induction false} EscapedOnceMatches(prefix: string, text: string)
    ensures Like(EscapedOnce(prefix) + "%", text) <==> StartsWith(text, prefix)
  {
    if prefix == "" {
      assert EscapedOnce(prefix) + "%" == "%";
      AnyRun(text);
    } else {
      var tail := EscapedOnce(prefix[1..]) + "%";
      EscapedStep(prefix, "%");
      StartsWithTail(text, prefix);
      if Special(prefix[0]) {
        assert (['\\', prefix[0]] + tail)[2..] == tail;
      } else {
        assert ([prefix[0]] + tail)[1..] == tail;
      }
      if text != "" {
        EscapedOnceMatches(prefix[1..], text[1..]);
      }
    }
  }

  /** The escaped pattern matches exactly the texts that start with the prefix up to ASCII case,
      whatever wildcards or backslashes the prefix holds. */
  lemma LikePrefixMatches(prefix: string, text: string)
    ensures Like(LikePrefix(prefix), text) <==> StartsWith(text, prefix)
  {
    EscapesEachOnce(prefix);
    EscapedOnceMatches(prefix, text);
  }

  // ------------------------------------------------------------ the principal clause

  /** `principal = ? OR principal LIKE ? ESCAPE '\'` for a person's name. */
  predicate Selected(row: string, principal: string) {
    row == principal || Like(LikePrefix(principal + "/"), row)
  }

  /** A row is selected exactly when it is the person's own name, or names something under it - the
      latter up to ASCII case. */
  lemma SelectsPersonAndDevices(row: string, principal: string)
    ensures Selected(row, principal) <==> row == principal || StartsWith(row, principal + "/")
  {
    LikePrefixMatches(principal + "/", row);
  }

  const MAX_PRINCIPAL := 128

  /** What `append` stores: a longer principal is clamped. */
  function Stored(principal: string): string {
    if |principal| <= MAX_PRINCIPAL then principal else principal[..MAX_PRINCIPAL]
  }

  /** Every device of a person is selected exactly when the name itself is not clamped; the clamped
      rest of a device name does not matter. */
  lemma EveryDeviceSelected(principal: string, device: string)
    ensures Selected(Stored(principal + "/" + device), principal) <==> |principal| <= MAX_PRINCIPAL
  {
    var row := Stored(principal + "/" + device);
    SelectsPersonAndDevices(row, principal);
    if |principal| < MAX_PRINCIPAL {
      assert forall i :: 0 <= i < |principal| + 1 ==> row[i] == (principal + "/")[i];
    } else if |principal| == MAX_PRINCIPAL {
      assert row == principal;
    }
  }

  /** A name's device rows are selected for another name exactly when the two names agree up to
      case as far as the other one goes and the next character is a slash. */
  lemma OthersDevicesSelectedIff(principal: string, other: string, device: string)
    requires '/' !in principal && '/' !in other
    ensures Selected(other + "/" + device, principal) <==> |other| == |principal| && StartsWith(other, principal)
  {
    var row := other + "/" + device;
    SelectsPersonAndDevices(row, principal);
    SlashStandsAt(other, "/" + device);
    assert row[|other|] in row;
    SlashAligns(principal, other, device);
  }

  lemma SlashStandsAt(name: string, rest: string)
    requires '/' !in name && rest != "" && rest[0] == '/'
    ensures (name + rest)[|name|] == '/' && forall i :: 0 <= i < |name| ==> (name + rest)[i] != '/'
  {
  }

  lemma SlashAligns(principal: string, other: string, device: string)
    requires '/' !in principal && '/' !in other
    ensures StartsWith(other + "/" + device, principal + "/") <==>
      |other| == |principal| && StartsWith(other, principal)
  {
    var row, prefix := other + "/" + device, principal + "/";
    SlashStandsAt(principal, "/");
    SlashStandsAt(other, "/" + device);
    assert other + ("/" + device) == row;
    if StartsWith(row, prefix) {
      assert SameLetter(prefix[|principal|], row[|principal|]);
      assert |other| <= |principal|;
      assert SameLetter(prefix[|other|], row[|other|]);
      assert |other| == |principal|;
      forall i | 0 <= i < |principal|
        ensures SameLetter(principal[i], other[i])
      {
        assert SameLetter(prefix[i], row[i]);
      }
    }
    if |other| == |principal| && StartsWith(other, principal) {
      forall i | 0 <= i < |prefix|
        ensures SameLetter(prefix[i], row[i])
      {
      }
    }
  }
}
