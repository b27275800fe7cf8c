/** What the audit log hides, shows and keeps, said of the texts themselves: keys that look secret,
    arguments that survive unchanged, names that differ only in case. */
module AuditMeaning {
  import opened AuditArgs
  import AuditFilter

  const UPPER := "ABCDEFGHIJKLMNOPQRSTUVWXYZ"
  const LOWER := "abcdefghijklmnopqrstuvwxyz"

  /** One is the other's small letter. */
  ghost predicate SmallOf(small: char, capital: char) {
    exists k :: 0 <= k < 26 && UPPER[k] == capital && LOWER[k] == small
  }

  lemma CapitalIff(c: char, small: char)
    ensures SmallOf(small, c) <==> 'A' <= c <= 'Z' && small == c - 'A' + 'a'
  {
    if 'A' <= c <= 'Z' {
      var k := c as int - 'A' as int;
      assert UPPER[k] == c && LOWER[k] == c - 'A' + 'a';
    }
    forall k | 0 <= k < 26
      ensures 'A' <= UPPER[k] <= 'Z' && LOWER[k] == UPPER[k] - 'A' + 'a'
    {
    }
  }

  // ------------------------------------------------------------ keys

  /** Lowering replaces each capital letter by its small one and leaves every other character. */
  lemma {:induction false} LowerMeans(s: string, i: nat)
    requires i < |s|
    ensures forall small :: SmallOf(small, s[i]) ==> Lower(s)[i] == small
    ensures (forall small :: !SmallOf(small, s[i])) ==> Lower(s)[i] == s[i]
  {
    if i == 0 {
      forall small
        ensures SmallOf(small, s[0]) <==> 'A' <= s[0] <= 'Z' && small == s[0] - 'A' + 'a'
      {
        CapitalIff(s[0], small);
      }
      if 'A' <= s[0] <= 'Z' {
        assert SmallOf(s[0] - 'A' + 'a', s[0]);
      }
    } else {
      LowerMeans(s[1..], i - 1);
    }
  }

  /** The last segment is what stands behind the last underscore, and all of a name without one. */
  lemma {:induction false} LastSegmentOf(head: string, last: string)
    requires '_' !in last
    ensures LastSegment(last) == last && LastSegment(head + "_" + last) == last
  {
    var s := head + "_" + last;
    if last == "" {
      assert s[|s| - 1] == '_';
    } else {
      var front := last[..|last| - 1];
      LastSegmentOf(head, front);
      assert s[..|s| - 1] == head + "_" + front;
      assert last == front + [last[|last| - 1]];
    }
  }

  lemma {:induction false} SomeSegment(s: string)
    ensures '_' !in LastSegment(s)
    ensures s == LastSegment(s) || exists head :: s == head + "_" + LastSegment(s)
  {
    if s != "" && s[|s| - 1] != '_' {
      var front := s[..|s| - 1];
      SomeSegment(front);
      assert s == front + [s[|s| - 1]];
      if head :| front == head + "_" + LastSegment(front) {
        assert s == head + "_" + LastSegment(s);
      }
    } else if s != "" {
      assert s == s[..|s| - 1] + "_" + "";
    }
  }

  lemma HoldsIff(s: string, hint: string)
    ensures Holds(s, hint) <==> exists a, b :: s == a + hint + b
  {
    if i :| 0 <= i <= |s| && hint <= s[i..] {
      assert s == s[..i] + hint + s[i + |hint|..];
    }
    if a, b :| s == a + hint + b {
      assert hint <= s[|a|..];
    }
  }

  /** Ends in `_id`, or is `id` alone. */
  ghost predicate NamesIdentifier(key: string) {
    key == "id" || exists head :: key == head + "_id"
  }

  lemma IdentifierIff(key: string)
    ensures LastSegment(key) == "id" <==> NamesIdentifier(key)
  {
    SomeSegment(key);
    if LastSegment(key) == "id" && key != "id" {
      var head :| key == head + "_" + "id";
      assert key == head + "_id";
    }
    if key == "id" {
      LastSegmentOf("", "id");
    }
    if head :| key == head + "_id" {
      assert head + "_" + "id" == key;
      LastSegmentOf(head, "id");
    }
  }

  /** The eleven words that make a key look secret. */
  ghost predicate IsHint(h: string) {
    || h == "token" || h == "password" || h == "passwd" || h == "passphrase" || h == "secret" || h == "credential"
    || h == "api_key" || h == "apikey" || h == "authorization" || h == "cookie" || h == "private_key"
  }

  lemma HintIff(h: string)
    ensures h in HINTS <==> IsHint(h)
  {
    var all: seq<string> := HINTS;
    assert all[0] == "token" && all[1] == "password" && all[2] == "passwd" && all[3] == "passphrase";
    assert all[4] == "secret" && all[5] == "credential" && all[6] == "api_key" && all[7] == "apikey";
    assert all[8] == "authorization" && all[9] == "cookie" && all[10] == "private_key";
  }

  /** A key is hidden exactly when, in small letters, it holds one of the words and does not end as an
      identifier. */
  lemma SecretIff(name: string)
    ensures IsSecretKey(name) <==>
      && !NamesIdentifier(Lower(name))
      && exists h, a, b :: IsHint(h) && Lower(name) == a + h + b
  {
    var key := Lower(name);
    IdentifierIff(key);
    if h :| h in HINTS && Holds(key, h) {
      HintIff(h);
      HoldsIff(key, h);
    }
    if h, a, b :| IsHint(h) && key == a + h + b {
      HintIff(h);
      HoldsIff(key, h);
    }
  }

  // ------------------------------------------------------------ arguments

  /** An object is shown by its `repr`, cut behind two hundred characters. */
  lemma ShownMeans(shown: string, rest: string)
    requires |shown| <= 200 && (rest != "" ==> |shown| == 200)
    ensures Shown(Opaque(shown + rest)) == Text(shown)
  {
    assert rest == "" ==> shown + rest == shown;
    assert (shown + rest)[..|shown|] == shown;
  }

  /** Plain data of that many levels at most, with nothing under a secret-shaped key. */
  ghost predicate Open(v: Value, levels: nat, secret: string -> bool) {
    && levels > 0
    && match v
       case List(items) => forall i :: 0 <= i < |items| ==> Open(items[i], levels - 1, secret)
       case Dict(entries) => forall k :: k in entries ==> !secret(k) && Open(entries[k], levels - 1, secret)
       case Opaque(_) => false
       case _ => true
  }

  /** Plain data that keeps within the eight levels is digested as it is. */
  lemma {:induction false} OpenIsUnchanged(v: Value, depth: nat, secret: string -> bool)
    requires depth <= 8 && Open(v, 8 - depth, secret)
    ensures Canonical(v, depth, secret) == v
    decreases 8 - depth
  {
    match v {
      case List(items) =>
        forall i | 0 <= i < |items|
          ensures Canonical(items[i], depth + 1, secret) == items[i]
        {
          OpenIsUnchanged(items[i], depth + 1, secret);
        }
        assert Canonical(v, depth, secret).items == items;
      case Dict(entries) =>
        forall k | k in entries
          ensures !secret(k) && Canonical(entries[k], depth + 1, secret) == entries[k]
        {
          OpenIsUnchanged(entries[k], depth + 1, secret);
        }
        assert Canonical(v, depth, secret).entries == entries;
      case _ =>
    }
  }

  /** So it is as the arguments of a call. */
  lemma OpenIsDigested(args: Value)
    requires Open(args, 8, IsSecretKey)
    ensures Digested(args) == args
  {
    OpenIsUnchanged(args, 0, IsSecretKey);
  }

  // ------------------------------------------------------------ names in the filter

  /** A percent sign stands for any run of characters, whatever follows it in the pattern. */
  lemma {:induction false} AnyRunIff(pattern: string, text: string)
    ensures AuditFilter.Like("%" + pattern, text) <==>
      exists k :: 0 <= k <= |text| && AuditFilter.Like(pattern, text[k..])
    decreases |text|
  {
    assert ("%" + pattern)[1..] == pattern;
    assert text[0..] == text;
    if text != "" {
      var rest := text[1..];
      AnyRunIff(pattern, rest);
      if k :| 0 <= k <= |rest| && AuditFilter.Like(pattern, rest[k..]) {
        assert rest[k..] == text[k + 1..];
      }
      if k :| 0 < k <= |text| && AuditFilter.Like(pattern, text[k..]) {
        assert rest[k - 1..] == text[k..];
      }
    }
  }

  /** An underscore is any one character, one behind a backslash itself, and any other itself. */
  lemma OneCharacterIff(c: char, pattern: string, text: string)
    ensures AuditFilter.Like("_" + pattern, text) <==> text != "" && AuditFilter.Like(pattern, text[1..])
    ensures AuditFilter.Like(['\\', c] + pattern, text) <==>
      text != "" && AuditFilter.SameLetter(c, text[0]) && AuditFilter.Like(pattern, text[1..])
    ensures c !in "%_\\" ==>
      (AuditFilter.Like([c] + pattern, text) <==>
        text != "" && AuditFilter.SameLetter(c, text[0]) && AuditFilter.Like(pattern, text[1..]))
  {
    assert ("_" + pattern)[1..] == pattern && (['\\', c] + pattern)[2..] == pattern && ([c] + pattern)[1..] == pattern;
  }


  /** The filter takes two characters for the same exactly when they are, or are one letter in both cases. */
  lemma SameLetterIff(a: char, b: char)
    ensures AuditFilter.SameLetter(a, b) <==> a == b || SmallOf(a, b) || SmallOf(b, a)
  {
    CapitalIff(a, b);
    CapitalIff(b, a);
  }

  /** A principal is stored by its first hundred and twenty-eight characters. */
  lemma StoredMeans(kept: string, rest: string)
    requires |kept| <= 128 && (rest != "" ==> |kept| == 128)
    ensures AuditFilter.Stored(kept + rest) == kept
  {
    assert rest == "" ==> kept + rest == kept;
    assert (kept + rest)[..|kept|] == kept;
  }
}
