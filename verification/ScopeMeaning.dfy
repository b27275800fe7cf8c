/** What a token scope's normal form says of the list it was written from: which names are names,
    which entries are taken as what, and when the whole scope is refused. */
module ScopeMeaning {
  import opened Options
  import opened TokenScope

  const LETTERS := "abcdefghijklmnopqrstuvwxyz"
  const DIGITS := "0123456789"

  // ------------------------------------------------------------ names

  /** A letter, then up to thirty-nine letters, digits and underscores. */
  ghost predicate IsIdentifier(s: string) {
    && 0 < |s| < 41 && s[0] in LETTERS
    && forall c :: c in s ==> c in LETTERS || c in DIGITS || c == '_'
  }

  lemma LetterIff(c: char)
    ensures c in LETTERS <==> 'a' <= c <= 'z'
  {
    if 'a' <= c <= 'z' {
      assert LETTERS[c as int - 'a' as int] == c;
    }
  }

  lemma DigitIff(c: char)
    ensures c in DIGITS <==> '0' <= c <= '9'
  {
    if '0' <= c <= '9' {
      assert DIGITS[c as int - '0' as int] == c;
    }
  }

  lemma PlainIff(s: string)
    ensures Plain(s) <==> IsIdentifier(s)
  {
    forall i | 0 <= i < |s|
      ensures s[i] in s && (s[i] in LETTERS <==> 'a' <= s[i] <= 'z') && (s[i] in DIGITS <==> '0' <= s[i] <= '9')
    {
      LetterIff(s[i]);
      DigitIff(s[i]);
    }
    if IsIdentifier(s) {
      forall i | 0 <= i < |s|
        ensures 'a' <= s[i] <= 'z' || '0' <= s[i] <= '9' || s[i] == '_'
      {
      }
    }
  }

  /** A name is an identifier, or an identifier and one line feed. */
  lemma ValidNameIff(s: string)
    ensures ValidName(s) <==> IsIdentifier(s) || exists t :: IsIdentifier(t) && s == t + "\n"
  {
    PlainIff(s);
    if s != "" && s[|s| - 1] == '\n' {
      PlainIff(s[..|s| - 1]);
      assert s == s[..|s| - 1] + "\n";
    }
    if t :| IsIdentifier(t) && s == t + "\n" {
      PlainIff(t);
      assert s[..|s| - 1] == t;
    }
  }

  // ------------------------------------------------------------ entries

  lemma SlashIn(s: string)
    ensures Slash(s) < |s| <==> '/' in s
  {
    if '/' in s {
      var i :| 0 <= i < |s| && s[i] == '/';
      assert Slash(s) <= i;
    }
  }

  /** An entry `w/p` of two names is stored as it is written, and no other entry with a slash is taken. */
  lemma SlashedIff(entry: string, workspace: Option<string>)
    requires '/' in entry
    ensures Qualified(entry, workspace) == if IsPair(entry) then Ok(entry) else Err(Invalid)
  {
    SlashIn(entry);
    var k := Slash(entry);
    assert entry == Pair(entry[..k], entry[k + 1..]);
    if IsPair(entry) {
      PairQualifies(entry, workspace);
    }
  }

  /** An entry without a slash is a project of the scope's workspace, and is refused without one. */
  lemma UnslashedIff(entry: string, workspace: Option<string>)
    requires '/' !in entry
    ensures Qualified(entry, workspace) ==
      if workspace.Some? && ValidName(workspace.value) && ValidName(entry) then Ok(workspace.value + "/" + entry)
      else Err(Invalid)
  {
    SlashIn(entry);
    assert !ValidName("");
  }

  // ------------------------------------------------------------ the whole scope

  /** The workspace is the scope's own, and the caller's when the scope names none or an empty one. */
  ghost predicate IsDefault(raw: Raw, argument: Option<string>, w: Option<string>) {
    match raw.workspace
    case None => w == argument
    case Some(own) => if own == "" then w == argument else w == Some(own)
  }

  /** An entry that can be stored, given the scope's workspace. */
  ghost predicate Storable(entry: string, w: Option<string>) {
    if '/' in entry then IsPair(entry) else w.Some? && ValidName(entry)
  }

  ghost predicate StoredAs(entry: string, w: Option<string>, stored: string) {
    if '/' in entry then stored == entry else w.Some? && stored == w.value + "/" + entry
  }

  lemma QualifiedIff(entry: string, w: Option<string>)
    requires w.Some? ==> ValidName(w.value)
    ensures Qualified(entry, w).Ok? <==> Storable(entry, w)
    ensures Qualified(entry, w).Ok? ==>
      forall stored :: StoredAs(entry, w, stored) <==> stored == Qualified(entry, w).value
  {
    if '/' in entry {
      SlashedIff(entry, w);
    } else {
      UnslashedIff(entry, w);
    }
  }

  /** A scope is accepted exactly when its organisation and workspace are names, its role is one of the
      four, and it lists between one and two hundred projects that can all be stored. */
  lemma AcceptedIff(raw: Raw, argument: Option<string>, w: Option<string>)
    requires IsDefault(raw, argument, w)
    ensures Normalised(raw, argument).Ok? <==>
      && ValidName(raw.org) && (w.Some? ==> ValidName(w.value))
      && (raw.role == "view" || raw.role == "comment" || raw.role == "edit" || raw.role == "admin")
      && 0 < |raw.projects| < 201
      && forall entry :: entry in raw.projects ==> Storable(entry, w)
  {
    assert w == DefaultWorkspace(raw, argument);
    if w.Some? ==> ValidName(w.value) {
      forall entry | entry in raw.projects
        ensures Qualified(entry, w).Ok? <==> Storable(entry, w)
      {
        QualifiedIff(entry, w);
      }
      assert forall i :: 0 <= i < |raw.projects| ==> raw.projects[i] in raw.projects;
    }
  }

  /** What is stored: the organisation and the role as given, the workspace that was used, and the
      stored form of every entry and nothing else. */
  lemma NormalisedMeans(raw: Raw, argument: Option<string>, w: Option<string>, p: string)
    requires IsDefault(raw, argument, w) && Normalised(raw, argument).Ok?
    ensures var s := Normalised(raw, argument).value;
      && s.org == raw.org && s.role == raw.role && s.workspace == w
      && (p in s.projects <==> exists entry :: entry in raw.projects && StoredAs(entry, w, p))
  {
    assert w == DefaultWorkspace(raw, argument);
    var s := Normalised(raw, argument).value;
    forall i | 0 <= i < |raw.projects|
      ensures StoredAs(raw.projects[i], w, p) <==> p == Qualified(raw.projects[i], w).value
    {
      QualifiedIff(raw.projects[i], w);
    }
    if p in s.projects {
      var i :| 0 <= i < |raw.projects| && Qualified(raw.projects[i], w).value == p;
      assert raw.projects[i] in raw.projects;
    }
    if entry :| entry in raw.projects && StoredAs(entry, w, p) {
      var i :| 0 <= i < |raw.projects| && raw.projects[i] == entry;
    }
  }

  // ------------------------------------------------------------ what any stored scope allows

  /** A stored row reads as a scope exactly when its role is one of the four and it lists a project that
      is not empty; the empty entries are skipped. */
  lemma ScopeRowIff(stored: Scope)
    ensures ScopeRow(stored).Some? <==>
      && (stored.role == "view" || stored.role == "comment" || stored.role == "edit" || stored.role == "admin")
      && exists p :: p in stored.projects && p != ""
    ensures ScopeRow(stored).Some? ==>
      && ScopeRow(stored).value.org == stored.org && ScopeRow(stored).value.role == stored.role
      && ScopeRow(stored).value.workspace == stored.workspace
      && ScopeRow(stored).value.projects == stored.projects - {""}
  {
    var projects := set p | p in stored.projects && p != "";
    assert projects == stored.projects - {""};
    if p :| p in stored.projects && p != "" {
      assert p in projects;
    }
    if projects != {} {
      var p :| p in projects;
    }
  }

  /** A token without a scope reaches everything; one with an unreadable scope reaches nothing. */
  lemma UnscopedAndUnreadable(stored: Scope, org: Option<string>, w: Option<string>, project: Option<string>)
    requires ScopeRow(stored) == None
    ensures Allows(None, org, w, project) && !Allows(Some(stored), org, w, project)
  {
  }

  /** A readable scope answers for its own organisation only, or for any when none is named; without a
      project that is all it asks, with a workspace the pair must be listed, and without one some pair of
      that project. */
  lemma AllowsIff(stored: Scope, org: Option<string>, w: Option<string>, project: Option<string>)
    requires ScopeRow(stored).Some? && (project.Some? ==> project.value != "")
    requires forall entry :: entry in stored.projects ==> IsPair(entry)
    ensures Allows(Some(stored), org, w, project) <==>
      && (org == None || org == Some(stored.org))
      && (project.Some? ==>
           if w.Some? then w.value + "/" + project.value in stored.projects
           else exists ws :: ValidName(ws) && ws + "/" + project.value in stored.projects)
  {
    ScopeRowIff(stored);
    if project.Some? && w == None {
      UnderSome(stored.projects, project.value);
      assert forall entry :: entry in stored.projects - {""} <==> entry in stored.projects by {
        assert !IsPair("");
      }
    }
  }

  lemma UnderSome(projects: set<string>, p: string)
    requires forall entry :: entry in projects ==> IsPair(entry)
    ensures (exists entry :: entry in projects && Tail(entry) == p) <==>
      exists ws :: ValidName(ws) && ws + "/" + p in projects
  {
    if entry :| entry in projects && Tail(entry) == p {
      var ws, q :| ValidName(ws) && ValidName(q) && entry == Pair(ws, q);
      NameHasNoSlash(ws);
      SlashOfPair(ws, q);
      assert ws + "/" + p in projects;
    }
    if ws :| ValidName(ws) && ws + "/" + p in projects {
      NameHasNoSlash(ws);
      SlashOfPair(ws, p);
      assert Tail(Pair(ws, p)) == p;
    }
  }
}
