/** An agent token's scope: normalised when it is written, read back, and asked what it allows. */
module TokenScope {
  import opened Options

  const MAX_PROJECTS := 200

  /** A scope as it is passed in: `workspace` and the projects in either spelling. */
  datatype Raw = Raw(org: string, workspace: Option<string>, projects: seq<string>, role: string)

  /** A scope as it is stored. The sorted, duplicate-free list of projects is kept as a set. */
  datatype Scope = Scope(org: string, workspace: Option<string>, projects: set<string>, role: string)

  datatype Error = Invalid

  predicate Plain(s: string) {
    && 1 <= |s| <= 40 && 'a' <= s[0] <= 'z'
    && forall i :: 0 <= i < |s| ==> 'a' <= s[i] <= 'z' || '0' <= s[i] <= '9' || s[i] == '_'
  }

  /** The name pattern. Its `$` also matches before one final newline. */
  predicate ValidName(s: string) {
    Plain(s) || (s != "" && s[|s| - 1] == '\n' && Plain(s[..|s| - 1]))
  }

  predicate ValidRole(role: string) {
    role in ["view", "comment", "edit", "admin"]
  }

  /** The position of the first slash, or the length. */
  function Slash(s: string): (k: nat)
    ensures k <= |s| && (k < |s| ==> s[k] == '/')
    ensures forall i :: 0 <= i < k ==> s[i] != '/'
  {
    if s == "" || s[0] == '/' then 0 else 1 + Slash(s[1..])
  }

  function Pair(workspace: string, project: string): string {
    workspace + "/" + project
  }

  /** One listed project in its stored form. */
  function Qualified(entry: string, workspace: Option<string>): Result<string, Error> {
    var k := Slash(entry);
    if entry == "" then Err(Invalid)
    else if k < |entry| then
      if ValidName(entry[..k]) && ValidName(entry[k + 1..]) then Ok(entry) else Err(Invalid)
    else
      match workspace
      case None => Err(Invalid)
      case Some(w) => if ValidName(w) && ValidName(entry) then Ok(Pair(w, entry)) else Err(Invalid)
  }

  predicate AllQualify(entries: seq<string>, workspace: Option<string>) {
    forall i :: 0 <= i < |entries| ==> Qualified(entries[i], workspace).Ok?
  }

  function QualifiedSet(entries: seq<string>, workspace: Option<string>): set<string>
    requires AllQualify(entries, workspace)
  {
    set i | 0 <= i < |entries| :: Qualified(entries[i], workspace).value
  }

  /** An empty workspace means the caller's default. */
  function DefaultWorkspace(raw: Raw, argument: Option<string>): Option<string> {
    if raw.workspace == None || raw.workspace == Some("") then argument else raw.workspace
  }

  /** What `check_token_scope` returns. */
  function Normalised(raw: Raw, argument: Option<string>): Result<Scope, Error> {
    var w := DefaultWorkspace(raw, argument);
    if !ValidName(raw.org) || (w.Some? && !ValidName(w.value)) || !ValidRole(raw.role) then Err(Invalid)
    else if raw.projects == [] || |raw.projects| > MAX_PROJECTS then Err(Invalid)
    else if !AllQualify(raw.projects, w) then Err(Invalid)
    else Ok(Scope(raw.org, w, QualifiedSet(raw.projects, w), raw.role))
  }

  /** The loop of `check_token_scope`: qualifies every entry, or stops at the first bad one. */
  method QualifyAll(entries: seq<string>, workspace: Option<string>) returns (r: Result<set<string>, Error>)
    ensures r == if AllQualify(entries, workspace) then Ok(QualifiedSet(entries, workspace)) else Err(Invalid)
  {
    var qualified: set<string> := {};
    for i := 0 to |entries|
      invariant forall j :: 0 <= j < i ==> Qualified(entries[j], workspace).Ok?
      invariant forall p :: p in qualified <==> exists j :: 0 <= j < i && Qualified(entries[j], workspace) == Ok(p)
    {
      var entry := Qualified(entries[i], workspace);
      if entry.Err? {
        return Err(Invalid);
      }
      qualified := qualified + {entry.value};
    }
    assert AllQualify(entries, workspace) && qualified == QualifiedSet(entries, workspace);
    r := Ok(qualified);
  }

  method CheckTokenScope(raw: Raw, argument: Option<string>) returns (r: Result<Scope, Error>)
    ensures r == Normalised(raw, argument)
  {
    var workspace := if raw.workspace == None || raw.workspace == Some("") then argument else raw.workspace;
    if !ValidName(raw.org) || (workspace.Some? && !ValidName(workspace.value)) || !ValidRole(raw.role) {
      return Err(Invalid);
    }
    if raw.projects == [] || |raw.projects| > MAX_PROJECTS {
      return Err(Invalid);
    }
    var qualified := QualifyAll(raw.projects, workspace);
    if qualified.Err? {
      return Err(Invalid);
    }
    r := Ok(Scope(raw.org, workspace, qualified.value, raw.role));
  }

  /** `_scope_row`: a stored scope read back; half-written ones read as none. */
  function ScopeRow(scope: Scope): Option<Scope> {
    var projects := set p | p in scope.projects && p != "";
    if !ValidRole(scope.role) || projects == {} then None else Some(scope.(projects := projects))
  }

  /** The part after the first slash, or everything when there is none. */
  function Tail(entry: string): string {
    var k := Slash(entry);
    if k < |entry| then entry[k + 1..] else entry
  }

  predicate Allows(scope: Option<Scope>, org: Option<string>, workspace: Option<string>, project: Option<string>) {
    match scope
    case None => true
    case Some(stored) =>
      match ScopeRow(stored)
      case None => false
      case Some(s) =>
        && (org.Some? ==> s.org == org.value)
        && (project.Some? ==>
             if workspace.Some? then Pair(workspace.value, project.value) in s.projects
             else exists entry :: entry in s.projects && Tail(entry) == project.value)
  }

  // ------------------------------------------------------------ normal form

  /** A stored project: two valid names around one slash. */
  ghost predicate IsPair(entry: string) {
    exists w, p :: ValidName(w) && ValidName(p) && entry == Pair(w, p)
  }

  lemma NameHasNoSlash(s: string)
    requires ValidName(s)
    ensures forall i :: 0 <= i < |s| ==> s[i] != '/'
    ensures s != ""
  {
  }

  lemma SlashOfPair(w: string, p: string)
    requires forall i :: 0 <= i < |w| ==> w[i] != '/'
    ensures Slash(Pair(w, p)) == |w| && Pair(w, p)[..|w|] == w && Pair(w, p)[|w| + 1..] == p && Tail(Pair(w, p)) == p
  {
    var s := Pair(w, p);
    assert s[|w|] == '/';
    assert forall i :: 0 <= i < |w| ==> s[i] == w[i];
    assert s[|w| + 1..] == p && s[..|w|] == w;
  }

  /** A string with a valid pair's form names that pair only. */
  lemma PairInjective(w: string, p: string, x: string, y: string)
    requires ValidName(w) && ValidName(p) && Pair(w, p) == Pair(x, y)
    ensures x == w && y == p
  {
    var s := Pair(w, p);
    NameHasNoSlash(w);
    NameHasNoSlash(p);
    SlashOfPair(w, p);
    assert s[|x|] == '/';
    assert |x| >= |w|;
    assert x == s[..|x|] && y == s[|x| + 1..];
  }

  lemma QualifiedIsPair(entry: string, workspace: Option<string>)
    requires Qualified(entry, workspace).Ok?
    ensures IsPair(Qualified(entry, workspace).value)
  {
    var k := Slash(entry);
    if k < |entry| {
      assert entry == Pair(entry[..k], entry[k + 1..]);
    } else {
      assert Qualified(entry, workspace).value == Pair(workspace.value, entry);
    }
  }

  lemma PairQualifies(entry: string, workspace: Option<string>)
    requires IsPair(entry)
    ensures Qualified(entry, workspace) == Ok(entry)
  {
    var w, p :| ValidName(w) && ValidName(p) && entry == Pair(w, p);
    NameHasNoSlash(w);
    SlashOfPair(w, p);
  }

  lemma NormalisedPairs(raw: Raw, argument: Option<string>)
    requires Normalised(raw, argument).Ok?
    ensures forall entry :: entry in Normalised(raw, argument).value.projects ==> IsPair(entry) && entry != ""
    ensures Normalised(raw, argument).value.projects != {}
  {
    var w := DefaultWorkspace(raw, argument);
    var s := Normalised(raw, argument).value;
    forall entry | entry in s.projects
      ensures IsPair(entry) && entry != ""
    {
      var i :| 0 <= i < |raw.projects| && Qualified(raw.projects[i], w).value == entry;
      QualifiedIsPair(raw.projects[i], w);
    }
    assert Qualified(raw.projects[0], w).value in s.projects;
  }

  /** Normalising what is stored changes nothing, in whatever order its projects are listed. */
  lemma NormaliseIdempotent(raw: Raw, argument: Option<string>, list: seq<string>)
    requires Normalised(raw, argument).Ok?
    requires (set p | p in list) == Normalised(raw, argument).value.projects && |list| <= MAX_PROJECTS
    ensures var s := Normalised(raw, argument).value;
            Normalised(Raw(s.org, s.workspace, list, s.role), argument) == Ok(s)
  {
    var s := Normalised(raw, argument).value;
    var w := DefaultWorkspace(Raw(s.org, s.workspace, list, s.role), argument);
    NormalisedPairs(raw, argument);
    forall i | 0 <= i < |list|
      ensures Qualified(list[i], w) == Ok(list[i])
    {
      assert list[i] in list;
      PairQualifies(list[i], w);
    }
    assert list != [];
    assert QualifiedSet(list, w) == s.projects;
  }

  /** A scope reads back as it was written. */
  lemma ReadBack(raw: Raw, argument: Option<string>)
    requires Normalised(raw, argument).Ok?
    ensures ScopeRow(Normalised(raw, argument).value) == Some(Normalised(raw, argument).value)
  {
    NormalisedPairs(raw, argument);
    var s := Normalised(raw, argument).value;
    assert (set p | p in s.projects && p != "") == s.projects;
  }

  /** The caller's list names this pair, in one spelling or the other. */
  predicate Lists(raw: Raw, workspace: Option<string>, w: string, p: string) {
    exists i :: 0 <= i < |raw.projects|
      && (raw.projects[i] == Pair(w, p) || (workspace == Some(w) && raw.projects[i] == p && Slash(p) == |p|))
  }

  /** A written scope reaches exactly the pairs its list names, in its own organisation. */
  lemma AllowsExactlyTheListed(raw: Raw, argument: Option<string>, org: string, w: string, p: string)
    requires Normalised(raw, argument).Ok?
    ensures Allows(Some(Normalised(raw, argument).value), Some(org), Some(w), Some(p)) <==>
            org == raw.org && Lists(raw, DefaultWorkspace(raw, argument), w, p)
  {
    var (s, d) := (Normalised(raw, argument).value, DefaultWorkspace(raw, argument));
    ReadBack(raw, argument);
    if Pair(w, p) in s.projects {
      var i :| 0 <= i < |raw.projects| && Qualified(raw.projects[i], d).value == Pair(w, p);
      if Slash(raw.projects[i]) == |raw.projects[i]| {
        PairInjective(d.value, raw.projects[i], w, p);
      }
    }
    if Lists(raw, d, w, p) {
      var i :| 0 <= i < |raw.projects|
        && (raw.projects[i] == Pair(w, p) || (d == Some(w) && raw.projects[i] == p && Slash(p) == |p|));
      assert Qualified(raw.projects[i], d).Ok?;
      assert Qualified(raw.projects[i], d).value in s.projects;
      if raw.projects[i] == Pair(w, p) {
        assert Pair(w, p)[|w|] == '/';
      }
    }
  }

  lemma ListedUnderSome(raw: Raw, argument: Option<string>, entry: string)
    requires Normalised(raw, argument).Ok? && entry in Normalised(raw, argument).value.projects
    ensures exists w :: ValidName(w) && Lists(raw, DefaultWorkspace(raw, argument), w, Tail(entry))
  {
    NormalisedPairs(raw, argument);
    ReadBack(raw, argument);
    var w, p :| ValidName(w) && ValidName(p) && entry == Pair(w, p);
    NameHasNoSlash(w);
    SlashOfPair(w, p);
    AllowsExactlyTheListed(raw, argument, raw.org, w, p);
  }

  lemma ListedIsStored(raw: Raw, argument: Option<string>, w: string, p: string)
    requires Normalised(raw, argument).Ok? && ValidName(w) && Lists(raw, DefaultWorkspace(raw, argument), w, p)
    ensures Pair(w, p) in Normalised(raw, argument).value.projects && Tail(Pair(w, p)) == p
  {
    NameHasNoSlash(w);
    SlashOfPair(w, p);
    ReadBack(raw, argument);
    AllowsExactlyTheListed(raw, argument, raw.org, w, p);
  }

  /** Asked without a workspace, it answers for the project under any workspace it lists. */
  lemma AllowsUnqualified(raw: Raw, argument: Option<string>, org: string, p: string)
    requires Normalised(raw, argument).Ok?
    ensures Allows(Some(Normalised(raw, argument).value), Some(org), None, Some(p)) <==>
            org == raw.org && exists w :: ValidName(w) && Lists(raw, DefaultWorkspace(raw, argument), w, p)
  {
    var s := Normalised(raw, argument).value;
    ReadBack(raw, argument);
    if entry :| entry in s.projects && Tail(entry) == p {
      ListedUnderSome(raw, argument, entry);
    }
    if w :| ValidName(w) && Lists(raw, DefaultWorkspace(raw, argument), w, p) {
      ListedIsStored(raw, argument, w, p);
    }
  }
}
