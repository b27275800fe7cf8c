/** The identity store as the object it is: the re-entrant scope guard and the documents behind it.
    Every operation makes exactly the change the run models reason about and keeps the store valid:
    the lock held exactly inside a scope, the documents sane, every session with its cap. */
module IdentityStore {
  import opened Options
  import Accounts
  import Sessions
  import TokenScope

  /** The per-root lock state. Only the outermost scope opens the lock file. */
  class Guard {
    const flock: bool
    var depth: nat
    var handle: bool
    // How often the file lock was taken, for the specification only.
    ghost var taken: nat

    /** The file lock is held exactly inside a scope, where there is one. */
    ghost predicate Valid()
      reads this
    {
      handle <==> flock && depth > 0
    }

    constructor (flock: bool)
      ensures Valid() && depth == 0 && taken == 0 && this.flock == flock
    {
      this.flock := flock;
      depth, handle, taken := 0, false, 0;
    }

    method Enter()
      requires Valid()
      modifies this
      ensures Valid() && depth == old(depth) + 1
      ensures taken == old(taken) + if flock && old(depth) == 0 then 1 else 0
    {
      if depth == 0 && flock {
        handle := true;
        taken := taken + 1;
      }
      depth := depth + 1;
    }

    method Leave()
      requires Valid() && depth > 0
      modifies this
      ensures Valid() && depth == old(depth) - 1 && taken == old(taken)
    {
      depth := depth - 1;
      if depth == 0 && handle {
        handle := false;
      }
    }
  }

  /** What a session needs to know of the accounts. */
  ghost function Known(users: map<string, Accounts.User>): map<string, Sessions.User> {
    map h | h in users :: Sessions.User(users[h].role, users[h].disabled)
  }

  /** The account as it is once its link is spent. */
  ghost function Enabled(users: map<string, Accounts.User>, handle: string, password: string)
    : map<string, Accounts.User>
    requires handle in users
  {
    users[handle := users[handle].(disabled := false, password := Some(password))]
  }

  lemma EnrolledLive(users: map<string, Accounts.User>, sessions: map<string, Sessions.Session>, handle: string,
                     password: string, now: real)
    requires handle in users
    ensures Sessions.State(now, Known(Enabled(users, handle, password)), Sessions.DropHandle(sessions, handle), [])
      == Sessions.Take(Sessions.State(now, Known(users), sessions, []), Sessions.Enrol(handle))
  {
    assert Known(Enabled(users, handle, password)) == Known(users)[handle := Known(users)[handle].(disabled := false)];
  }

  lemma KnownWith(users: map<string, Accounts.User>, handle: string, user: Accounts.User)
    ensures Known(users[handle := user]) == Known(users)[handle := Sessions.User(user.role, user.disabled)]
  {
  }

  /** The caller is told what the model says: the same success or the same error. */
  ghost predicate Tells<T>(r: Result<T, Accounts.Error>, want: Result<Accounts.Docs, Accounts.Error>) {
    r.Ok? == want.Ok? && (r.Err? ==> r.error == want.error)
  }

  ghost predicate Capped(sessions: map<string, Sessions.Session>) {
    Sessions.Capped(Sessions.State(0.0, map[], sessions, []))
  }

  lemma CappedAfter(before: Sessions.State, step: Sessions.Step)
    requires Capped(before.sessions)
    ensures Capped(Sessions.Take(before, step).sessions)
  {
    Sessions.CappedStep(before, step);
  }

  lemma CappedStamp(before: Sessions.State, key: string, at: real)
    requires Capped(before.sessions)
    ensures Capped(Sessions.Stamp(before, key, at).sessions)
  {
  }

  /** A resolve at the time of `s` whose slide is written at `later`. */
  ghost function Resolved(s: Sessions.State, key: string, later: real): Sessions.State {
    Sessions.Take(Sessions.Take(Sessions.Take(s, Sessions.Look(key)), Sessions.Tick(later - s.now)), Sessions.Land(0))
  }

  /** A shorter list means a credential went; the same length means the same list. */
  lemma {:induction false} DroppedIff(rows: seq<Accounts.Passkey>, id: string)
    ensures |Accounts.DropId(rows, id)| == |rows| ==> Accounts.DropId(rows, id) == rows
    ensures |Accounts.DropId(rows, id)| == |rows| <==> forall i :: 0 <= i < |rows| ==> rows[i].id != id
  {
    if rows != [] {
      DroppedIff(rows[1..], id);
      assert rows == [rows[0]] + rows[1..];
    }
  }

  method WithoutId(rows: seq<Accounts.Passkey>, id: string) returns (kept: seq<Accounts.Passkey>, gone: bool)
    ensures kept == Accounts.DropId(rows, id) && (!gone ==> kept == rows)
    ensures gone <==> exists i :: 0 <= i < |rows| && rows[i].id == id
  {
    kept := Accounts.DropId(rows, id);
    DroppedIff(rows, id);
    gone := |kept| != |rows|;
  }

  class AuthStore {
    const guard: Guard
    var users: map<string, Accounts.User>
    var enrolments: map<string, Accounts.Enrolment>
    var tokens: map<string, Accounts.Token>
    var sessions: map<string, Sessions.Session>

    /** The lock is held exactly inside a scope, no credential or identity has two accounts, every link
        belongs to one account, and every session carries the cap it was created with. */
    ghost predicate Valid()
      reads this, guard
    {
      guard.Valid() && Accounts.Sane(Docs()) && Capped(sessions)
    }

    /** Opens whatever documents are there. */
    constructor (guard: Guard, docs: Accounts.Docs, found: map<string, Sessions.Session>)
      requires guard.Valid()
      ensures this.guard == guard && Docs() == docs && sessions == found
      ensures Valid() <==> Accounts.Sane(docs) && Capped(found)
    {
      this.guard := guard;
      users, enrolments, tokens, sessions := docs.users, docs.enrolments, docs.tokens, found;
    }

    /** The documents as the account model sees them. */
    ghost function Docs(): Accounts.Docs
      reads this
    {
      Accounts.Docs(users, enrolments, tokens)
    }

    /** The session document and what it needs of the accounts, as the session model sees them, with
        no slide in flight. */
    ghost function Live(now: real): Sessions.State
      reads this
    {
      Sessions.State(now, Known(users), sessions, [])
    }

    // ---------------------------------------------------------- accounts

    method AddUser(handle: string, role: string, key: string, now: real) returns (r: Result<(), Accounts.Error>)
      requires Valid()
      modifies this`users, this`enrolments, guard
      ensures guard.Valid() && (key !in old(enrolments) ==> Valid()) && guard.depth == old(guard.depth)
      ensures Docs() == Accounts.Take(old(Docs()), Accounts.AddUserOp(handle, role, key, now))
      ensures Tells(r, Accounts.AddUser(old(Docs()), handle, role, key, now))
    {
      if key !in enrolments {
        Accounts.SaneStep(Docs(), Accounts.AddUserOp(handle, role, key, now));
      }
      if !Accounts.ValidHandle(handle) || !Accounts.ValidRole(role) {
        return Err(Accounts.Invalid);
      }
      guard.Enter();
      if handle in users {
        r := Err(Accounts.Conflict);
      } else {
        users := users[handle := Accounts.User(role, true, None, [], None)];
        enrolments := enrolments[key := Accounts.Enrolment(handle, now + Accounts.ENROL_TTL, false)];
        r := Ok(());
      }
      guard.Leave();
    }

    method MintEnrolment(handle: string, key: string, now: real) returns (r: Result<(), Accounts.Error>)
      requires Valid()
      modifies this`enrolments, guard
      ensures guard.Valid() && (key !in old(enrolments) ==> Valid()) && guard.depth == old(guard.depth)
      ensures Docs() == Accounts.Take(old(Docs()), Accounts.MintOp(handle, key, now))
      ensures Tells(r, Accounts.MintEnrolment(old(Docs()), handle, key, now))
    {
      if key !in enrolments {
        Accounts.SaneStep(Docs(), Accounts.MintOp(handle, key, now));
      }
      if !Accounts.ValidHandle(handle) {
        return Err(Accounts.Invalid);
      }
      guard.Enter();
      if handle !in users {
        r := Err(Accounts.NotFound);
      } else {
        var others := map k | k in enrolments && enrolments[k].handle != handle :: enrolments[k];
        enrolments := others[key := Accounts.Enrolment(handle, now + Accounts.ENROL_TTL, false)];
        r := Ok(());
      }
      guard.Leave();
    }

    /** One field of an account; the role has been checked. */
    method SetUserField(handle: string, field: Accounts.Field, now: real) returns (r: Result<(), Accounts.Error>)
      requires Valid() && (field.Role? ==> Accounts.ValidRole(field.role))
      modifies this`users, guard
      ensures Valid() && guard.depth == old(guard.depth)
      ensures Docs() == Accounts.Take(old(Docs()), Accounts.SetUserOp(handle, field))
      ensures Tells(r, Accounts.SetUser(old(Docs()), handle, field))
      ensures r.Ok? ==>
        var user := Sessions.User(users[handle].role, users[handle].disabled);
        Live(now) == Sessions.Take(old(Live(now)), Sessions.SetUser(handle, user))
    {
      Accounts.SaneStep(Docs(), Accounts.SetUserOp(handle, field));
      guard.Enter();
      if handle !in users {
        r := Err(Accounts.NotFound);
      } else {
        var row := users[handle];
        match field {
          case Disabled(value) => row := row.(disabled := value);
          case Role(role) => row := row.(role := role);
        }
        KnownWith(users, handle, row);
        users := users[handle := row];
        r := Ok(());
      }
      guard.Leave();
    }

    /** Live sessions die on their next request: none of the handle's answers any more. */
    method DisableUser(handle: string, now: real) returns (r: Result<(), Accounts.Error>)
      requires Valid()
      modifies this`users, guard
      ensures Valid() && guard.depth == old(guard.depth)
      ensures Docs() == Accounts.Take(old(Docs()), Accounts.SetUserOp(handle, Accounts.Disabled(true)))
      ensures r.Ok? <==> handle in old(users)
      ensures forall key :: key in sessions && sessions[key].handle == handle ==>
        Sessions.Answer(Live(now), key) == None
    {
      r := SetUserField(handle, Accounts.Disabled(true), now);
    }

    /** The sessions of the handle that have not run out in the meantime answer again. */
    method EnableUser(handle: string, now: real) returns (r: Result<(), Accounts.Error>)
      requires Valid()
      modifies this`users, guard
      ensures Valid() && guard.depth == old(guard.depth)
      ensures Docs() == Accounts.Take(old(Docs()), Accounts.SetUserOp(handle, Accounts.Disabled(false)))
      ensures r.Ok? <==> handle in old(users)
      ensures r.Ok? ==> forall key :: key in sessions && sessions[key].handle == handle ==>
        (Sessions.Answer(Live(now), key).Some? <==> Sessions.Live(Live(now), key))
    {
      r := SetUserField(handle, Accounts.Disabled(false), now);
    }

    /** What a live session answers has the new role from the next request on. */
    method SetRole(handle: string, role: string, now: real) returns (r: Result<(), Accounts.Error>)
      requires Valid()
      modifies this`users, guard
      ensures Valid() && guard.depth == old(guard.depth)
      ensures Docs() == Accounts.Take(old(Docs()), Accounts.SetUserOp(handle, Accounts.Role(role)))
      ensures Tells(r, Accounts.SetUser(old(Docs()), handle, Accounts.Role(role)))
      ensures r.Ok? ==> forall key :: key in sessions && sessions[key].handle == handle ==>
        (Sessions.Answer(Live(now), key).Some? ==> Sessions.Answer(Live(now), key).value.role == role)
    {
      if !Accounts.ValidRole(role) {
        return Err(Accounts.Invalid);
      }
      r := SetUserField(handle, Accounts.Role(role), now);
    }

    /** Spends a link, enables the account, and signs the handle out everywhere from inside the same
        scope: the nested scope takes no second file lock. */
    method Enrol(key: string, password: string, now: real) returns (r: Result<string, Accounts.Error>)
      requires Valid()
      modifies this`users, this`enrolments, this`sessions, guard
      ensures Valid() && guard.depth == old(guard.depth)
      ensures guard.taken == old(guard.taken) + if guard.flock && old(guard.depth) == 0 then 1 else 0
      ensures Docs() == Accounts.Take(old(Docs()), Accounts.EnrolOp(key, password, now))
      ensures Tells(r, Accounts.Enrol(old(Docs()), key, password, now))
      ensures r.Ok? ==> r.value == old(enrolments)[key].handle
      ensures r.Ok? ==> Live(now) == Sessions.Take(old(Live(now)), Sessions.Enrol(r.value))
      ensures r.Err? ==> sessions == old(sessions)
    {
      Accounts.SaneStep(Docs(), Accounts.EnrolOp(key, password, now));
      guard.Enter();
      if key !in enrolments || enrolments[key].used || enrolments[key].expires <= now {
        r := Err(Accounts.NotFound);
      } else if enrolments[key].handle !in users {
        r := Err(Accounts.NotFound);
      } else if |password| < Accounts.MIN_PASSWORD || |password| > Accounts.MAX_PASSWORD {
        r := Err(Accounts.Invalid);
      } else {
        var handle := enrolments[key].handle;
        EnrolledLive(users, sessions, handle, password, now);
        users := users[handle := users[handle].(disabled := false, password := Some(password))];
        enrolments := enrolments[key := enrolments[key].(used := true)];
        var dropped := RevokeSessionsFor(handle);
        r := Ok(handle);
      }
      guard.Leave();
    }

    // ---------------------------------------------------------- passkeys and linked identities

    /** The loop of `add_passkey`: a credential may be on any account. */
    method SomeoneHas(id: string) returns (found: bool)
      ensures found <==> exists h :: h in users && Accounts.HasPasskey(users[h], id)
    {
      var others := users.Keys;
      while others != {}
        invariant others <= users.Keys
        invariant forall h :: h in users && h !in others ==> !Accounts.HasPasskey(users[h], id)
        decreases |others|
      {
        var other :| other in others;
        if exists i :: 0 <= i < |users[other].passkeys| && users[other].passkeys[i].id == id {
          return true;
        }
        others := others - {other};
      }
      found := false;
    }

    method AddPasskey(handle: string, id: string, publicKey: string, count: int, title: string)
      returns (r: Result<(), Accounts.Error>)
      requires Valid()
      modifies this`users, guard
      ensures Valid() && guard.depth == old(guard.depth)
      ensures Docs() == Accounts.Take(old(Docs()), Accounts.AddPasskeyOp(handle, id, publicKey, count, title))
      ensures Tells(r, Accounts.AddPasskey(old(Docs()), handle, id, publicKey, count, title))
    {
      Accounts.SaneStep(Docs(), Accounts.AddPasskeyOp(handle, id, publicKey, count, title));
      if !Accounts.ValidCredentialId(id) || publicKey == "" {
        return Err(Accounts.Invalid);
      }
      guard.Enter();
      if handle !in users {
        guard.Leave();
        return Err(Accounts.NotFound);
      }
      var taken := SomeoneHas(id);
      if taken {
        guard.Leave();
        return Err(Accounts.Conflict);
      }
      var row := users[handle];
      var entry := Accounts.Passkey(id, publicKey, if count > 0 then count else 0, title, None);
      users := users[handle := row.(passkeys := row.passkeys + [entry])];
      guard.Leave();
      r := Ok(());
    }

    method UpdateSignCount(handle: string, id: string, count: int, now: real)
      requires Valid()
      modifies this`users, guard
      ensures Valid() && guard.depth == old(guard.depth)
      ensures Docs() == Accounts.Take(old(Docs()), Accounts.CountOp(handle, id, count, now))
    {
      Accounts.SaneStep(Docs(), Accounts.CountOp(handle, id, count, now));
      guard.Enter();
      if handle in users {
        var row := users[handle];
        var updated, changed := Accounts.UpdateCounts(row.passkeys, id, count, now);
        if changed {
          users := users[handle := row.(passkeys := updated)];
        } else {
          assert updated == row.passkeys;
          assert users[handle := row.(passkeys := updated)] == users;
        }
      }
      guard.Leave();
    }

    method RemovePasskey(handle: string, id: string) returns (r: Result<bool, Accounts.Error>)
      requires Valid()
      modifies this`users, guard
      ensures Valid() && guard.depth == old(guard.depth)
      ensures Docs() == Accounts.Take(old(Docs()), Accounts.RemovePasskeyOp(handle, id))
      ensures Tells(r, Accounts.RemovePasskey(old(Docs()), handle, id))
      ensures r.Ok? ==> (r.value <==> Accounts.HasPasskey(old(users)[handle], id))
    {
      Accounts.SaneStep(Docs(), Accounts.RemovePasskeyOp(handle, id));
      guard.Enter();
      if handle !in users {
        r := Err(Accounts.NotFound);
      } else {
        var row := users[handle];
        var kept, gone := WithoutId(row.passkeys, id);
        if gone {
          users := users[handle := row.(passkeys := kept)];
        } else {
          assert users[handle := row.(passkeys := kept)] == users;
        }
        r := Ok(gone);
      }
      guard.Leave();
    }

    /** The loop of `link_oidc`. */
    method LinkedElsewhere(handle: string, issuer: string, subject: string) returns (found: bool)
      ensures found <==> exists h :: h in users && h != handle && Accounts.Linked(users[h], issuer, subject)
    {
      var others := users.Keys;
      while others != {}
        invariant others <= users.Keys
        invariant forall h :: h in users && h !in others && h != handle ==> !Accounts.Linked(users[h], issuer, subject)
        decreases |others|
      {
        var other :| other in others;
        if other != handle && Accounts.Linked(users[other], issuer, subject) {
          return true;
        }
        others := others - {other};
      }
      found := false;
    }

    method LinkOidc(handle: string, issuer: string, subject: string, email: Option<string>)
      returns (r: Result<(), Accounts.Error>)
      requires Valid()
      modifies this`users, guard
      ensures Valid() && guard.depth == old(guard.depth)
      ensures Docs() == Accounts.Take(old(Docs()), Accounts.LinkOp(handle, issuer, subject, email))
      ensures Tells(r, Accounts.LinkOidc(old(Docs()), handle, issuer, subject, email))
    {
      Accounts.SaneStep(Docs(), Accounts.LinkOp(handle, issuer, subject, email));
      if Accounts.Strip(issuer) == "" || Accounts.Strip(subject) == "" {
        return Err(Accounts.Invalid);
      }
      var link := Accounts.Link(Accounts.IssuerOf(issuer), Accounts.Strip(subject), email);
      guard.Enter();
      if handle !in users {
        guard.Leave();
        return Err(Accounts.NotFound);
      }
      var taken := LinkedElsewhere(handle, link.issuer, link.subject);
      if taken {
        guard.Leave();
        return Err(Accounts.Conflict);
      }
      var row := users[handle];
      if !(Accounts.Linked(row, link.issuer, link.subject) && Accounts.LinkOf(row).value.email == email) {
        users := users[handle := row.(oidc := Some(link))];
      }
      guard.Leave();
      r := Ok(());
    }

    method UnlinkOidc(handle: string) returns (r: Result<bool, Accounts.Error>)
      requires Valid()
      modifies this`users, guard
      ensures Valid() && guard.depth == old(guard.depth)
      ensures Docs() == Accounts.Take(old(Docs()), Accounts.UnlinkOp(handle))
      ensures Tells(r, Accounts.UnlinkOidc(old(Docs()), handle))
      ensures r.Ok? ==> (r.value <==> Accounts.LinkOf(old(users)[handle]).Some?)
    {
      Accounts.SaneStep(Docs(), Accounts.UnlinkOp(handle));
      guard.Enter();
      if handle !in users {
        r := Err(Accounts.NotFound);
      } else if Accounts.LinkOf(users[handle]).None? {
        r := Ok(false);
      } else {
        users := users[handle := users[handle].(oidc := None)];
        r := Ok(true);
      }
      guard.Leave();
    }

    // ---------------------------------------------------------- tokens

    /** Checks the name, the role and the scope, then draws ids until one is free; `draws` is what the
        generator would give. */
    method AddToken(draws: seq<string>, m: Accounts.Mint, now: real) returns (r: Result<string, Accounts.Error>)
      requires Valid() && exists i :: 0 <= i < |draws| && draws[i] !in tokens
      modifies this`tokens, guard
      ensures Valid() && guard.depth == old(guard.depth)
      ensures r.Ok? <==> Accounts.ValidMint(m)
      ensures r.Err? ==> r.error == Accounts.Invalid && Docs() == old(Docs())
      ensures r.Ok? ==> r.value in draws && r.value !in old(tokens)
      ensures r.Ok? ==> Docs() == Accounts.Take(old(Docs()), Accounts.AddTokenOp(r.value, m, now))
    {
      if !Accounts.ValidHandle(m.name) || !Accounts.ValidRole(m.role) {
        return Err(Accounts.Invalid);
      }
      var scope: Option<TokenScope.Scope> := None;
      if m.scope.Some? {
        var checked := TokenScope.CheckTokenScope(m.scope.value, None);
        if checked.Err? {
          return Err(Accounts.Invalid);
        }
        scope := Some(checked.value);
      }
      guard.Enter();
      var id := Draw(draws);
      Accounts.SaneStep(Docs(), Accounts.AddTokenOp(id, m, now));
      tokens := tokens[id := Accounts.Token(m.name, m.role, m.digest, Accounts.Expiry(m, now), scope, false)];
      guard.Leave();
      r := Ok(id);
    }

    method Draw(draws: seq<string>) returns (id: string)
      requires exists i :: 0 <= i < |draws| && draws[i] !in tokens
      ensures id in draws && id !in tokens
    {
      var i := 0;
      while draws[i] in tokens
        invariant 0 <= i < |draws| && forall j :: 0 <= j < i ==> draws[j] in tokens
        invariant exists j :: 0 <= j < |draws| && draws[j] !in tokens
        decreases |draws| - i
      {
        i := i + 1;
      }
      id := draws[i];
    }

    method RevokeToken(id: string) returns (r: Result<(), Accounts.Error>)
      requires Valid()
      modifies this`tokens, guard
      ensures Valid() && guard.depth == old(guard.depth)
      ensures Docs() == Accounts.Take(old(Docs()), Accounts.RevokeTokenOp(id))
      ensures Tells(r, Accounts.RevokeToken(old(Docs()), id))
    {
      Accounts.SaneStep(Docs(), Accounts.RevokeTokenOp(id));
      guard.Enter();
      if id !in tokens {
        r := Err(Accounts.NotFound);
      } else {
        tokens := tokens[id := tokens[id].(revoked := true)];
        r := Ok(());
      }
      guard.Leave();
    }

    // ---------------------------------------------------------- sessions

    method CreateSession(key: string, handle: string, device: Option<string>, now: real)
      returns (r: Result<(), Accounts.Error>)
      requires Valid()
      modifies this`sessions, guard
      ensures Valid() && guard.depth == old(guard.depth)
      ensures Live(now) == Sessions.Take(old(Live(now)), Sessions.Create(key, handle, device))
      ensures r.Ok? <==> handle in users
    {
      CappedAfter(Live(now), Sessions.Create(key, handle, device));
      guard.Enter();
      if handle !in users {
        r := Err(Accounts.NotFound);
      } else {
        var row := Sessions.Session(handle, device, now, now, now + Sessions.ABSOLUTE);
        sessions := Sessions.Prune(sessions[key := row], now);
        r := Ok(());
      }
      guard.Leave();
    }

    /** The documents are read at `now` and the slide, if there is one, is written at `later`. */
    method ResolveSession(key: string, now: real, later: real) returns (who: Option<Sessions.Who>)
      requires Valid() && now <= later
      modifies this`sessions, guard
      ensures Valid() && guard.depth == old(guard.depth)
      ensures who == Sessions.Answer(old(Live(now)), key)
      ensures Live(later) == Resolved(old(Live(now)), key, later)
    {
      if key !in sessions {
        return None;
      }
      var row := sessions[key];
      if now >= row.expires {
        return None;
      }
      if now - row.lastSeen >= Sessions.SLIDING {
        return None;
      }
      if row.handle !in users || users[row.handle].disabled {
        return None;
      }
      who := Some(Sessions.Who(row.handle, users[row.handle].role, row.device));
      if now - row.lastSeen >= Sessions.GRANULARITY {
        Slide(key, now, later);
      }
    }

    /** `at` is when the resolve read the row, `now` when the stamp is written. */
    method Slide(key: string, at: real, now: real)
      requires Valid()
      modifies this`sessions, guard
      ensures Valid() && guard.depth == old(guard.depth)
      ensures Live(now) == Sessions.Stamp(old(Live(now)), key, at)
    {
      CappedStamp(Live(now), key, at);
      guard.Enter();
      if key in sessions {
        sessions := Sessions.Prune(sessions[key := sessions[key].(lastSeen := at)], now);
      }
      guard.Leave();
    }

    method RevokeSession(key: string, now: real)
      requires Valid()
      modifies this`sessions, guard
      ensures Valid() && guard.depth == old(guard.depth)
      ensures Live(now) == Sessions.Take(old(Live(now)), Sessions.Revoke(key))
    {
      CappedAfter(Live(now), Sessions.Revoke(key));
      guard.Enter();
      if key in sessions {
        sessions := Sessions.Prune(sessions - {key}, now);
      }
      guard.Leave();
    }

    /** Signs a handle out everywhere and says how many rows went. */
    method RevokeSessionsFor(handle: string) returns (dropped: int)
      requires Valid()
      modifies this`sessions, guard
      ensures Valid() && guard.depth == old(guard.depth)
      ensures guard.taken == old(guard.taken) + if guard.flock && old(guard.depth) == 0 then 1 else 0
      ensures sessions == Sessions.DropHandle(old(sessions), handle) && dropped == |old(sessions)| - |sessions|
    {
      guard.Enter();
      var kept := map k | k in sessions && sessions[k].handle != handle :: sessions[k];
      dropped := |sessions| - |kept|;
      if dropped != 0 {
        sessions := kept;
      } else {
        SameSizeSameMap(kept, sessions);
      }
      guard.Leave();
    }
  }

  lemma SameSizeSameMap(kept: map<string, Sessions.Session>, all: map<string, Sessions.Session>)
    requires kept.Keys <= all.Keys && |kept| == |all| && forall k :: k in kept ==> kept[k] == all[k]
    ensures kept == all
  {
    assert |kept.Keys| == |kept| && |all.Keys| == |all|;
    assert all.Keys == kept.Keys + (all.Keys - kept.Keys);
  }
}
