/** What each operation on the identity documents does, said account by account: when it is accepted,
    what the account then holds, and that no other account moves. */
module AccountMeaning {
  import opened Options
  import TokenScope
  import opened Accounts

  // ------------------------------------------------------------ the admitted texts

  const ALPHANUMERIC := "abcdefghijklmnopqrstuvwxyz0123456789"
  const CAPITALS := "ABCDEFGHIJKLMNOPQRSTUVWXYZ"

  lemma LettersAndDigits(c: char)
    ensures LowerOrDigit(c) <==> c in ALPHANUMERIC
  {
    assert forall i :: 0 <= i < 26 ==> ALPHANUMERIC[i] as int == 'a' as int + i;
    assert forall i :: 26 <= i < 36 ==> ALPHANUMERIC[i] as int == '0' as int + (i - 26);
    if 'a' <= c <= 'z' {
      assert ALPHANUMERIC[c as int - 'a' as int] == c;
    } else if '0' <= c <= '9' {
      assert ALPHANUMERIC[26 + (c as int - '0' as int)] == c;
    }
  }

  lemma Capitals(c: char)
    ensures 'A' <= c <= 'Z' <==> c in CAPITALS
  {
    assert forall i :: 0 <= i < 26 ==> CAPITALS[i] as int == 'A' as int + i;
    if 'A' <= c <= 'Z' {
      assert CAPITALS[c as int - 'A' as int] == c;
    }
  }

  /** `s` is `t`, or `t` and one final newline. */
  predicate MaybeNewline(s: string, t: string) {
    s == t || s == t + "\n"
  }

  ghost predicate HandleText(t: string) {
    1 <= |t| <= 32 && t[0] in ALPHANUMERIC && forall c :: c in t ==> c in ALPHANUMERIC || c in "._-"
  }

  ghost predicate CredentialText(t: string) {
    1 <= |t| <= 512 && forall c :: c in t ==> c in CAPITALS || c in ALPHANUMERIC || c in "_-"
  }

  lemma PlainHandleIff(t: string)
    ensures PlainHandle(t) <==> HandleText(t)
  {
    forall i | 0 <= i < |t|
      ensures LowerOrDigit(t[i]) <==> t[i] in ALPHANUMERIC
    {
      LettersAndDigits(t[i]);
    }
    assert forall i :: 0 <= i < |t| ==> t[i] in t;
  }

  lemma PlainCredentialIff(t: string)
    ensures PlainCredentialId(t) <==> CredentialText(t)
  {
    forall i | 0 <= i < |t|
      ensures LowerOrDigit(t[i]) <==> t[i] in ALPHANUMERIC
      ensures 'A' <= t[i] <= 'Z' <==> t[i] in CAPITALS
    {
      LettersAndDigits(t[i]);
      Capitals(t[i]);
    }
    assert forall i :: 0 <= i < |t| ==> t[i] in t;
  }

  lemma CutNewline(s: string)
    requires s != "" && s[|s| - 1] == '\n'
    ensures s == s[..|s| - 1] + "\n"
  {
  }

  /** A handle is 1 to 32 letters, digits, dots, underscores and hyphens that start with a letter or a
      digit; the pattern lets one final newline through. */
  lemma HandleIff(s: string)
    ensures ValidHandle(s) <==> exists t :: MaybeNewline(s, t) && HandleText(t)
  {
    PlainHandleIff(s);
    if ValidHandle(s) {
      if PlainHandle(s) {
        assert MaybeNewline(s, s);
      } else {
        CutNewline(s);
        PlainHandleIff(s[..|s| - 1]);
        assert MaybeNewline(s, s[..|s| - 1]);
      }
    }
    if t :| MaybeNewline(s, t) && HandleText(t) {
      PlainHandleIff(t);
      assert (t + "\n")[..|t|] == t;
    }
  }

  /** A credential id is 1 to 512 characters of base64url, with the same newline. */
  lemma CredentialIff(s: string)
    ensures ValidCredentialId(s) <==> exists t :: MaybeNewline(s, t) && CredentialText(t)
  {
    PlainCredentialIff(s);
    if ValidCredentialId(s) {
      if PlainCredentialId(s) {
        assert MaybeNewline(s, s);
      } else {
        CutNewline(s);
        PlainCredentialIff(s[..|s| - 1]);
        assert MaybeNewline(s, s[..|s| - 1]);
      }
    }
    if t :| MaybeNewline(s, t) && CredentialText(t) {
      PlainCredentialIff(t);
      assert (t + "\n")[..|t|] == t;
    }
  }

  /** An account is linked to an identity exactly when its row names both halves and neither is empty. */
  lemma LinkedIff(user: User, issuer: string, subject: string)
    ensures Linked(user, issuer, subject) <==>
      issuer != "" && subject != "" && exists email :: user.oidc == Some(Link(issuer, subject, email))
  {
    if Linked(user, issuer, subject) {
      assert user.oidc == Some(Link(issuer, subject, user.oidc.value.email));
    }
  }

  /** White space, by code point. */
  lemma BlankIff(c: char)
    ensures Blank(c) <==>
      var n := c as int;
      || 9 <= n <= 13 || 28 <= n <= 32 || 8192 <= n <= 8202
      || n in {133, 160, 5760, 8232, 8233, 8239, 8287, 12288}
  {
  }

  predicate AllBlank(s: string) {
    forall c :: c in s ==> Blank(c)
  }

  lemma {:induction false} StripLeftCut(s: string) returns (cut: string)
    ensures s == cut + StripLeft(s) && AllBlank(cut) && (StripLeft(s) != "" ==> !Blank(StripLeft(s)[0]))
  {
    if s != "" && Blank(s[0]) {
      var rest := StripLeftCut(s[1..]);
      cut := [s[0]] + rest;
      assert s == [s[0]] + s[1..];
    } else {
      cut := "";
    }
  }

  lemma {:induction false} StripRightCut(s: string) returns (cut: string)
    ensures s == StripRight(s) + cut && AllBlank(cut)
    ensures StripRight(s) != "" ==> !Blank(StripRight(s)[|StripRight(s)| - 1])
  {
    if s != "" && Blank(s[|s| - 1]) {
      var rest := StripRightCut(s[..|s| - 1]);
      cut := rest + [s[|s| - 1]];
      assert s == s[..|s| - 1] + [s[|s| - 1]];
    } else {
      cut := "";
    }
  }

  /** Stripping takes blanks off both ends, all of them and nothing else. */
  lemma StripMeans(s: string) returns (front: string, back: string)
    ensures s == front + Strip(s) + back && AllBlank(front) && AllBlank(back)
    ensures var t := Strip(s); t != "" ==> !Blank(t[0]) && !Blank(t[|t| - 1])
  {
    front := StripLeftCut(s);
    back := StripRightCut(StripLeft(s));
    var left := StripLeft(s);
    assert left == Strip(s) + back;
    assert Strip(s) != "" ==> left[0] == Strip(s)[0];
  }

  /** And the issuer's slashes go from its end. */
  lemma {:induction false} DropSlashesCut(s: string) returns (cut: string)
    ensures s == DropSlashes(s) + cut && (forall c :: c in cut ==> c == '/')
    ensures DropSlashes(s) != "" ==> DropSlashes(s)[|DropSlashes(s)| - 1] != '/'
  {
    if s != "" && s[|s| - 1] == '/' {
      var rest := DropSlashesCut(s[..|s| - 1]);
      cut := rest + "/";
      assert s == s[..|s| - 1] + "/";
    } else {
      cut := "";
    }
  }

  // ------------------------------------------------------------ accounts and links

  /** Nothing but these accounts moves, and nobody goes. */
  predicate OnlyAccount(d: Docs, n: Docs, handle: string) {
    && n.users.Keys == d.users.Keys + {handle}
    && (forall h :: h in d.users && h != handle ==> n.users[h] == d.users[h])
  }

  /** An account is created exactly for a valid handle nobody has and one of the two roles. It cannot
      sign in yet; its link is good for seven days. */
  lemma AddUserMeans(d: Docs, handle: string, role: string, key: string, now: real)
    ensures var r := AddUser(d, handle, role, key, now);
      && (r.Ok? <==> ValidHandle(handle) && role in {"admin", "member"} && handle !in d.users)
      && (r == Err(Conflict) <==> ValidHandle(handle) && role in {"admin", "member"} && handle in d.users)
      && (r.Ok? ==>
           && OnlyAccount(d, r.value, handle) && r.value.tokens == d.tokens
           && r.value.users[handle] == User(role, true, None, [], None)
           && r.value.enrolments == d.enrolments[key := Enrolment(handle, now + 7.0 * 24.0 * 3600.0, false)])
  {
  }

  /** Minting again leaves every account alone; the handle's old links are gone, the others stay. */
  lemma MintMeans(d: Docs, handle: string, key: string, now: real)
    ensures var r := MintEnrolment(d, handle, key, now);
      && (r.Ok? <==> ValidHandle(handle) && handle in d.users)
      && (r == Err(NotFound) <==> ValidHandle(handle) && handle !in d.users)
      && (r.Ok? ==>
           && r.value.users == d.users && r.value.tokens == d.tokens
           && key in r.value.enrolments
           && r.value.enrolments[key] == Enrolment(handle, now + 7.0 * 24.0 * 3600.0, false)
           && forall k :: k != key ==>
                (k in r.value.enrolments <==> k in d.enrolments && d.enrolments[k].handle != handle)
                && (k in r.value.enrolments ==> r.value.enrolments[k] == d.enrolments[k]))
  {
  }

  /** A link can be spent exactly while it is there, unspent and unexpired and its account exists, for a
      password of 8 to 1024 characters. The account then holds exactly that password and is enabled,
      everything else about it and every other account and link is as it was, and the link is spent. */
  lemma EnrolMeans(d: Docs, key: string, password: string, now: real)
    ensures var r := Enrol(d, key, password, now);
      var good := key in d.enrolments && !d.enrolments[key].used && now < d.enrolments[key].expires
                  && d.enrolments[key].handle in d.users;
      && (r == Err(NotFound) <==> !good)
      && (r.Ok? <==> good && 8 <= |password| <= 1024)
      && (r.Ok? ==>
           var (n, handle) := (r.value, d.enrolments[key].handle);
           var (before, after) := (d.users[handle], n.users[handle]);
           && OnlyAccount(d, n, handle) && n.tokens == d.tokens
           && after.password == Some(password) && !after.disabled
           && after.role == before.role && after.passkeys == before.passkeys && after.oidc == before.oidc
           && n.enrolments.Keys == d.enrolments.Keys && n.enrolments[key].used
           && n.enrolments[key].handle == handle && n.enrolments[key].expires == d.enrolments[key].expires
           && forall k :: k in d.enrolments && k != key ==> n.enrolments[k] == d.enrolments[k])
  {
  }

  /** Spending one link twice fails, whatever the second password and however little later. */
  lemma SpentLinkIsDead(d: Docs, key: string, password: string, again: string, now: real, later: real)
    requires Enrol(d, key, password, now).Ok?
    ensures Enrol(Enrol(d, key, password, now).value, key, again, later) == Err(NotFound)
  {
  }

  /** Enabling, disabling and changing a role set that one field of that one account. */
  lemma SetUserMeans(d: Docs, handle: string, field: Field)
    ensures var r := SetUser(d, handle, field);
      && (r.Ok? <==> handle in d.users && (field.Role? ==> field.role in {"admin", "member"}))
      && (r.Ok? ==>
           var (before, after) := (d.users[handle], r.value.users[handle]);
           && OnlyAccount(d, r.value, handle) && r.value.enrolments == d.enrolments && r.value.tokens == d.tokens
           && after.password == before.password && after.passkeys == before.passkeys && after.oidc == before.oidc
           && (field.Disabled? ==> after.disabled == field.value && after.role == before.role)
           && (field.Role? ==> after.role == field.role && after.disabled == before.disabled))
  {
  }

  // ------------------------------------------------------------ passkeys

  /** A credential is added exactly when its id is well formed, it has a key, the account exists and
      nobody holds it. It goes to the end of the account's list, with a counter that is not negative. */
  lemma AddPasskeyMeans(d: Docs, handle: string, id: string, publicKey: string, count: int, title: string)
    ensures var r := AddPasskey(d, handle, id, publicKey, count, title);
      && (r.Ok? <==> ValidCredentialId(id) && publicKey != "" && handle in d.users && Owners(d, id) == {})
      && (r == Err(Conflict) <==> ValidCredentialId(id) && publicKey != "" && handle in d.users && Owners(d, id) != {})
      && (r.Ok? ==>
           var (before, after) := (d.users[handle], r.value.users[handle]);
           && OnlyAccount(d, r.value, handle) && r.value.enrolments == d.enrolments && r.value.tokens == d.tokens
           && after == before.(passkeys := after.passkeys) && |after.passkeys| == |before.passkeys| + 1
           && after.passkeys[..|before.passkeys|] == before.passkeys
           && var p := after.passkeys[|before.passkeys|];
              p.id == id && p.publicKey == publicKey && p.title == title && p.lastUsed == None
              && p.signCount >= count && (p.signCount == count || p.signCount == 0))
  {
    if exists h :: h in d.users && HasPasskey(d.users[h], id) {
      var h :| h in d.users && HasPasskey(d.users[h], id);
      assert h in Owners(d, id);
    }
  }

  /** After an assertion the counter is the larger of the stored and the reported one, and the credential
      was last used now; the other credentials, and all else, are as they were. */
  lemma CountMeans(d: Docs, handle: string, id: string, count: int, now: real, i: nat)
    requires handle in d.users && i < |d.users[handle].passkeys|
    ensures var n := UpdateSignCount(d, handle, id, count, now);
      && OnlyAccount(d, n, handle) && n.enrolments == d.enrolments && n.tokens == d.tokens
      && var (before, after) := (d.users[handle], n.users[handle]);
         && after == before.(passkeys := after.passkeys) && |after.passkeys| == |before.passkeys|
         && var (p, q) := (before.passkeys[i], after.passkeys[i]);
            && q.id == p.id && q.publicKey == p.publicKey && q.title == p.title
            && (p.id == id ==> q.signCount >= p.signCount && q.signCount >= count && q.lastUsed == Some(now)
                               && (q.signCount == p.signCount || q.signCount == count))
            && (p.id != id ==> q == p)
  {
  }

  // ------------------------------------------------------------ linked identities

  /** A link is refused exactly for an empty half, an account that is not there, or an identity another
      account holds; it changes no other account, and nothing but the link of this one. */
  lemma LinkMeans(d: Docs, handle: string, issuer: string, subject: string, email: Option<string>)
    ensures var r := LinkOidc(d, handle, issuer, subject, email);
      && (r == Err(Invalid) <==> Strip(issuer) == "" || Strip(subject) == "")
      && (r == Err(Conflict) <==> Strip(issuer) != "" && Strip(subject) != "" && handle in d.users
                                  && exists h :: h in Holders(d, issuer, subject) && h != handle)
      && (r.Ok? ==>
           && OnlyAccount(d, r.value, handle) && r.value.enrolments == d.enrolments && r.value.tokens == d.tokens
           && handle in d.users && r.value.users[handle] == d.users[handle].(oidc := r.value.users[handle].oidc)
           && r.value.users[handle].oidc.Some?
           && r.value.users[handle].oidc.value == Link(IssuerOf(issuer), Strip(subject), email))
  {
    if handle in d.users
      && exists h :: h in d.users && h != handle && Linked(d.users[h], IssuerOf(issuer), Strip(subject)) {
      var h :| h in d.users && h != handle && Linked(d.users[h], IssuerOf(issuer), Strip(subject));
      assert h in Holders(d, issuer, subject);
    }
  }

  /** Unlinking leaves the account with no link to sign in by, and nothing else changed. */
  lemma UnlinkMeans(d: Docs, handle: string)
    ensures var r := UnlinkOidc(d, handle);
      && (r.Ok? <==> handle in d.users)
      && (r.Ok? ==>
           && OnlyAccount(d, r.value, handle) && r.value.enrolments == d.enrolments && r.value.tokens == d.tokens
           && LinkOf(r.value.users[handle]) == None
           && r.value.users[handle] == d.users[handle].(oidc := r.value.users[handle].oidc))
  {
  }

  // ------------------------------------------------------------ tokens

  /** A token is minted exactly for a name like a handle, one of the two roles and a scope that reads as
      one; after that it resolves, for its own secret and until it is revoked, for as many days as it
      was minted for, and for ever when that is none. */
  lemma TokenLives(d: Docs, id: string, m: Mint, minted: real, ops: seq<Op>, digest: string, now: real)
    requires id !in d.tokens
    ensures AddToken(d, id, m, minted).Ok? <==>
      && ValidHandle(m.name) && m.role in {"admin", "member"}
      && (m.scope.Some? ==> TokenScope.Normalised(m.scope.value, None).Ok?)
    ensures AddToken(d, id, m, minted).Ok? ==>
      var n := Run(AddToken(d, id, m, minted).value, ops);
      ResolveToken(n, id, digest, now).Some? <==>
        && digest == m.digest && RevokeTokenOp(id) !in ops
        && (m.ttlDays in {None, Some(0)} || now < minted + 24.0 * 3600.0 * m.ttlDays.value as real)
  {
    if AddToken(d, id, m, minted).Ok? {
      TokenResolvesIff(d, id, m, minted, ops, digest, now);
    }
  }

  /** Minting a token, and revoking one, touches no account, no link and no other token. */
  lemma TokenFrame(d: Docs, id: string, m: Mint, now: real)
    ensures var r := AddToken(d, id, m, now);
      r.Ok? ==> r.value == d.(tokens := r.value.tokens) && forall k :: k in d.tokens ==>
        k in r.value.tokens && r.value.tokens[k] == d.tokens[k]
    ensures var r := RevokeToken(d, id);
      && (r.Ok? <==> id in d.tokens)
      && (r.Ok? ==>
           && r.value == d.(tokens := r.value.tokens) && r.value.tokens.Keys == d.tokens.Keys
           && r.value.tokens[id].revoked
           && forall k :: k in d.tokens && k != id ==> r.value.tokens[k] == d.tokens[k])
  {
  }
}
