/** The identity documents over whole runs: accounts, enrolment links, passkeys, linked identities
    and agent tokens. Secrets appear as their digests, which are distinct for distinct secrets. */
module Accounts {
  import opened Options
  import TokenScope

  const ENROL_TTL := 604800.0
  const MIN_PASSWORD := 8
  const MAX_PASSWORD := 1024

  datatype Passkey = Passkey(id: string, publicKey: string, signCount: nat, title: string, lastUsed: Option<real>)
  datatype Link = Link(issuer: string, subject: string, email: Option<string>)
  datatype User = User(role: string, disabled: bool, password: Option<string>, passkeys: seq<Passkey>,
                       oidc: Option<Link>)
  datatype Enrolment = Enrolment(handle: string, expires: real, used: bool)
  datatype Token = Token(name: string, role: string, digest: string, expires: Option<real>,
                         scope: Option<TokenScope.Scope>, revoked: bool)
  datatype Docs = Docs(users: map<string, User>, enrolments: map<string, Enrolment>, tokens: map<string, Token>)

  datatype Error = NotFound | Conflict | Invalid

  // ------------------------------------------------------------ validation

  predicate LowerOrDigit(c: char) {
    'a' <= c <= 'z' || '0' <= c <= '9'
  }

  /** 1 to 32 of a-z, 0-9, dot, underscore, hyphen, starting with a letter or digit. */
  predicate PlainHandle(s: string) {
    1 <= |s| <= 32 && LowerOrDigit(s[0]) && forall i :: 0 <= i < |s| ==> LowerOrDigit(s[i]) || s[i] in "._-"
  }

  /** The handle pattern. Its `$` also matches before one final newline. */
  predicate ValidHandle(s: string) {
    PlainHandle(s) || (s != "" && s[|s| - 1] == '\n' && PlainHandle(s[..|s| - 1]))
  }

  predicate ValidRole(role: string) {
    role == "admin" || role == "member"
  }

  /** 1 to 512 base64url characters. */
  predicate PlainCredentialId(s: string) {
    1 <= |s| <= 512
    && forall i :: 0 <= i < |s| ==> 'A' <= s[i] <= 'Z' || LowerOrDigit(s[i]) || s[i] in "_-"
  }

  predicate ValidCredentialId(s: string) {
    PlainCredentialId(s) || (s != "" && s[|s| - 1] == '\n' && PlainCredentialId(s[..|s| - 1]))
  }

  /** What `str.strip` takes for white space. */
  predicate Blank(c: char) {
    || '\U{09}' <= c <= '\U{0D}' || '\U{1C}' <= c <= '\U{20}' || '\U{2000}' <= c <= '\U{200A}'
    || c in {'\U{85}', '\U{A0}', '\U{1680}', '\U{2028}', '\U{2029}', '\U{202F}', '\U{205F}', '\U{3000}'}
  }

  function StripLeft(s: string): string {
    if s != "" && Blank(s[0]) then StripLeft(s[1..]) else s
  }

  function StripRight(s: string): string {
    if s != "" && Blank(s[|s| - 1]) then StripRight(s[..|s| - 1]) else s
  }

  function Strip(s: string): string {
    StripRight(StripLeft(s))
  }

  function DropSlashes(s: string): string {
    if s != "" && s[|s| - 1] == '/' then DropSlashes(s[..|s| - 1]) else s
  }

  /** `issuer.strip().rstrip("/")`. */
  function IssuerOf(issuer: string): string {
    DropSlashes(Strip(issuer))
  }

  // ------------------------------------------------------------ reading

  /** The link an account really has: one with an empty half reads as none. */
  function LinkOf(user: User): Option<Link> {
    match user.oidc
    case Some(link) => if link.issuer == "" || link.subject == "" then None else Some(link)
    case None => None
  }

  predicate Linked(user: User, issuer: string, subject: string) {
    LinkOf(user).Some? && LinkOf(user).value.issuer == issuer && LinkOf(user).value.subject == subject
  }

  /** The accounts `find_by_oidc` can answer with. */
  function Holders(d: Docs, issuer: string, subject: string): set<string> {
    set h | h in d.users && Linked(d.users[h], IssuerOf(issuer), Strip(subject))
  }

  predicate HasPasskey(user: User, id: string) {
    exists i :: 0 <= i < |user.passkeys| && user.passkeys[i].id == id
  }

  /** Who a bearer speaks for; without a scope it is bounded by its role only. */
  datatype Bearer = Bearer(name: string, role: string, scope: Option<TokenScope.Scope>)

  /** A stored scope that does not read as one is left out of the answer. */
  function ScopeOf(row: Token): Option<TokenScope.Scope> {
    match row.scope
    case None => None
    case Some(scope) => TokenScope.ScopeRow(scope)
  }

  /** `resolve_token` for a token id and the digest of the presented secret. */
  function ResolveToken(d: Docs, id: string, digest: string, now: real): Option<Bearer> {
    if id !in d.tokens then None
    else
      var row := d.tokens[id];
      if row.revoked || (row.expires.Some? && now >= row.expires.value) || row.digest != digest then None
      else Some(Bearer(row.name, row.role, ScopeOf(row)))
  }

  // ------------------------------------------------------------ writing

  function AddUser(d: Docs, handle: string, role: string, key: string, now: real): Result<Docs, Error> {
    if !ValidHandle(handle) || !ValidRole(role) then Err(Invalid)
    else if handle in d.users then Err(Conflict)
    else
      Ok(d.(users := d.users[handle := User(role, true, None, [], None)],
            enrolments := d.enrolments[key := Enrolment(handle, now + ENROL_TTL, false)]))
  }

  /** Re-minting drops every outstanding link of the handle. */
  function MintEnrolment(d: Docs, handle: string, key: string, now: real): Result<Docs, Error> {
    if !ValidHandle(handle) then Err(Invalid)
    else if handle !in d.users then Err(NotFound)
    else
      var others := map k | k in d.enrolments && d.enrolments[k].handle != handle :: d.enrolments[k];
      Ok(d.(enrolments := others[key := Enrolment(handle, now + ENROL_TTL, false)]))
  }

  /** Spending a link. The link is judged before the password. */
  function Enrol(d: Docs, key: string, password: string, now: real): Result<Docs, Error> {
    if key !in d.enrolments || d.enrolments[key].used || d.enrolments[key].expires <= now then Err(NotFound)
    else
      var handle := d.enrolments[key].handle;
      if handle !in d.users then Err(NotFound)
      else if |password| < MIN_PASSWORD || |password| > MAX_PASSWORD then Err(Invalid)
      else
        Ok(d.(users := d.users[handle := d.users[handle].(disabled := false, password := Some(password))],
              enrolments := d.enrolments[key := d.enrolments[key].(used := true)]))
  }

  /** `disable_user`, `enable_user` and `set_role`, one field each. */
  datatype Field = Disabled(value: bool) | Role(role: string)

  function WithField(user: User, field: Field): User {
    match field
    case Disabled(value) => user.(disabled := value)
    case Role(role) => user.(role := role)
  }

  function SetUser(d: Docs, handle: string, field: Field): Result<Docs, Error> {
    if field.Role? && !ValidRole(field.role) then Err(Invalid)
    else if handle !in d.users then Err(NotFound)
    else Ok(d.(users := d.users[handle := WithField(d.users[handle], field)]))
  }

  function AddPasskey(d: Docs, handle: string, id: string, publicKey: string, count: int,
                      title: string): Result<Docs, Error> {
    if !ValidCredentialId(id) || publicKey == "" then Err(Invalid)
    else if handle !in d.users then Err(NotFound)
    else if exists h :: h in d.users && HasPasskey(d.users[h], id) then Err(Conflict)
    else
      var user := d.users[handle];
      var entry := Passkey(id, publicKey, if count > 0 then count else 0, title, None);
      Ok(d.(users := d.users[handle := user.(passkeys := user.passkeys + [entry])]))
  }

  /** One row after an assertion reported `count`: the counter never goes down. */
  function Counted(p: Passkey, id: string, count: int, now: real): Passkey {
    if p.id != id then p
    else if count > p.signCount then p.(signCount := count, lastUsed := Some(now))
    else p.(lastUsed := Some(now))
  }

  function AllCounted(rows: seq<Passkey>, id: string, count: int, now: real): (r: seq<Passkey>)
    ensures |r| == |rows| && forall i :: 0 <= i < |rows| ==> r[i] == Counted(rows[i], id, count, now)
  {
    seq(|rows|, i requires 0 <= i < |rows| => Counted(rows[i], id, count, now))
  }

  /** The loop of `update_sign_count`. */
  method UpdateCounts(rows: seq<Passkey>, id: string, count: int, now: real)
    returns (updated: seq<Passkey>, changed: bool)
    ensures updated == AllCounted(rows, id, count, now)
    ensures changed <==> exists i :: 0 <= i < |rows| && rows[i].id == id
  {
    updated, changed := [], false;
    for i := 0 to |rows|
      invariant |updated| == i && forall j :: 0 <= j < i ==> updated[j] == Counted(rows[j], id, count, now)
      invariant changed <==> exists j :: 0 <= j < i && rows[j].id == id
    {
      var entry := rows[i];
      if entry.id == id && count > entry.signCount {
        entry := entry.(signCount := count, lastUsed := Some(now));
        changed := true;
      } else if entry.id == id {
        entry := entry.(lastUsed := Some(now));
        changed := true;
      }
      updated := updated + [entry];
    }
  }

  function UpdateSignCount(d: Docs, handle: string, id: string, count: int, now: real): Docs {
    if handle !in d.users then d
    else
      var user := d.users[handle];
      d.(users := d.users[handle := user.(passkeys := AllCounted(user.passkeys, id, count, now))])
  }

  function DropId(rows: seq<Passkey>, id: string): (r: seq<Passkey>)
    ensures forall p :: p in r <==> p in rows && p.id != id
    ensures |r| <= |rows|
  {
    if rows == [] then []
    else (if rows[0].id == id then [] else [rows[0]]) + DropId(rows[1..], id)
  }

  function RemovePasskey(d: Docs, handle: string, id: string): Result<Docs, Error> {
    if handle !in d.users then Err(NotFound)
    else Ok(d.(users := d.users[handle := d.users[handle].(passkeys := DropId(d.users[handle].passkeys, id))]))
  }

  function LinkOidc(d: Docs, handle: string, issuer: string, subject: string,
                    email: Option<string>): Result<Docs, Error> {
    var link := Link(IssuerOf(issuer), Strip(subject), email);
    if Strip(issuer) == "" || Strip(subject) == "" then Err(Invalid)
    else if handle !in d.users then Err(NotFound)
    else if exists h :: h in d.users && h != handle && Linked(d.users[h], link.issuer, link.subject) then Err(Conflict)
    else
      var user := d.users[handle];
      if Linked(user, link.issuer, link.subject) && LinkOf(user).value.email == email then Ok(d)
      else Ok(d.(users := d.users[handle := user.(oidc := Some(link))]))
  }

  function UnlinkOidc(d: Docs, handle: string): Result<Docs, Error> {
    if handle !in d.users then Err(NotFound)
    else if LinkOf(d.users[handle]).None? then Ok(d)
    else Ok(d.(users := d.users[handle := d.users[handle].(oidc := None)]))
  }

  /** What a token is minted with. */
  datatype Mint = Mint(name: string, role: string, digest: string, ttlDays: Option<int>, scope: Option<TokenScope.Raw>)

  /** Names follow the handle pattern. */
  predicate ValidMint(m: Mint) {
    ValidHandle(m.name) && ValidRole(m.role) && (m.scope.Some? ==> TokenScope.Normalised(m.scope.value, None).Ok?)
  }

  function StoredScope(m: Mint): Option<TokenScope.Scope>
    requires ValidMint(m)
  {
    match m.scope
    case None => None
    case Some(raw) => Some(TokenScope.Normalised(raw, None).value)
  }

  /** No lifetime, or one of no days, means no expiry. */
  function Expiry(m: Mint, now: real): Option<real> {
    if m.ttlDays.None? || m.ttlDays.value == 0 then None else Some(now + m.ttlDays.value as real * 86400.0)
  }

  function Minted(m: Mint, now: real): Token
    requires ValidMint(m)
  {
    Token(m.name, m.role, m.digest, Expiry(m, now), StoredScope(m), false)
  }

  /** An id already taken is drawn again, so it never reaches the document. */
  function AddToken(d: Docs, id: string, m: Mint, now: real): Result<Docs, Error> {
    if !ValidMint(m) then Err(Invalid)
    else if id in d.tokens then Ok(d)
    else Ok(d.(tokens := d.tokens[id := Minted(m, now)]))
  }

  function RevokeToken(d: Docs, id: string): Result<Docs, Error> {
    if id !in d.tokens then Err(NotFound)
    else Ok(d.(tokens := d.tokens[id := d.tokens[id].(revoked := true)]))
  }

  // ------------------------------------------------------------ runs

  datatype Op =
    | AddUserOp(handle: string, role: string, key: string, now: real)
    | MintOp(handle: string, key: string, now: real)
    | EnrolOp(key: string, password: string, now: real)
    | SetUserOp(handle: string, field: Field)
    | AddPasskeyOp(handle: string, id: string, publicKey: string, count: int, title: string)
    | CountOp(handle: string, id: string, count: int, now: real)
    | RemovePasskeyOp(handle: string, id: string)
    | LinkOp(handle: string, issuer: string, subject: string, email: Option<string>)
    | UnlinkOp(handle: string)
    | AddTokenOp(id: string, mint: Mint, now: real)
    | RevokeTokenOp(id: string)

  /** An operation that raises writes nothing. */
  function Kept(d: Docs, r: Result<Docs, Error>): Docs {
    if r.Ok? then r.value else d
  }

  function Take(d: Docs, op: Op): Docs {
    match op
    case AddUserOp(handle, role, key, now) => Kept(d, AddUser(d, handle, role, key, now))
    case MintOp(handle, key, now) => Kept(d, MintEnrolment(d, handle, key, now))
    case EnrolOp(key, password, now) => Kept(d, Enrol(d, key, password, now))
    case SetUserOp(handle, field) => Kept(d, SetUser(d, handle, field))
    case AddPasskeyOp(handle, id, publicKey, count, title) =>
      Kept(d, AddPasskey(d, handle, id, publicKey, count, title))
    case CountOp(handle, id, count, now) => UpdateSignCount(d, handle, id, count, now)
    case RemovePasskeyOp(handle, id) => Kept(d, RemovePasskey(d, handle, id))
    case LinkOp(handle, issuer, subject, email) => Kept(d, LinkOidc(d, handle, issuer, subject, email))
    case UnlinkOp(handle) => Kept(d, UnlinkOidc(d, handle))
    case AddTokenOp(id, mint, now) => Kept(d, AddToken(d, id, mint, now))
    case RevokeTokenOp(id) => Kept(d, RevokeToken(d, id))
  }

  function Run(d: Docs, ops: seq<Op>): Docs
    decreases |ops|
  {
    if ops == [] then d else Run(Take(d, ops[0]), ops[1..])
  }

  const EMPTY := Docs(map[], map[], map[])

  // ------------------------------------------------------------ what every store keeps

  /** No credential id occurs twice, on one account or on two. */
  predicate UniquePasskeys(d: Docs) {
    forall g, h {:trigger PasskeysApart(d, g, h)} :: g in d.users && h in d.users ==> PasskeysApart(d, g, h)
  }

  predicate PasskeysApart(d: Docs, g: string, h: string)
    requires g in d.users && h in d.users
  {
    ApartPasskeys(d.users[g].passkeys, d.users[h].passkeys, g == h)
  }

  predicate ApartPasskeys(a: seq<Passkey>, b: seq<Passkey>, same: bool) {
    forall i, j :: 0 <= i < |a| && 0 <= j < |b| && a[i].id == b[j].id ==> same && i == j
  }

  /** No two accounts are linked to the same identity. */
  predicate UniqueLinks(d: Docs) {
    forall g, h {:trigger LinksApart(d, g, h)} :: g in d.users && h in d.users ==> LinksApart(d, g, h)
  }

  predicate LinksApart(d: Docs, g: string, h: string)
    requires g in d.users && h in d.users
  {
    g != h && LinkOf(d.users[g]).Some? ==>
      !Linked(d.users[h], LinkOf(d.users[g]).value.issuer, LinkOf(d.users[g]).value.subject)
  }

  /** Every link belongs to an account, and every account has at most one link. */
  predicate OneEnrolment(d: Docs) {
    forall j, k {:trigger LinksOf(d, j, k)} :: j in d.enrolments && k in d.enrolments ==> LinksOf(d, j, k)
  }

  predicate LinksOf(d: Docs, j: string, k: string)
    requires j in d.enrolments && k in d.enrolments
  {
    d.enrolments[j].handle in d.users && (d.enrolments[j].handle == d.enrolments[k].handle ==> j == k)
  }

  predicate Sane(d: Docs) {
    UniquePasskeys(d) && UniqueLinks(d) && OneEnrolment(d)
  }

  lemma {:induction false} DropIdApart(a: seq<Passkey>, b: seq<Passkey>, id: string, same: bool)
    requires ApartPasskeys(a, b, same)
    ensures !same ==> ApartPasskeys(DropId(a, id), b, false) && ApartPasskeys(b, DropId(a, id), false)
  {
  }

  lemma {:induction false} DropIdDistinct(a: seq<Passkey>, id: string)
    requires ApartPasskeys(a, a, true)
    ensures ApartPasskeys(DropId(a, id), DropId(a, id), true)
  {
    if a != [] {
      DropIdDistinct(a[1..], id);
      var rest := DropId(a[1..], id);
      forall p | p in rest
        ensures p.id != a[0].id
      {
        assert p in a[1..];
      }
    }
  }

  /** Only three operations touch credentials. */
  lemma OtherPasskeys(d: Docs, op: Op, h: string)
    requires !op.AddPasskeyOp? && !op.RemovePasskeyOp? && !op.CountOp? && h in Take(d, op).users
    ensures h in d.users ==> Take(d, op).users[h].passkeys == d.users[h].passkeys
    ensures h !in d.users ==> Take(d, op).users[h].passkeys == []
  {
  }

  lemma RemovePasskeyUnique(d: Docs, handle: string, id: string)
    requires UniquePasskeys(d) && handle in d.users
    ensures UniquePasskeys(RemovePasskey(d, handle, id).value)
  {
    var n := RemovePasskey(d, handle, id).value;
    assert PasskeysApart(d, handle, handle);
    DropIdDistinct(d.users[handle].passkeys, id);
    forall g, h | g in n.users && h in n.users
      ensures PasskeysApart(n, g, h)
    {
      assert PasskeysApart(d, g, h);
      DropIdApart(d.users[g].passkeys, d.users[h].passkeys, id, g == h);
      DropIdApart(d.users[h].passkeys, d.users[g].passkeys, id, g == h);
    }
  }

  lemma OtherPasskeysUnique(d: Docs, op: Op)
    requires UniquePasskeys(d) && !op.AddPasskeyOp? && !op.RemovePasskeyOp? && !op.CountOp?
    ensures UniquePasskeys(Take(d, op))
  {
    var n := Take(d, op);
    forall g, h | g in n.users && h in n.users
      ensures PasskeysApart(n, g, h)
    {
      OtherPasskeys(d, op, g);
      OtherPasskeys(d, op, h);
      if g in d.users && h in d.users {
        assert PasskeysApart(d, g, h);
      } else if g == h {
        assert n.users[g].passkeys == [];
      }
    }
  }

  /** The same credentials, whatever their counters say. */
  predicate SameIds(a: seq<Passkey>, b: seq<Passkey>) {
    |a| == |b| && forall i :: 0 <= i < |a| ==> a[i].id == b[i].id
  }

  lemma SameIdsApart(a: seq<Passkey>, b: seq<Passkey>, c: seq<Passkey>, d: seq<Passkey>, same: bool)
    requires SameIds(a, c) && SameIds(b, d) && ApartPasskeys(a, b, same)
    ensures ApartPasskeys(c, d, same)
  {
    forall i, j | 0 <= i < |c| && 0 <= j < |d| && c[i].id == d[j].id
      ensures same && i == j
    {
      assert a[i].id == b[j].id;
    }
  }

  lemma CountKeepsIds(d: Docs, handle: string, id: string, count: int, now: real, h: string)
    requires h in d.users
    ensures h in UpdateSignCount(d, handle, id, count, now).users
    ensures SameIds(d.users[h].passkeys, UpdateSignCount(d, handle, id, count, now).users[h].passkeys)
  {
  }

  lemma CountUnique(d: Docs, handle: string, id: string, count: int, now: real)
    requires UniquePasskeys(d)
    ensures UniquePasskeys(UpdateSignCount(d, handle, id, count, now))
  {
    var n := UpdateSignCount(d, handle, id, count, now);
    forall g, h | g in n.users && h in n.users
      ensures PasskeysApart(n, g, h)
    {
      assert PasskeysApart(d, g, h);
      CountKeepsIds(d, handle, id, count, now, g);
      CountKeepsIds(d, handle, id, count, now, h);
      SameIdsApart(d.users[g].passkeys, d.users[h].passkeys, n.users[g].passkeys, n.users[h].passkeys, g == h);
    }
  }

  lemma PasskeysStep(d: Docs, op: Op)
    requires UniquePasskeys(d)
    ensures UniquePasskeys(Take(d, op))
  {
    if op.AddPasskeyOp? {
      AddPasskeyUnique(d, op);
    } else if op.RemovePasskeyOp? {
      if op.handle in d.users {
        RemovePasskeyUnique(d, op.handle, op.id);
      }
    } else if op.CountOp? {
      CountUnique(d, op.handle, op.id, op.count, op.now);
    } else {
      OtherPasskeysUnique(d, op);
    }
  }

  lemma AddPasskeyUnique(d: Docs, op: Op)
    requires UniquePasskeys(d) && op.AddPasskeyOp?
    ensures UniquePasskeys(Take(d, op))
  {
    var n := Take(d, op);
    if n != d {
      forall h, i | h in d.users && 0 <= i < |d.users[h].passkeys|
        ensures d.users[h].passkeys[i].id != op.id
      {
        assert !HasPasskey(d.users[h], op.id);
      }
      forall g, h | g in n.users && h in n.users
        ensures PasskeysApart(n, g, h)
      {
        assert PasskeysApart(d, g, h);
      }
    }
  }

  /** Only two operations touch links. */
  lemma OtherLinks(d: Docs, op: Op, h: string)
    requires !op.LinkOp? && !op.UnlinkOp? && h in Take(d, op).users
    ensures LinkOf(Take(d, op).users[h]) == if h in d.users then LinkOf(d.users[h]) else None
  {
  }

  lemma OtherLinksUnique(d: Docs, op: Op)
    requires UniqueLinks(d) && !op.LinkOp? && !op.UnlinkOp?
    ensures UniqueLinks(Take(d, op))
  {
    var n := Take(d, op);
    forall g, h | g in n.users && h in n.users
      ensures LinksApart(n, g, h)
    {
      OtherLinks(d, op, g);
      OtherLinks(d, op, h);
      if g in d.users && h in d.users {
        assert LinksApart(d, g, h);
      }
    }
  }

  lemma LinkUnique(d: Docs, op: Op)
    requires UniqueLinks(d) && (op.LinkOp? || op.UnlinkOp?)
    ensures UniqueLinks(Take(d, op))
  {
    var n := Take(d, op);
    forall g, h | g in n.users && h in n.users
      ensures LinksApart(n, g, h)
    {
      assert LinksApart(d, g, h);
    }
  }

  lemma LinksStep(d: Docs, op: Op)
    requires UniqueLinks(d)
    ensures UniqueLinks(Take(d, op))
  {
    if op.LinkOp? || op.UnlinkOp? {
      LinkUnique(d, op);
    } else {
      OtherLinksUnique(d, op);
    }
  }

  /** The minted key is new. */
  predicate FreshKey(d: Docs, op: Op) {
    op.AddUserOp? || op.MintOp? ==> op.key !in d.enrolments
  }

  lemma EnrolmentStep(d: Docs, op: Op)
    requires OneEnrolment(d) && FreshKey(d, op)
    ensures OneEnrolment(Take(d, op))
  {
    var n := Take(d, op);
    forall j, k | j in n.enrolments && k in n.enrolments
      ensures LinksOf(n, j, k)
    {
      if j in d.enrolments {
        assert LinksOf(d, j, j);
        if k in d.enrolments {
          assert LinksOf(d, j, k);
        }
      }
      if k in d.enrolments {
        assert LinksOf(d, k, k);
      }
    }
  }

  predicate FreshRun(d: Docs, ops: seq<Op>)
    decreases |ops|
  {
    ops != [] ==> FreshKey(d, ops[0]) && FreshRun(Take(d, ops[0]), ops[1..])
  }

  lemma SaneStep(d: Docs, op: Op)
    requires Sane(d) && FreshKey(d, op)
    ensures Sane(Take(d, op))
  {
    PasskeysStep(d, op);
    LinksStep(d, op);
    EnrolmentStep(d, op);
  }

  /** Every store reachable from a sane one is sane. */
  lemma {:induction false} ReachableSane(d: Docs, ops: seq<Op>)
    requires Sane(d) && FreshRun(d, ops)
    ensures Sane(Run(d, ops))
    decreases |ops|
  {
    if ops != [] {
      SaneStep(d, ops[0]);
      ReachableSane(Take(d, ops[0]), ops[1..]);
    }
  }

  lemma EmptySane()
    ensures Sane(EMPTY)
  {
  }

  // ------------------------------------------------------------ links are spent at most once

  function Mints(ops: seq<Op>, key: string): nat {
    if ops == [] then 0
    else (if (ops[0].AddUserOp? || ops[0].MintOp?) && ops[0].key == key then 1 else 0) + Mints(ops[1..], key)
  }

  /** How often a run spends the link `key`. */
  function Spends(d: Docs, ops: seq<Op>, key: string): nat
    decreases |ops|
  {
    if ops == [] then 0
    else
      (if ops[0].EnrolOp? && ops[0].key == key && Enrol(d, key, ops[0].password, ops[0].now).Ok? then 1 else 0)
      + Spends(Take(d, ops[0]), ops[1..], key)
  }

  function Spendable(d: Docs, key: string): nat {
    if key in d.enrolments && !d.enrolments[key].used then 1 else 0
  }

  lemma SpendStep(d: Docs, op: Op, key: string)
    ensures var spent := if op.EnrolOp? && op.key == key && Enrol(d, key, op.password, op.now).Ok? then 1 else 0;
            var minted := if (op.AddUserOp? || op.MintOp?) && op.key == key then 1 else 0;
            spent + Spendable(Take(d, op), key) <= Spendable(d, key) + minted
  {
  }

  /** Every mint of a link buys at most one enrolment, over every run. */
  lemma {:induction false} SpentAtMostOnce(d: Docs, ops: seq<Op>, key: string)
    ensures Spends(d, ops, key) <= Spendable(d, key) + Mints(ops, key)
    decreases |ops|
  {
    if ops != [] {
      SpendStep(d, ops[0], key);
      SpentAtMostOnce(Take(d, ops[0]), ops[1..], key);
    }
  }

  // ------------------------------------------------------------ counters, revocation, identities

  /** The stored counter of a credential, or -1. */
  function CountOf(d: Docs, handle: string, id: string): int {
    if handle in d.users then CountIn(d.users[handle].passkeys, id) else -1
  }

  function CountIn(rows: seq<Passkey>, id: string): (c: int)
    ensures c >= -1
    ensures c >= 0 <==> exists i :: 0 <= i < |rows| && rows[i].id == id
  {
    if rows == [] then -1
    else if rows[0].id == id then
      assert rows[0].id == id;
      rows[0].signCount
    else
      assert forall i :: 0 < i < |rows| ==> rows[i] == rows[1..][i - 1];
      CountIn(rows[1..], id)
  }

  lemma {:induction false} CountedCounts(rows: seq<Passkey>, id: string, count: int, now: real, x: string)
    ensures CountIn(AllCounted(rows, id, count, now), x) >= CountIn(rows, x)
  {
    if rows != [] {
      CountedCounts(rows[1..], id, count, now, x);
      assert AllCounted(rows, id, count, now)[1..] == AllCounted(rows[1..], id, count, now);
    }
  }

  lemma {:induction false} CountAppend(rows: seq<Passkey>, p: Passkey, x: string)
    ensures CountIn(rows + [p], x) >= CountIn(rows, x)
  {
    if rows != [] {
      assert (rows + [p])[1..] == rows[1..] + [p];
      CountAppend(rows[1..], p, x);
    }
  }

  lemma {:induction false} CountDropped(rows: seq<Passkey>, id: string, x: string)
    requires x != id
    ensures CountIn(DropId(rows, id), x) == CountIn(rows, x)
  {
    if rows != [] {
      var rest := DropId(rows[1..], id);
      CountDropped(rows[1..], id, x);
      if rows[0].id != id {
        assert DropId(rows, id) == [rows[0]] + rest && ([rows[0]] + rest)[1..] == rest;
      } else {
        assert DropId(rows, id) == rest;
      }
    }
  }

  lemma AccountsStay(d: Docs, op: Op, handle: string)
    requires handle in d.users
    ensures handle in Take(d, op).users
  {
  }

  lemma CredentialStep(d: Docs, op: Op, handle: string, id: string)
    requires op != RemovePasskeyOp(handle, id) && handle in d.users
    requires op.AddPasskeyOp? || op.RemovePasskeyOp? || op.CountOp?
    ensures CountOf(Take(d, op), handle, id) >= CountOf(d, handle, id)
  {
    var rows := d.users[handle].passkeys;
    match op {
      case CountOp(_, i, count, now) => CountedCounts(rows, i, count, now, id);
      case AddPasskeyOp(_, i, publicKey, count, title) =>
        CountAppend(rows, Passkey(i, publicKey, if count > 0 then count else 0, title, None), id);
      case RemovePasskeyOp(h, i) => if h == handle { CountDropped(rows, i, id); }
    }
  }

  lemma CountStep(d: Docs, op: Op, handle: string, id: string)
    requires op != RemovePasskeyOp(handle, id)
    ensures CountOf(Take(d, op), handle, id) >= CountOf(d, handle, id)
  {
    if handle in d.users {
      AccountsStay(d, op, handle);
      if op.AddPasskeyOp? || op.RemovePasskeyOp? || op.CountOp? {
        CredentialStep(d, op, handle, id);
      } else {
        OtherPasskeys(d, op, handle);
      }
    }
  }

  /** A counter never goes down while its credential is there. */
  lemma {:induction false} CountersNeverDecrease(d: Docs, ops: seq<Op>, handle: string, id: string)
    requires RemovePasskeyOp(handle, id) !in ops
    ensures CountOf(Run(d, ops), handle, id) >= CountOf(d, handle, id)
    decreases |ops|
  {
    if ops != [] {
      CountStep(d, ops[0], handle, id);
      CountersNeverDecrease(Take(d, ops[0]), ops[1..], handle, id);
    }
  }

  /** A revoked token never resolves again, whatever is presented and whatever happens. */
  lemma {:induction false} RevokedForGood(d: Docs, ops: seq<Op>, id: string, digest: string, now: real)
    requires id in d.tokens && d.tokens[id].revoked
    ensures ResolveToken(Run(d, ops), id, digest, now) == None
    decreases |ops|
  {
    if ops != [] {
      RevokedForGood(Take(d, ops[0]), ops[1..], id, digest, now);
    }
  }

  /** After a successful link the identity signs in as this account and no other, exactly when the
      issuer is more than slashes: `link_oidc` accepts such an issuer and links nothing. */
  lemma LinkThenFind(d: Docs, handle: string, issuer: string, subject: string, email: Option<string>)
    requires LinkOidc(d, handle, issuer, subject, email).Ok?
    ensures var n := LinkOidc(d, handle, issuer, subject, email).value;
            Holders(n, issuer, subject) == if IssuerOf(issuer) != "" then {handle} else {}
  {
  }

  lemma SlashIssuerIsAccepted(d: Docs, handle: string)
    requires handle in d.users
    ensures LinkOidc(d, handle, "/", "alice", None).Ok? && IssuerOf("/") == ""
  {
    assert "/"[..0] == "";
    assert StripLeft("/") == "/" && StripRight("/") == "/";
    assert Strip("/") == "/" && IssuerOf("/") == DropSlashes("");
    assert StripLeft("alice") == "alice" && StripRight("alice") == "alice";
  }

  /** Finding by identity is unambiguous in every sane store. */
  lemma AtMostOneHolder(d: Docs, issuer: string, subject: string, g: string, h: string)
    requires Sane(d) && g in Holders(d, issuer, subject) && h in Holders(d, issuer, subject)
    ensures g == h
  {
    assert LinksApart(d, g, h);
  }

  // ------------------------------------------------------------ what each credential is good for

  /** An account that never finished enrolling: it cannot sign in. */
  predicate Dormant(d: Docs, handle: string) {
    handle in d.users ==> d.users[handle].disabled && d.users[handle].password.None?
  }

  /** The operation neither spends a link of this handle nor enables it by hand. */
  predicate LeavesDormant(d: Docs, op: Op, handle: string) {
    && (op.EnrolOp? && op.key in d.enrolments ==> d.enrolments[op.key].handle != handle)
    && (op.SetUserOp? && op.handle == handle ==> op.field != Disabled(false))
  }

  predicate AllLeaveDormant(d: Docs, ops: seq<Op>, handle: string)
    decreases |ops|
  {
    ops != [] ==> LeavesDormant(d, ops[0], handle) && AllLeaveDormant(Take(d, ops[0]), ops[1..], handle)
  }

  /** Until its link is spent an account is no credential, whatever else happens. */
  lemma {:induction false} DormantUntilEnrolled(d: Docs, ops: seq<Op>, handle: string)
    requires Dormant(d, handle) && AllLeaveDormant(d, ops, handle)
    ensures Dormant(Run(d, ops), handle)
    decreases |ops|
  {
    if ops != [] {
      DormantStep(d, ops[0], handle);
      DormantUntilEnrolled(Take(d, ops[0]), ops[1..], handle);
    }
  }

  lemma DormantStep(d: Docs, op: Op, handle: string)
    requires Dormant(d, handle) && LeavesDormant(d, op, handle)
    ensures Dormant(Take(d, op), handle)
  {
  }

  /** After minting, the new link works until it expires, and no other link of the handle does. */
  lemma MintedLinkIsTheOnlyOne(d: Docs, handle: string, key: string, now: real, later: real, other: string,
                               password: string)
    requires MintEnrolment(d, handle, key, now).Ok? && MIN_PASSWORD <= |password| <= MAX_PASSWORD
    ensures var n := MintEnrolment(d, handle, key, now).value;
      && (Enrol(n, key, password, later).Ok? <==> later < now + ENROL_TTL)
      && (other != key && Enrol(n, other, password, later).Ok? ==> n.enrolments[other].handle != handle)
  {
  }

  /** The accounts that hold a credential. */
  function Owners(d: Docs, id: string): set<string> {
    set h | h in d.users && HasPasskey(d.users[h], id)
  }

  /** Registering a credential makes its account the only owner; removing it leaves no owner there. */
  lemma PasskeyOwned(d: Docs, handle: string, id: string, publicKey: string, count: int, title: string)
    requires AddPasskey(d, handle, id, publicKey, count, title).Ok?
    ensures Owners(AddPasskey(d, handle, id, publicKey, count, title).value, id) == {handle}
    ensures var n := AddPasskey(d, handle, id, publicKey, count, title).value;
      RemovePasskey(n, handle, id).Ok? && Owners(RemovePasskey(n, handle, id).value, id) == {}
  {
    var n := AddPasskey(d, handle, id, publicKey, count, title).value;
    var rows := n.users[handle].passkeys;
    assert rows[|rows| - 1].id == id;
    assert forall h :: h in d.users ==> !HasPasskey(d.users[h], id);
    var gone := RemovePasskey(n, handle, id).value;
    assert forall i :: 0 <= i < |gone.users[handle].passkeys| ==>
      gone.users[handle].passkeys[i] in gone.users[handle].passkeys;
  }

  /** No operation but its revocation touches a token's row. */
  lemma TokenStays(d: Docs, op: Op, id: string)
    requires id in d.tokens
    ensures id in Take(d, op).tokens
    ensures Take(d, op).tokens[id] == if op == RevokeTokenOp(id) then d.tokens[id].(revoked := true) else d.tokens[id]
  {
  }

  lemma {:induction false} TokenAfter(d: Docs, ops: seq<Op>, id: string)
    requires id in d.tokens
    ensures id in Run(d, ops).tokens
    ensures Run(d, ops).tokens[id]
      == if RevokeTokenOp(id) in ops then d.tokens[id].(revoked := true) else d.tokens[id]
    decreases |ops|
  {
    if ops != [] {
      TokenStays(d, ops[0], id);
      TokenAfter(Take(d, ops[0]), ops[1..], id);
      assert ops == [ops[0]] + ops[1..];
    }
  }

  lemma MintedReadsBack(m: Mint, now: real)
    requires ValidMint(m)
    ensures ScopeOf(Minted(m, now)) == StoredScope(m)
  {
    if m.scope.Some? {
      TokenScope.ReadBack(m.scope.value, None);
    }
  }

  /** Whatever happens after it was minted, a token resolves to the name, role and scope it was minted
      with exactly for its own secret, until it expires and unless it was revoked. */
  lemma TokenResolvesIff(d: Docs, id: string, m: Mint, minted: real, ops: seq<Op>, digest: string, now: real)
    requires id !in d.tokens && AddToken(d, id, m, minted).Ok?
    ensures var expiry := Expiry(m, minted);
      ResolveToken(Run(AddToken(d, id, m, minted).value, ops), id, digest, now)
      == if digest == m.digest && (expiry.Some? ==> now < expiry.value) && RevokeTokenOp(id) !in ops
         then Some(Bearer(m.name, m.role, StoredScope(m))) else None
  {
    MintedReadsBack(m, minted);
    TokenAfter(AddToken(d, id, m, minted).value, ops, id);
  }

  /** A scoped token that resolves may reach exactly the projects its mint listed, in its organisation. */
  lemma BearerReachesTheListed(d: Docs, id: string, m: Mint, minted: real, ops: seq<Op>, digest: string, now: real,
                               org: string, workspace: string, project: string)
    requires id !in d.tokens && AddToken(d, id, m, minted).Ok? && m.scope.Some?
    requires ResolveToken(Run(AddToken(d, id, m, minted).value, ops), id, digest, now).Some?
    ensures var bearer := ResolveToken(Run(AddToken(d, id, m, minted).value, ops), id, digest, now).value;
      var raw := m.scope.value;
      TokenScope.Allows(bearer.scope, Some(org), Some(workspace), Some(project))
      <==> org == raw.org && TokenScope.Lists(raw, TokenScope.DefaultWorkspace(raw, None), workspace, project)
  {
    TokenResolvesIff(d, id, m, minted, ops, digest, now);
    TokenScope.AllowsExactlyTheListed(m.scope.value, None, org, workspace, project);
  }
}
