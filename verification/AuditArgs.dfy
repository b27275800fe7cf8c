/** The redacted form of a call's arguments from which the audit digest is taken. */
module AuditArgs {

  const MAX_ARG_DEPTH := 8
  const REDACTED := "[redacted]"
  const DEPTH_MARK := "<depth 8>"
  const MAX_REPR := 200

  const HINTS: seq<string> :=
    ["token", "password", "passwd", "passphrase", "secret", "credential", "api_key", "apikey", "authorization",
     "cookie", "private_key"]

  /** An argument: a JSON scalar, a container, or an object known only by its `repr`. */
  datatype Value =
    | Text(s: string)
    | Number(n: real)
    | Flag(b: bool)
    | Null
    | Opaque(repr: string)
    | List(items: seq<Value>)
    | Dict(entries: map<string, Value>)

  // ------------------------------------------------------------ secret-shaped keys

  function Lower(s: string): (l: string)
    ensures |l| == |s|
  {
    if s == "" then "" else [if 'A' <= s[0] <= 'Z' then s[0] - 'A' + 'a' else s[0]] + Lower(s[1..])
  }

  /** What stands behind the last underscore. */
  function LastSegment(s: string): string {
    if s == "" then ""
    else if s[|s| - 1] == '_' then ""
    else LastSegment(s[..|s| - 1]) + [s[|s| - 1]]
  }

  predicate Holds(s: string, hint: string) {
    exists i :: 0 <= i <= |s| && hint <= s[i..]
  }

  predicate IsSecretKey(name: string) {
    LastSegment(Lower(name)) != "id" && exists h :: h in HINTS && Holds(Lower(name), h)
  }

  // ------------------------------------------------------------ the canonical form

  /** An object known only by its `repr` is shown by the first two hundred characters of it. */
  function Shown(v: Value): Value {
    match v
    case Opaque(repr) => Text(if |repr| <= MAX_REPR then repr else repr[..MAX_REPR])
    case _ => v
  }

  function Canonical(v: Value, depth: nat, secret: string -> bool): Value
    requires depth <= MAX_ARG_DEPTH
    decreases MAX_ARG_DEPTH - depth
  {
    if depth == MAX_ARG_DEPTH then Text(DEPTH_MARK)
    else match v
      case Dict(entries) =>
        Dict(map k | k in entries :: if secret(k) then Text(REDACTED) else Canonical(entries[k], depth + 1, secret))
      case List(items) => List(seq(|items|, i requires 0 <= i < |items| => Canonical(items[i], depth + 1, secret)))
      case _ => Shown(v)
  }

  /** The same argument, except for what stands under secret-shaped keys, below the depth cap, and in
      an object behind what is shown of it. */
  predicate SameButSecrets(a: Value, b: Value, depth: nat, secret: string -> bool)
    requires depth <= MAX_ARG_DEPTH
    decreases MAX_ARG_DEPTH - depth
  {
    if depth == MAX_ARG_DEPTH then true
    else if a.List? && b.List? then
      |a.items| == |b.items| && forall i :: 0 <= i < |a.items| ==>
        SameButSecrets(a.items[i], b.items[i], depth + 1, secret)
    else if a.Dict? && b.Dict? then
      a.entries.Keys == b.entries.Keys
      && forall k :: k in a.entries && !secret(k) ==> SameButSecrets(a.entries[k], b.entries[k], depth + 1, secret)
    else Shown(a) == Shown(b)
  }

  /** Two calls have the same canonical arguments exactly when they differ only in their secrets,
      below the depth cap or in what is not shown of an object, so the digest neither leaks a secret
      nor confuses two other calls. */
  lemma {:induction false} CanonicalIff(a: Value, b: Value, depth: nat, secret: string -> bool)
    requires depth <= MAX_ARG_DEPTH
    ensures Canonical(a, depth, secret) == Canonical(b, depth, secret) <==> SameButSecrets(a, b, depth, secret)
    decreases MAX_ARG_DEPTH - depth
  {
    if depth < MAX_ARG_DEPTH {
      if a.List? && b.List? && |a.items| == |b.items| {
        ListIff(a, b, depth, secret);
      } else if a.Dict? && b.Dict? && a.entries.Keys == b.entries.Keys {
        DictIff(a, b, depth, secret);
      } else if a.Dict? && b.Dict? {
        assert Canonical(a, depth, secret).entries.Keys == a.entries.Keys;
        assert Canonical(b, depth, secret).entries.Keys == b.entries.Keys;
      } else if a.List? && b.List? {
        assert |Canonical(a, depth, secret).items| == |a.items|;
        assert |Canonical(b, depth, secret).items| == |b.items|;
      }
    }
  }

  lemma {:induction false} ListIff(a: Value, b: Value, depth: nat, secret: string -> bool)
    requires depth < MAX_ARG_DEPTH
    requires a.List? && b.List? && |a.items| == |b.items|
    ensures Canonical(a, depth, secret) == Canonical(b, depth, secret) <==> SameButSecrets(a, b, depth, secret)
    decreases MAX_ARG_DEPTH - depth, 0
  {
    var ca, cb := Canonical(a, depth, secret).items, Canonical(b, depth, secret).items;
    forall i | 0 <= i < |a.items|
      ensures ca[i] == cb[i] <==> SameButSecrets(a.items[i], b.items[i], depth + 1, secret)
    {
      CanonicalIff(a.items[i], b.items[i], depth + 1, secret);
    }
  }

  lemma {:induction false} DictIff(a: Value, b: Value, depth: nat, secret: string -> bool)
    requires depth < MAX_ARG_DEPTH
    requires a.Dict? && b.Dict? && a.entries.Keys == b.entries.Keys
    ensures Canonical(a, depth, secret) == Canonical(b, depth, secret) <==> SameButSecrets(a, b, depth, secret)
    decreases MAX_ARG_DEPTH - depth, 0
  {
    var ca, cb := Canonical(a, depth, secret).entries, Canonical(b, depth, secret).entries;
    forall k | k in a.entries && !secret(k)
      ensures ca[k] == cb[k] <==> SameButSecrets(a.entries[k], b.entries[k], depth + 1, secret)
    {
      CanonicalIff(a.entries[k], b.entries[k], depth + 1, secret);
    }
    MapsEqualIff(ca, cb);
  }

  lemma MapsEqualIff(a: map<string, Value>, b: map<string, Value>)
    requires a.Keys == b.Keys
    ensures a == b <==> forall k :: k in a ==> a[k] == b[k]
  {
  }

  /** Taking the canonical form again changes nothing. */
  lemma {:induction false} CanonicalTwice(v: Value, depth: nat, secret: string -> bool)
    requires depth <= MAX_ARG_DEPTH
    ensures Canonical(Canonical(v, depth, secret), depth, secret) == Canonical(v, depth, secret)
    decreases MAX_ARG_DEPTH - depth
  {
    if depth < MAX_ARG_DEPTH {
      var c := Canonical(v, depth, secret);
      match v {
        case List(items) =>
          forall i | 0 <= i < |items|
            ensures Canonical(c.items[i], depth + 1, secret) == c.items[i]
          {
            CanonicalTwice(items[i], depth + 1, secret);
          }
          assert Canonical(c, depth, secret).items == c.items;
        case Dict(entries) =>
          forall k | k in entries && !secret(k)
            ensures Canonical(c.entries[k], depth + 1, secret) == c.entries[k]
          {
            CanonicalTwice(entries[k], depth + 1, secret);
          }
          assert Canonical(c, depth, secret).entries == c.entries;
        case _ =>
      }
    }
  }

  /** The form the digest is taken of. */
  function Digested(args: Value): Value {
    Canonical(args, 0, IsSecretKey)
  }

  /** A key that names an identifier is never redacted, whatever hint it also holds; any other key
      is redacted exactly when it holds a hint. */
  lemma IdentifiersSurvive(name: string, entries: map<string, Value>)
    requires name in entries
    ensures var shown, hinted := Digested(Dict(entries)).entries[name], exists h :: h in HINTS && Holds(Lower(name), h);
      if LastSegment(Lower(name)) != "id" && hinted then shown == Text(REDACTED)
      else shown == Canonical(entries[name], 1, IsSecretKey)
  {
  }
}
