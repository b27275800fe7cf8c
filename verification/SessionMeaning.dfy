/** What the session functions say in days and rows: when a session answers and with whom, when it
    slides, and which rows each step leaves. */
module SessionMeaning {
  import opened Options
  import opened Sessions

  /** A key answers exactly when its row is there, is not yet thirty days old by its own cap, was last seen
      less than fourteen days ago, and belongs to an enabled account. */
  lemma AnswerIff(s: State, key: Digest)
    ensures Answer(s, key).Some? <==>
      && key in s.sessions
      && s.now < s.sessions[key].expires && s.now - s.sessions[key].lastSeen < 1209600.0
      && s.sessions[key].handle in s.users && !s.users[s.sessions[key].handle].disabled
    ensures Answer(s, key).Some? ==>
      && Answer(s, key).value.handle == s.sessions[key].handle
      && Answer(s, key).value.device == s.sessions[key].device
      && Answer(s, key).value.role == s.users[s.sessions[key].handle].role
  {
  }

  /** A live row is stamped anew once a day at most. */
  lemma SlideIff(s: State, key: Digest)
    ensures WantsSlide(s, key) <==> Answer(s, key).Some? && s.now >= s.sessions[key].lastSeen + 86400.0
  {
  }

  /** The row a store holds under a key. */
  ghost function RowAt(s: State, key: Digest): Option<Session> {
    if key in s.sessions then Some(s.sessions[key]) else None
  }

  /** What a write leaves of a row: nothing when the row is dead by then. */
  ghost predicate LeftOf(row: Option<Session>, now: real, left: Option<Session>) {
    match row
    case None => left == None
    case Some(r) => left == if now < r.expires && now < r.lastSeen + 1209600.0 then row else None
  }

  /** A new session's row: seen now, capped thirty days from now, for the account and the device given. */
  ghost predicate IsNew(row: Session, s: State, handle: string, device: Option<string>) {
    && row.handle == handle && row.device == device && row.created == s.now && row.lastSeen == s.now
    && row.expires == s.now + 2592000.0
  }

  /** Signing in adds exactly one row, and the write drops the dead ones. */
  lemma CreateMeans(s: State, key: Digest, handle: string, device: Option<string>, other: Digest)
    ensures var t := Take(s, Create(key, handle, device));
      && t.users == s.users && t.now == s.now && t.pending == s.pending
      && (handle !in s.users ==> t == s)
      && (handle in s.users ==> RowAt(t, key).Some? && IsNew(RowAt(t, key).value, s, handle, device))
      && (handle in s.users && other != key ==> LeftOf(RowAt(s, other), s.now, RowAt(t, other)))
  {
  }

  /** A late slide changes when its row was last seen and nothing else about it. */
  lemma StampMeans(s: State, key: Digest, at: real, other: Digest)
    ensures var t := Stamp(s, key, at);
      && t.users == s.users && t.now == s.now && t.pending == s.pending
      && (key !in s.sessions ==> t == s)
      && (key in s.sessions ==>
           LeftOf(if other == key then Some(s.sessions[key].(lastSeen := at)) else RowAt(s, other), s.now,
                  RowAt(t, other)))
  {
  }

  /** Signing out takes the row; an unknown key changes nothing. */
  lemma RevokeMeans(s: State, key: Digest, other: Digest)
    ensures var t := Take(s, Revoke(key));
      && t.users == s.users && t.now == s.now && t.pending == s.pending
      && (key !in s.sessions ==> t == s)
      && (key in s.sessions ==>
           LeftOf(if other == key then None else RowAt(s, other), s.now, RowAt(t, other)))
  {
  }

  /** Signing an account out everywhere takes exactly its rows, dead ones of others stay. */
  lemma RevokeForMeans(s: State, handle: string, other: Digest)
    ensures var t := Take(s, RevokeFor(handle));
      && t.users == s.users && t.now == s.now && t.pending == s.pending
      && RowAt(t, other) == match RowAt(s, other)
                            case Some(row) => if row.handle == handle then None else Some(row)
                            case None => None
  {
  }

  /** Enrolling signs the account out everywhere and enables it with the role it had; an unknown one changes nothing. */
  lemma EnrolMeans(s: State, handle: string, other: Digest, who: string)
    ensures var t := Take(s, Enrol(handle));
      && t.now == s.now && t.pending == s.pending && t.users.Keys == s.users.Keys
      && (handle !in s.users ==> t == s)
      && (handle in s.users ==> RowAt(t, other) == RowAt(Take(s, RevokeFor(handle)), other))
      && (handle in s.users ==> t.users[handle].role == s.users[handle].role && !t.users[handle].disabled)
      && (who in s.users && who != handle ==> t.users[who] == s.users[who])
  {
  }

  /** Time passing changes no row, and never runs back. */
  lemma TickMeans(s: State, dt: real)
    ensures var t := Take(s, Tick(dt));
      && t == s.(now := t.now) && t.now - s.now == if dt < 0.0 then 0.0 else dt
  {
  }

  /** A resolve that slides at once writes exactly what its late slide would have written at once. */
  lemma UseIsLookAndLand(s: State, key: Digest)
    requires s.pending == []
    ensures Take(s, Use(key)) == Take(Take(s, Look(key)), Land(0))
    ensures |Take(s, Look(key)).pending| == 1 <==> WantsSlide(s, key)
  {
    if WantsSlide(s, key) {
      var t := Take(s, Look(key));
      assert t.pending == [Slide(key, s.now)];
      assert t.(pending := []) == s;
    }
  }

  /** A slide in flight lands with the key and the time it was made with, and leaves the flight. */
  lemma LandMeans(s: State, before: seq<Slide>, slide: Slide, after: seq<Slide>)
    requires s.pending == before + [slide] + after
    ensures Take(s, Land(|before|)) == Stamp(s.(pending := before + after), slide.key, slide.at)
  {
    assert s.pending[..|before|] == before && s.pending[|before| + 1..] == after;
  }
}
