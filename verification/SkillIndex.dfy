/** The index of loaded skills: what a session believes is in its transcript, and the eviction
    that keeps it within budget. */
module SkillIndex {
  import opened Options
  import opened Transcript

  /** One loaded skill body or asset: the result it lives in and what that costs. */
  datatype Entry = Entry(key: string, id: string, chars: nat, name: string, asset: Option<string>)

  /** One successful `load_skill` call. */
  datatype Load = Load(id: string, name: string, asset: Option<string>, chars: nat)

  datatype Limits = Limits(maxLoaded: int, maxChars: int)

  /** A session's transcript, its index oldest first, and (a history variable) the ids of every
      load ever recorded. */
  datatype Book = Book(history: seq<Message>, loaded: seq<Entry>, booked: set<string>)

  function KeyOf(name: string, asset: Option<string>): string {
    if asset.Some? then name + "#" + asset.value else name
  }

  function EntryOf(load: Load): Entry {
    Entry(KeyOf(load.name, load.asset), load.id, load.chars, load.name, load.asset)
  }

  function SumChars(loaded: seq<Entry>): nat {
    if loaded == [] then 0 else loaded[0].chars + SumChars(loaded[1..])
  }

  predicate Fits(loaded: seq<Entry>, limits: Limits) {
    |loaded| <= limits.maxLoaded && SumChars(loaded) <= limits.maxChars
  }

  /** The position of the entry with this key, or the length of the index. */
  function PositionOf(loaded: seq<Entry>, key: string): (k: nat)
    ensures k <= |loaded| && (k < |loaded| ==> loaded[k].key == key)
    ensures forall i :: 0 <= i < k ==> loaded[i].key != key
  {
    if loaded == [] || loaded[0].key == key then 0 else 1 + PositionOf(loaded[1..], key)
  }

  /** The oldest entry that is not the one to keep, or the length of the index. */
  function Victim(loaded: seq<Entry>, keep: string): (k: nat)
    ensures k <= |loaded| && (k < |loaded| ==> loaded[k].key != keep)
    ensures forall i :: 0 <= i < k ==> loaded[i].key == keep
  {
    if loaded == [] || loaded[0].key != keep then 0 else 1 + Victim(loaded[1..], keep)
  }

  function Without(loaded: seq<Entry>, k: nat): seq<Entry>
    requires k < |loaded|
  {
    loaded[..k] + loaded[k + 1..]
  }

  /** Drops one entry and puts `body` where its result was. */
  function Drop(b: Book, k: nat, body: Body): Book
    requires k < |b.loaded|
  {
    b.(history := Unload(b.history, b.loaded[k].id, body), loaded := Without(b.loaded, k))
  }

  function Evict(b: Book, limits: Limits, keep: string): Book
    decreases |b.loaded|
  {
    if Fits(b.loaded, limits) then b
    else
      var k := Victim(b.loaded, keep);
      if k == |b.loaded| then b
      else
        var entry := b.loaded[k];
        Evict(Drop(b, k, Unloaded(entry.name, entry.asset)), limits, keep)
  }

  /** Takes the older copy of the same thing out of the index, and out of the transcript unless
      its id is empty or the new load's own. */
  function Supersede(b: Book, load: Load): Book {
    var k := PositionOf(b.loaded, KeyOf(load.name, load.asset));
    if k == |b.loaded| then b
    else if b.loaded[k].id == "" || b.loaded[k].id == load.id then b.(loaded := Without(b.loaded, k))
    else Drop(b, k, Superseded(load.name, load.asset))
  }

  function Enter(b: Book, load: Load): Book {
    b.(loaded := b.loaded + [EntryOf(load)], booked := b.booked + {load.id})
  }

  /** `_record_skill` for a load that succeeded. */
  function Record(b: Book, limits: Limits, load: Load): Book {
    Evict(Enter(Supersede(b, load), load), limits, KeyOf(load.name, load.asset))
  }

  // ------------------------------------------------------------ agreement of index and transcript

  /** The transcript holds this load in full. */
  predicate HeldInFull(h: seq<Message>, id: string, chars: nat) {
    Held(h, id).Some? && !Held(h, id).value.Stub() && Held(h, id).value.Size() == chars
  }

  predicate Indexed(loaded: seq<Entry>, id: string) {
    exists i :: 0 <= i < |loaded| && loaded[i].id == id
  }

  /** An entry is filed under its own name and asset. */
  predicate OwnKey(e: Entry) {
    e.key == KeyOf(e.name, e.asset)
  }

  predicate DistinctEntries(loaded: seq<Entry>) {
    forall i, j :: 0 <= i < j < |loaded| ==> loaded[i].key != loaded[j].key && loaded[i].id != loaded[j].id
  }

  /** Every entry names one result of the transcript, in full and of the size the index says;
      every other load ever recorded is a stub. */
  predicate Agrees(b: Book) {
    && Unique(AllAnswers(b.history))
    && DistinctEntries(b.loaded)
    && (forall i :: 0 <= i < |b.loaded| ==>
         && b.loaded[i].id != "" && b.loaded[i].id in b.booked
         && HeldInFull(b.history, b.loaded[i].id, b.loaded[i].chars)
         && OwnKey(b.loaded[i]))
    && (forall id :: id in b.booked && !Indexed(b.loaded, id) ==>
         Held(b.history, id).Some? && Held(b.history, id).value.Stub())
  }

  /** The results still held in full are exactly those the index names. */
  lemma LiveLoadsAreIndexed(b: Book, id: string)
    requires Agrees(b) && id in b.booked
    ensures Held(b.history, id).Some? && (!Held(b.history, id).value.Stub() <==> Indexed(b.loaded, id))
  {
    if i :| 0 <= i < |b.loaded| && b.loaded[i].id == id {
      assert HeldInFull(b.history, id, b.loaded[i].chars);
    }
  }

  lemma WithoutEntries(loaded: seq<Entry>, k: nat)
    requires k < |loaded| && DistinctEntries(loaded)
    ensures DistinctEntries(Without(loaded, k))
    ensures forall e :: e in Without(loaded, k) <==> e in loaded && e != loaded[k]
    ensures !Indexed(Without(loaded, k), loaded[k].id)
    ensures forall id :: Indexed(loaded, id) && id != loaded[k].id ==> Indexed(Without(loaded, k), id)
  {
    var w := Without(loaded, k);
    forall i | 0 <= i < |loaded| && i != k
      ensures w[if i < k then i else i - 1] == loaded[i]
    {
    }
    forall e | e in loaded && e != loaded[k]
      ensures e in w
    {
      var i :| 0 <= i < |loaded| && loaded[i] == e;
      assert w[if i < k then i else i - 1] == e;
    }
    forall id | Indexed(loaded, id) && id != loaded[k].id
      ensures Indexed(w, id)
    {
      var i :| 0 <= i < |loaded| && loaded[i].id == id;
      assert w[if i < k then i else i - 1].id == id;
    }
  }

  /** Dropping an entry for a stub keeps the agreement. */
  lemma DropAgrees(b: Book, k: nat, body: Body)
    requires Agrees(b) && k < |b.loaded| && body.Stub()
    ensures Agrees(Drop(b, k, body))
  {
    var (d, out) := (Drop(b, k, body), b.loaded[k].id);
    WithoutEntries(b.loaded, k);
    UnloadHeld(b.history, out, body, out);
    forall i | 0 <= i < |d.loaded|
      ensures d.loaded[i].id in d.booked && OwnKey(d.loaded[i])
      ensures HeldInFull(d.history, d.loaded[i].id, d.loaded[i].chars)
    {
      assert d.loaded[i] in b.loaded;
      UnloadHeld(b.history, out, body, d.loaded[i].id);
    }
    forall id | id in d.booked && !Indexed(d.loaded, id)
      ensures Held(d.history, id).Some? && Held(d.history, id).value.Stub()
    {
      UnloadHeld(b.history, out, body, id);
    }
  }

  lemma {:induction false} EvictAgrees(b: Book, limits: Limits, keep: string)
    requires Agrees(b)
    ensures Agrees(Evict(b, limits, keep))
    decreases |b.loaded|
  {
    var k := Victim(b.loaded, keep);
    if !Fits(b.loaded, limits) && k < |b.loaded| {
      var body := Unloaded(b.loaded[k].name, b.loaded[k].asset);
      DropAgrees(b, k, body);
      EvictAgrees(Drop(b, k, body), limits, keep);
    }
  }

  /** A load can be recorded: its result is in the transcript and its id is new to the index. */
  predicate Recordable(b: Book, load: Load) {
    load.id != "" && load.id !in b.booked && HeldInFull(b.history, load.id, load.chars)
  }

  lemma SupersedeAgrees(b: Book, load: Load)
    requires Agrees(b) && Recordable(b, load)
    ensures Agrees(Supersede(b, load)) && Recordable(Supersede(b, load), load)
    ensures PositionOf(Supersede(b, load).loaded, KeyOf(load.name, load.asset)) == |Supersede(b, load).loaded|
    ensures Supersede(b, load).booked == b.booked
  {
    var key := KeyOf(load.name, load.asset);
    var k := PositionOf(b.loaded, key);
    if k < |b.loaded| {
      assert b.loaded[k].id in b.booked;
      var body := Superseded(load.name, load.asset);
      DropAgrees(b, k, body);
      UnloadHeld(b.history, b.loaded[k].id, body, load.id);
      WithoutEntries(b.loaded, k);
    }
  }

  lemma EnterAgrees(b: Book, load: Load)
    requires Agrees(b) && Recordable(b, load)
    requires PositionOf(b.loaded, KeyOf(load.name, load.asset)) == |b.loaded|
    ensures Agrees(Enter(b, load))
  {
    var e := Enter(b, load);
    var last := |b.loaded|;
    forall id | Indexed(b.loaded, id)
      ensures Indexed(e.loaded, id)
    {
      var i :| 0 <= i < last && b.loaded[i].id == id;
      assert e.loaded[i].id == id;
    }
    assert e.loaded[last] == EntryOf(load);
    forall i | 0 <= i < last
      ensures e.loaded[i].key != e.loaded[last].key && e.loaded[i].id != e.loaded[last].id
    {
      assert b.loaded[i].id in b.booked;
    }
    forall id | id in e.booked && !Indexed(e.loaded, id)
      ensures id in b.booked && !Indexed(b.loaded, id)
    {
      assert id != e.loaded[last].id;
    }
  }

  /** Recording a load keeps the index and the transcript in agreement. */
  lemma RecordAgrees(b: Book, limits: Limits, load: Load)
    requires Agrees(b) && Recordable(b, load)
    ensures Agrees(Record(b, limits, load))
  {
    SupersedeAgrees(b, load);
    EnterAgrees(Supersede(b, load), load);
    EvictAgrees(Enter(Supersede(b, load), load), limits, KeyOf(load.name, load.asset));
  }

  // ------------------------------------------------------------ what recording leaves alone

  lemma {:induction false} EvictFrame(b: Book, limits: Limits, keep: string, id: string)
    requires Agrees(b) && id !in b.booked
    ensures var e := Evict(b, limits, keep);
            e.booked == b.booked && Held(e.history, id) == Held(b.history, id) && Reshaped(b.history, e.history)
    decreases |b.loaded|
  {
    var k := Victim(b.loaded, keep);
    if !Fits(b.loaded, limits) && k < |b.loaded| {
      var body := Unloaded(b.loaded[k].name, b.loaded[k].asset);
      var d := Drop(b, k, body);
      assert b.loaded[k].id in b.booked;
      UnloadHeld(b.history, b.loaded[k].id, body, id);
      DropAgrees(b, k, body);
      EvictFrame(d, limits, keep, id);
      ReshapedTransitive(b.history, d.history, Evict(d, limits, keep).history);
    }
  }

  /** Message by message equal, except for the content of results. */
  predicate Reshaped(h: seq<Message>, g: seq<Message>) {
    |g| == |h| && forall i :: 0 <= i < |h| ==> SameShape(h[i], g[i])
  }

  lemma ReshapedTransitive(f: seq<Message>, g: seq<Message>, h: seq<Message>)
    requires Reshaped(f, g) && Reshaped(g, h)
    ensures Reshaped(f, h)
  {
  }

  /** A rewritten transcript answers the same calls. */
  lemma ReshapedPairs(h: seq<Message>, g: seq<Message>)
    requires Reshaped(h, g) && Paired(h)
    ensures Paired(g) && CountToolUses(g) == CountToolUses(h)
  {
    SameCallsSameCount(h, g);
    forall i | 0 <= i < |g|
      ensures AnsweredAt(g, i)
    {
      assert AnsweredAt(h, i) && SameShape(h[i], g[i]);
      if Calls(h[i]) != [] {
        assert SameShape(h[i + 1], g[i + 1]);
      }
    }
  }

  /** Recording one load touches no result that was never recorded, and no call. */
  lemma RecordFrame(b: Book, limits: Limits, load: Load, id: string)
    requires Agrees(b) && Recordable(b, load) && id !in b.booked && id != load.id
    ensures var r := Record(b, limits, load);
            r.booked == b.booked + {load.id} && Held(r.history, id) == Held(b.history, id)
              && Reshaped(b.history, r.history)
  {
    var s := Supersede(b, load);
    SupersedeAgrees(b, load);
    EnterAgrees(s, load);
    var k := PositionOf(b.loaded, KeyOf(load.name, load.asset));
    if k < |b.loaded| {
      assert b.loaded[k].id in b.booked;
      UnloadHeld(b.history, b.loaded[k].id, Superseded(load.name, load.asset), id);
    }
    EvictFrame(Enter(s, load), limits, KeyOf(load.name, load.asset), id);
    ReshapedTransitive(b.history, s.history, Record(b, limits, load).history);
  }

  // ------------------------------------------------------------ which entries go

  /** The fewest oldest entries to remove so that the rest fits, the newest never counted in. */
  function Excess(loaded: seq<Entry>, limits: Limits): (n: nat)
    requires loaded != []
    ensures n < |loaded|
    ensures Fits(loaded[n..], limits) || n == |loaded| - 1
    ensures forall m :: 0 <= m < n ==> !Fits(loaded[m..], limits)
  {
    if Fits(loaded, limits) || |loaded| == 1 then
      assert loaded[0..] == loaded;
      0
    else
      var n := Excess(loaded[1..], limits);
      assert forall m :: 0 < m <= n + 1 ==> loaded[m..] == loaded[1..][m - 1..];
      assert loaded[0..] == loaded;
      1 + n
  }

  /** Eviction after a load removes exactly the shortest oldest-first run of entries that restores
      both caps, or all the others when the newest alone is over; never the one just loaded. */
  lemma {:induction false} EvictOldest(b: Book, limits: Limits, keep: string)
    requires b.loaded != [] && b.loaded[|b.loaded| - 1].key == keep
    requires forall i :: 0 <= i < |b.loaded| - 1 ==> b.loaded[i].key != keep
    ensures Evict(b, limits, keep).loaded == b.loaded[Excess(b.loaded, limits)..]
    ensures EntryKept(b.loaded, Evict(b, limits, keep).loaded)
    decreases |b.loaded|
  {
    assert b.loaded[0..] == b.loaded;
    if !Fits(b.loaded, limits) && |b.loaded| > 1 {
      var entry := b.loaded[0];
      var d := Drop(b, 0, Unloaded(entry.name, entry.asset));
      assert d.loaded == b.loaded[1..];
      EvictOldest(d, limits, keep);
      assert b.loaded[1..][Excess(b.loaded[1..], limits)..] == b.loaded[Excess(b.loaded, limits)..];
    }
  }

  predicate EntryKept(before: seq<Entry>, after: seq<Entry>) {
    before != [] && after != [] && after[|after| - 1] == before[|before| - 1]
  }

  /** The entries that go leave their unload stubs behind, the others are as they were. */
  lemma {:induction false} EvictedAreStubs(b: Book, limits: Limits, keep: string, i: nat)
    requires Agrees(b) && i < |b.loaded| && b.loaded[|b.loaded| - 1].key == keep
    ensures var entry := b.loaded[i];
      Held(Evict(b, limits, keep).history, entry.id)
      == if i < Excess(b.loaded, limits) then Some(Unloaded(entry.name, entry.asset)) else Held(b.history, entry.id)
    decreases |b.loaded|
  {
    assert b.loaded[0..] == b.loaded;
    if !Fits(b.loaded, limits) && |b.loaded| > 1 {
      var first := b.loaded[0];
      var body := Unloaded(first.name, first.asset);
      var d := Drop(b, 0, body);
      assert d.loaded == b.loaded[1..];
      DropAgrees(b, 0, body);
      UnloadHeld(b.history, first.id, body, b.loaded[i].id);
      if i > 0 {
        EvictedAreStubs(d, limits, keep, i - 1);
      } else {
        assert first.id in d.booked && !Indexed(d.loaded, first.id);
        EvictLeavesBooked(d, limits, keep, first.id);
      }
    }
  }

  /** Eviction leaves alone what the index does not name. */
  lemma {:induction false} EvictLeavesBooked(b: Book, limits: Limits, keep: string, id: string)
    requires Agrees(b) && !Indexed(b.loaded, id)
    ensures Held(Evict(b, limits, keep).history, id) == Held(b.history, id)
    decreases |b.loaded|
  {
    var k := Victim(b.loaded, keep);
    if !Fits(b.loaded, limits) && k < |b.loaded| {
      var body := Unloaded(b.loaded[k].name, b.loaded[k].asset);
      var d := Drop(b, k, body);
      UnloadHeld(b.history, b.loaded[k].id, body, id);
      DropAgrees(b, k, body);
      WithoutEntries(b.loaded, k);
      forall i | 0 <= i < |d.loaded|
        ensures d.loaded[i].id != id
      {
        assert d.loaded[i] in b.loaded;
      }
      EvictLeavesBooked(d, limits, keep, id);
    }
  }

  /** After every recorded load the session is within both caps, or holds that load alone. */
  lemma RecordWithinBudget(b: Book, limits: Limits, load: Load)
    requires Agrees(b) && Recordable(b, load)
    ensures var r := Record(b, limits, load).loaded;
            r != [] && r[|r| - 1] == EntryOf(load) && (Fits(r, limits) || |r| == 1)
  {
    SupersedeAgrees(b, load);
    EvictOldest(Enter(Supersede(b, load), load), limits, KeyOf(load.name, load.asset));
  }

  /** Loading something again replaces its old entry and, within budget, evicts nothing. */
  lemma ReloadEvictsNothing(b: Book, limits: Limits, load: Load, k: nat)
    requires Agrees(b) && Recordable(b, load)
    requires k < |b.loaded| && b.loaded[k].key == KeyOf(load.name, load.asset)
    requires Fits(Without(b.loaded, k) + [EntryOf(load)], limits)
    ensures var r := Record(b, limits, load);
            && r.loaded == Without(b.loaded, k) + [EntryOf(load)]
            && Held(r.history, b.loaded[k].id) == Some(Superseded(load.name, load.asset))
  {
    assert PositionOf(b.loaded, KeyOf(load.name, load.asset)) == k;
    assert b.loaded[k].id in b.booked;
    UnloadHeld(b.history, b.loaded[k].id, Superseded(load.name, load.asset), b.loaded[k].id);
  }

  // ------------------------------------------------------------ which loads are the same thing

  /** A skill name, by the pattern the store admits, has no `#`. */
  predicate PlainName(name: string) {
    '#' !in name
  }

  predicate SameThing(e: Entry, load: Load) {
    e.name == load.name && e.asset == load.asset
  }

  /** Two keys are equal exactly when name and asset are. */
  lemma {:induction false} KeysTellApart(name: string, asset: Option<string>, name': string, asset': Option<string>)
    requires PlainName(name) && PlainName(name')
    ensures KeyOf(name, asset) == KeyOf(name', asset') <==> name == name' && asset == asset'
  {
    var k, l := KeyOf(name, asset), KeyOf(name', asset');
    if name != "" && name' != "" {
      assert k[1..] == KeyOf(name[1..], asset) && l[1..] == KeyOf(name'[1..], asset');
      assert k[0] == name[0] && l[0] == name'[0];
      assert name == [name[0]] + name[1..] && name' == [name'[0]] + name'[1..];
      KeysTellApart(name[1..], asset, name'[1..], asset');
    } else {
      assert asset.Some? ==> k[|name| + 1..] == asset.value;
      assert asset'.Some? ==> l[|name'| + 1..] == asset'.value;
      assert name != "" ==> k[0] == name[0];
      assert name' != "" ==> l[0] == name'[0];
    }
  }

  /** The entries of other things, in order. */
  function Others(loaded: seq<Entry>, load: Load): seq<Entry> {
    if loaded == [] then []
    else (if SameThing(loaded[0], load) then [] else [loaded[0]]) + Others(loaded[1..], load)
  }

  lemma {:induction false} NoneTheSame(loaded: seq<Entry>, load: Load)
    requires forall i :: 0 <= i < |loaded| ==> !SameThing(loaded[i], load)
    ensures Others(loaded, load) == loaded
  {
    if loaded != [] {
      NoneTheSame(loaded[1..], load);
    }
  }

  lemma {:induction false} AllButOne(loaded: seq<Entry>, load: Load, k: nat)
    requires k < |loaded| && forall i :: 0 <= i < |loaded| ==> (SameThing(loaded[i], load) <==> i == k)
    ensures Others(loaded, load) == Without(loaded, k)
  {
    if k == 0 {
      NoneTheSame(loaded[1..], load);
    } else {
      AllButOne(loaded[1..], load, k - 1);
      assert Without(loaded, k) == [loaded[0]] + Without(loaded[1..], k - 1);
    }
  }

  lemma KeyIsThing(b: Book, load: Load, i: nat)
    requires Agrees(b) && i < |b.loaded| && PlainName(load.name) && PlainName(b.loaded[i].name)
    ensures b.loaded[i].key == KeyOf(load.name, load.asset) <==> SameThing(b.loaded[i], load)
  {
    assert OwnKey(b.loaded[i]);
    KeysTellApart(b.loaded[i].name, b.loaded[i].asset, load.name, load.asset);
  }

  lemma SupersedeOthers(b: Book, load: Load, i: nat)
    requires Agrees(b) && Recordable(b, load) && PlainName(load.name) && i < |b.loaded|
    requires forall k :: 0 <= k < |b.loaded| ==> PlainName(b.loaded[k].name)
    ensures Supersede(b, load).loaded == Others(b.loaded, load)
    ensures Held(Supersede(b, load).history, b.loaded[i].id)
      == if SameThing(b.loaded[i], load) then Some(Superseded(load.name, load.asset))
         else Held(b.history, b.loaded[i].id)
  {
    forall k | 0 <= k < |b.loaded|
      ensures b.loaded[k].key == KeyOf(load.name, load.asset) <==> SameThing(b.loaded[k], load)
    {
      KeyIsThing(b, load, k);
    }
    var k := PositionOf(b.loaded, KeyOf(load.name, load.asset));
    if k == |b.loaded| {
      NoneTheSame(b.loaded, load);
    } else {
      AllButOne(b.loaded, load, k);
      assert b.loaded[k].id in b.booked && HeldInFull(b.history, b.loaded[k].id, b.loaded[k].chars);
      UnloadHeld(b.history, b.loaded[k].id, Superseded(load.name, load.asset), b.loaded[i].id);
    }
  }

  /** Within budget, a load takes out of the index exactly the older copy of the same name and asset,
      which becomes a reload stub; a guide and its assets, or two assets, do not touch each other. */
  lemma RecordReplacesTheSameThing(b: Book, limits: Limits, load: Load, i: nat)
    requires Agrees(b) && Recordable(b, load) && PlainName(load.name) && i < |b.loaded|
    requires forall k :: 0 <= k < |b.loaded| ==> PlainName(b.loaded[k].name)
    requires Fits(Others(b.loaded, load) + [EntryOf(load)], limits)
    ensures var r := Record(b, limits, load);
      && r.loaded == Others(b.loaded, load) + [EntryOf(load)]
      && Held(r.history, b.loaded[i].id)
         == (if SameThing(b.loaded[i], load) then Some(Superseded(load.name, load.asset))
             else Held(b.history, b.loaded[i].id))
  {
    SupersedeOthers(b, load, i);
  }
}
