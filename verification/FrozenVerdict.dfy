/** The server's own verdict on a frozen intent: which measurements are admitted, how each frozen
    check reads them, and why it fails closed. */
module FrozenVerdict {
  import opened Arith
  import opened Options

  /** A float: a number, one of the two infinities, or the one value every comparison with which is
      false. */
  datatype Float = Num(value: real) | Infinite(positive: bool) | NaN

  /** What the kernel returned, as plain data. */
  datatype Raw =
    | Null | Bool(flag: bool) | Number(x: Float) | Text(text: string)
    | List(items: seq<Raw>) | Object(fields: map<string, Raw>)

  datatype Measurements = Measurements(size: Option<seq<Float>>, mass: Option<Float>, volume: Option<Float>,
                                       wall: Option<Float>)

  const NOTHING := Measurements(None, None, None, None)

  // ------------------------------------------------------------ what is admitted

  function Field(raw: Raw, key: string): Raw {
    if raw.Object? && key in raw.fields then raw.fields[key] else Null
  }

  function Scalar(raw: Raw): Option<Float> {
    if raw.Number? then Some(raw.x) else None
  }

  function Extent(raw: Raw): (e: Option<seq<Float>>)
    ensures e.Some? ==> |e.value| == 3
  {
    if raw.List? && |raw.items| == 3 && raw.items[0].Number? && raw.items[1].Number? && raw.items[2].Number? then
      Some([raw.items[0].x, raw.items[1].x, raw.items[2].x])
    else None
  }

  /** Only well-typed metrics; anything else is simply absent. */
  function Clean(raw: Raw): (m: Measurements)
    ensures m.size.Some? ==> |m.size.value| == 3
  {
    Measurements(Extent(Field(raw, "size")), Scalar(Field(raw, "mass_g")), Scalar(Field(raw, "volume_mm3")),
                 Scalar(Field(raw, "min_wall")))
  }

  // ------------------------------------------------------------ the frozen checks

  /** A predicate of the server's own, over the size of the bounding box; it may raise. */
  datatype Outcome = Returned(ok: bool) | Raised

  datatype Check =
    | Mass(lo: Option<real>, hi: Option<real>)
    | Volume(lo: Option<real>, hi: Option<real>)
    | BBox(within: seq<real>)
    | Wall(need: Option<real>)
    | That(fn: Option<seq<Float> -> Outcome>)
    | OtherKind

  datatype Spec = Spec(name: string, check: Check)

  predicate Below(x: Float, limit: real) {
    match x
    case Num(value) => value < limit
    case Infinite(positive) => !positive
    case NaN => false
  }

  predicate Above(x: Float, limit: real) {
    match x
    case Num(value) => value > limit
    case Infinite(positive) => positive
    case NaN => false
  }

  predicate AtLeast(x: Float, limit: real) {
    Above(x, limit) || x == Num(limit)
  }

  predicate BoundsOk(x: Float, lo: Option<real>, hi: Option<real>) {
    && !(lo.Some? && Below(x, lo.value - Slack(lo.value)))
    && !(hi.Some? && Above(x, hi.value + Slack(hi.value)))
  }

  predicate Over(size: seq<Float>, within: seq<real>, i: nat)
    requires i < |size| && i < |within|
  {
    Above(size[i], within[i] + Slack(within[i]))
  }

  predicate Passes(check: Check, m: Measurements)
    requires m.size.Some? ==> |m.size.value| == 3
  {
    match check
    case Mass(lo, hi) => m.mass.Some? && BoundsOk(m.mass.value, lo, hi)
    case Volume(lo, hi) => m.volume.Some? && BoundsOk(m.volume.value, lo, hi)
    case BBox(within) => m.size.Some? && forall i: nat :: i < 3 && i < |within| ==> !Over(m.size.value, within, i)
    case Wall(need) =>
      && m.wall.Some?
      && (need.Some? ==> AtLeast(m.wall.value, need.value - Slack(need.value)))
    case That(fn) => m.size.Some? && fn.Some? && fn.value(m.size.value) == Returned(true)
    case OtherKind => false
  }

  /** The measurement a check cannot pass without. */
  predicate Measured(check: Check, m: Measurements) {
    match check
    case Mass(_, _) => m.mass.Some?
    case Volume(_, _) => m.volume.Some?
    case BBox(_) => m.size.Some?
    case Wall(_) => m.wall.Some?
    case That(_) => m.size.Some?
    case OtherKind => false
  }

  function Violations(specs: seq<Spec>, m: Measurements): seq<string>
    requires m.size.Some? ==> |m.size.value| == 3
  {
    if specs == [] then []
    else
      var n := |specs| - 1;
      Violations(specs[..n], m) + if Passes(specs[n].check, m) then [] else [specs[n].name]
  }

  predicate FrozenOk(specs: seq<Spec>, raw: Raw) {
    Violations(specs, Clean(raw)) == []
  }

  method Verdict(specs: seq<Spec>, raw: Raw) returns (ok: bool, violations: seq<string>, passed: seq<bool>)
    ensures ok == FrozenOk(specs, raw) && violations == Violations(specs, Clean(raw))
    ensures specs != [] ==> |passed| == |specs|
    ensures forall i :: 0 <= i < |passed| ==> i < |specs| && passed[i] == Passes(specs[i].check, Clean(raw))
  {
    if specs == [] {
      return true, [], [];
    }
    var m := Clean(raw);
    violations, passed := [], [];
    for i := 0 to |specs|
      invariant violations == Violations(specs[..i], m) && |passed| == i
      invariant forall k :: 0 <= k < i ==> passed[k] == Passes(specs[k].check, m)
    {
      assert specs[..i + 1][..i] == specs[..i];
      var fine := Passes(specs[i].check, m);
      passed := passed + [fine];
      if !fine {
        violations := violations + [specs[i].name];
      }
    }
    assert specs[..|specs|] == specs;
    ok := violations == [];
  }

  // ------------------------------------------------------------ failing closed

  lemma {:induction false} NoViolationsIff(specs: seq<Spec>, m: Measurements)
    requires m.size.Some? ==> |m.size.value| == 3
    ensures Violations(specs, m) == [] <==> forall i :: 0 <= i < |specs| ==> Passes(specs[i].check, m)
  {
    if specs != [] {
      var n := |specs| - 1;
      var front := specs[..n];
      NoViolationsIff(front, m);
      assert forall i :: 0 <= i < n ==> front[i] == specs[i];
    }
  }

  /** Every metric is the same or gone. */
  predicate Fewer(a: Measurements, b: Measurements) {
    && (a.size.None? || a.size == b.size) && (a.mass.None? || a.mass == b.mass)
    && (a.volume.None? || a.volume == b.volume) && (a.wall.None? || a.wall == b.wall)
  }

  lemma PassNeedsMeasurement(check: Check, m: Measurements)
    requires m.size.Some? ==> |m.size.value| == 3
    ensures Passes(check, m) ==> Measured(check, m)
  {
  }

  lemma FewerPasses(check: Check, a: Measurements, b: Measurements)
    requires Fewer(a, b) && (a.size.Some? ==> |a.size.value| == 3) && (b.size.Some? ==> |b.size.value| == 3)
    ensures Passes(check, a) ==> Passes(check, b)
  {
  }

  /** The same object with some fields gone or mistyped. */
  predicate Stripped(less: map<string, Raw>, full: map<string, Raw>) {
    forall k :: k in less ==>
      less[k].Null? || less[k].Text? || less[k].Bool? || less[k].Object? || (k in full && less[k] == full[k])
  }

  /** Taking a measurement away, or spoiling its type, never turns a failure into a pass. */
  lemma LosingMeasurementsNeverPasses(specs: seq<Spec>, less: map<string, Raw>, full: map<string, Raw>)
    requires Stripped(less, full)
    ensures FrozenOk(specs, Object(less)) ==> FrozenOk(specs, Object(full))
  {
    var a, b := Clean(Object(less)), Clean(Object(full));
    assert Fewer(a, b);
    NoViolationsIff(specs, a);
    NoViolationsIff(specs, b);
    forall i | 0 <= i < |specs| && Passes(specs[i].check, a)
      ensures Passes(specs[i].check, b)
    {
      FewerPasses(specs[i].check, a, b);
    }
  }

  /** A run that produced nothing at all passes exactly when nothing was frozen. */
  lemma NoMeasurementsNoPass(specs: seq<Spec>, raw: Raw)
    requires !raw.Object?
    ensures FrozenOk(specs, raw) <==> specs == []
  {
    NoViolationsIff(specs, Clean(raw));
    if specs != [] {
      assert Clean(raw) == NOTHING;
      PassNeedsMeasurement(specs[0].check, NOTHING);
    }
  }

  predicate NeedsWall(specs: seq<Spec>) {
    exists i :: 0 <= i < |specs| && specs[i].check.Wall?
  }

  /** Without a frozen wall check the wall measurement can be left out. */
  lemma WallOnlyWhenNeeded(specs: seq<Spec>, fields: map<string, Raw>)
    requires !NeedsWall(specs)
    ensures FrozenOk(specs, Object(fields - {"min_wall"})) == FrozenOk(specs, Object(fields))
  {
    var a, b := Clean(Object(fields - {"min_wall"})), Clean(Object(fields));
    NoViolationsIff(specs, a);
    NoViolationsIff(specs, b);
    assert a == b.(wall := None);
    forall i | 0 <= i < |specs|
      ensures Passes(specs[i].check, a) == Passes(specs[i].check, b)
    {
    }
  }

  // ------------------------------------------------------------ the measurement that is not a number

  /** How far over a bound a measurement may be: a billionth of it, at least a billionth. */
  function Tolerance(limit: real): real {
    Max(0.000000001, 0.000000001 * if limit >= 0.0 then limit else -limit)
  }

  /** At most so much, where minus infinity is at most everything. */
  predicate UpTo(x: Float, limit: real) {
    x == Infinite(false) || (x.Num? && x.value <= limit)
  }

  predicate From(x: Float, limit: real) {
    x == Infinite(true) || (x.Num? && x.value >= limit)
  }

  /** Within the tolerance of both bounds. */
  predicate Within(x: Float, lo: Option<real>, hi: Option<real>) {
    && (lo.Some? ==> From(x, lo.value - Tolerance(lo.value)))
    && (hi.Some? ==> UpTo(x, hi.value + Tolerance(hi.value)))
  }

  /** A bounded check passes exactly when its measurement is there and is within both bounds or is
      not a number: that one value is admitted and no bound refuses it. */
  lemma BoundedPassIff(m: Measurements, lo: Option<real>, hi: Option<real>)
    requires m.size.Some? ==> |m.size.value| == 3
    ensures Passes(Mass(lo, hi), m) <==> m.mass.Some? && (m.mass.value == NaN || Within(m.mass.value, lo, hi))
    ensures Passes(Volume(lo, hi), m) <==>
      m.volume.Some? && (m.volume.value == NaN || Within(m.volume.value, lo, hi))
  {
  }

  predicate AxisFits(x: Float, limit: real) {
    x == NaN || UpTo(x, limit + Tolerance(limit))
  }

  /** The same of the size of the bounding box, axis by axis. */
  lemma BoxPassIff(m: Measurements, within: seq<real>)
    requires m.size.Some? ==> |m.size.value| == 3
    ensures Passes(BBox(within), m) ==> m.size.Some?
    ensures m.size.Some? ==>
      (Passes(BBox(within), m) <==> forall i: nat :: i < 3 && i < |within| ==> AxisFits(m.size.value[i], within[i]))
  {
    if m.size.Some? {
      forall i: nat | i < 3 && i < |within|
        ensures !Over(m.size.value, within, i) <==> AxisFits(m.size.value[i], within[i])
      {
      }
    }
  }

  /** A wall check passes exactly when the wall was measured and is no thinner than the floor, if there
      is one; a floor refuses what is not a number. */
  lemma WallPassIff(m: Measurements, need: Option<real>)
    requires m.size.Some? ==> |m.size.value| == 3
    ensures Passes(Wall(need), m) <==>
      m.wall.Some? && (need.Some? ==> From(m.wall.value, need.value - Tolerance(need.value)))
    ensures need.Some? && m.wall == Some(NaN) ==> !Passes(Wall(need), m)
  {
  }

  /** A check of the server's own passes only when it is known, the box was measured and it answers
      yes; raising is failing, and so is any kind of check that is not known. */
  lemma ThatPassIff(m: Measurements, fn: Option<seq<Float> -> Outcome>)
    requires m.size.Some? ==> |m.size.value| == 3
    ensures fn.None? || m.size.None? ==> !Passes(That(fn), m)
    ensures fn.Some? && m.size.Some? && fn.value(m.size.value) == Raised ==> !Passes(That(fn), m)
    ensures forall ok :: fn.Some? && m.size.Some? && fn.value(m.size.value) == Returned(ok) ==>
      (Passes(That(fn), m) <==> ok)
    ensures !Passes(OtherKind, m)
  {
  }

  /** Each measurement is read from its own field, and only when that field is a number; a size is a
      list of exactly three. */
  lemma CleanReads(fields: map<string, Raw>, x: Float)
    ensures var m := Clean(Object(fields));
      && (m.mass == Some(x) <==> "mass_g" in fields && fields["mass_g"] == Number(x))
      && (m.volume == Some(x) <==> "volume_mm3" in fields && fields["volume_mm3"] == Number(x))
      && (m.wall == Some(x) <==> "min_wall" in fields && fields["min_wall"] == Number(x))
  {
  }

  lemma CleanReadsSize(fields: map<string, Raw>, x: Float, y: Float, z: Float)
    ensures Clean(Object(fields)).size == Some([x, y, z]) <==>
      "size" in fields && fields["size"] == List([Number(x), Number(y), Number(z)])
  {
    var raw := Field(Object(fields), "size");
    if Clean(Object(fields)).size == Some([x, y, z]) {
      assert [x, y, z][0] == x && [x, y, z][1] == y && [x, y, z][2] == z;
      assert raw.items == [raw.items[0], raw.items[1], raw.items[2]];
    }
  }

  /** So an unsatisfiable mass contract can be passed by a mass that is not a number. */
  lemma NotANumberPassesAnyMass(name: string, lo: Option<real>, hi: Option<real>)
    ensures FrozenOk([Spec(name, Mass(lo, hi))], Object(map["mass_g" := Number(NaN)]))
  {
    var specs := [Spec(name, Mass(lo, hi))];
    NoViolationsIff(specs, Clean(Object(map["mass_g" := Number(NaN)])));
  }
}
