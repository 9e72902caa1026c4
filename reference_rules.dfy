/** The stateless half of the reference machinery in SimulatorHandler.php:
    reference definitions, their M:1 to 1:M normalisation, inference of the
    side a record is on, and the cardinality check. None of it reads stored
    records; it consults only the definitions. */
module ReferenceRules {
  import opened Base

  datatype Cardinality = OneToOne | OneToMany | ManyToOne | ManyToMany | Unrecognised(text: string)

  /** A reference definition file `{sourceType, sourceCode, targetType,
      targetCode, cardinality}`; a null code means any store of that type. */
  datatype RefDef = RefDef(
    sourceType: string, sourceCode: Option<string>,
    targetType: string, targetCode: Option<string>,
    cardinality: Cardinality)

  datatype Side = Source | Target

  function Opposite(side: Side): Side {
    if side == Source then Target else Source
  }

  /** A record taking part in a reference: the wrapper object's kind, store
      code and id. */
  datatype ObjRef = ObjRef(kind: ObjectType, storeCode: string, id: string)

  /** `getReferenceDefinition` applied to a stored definition: an M:1
      definition is read as 1:M with its two sides swapped. */
  function Normalise(d: RefDef): (r: RefDef)
    ensures r.cardinality != ManyToOne
    ensures d.cardinality == ManyToOne ==>
      && r.cardinality == OneToMany
      && r.sourceType == d.targetType && r.sourceCode == d.targetCode
      && r.targetType == d.sourceType && r.targetCode == d.sourceCode
    ensures d.cardinality != ManyToOne ==> r == d
  {
    if d.cardinality == ManyToOne
    then RefDef(d.targetType, d.targetCode, d.sourceType, d.sourceCode, OneToMany)
    else d
  }

  /** `getReferenceDefinition`: the normalised definition, or none. */
  function Definition(defs: map<string, RefDef>, code: string): (r: Option<RefDef>)
    ensures r.Some? <==> code in defs
    ensures r.Some? ==> r.value == Normalise(defs[code])
  {
    if code in defs then Some(Normalise(defs[code])) else None
  }

  /** Normalising a normalised definition changes nothing. */
  lemma NormaliseIdempotent(d: RefDef)
    ensures Normalise(Normalise(d)) == Normalise(d)
  {
  }

  /** The store class name a kind is compared against. */
  function StoreClass(kind: ObjectType): Option<string> {
    match kind
    case Data => Some("DataStore")
    case User => Some("UserStore")
    case Project => None
  }

  /** `explode('/', $s)[0]`: the text before the first slash. */
  function FirstSegment(s: string): (r: string)
    ensures '/' !in r && |r| <= |s| && r == s[..|r|]
  {
    if s == [] || s[0] == '/' then [] else [s[0]] + FirstSegment(s[1..])
  }

  /** The text after the first slash, empty when there is none. */
  function AfterFirstSlash(s: string): string {
    if s == [] then []
    else if s[0] == '/' then s[1..]
    else AfterFirstSlash(s[1..])
  }

  /** `$parts[0].'/'.$parts[1].'/'`: the namespace a store code of the form
      "vendor/project/store" belongs to. */
  function Namespace(storageCode: string): string {
    FirstSegment(storageCode) + "/" + FirstSegment(AfterFirstSlash(storageCode)) + "/"
  }

  lemma {:induction false} SegmentsOfSlashed(a: string, rest: string)
    requires '/' !in a
    ensures FirstSegment(a + "/" + rest) == a
    ensures AfterFirstSlash(a + "/" + rest) == rest
    decreases |a|
  {
    if a != [] {
      assert (a + "/" + rest)[1..] == a[1..] + "/" + rest;
      SegmentsOfSlashed(a[1..], rest);
    }
  }

  /** For a store code "v/p/s" with slash-free vendor and project, a
      definition's store code `c` qualifies to the same store exactly when
      `c` is `s`. */
  lemma QualifiedCodeMatches(v: string, p: string, s: string, c: string)
    requires '/' !in v && '/' !in p
    ensures Namespace(v + "/" + p + "/" + s) + c == v + "/" + p + "/" + s <==> c == s
  {
    var code := v + "/" + p + "/" + s;
    assert code == v + "/" + (p + "/" + s);
    SegmentsOfSlashed(v, p + "/" + s);
    SegmentsOfSlashed(p, s);
    assert Namespace(code) == v + "/" + p + "/";
    if Namespace(code) + c == code {
      assert c == code[|v + "/" + p + "/"|..];
    }
  }

  /** One side of a definition matches a record of `kind` in `storageCode`:
      same store class and, unless the side's code is null, the same store
      once the side's code is qualified with the caller's namespace. */
  predicate SideMatches(sideType: string, sideCode: Option<string>, kind: ObjectType, storageCode: string) {
    && StoreClass(kind) == Some(sideType)
    && (sideCode.None? || Namespace(storageCode) + sideCode.value == storageCode)
  }

  /** `getReferenceSide`: source when the source side matches (even if the
      target side matches too), else target when that side matches, else an
      invalid reference. */
  function SideOf(d: RefDef, kind: ObjectType, storageCode: string): (r: Result<Side>)
    ensures r == Ok(Source) <==> SideMatches(d.sourceType, d.sourceCode, kind, storageCode)
    ensures r == Ok(Target) <==>
      !SideMatches(d.sourceType, d.sourceCode, kind, storageCode)
      && SideMatches(d.targetType, d.targetCode, kind, storageCode)
    ensures r.Err? ==> r.error == InvalidReference
  {
    if SideMatches(d.sourceType, d.sourceCode, kind, storageCode) then Ok(Source)
    else if SideMatches(d.targetType, d.targetCode, kind, storageCode) then Ok(Target)
    else Err(InvalidReference)
  }

  /** A side with a null code takes every store of its class. */
  lemma NullCodeMatchesAnyStore(d: RefDef, kind: ObjectType, storageCode: string)
    requires d.sourceCode.None? && StoreClass(kind) == Some(d.sourceType)
    ensures SideOf(d, kind, storageCode) == Ok(Source)
  {
  }

  /** Sorts the objects into source-side and target-side ids, in order. */
  function Classify(d: RefDef, objects: seq<ObjRef>): (r: Result<(seq<string>, seq<string>)>)
    ensures r.Ok? ==> |r.value.0| + |r.value.1| == |objects|
    ensures r.Ok? <==> forall i :: 0 <= i < |objects| ==> SideOf(d, objects[i].kind, objects[i].storeCode).Ok?
    decreases |objects|
  {
    if objects == [] then Ok(([], []))
    else
      var o := objects[|objects| - 1];
      match Classify(d, objects[..|objects| - 1])
      case Err(e) => Err(e)
      case Ok(sides) =>
        match SideOf(d, o.kind, o.storeCode)
        case Err(e) => Err(e)
        case Ok(side) =>
          if side == Source then Ok((sides.0 + [o.id], sides.1))
          else Ok((sides.0, sides.1 + [o.id]))
  }

  /** `validateReference`: passes when there is no definition; otherwise
      every object and the acting record must sit on a side, 1:1 needs one
      source id and one target id, 1:M one source id, and the acting id must
      come first on its own side. */
  function Validate(defs: map<string, RefDef>, kind: ObjectType, storageCode: string, id: string,
                    code: string, objects: seq<ObjRef>): (r: Outcome)
    ensures code !in defs ==> r == Pass
    ensures r.Pass? && code in defs ==>
      && SideOf(Normalise(defs[code]), kind, storageCode).Ok?
      && forall o :: o in objects ==> SideOf(Normalise(defs[code]), o.kind, o.storeCode).Ok?
  {
    if code !in defs then Pass
    else
      var d := Normalise(defs[code]);
      match Classify(d, objects)
      case Err(e) => Fail(e)
      case Ok(sides) =>
        match SideOf(d, kind, storageCode)
        case Err(e) => Fail(e)
        case Ok(side) =>
          var sources := if side == Source then sides.0 + [id] else sides.0;
          var targets := if side == Target then sides.1 + [id] else sides.1;
          if d.cardinality == OneToOne && |sources| != 1 then Fail(CardinalityViolation)
          else if d.cardinality == OneToOne && |targets| != 1 then Fail(CardinalityViolation)
          else if d.cardinality == OneToMany && |sources| != 1 then Fail(CardinalityViolation)
          else if side == Source && sources[0] != id then Fail(NotSelf)
          else if side == Target && targets[0] != id then Fail(NotSelf)
          else Pass
  }

  /** All objects sit on the side opposite the acting record. */
  predicate AllOpposite(d: RefDef, side: Side, objects: seq<ObjRef>) {
    forall i :: 0 <= i < |objects| ==> SideOf(d, objects[i].kind, objects[i].storeCode) == Ok(Opposite(side))
  }

  lemma {:induction false} ClassifyOpposite(d: RefDef, side: Side, objects: seq<ObjRef>)
    requires AllOpposite(d, side, objects)
    ensures Classify(d, objects).Ok?
    ensures side == Source ==> Classify(d, objects).value.0 == [] && |Classify(d, objects).value.1| == |objects|
    ensures side == Target ==> Classify(d, objects).value.1 == [] && |Classify(d, objects).value.0| == |objects|
    decreases |objects|
  {
    if objects != [] {
      ClassifyOpposite(d, side, objects[..|objects| - 1]);
    }
  }

  /** When every object is on the opposite side, validation reduces to the
      counting rule: 1:1 takes exactly one object, 1:M acting from the target
      side takes exactly one source object, and everything else passes. */
  lemma ValidateOpposite(defs: map<string, RefDef>, kind: ObjectType, storageCode: string, id: string,
                         code: string, objects: seq<ObjRef>)
    requires code in defs
    requires SideOf(Normalise(defs[code]), kind, storageCode).Ok?
    requires AllOpposite(Normalise(defs[code]), SideOf(Normalise(defs[code]), kind, storageCode).value, objects)
    ensures Validate(defs, kind, storageCode, id, code, objects).Pass? <==>
      var d := Normalise(defs[code]);
      var side := SideOf(d, kind, storageCode).value;
      && (d.cardinality == OneToOne ==> |objects| == 1)
      && (d.cardinality == OneToMany && side == Target ==> |objects| == 1)
  {
    var d := Normalise(defs[code]);
    ClassifyOpposite(d, SideOf(d, kind, storageCode).value, objects);
  }

  /** The ids of the objects on `side`, in list order. */
  function OnSide(d: RefDef, objects: seq<ObjRef>, side: Side): (r: seq<string>)
    ensures |r| <= |objects|
  {
    if objects == [] then []
    else (if SideOf(d, objects[0].kind, objects[0].storeCode) == Ok(side) then [objects[0].id] else [])
         + OnSide(d, objects[1..], side)
  }

  lemma {:induction false} OnSideSnoc(d: RefDef, objects: seq<ObjRef>, o: ObjRef, side: Side)
    ensures OnSide(d, objects + [o], side)
            == OnSide(d, objects, side) + (if SideOf(d, o.kind, o.storeCode) == Ok(side) then [o.id] else [])
    decreases |objects|
  {
    if objects != [] {
      assert (objects + [o])[1..] == objects[1..] + [o];
      OnSideSnoc(d, objects[1..], o, side);
    } else {
      assert [o][1..] == [];
    }
  }

  /** `Classify` sorts the objects into exactly the source-side ids and the
      target-side ids, each in list order. */
  lemma {:induction false} ClassifySides(d: RefDef, objects: seq<ObjRef>)
    requires Classify(d, objects).Ok?
    ensures Classify(d, objects).value == (OnSide(d, objects, Source), OnSide(d, objects, Target))
    decreases |objects|
  {
    if objects != [] {
      var init := objects[..|objects| - 1];
      var o := objects[|objects| - 1];
      ClassifySides(d, init);
      assert objects == init + [o];
      OnSideSnoc(d, init, o, Source);
      OnSideSnoc(d, init, o, Target);
      var side := SideOf(d, o.kind, o.storeCode).value;
      assert side == Source || side == Target;
      var sides := Classify(d, init).value;
      assert Classify(d, objects).value
             == if side == Source then (sides.0 + [o.id], sides.1) else (sides.0, sides.1 + [o.id]);
      assert sides == (OnSide(d, init, Source), OnSide(d, init, Target));
      assert Classify(d, objects).value.0 == OnSide(d, objects, Source);
      assert Classify(d, objects).value.1 == OnSide(d, objects, Target);
      assert OnSide(d, objects, Source) == OnSide(d, init, Source) + (if side == Source then [o.id] else []);
      assert OnSide(d, objects, Target) == OnSide(d, init, Target) + (if side == Target then [o.id] else []);
    }
  }

  /** The counting rule when the acting record is on the source side. */
  lemma ValidateFromSource(defs: map<string, RefDef>, kind: ObjectType, storageCode: string, id: string,
                           code: string, objects: seq<ObjRef>)
    requires code in defs
    requires Classify(Normalise(defs[code]), objects).Ok?
    requires SideOf(Normalise(defs[code]), kind, storageCode) == Ok(Source)
    ensures var d := Normalise(defs[code]);
      var own := OnSide(d, objects, Source);
      var other := OnSide(d, objects, Target);
      Validate(defs, kind, storageCode, id, code, objects).Pass? <==>
        && (d.cardinality == OneToOne ==> |own| == 0 && |other| == 1)
        && (d.cardinality == OneToMany ==> |own| == 0)
        && (|own| > 0 ==> own[0] == id)
  {
    var d := Normalise(defs[code]);
    ClassifySides(d, objects);
    var own := OnSide(d, objects, Source);
    assert (own + [id])[0] == if |own| > 0 then own[0] else id;
  }

  /** The counting rule when the acting record is on the target side. */
  lemma ValidateFromTarget(defs: map<string, RefDef>, kind: ObjectType, storageCode: string, id: string,
                           code: string, objects: seq<ObjRef>)
    requires code in defs
    requires Classify(Normalise(defs[code]), objects).Ok?
    requires SideOf(Normalise(defs[code]), kind, storageCode) == Ok(Target)
    ensures var d := Normalise(defs[code]);
      var own := OnSide(d, objects, Target);
      var other := OnSide(d, objects, Source);
      Validate(defs, kind, storageCode, id, code, objects).Pass? <==>
        && (d.cardinality == OneToOne ==> |own| == 0 && |other| == 1)
        && (d.cardinality == OneToMany ==> |other| == 1)
        && (|own| > 0 ==> own[0] == id)
  {
    var d := Normalise(defs[code]);
    ClassifySides(d, objects);
    var own := OnSide(d, objects, Target);
    assert (own + [id])[0] == if |own| > 0 then own[0] else id;
  }

  /** `validateReference` for any object list: with the code defined, it
      passes exactly when the acting record and every object sit on a side,
      1:1 takes no object on the acting side and one on the other, 1:M takes
      no other source-side object when the acting record is the source and
      exactly one source-side object when it is the target, and the first
      object on the acting record's own side, if any, is the record itself. */
  lemma ValidateCardinality(defs: map<string, RefDef>, kind: ObjectType, storageCode: string, id: string,
                            code: string, objects: seq<ObjRef>)
    requires code in defs
    ensures var d := Normalise(defs[code]);
      Validate(defs, kind, storageCode, id, code, objects).Pass? <==>
        && SideOf(d, kind, storageCode).Ok?
        && (forall i :: 0 <= i < |objects| ==> SideOf(d, objects[i].kind, objects[i].storeCode).Ok?)
        && var side := SideOf(d, kind, storageCode).value;
           var own := OnSide(d, objects, side);
           var other := OnSide(d, objects, Opposite(side));
           && (d.cardinality == OneToOne ==> |own| == 0 && |other| == 1)
           && (d.cardinality == OneToMany && side == Source ==> |own| == 0)
           && (d.cardinality == OneToMany && side == Target ==> |other| == 1)
           && (|own| > 0 ==> own[0] == id)
  {
    var d := Normalise(defs[code]);
    if Classify(d, objects).Ok? && SideOf(d, kind, storageCode) == Ok(Source) {
      ValidateFromSource(defs, kind, storageCode, id, code, objects);
    } else if Classify(d, objects).Ok? && SideOf(d, kind, storageCode) == Ok(Target) {
      ValidateFromTarget(defs, kind, storageCode, id, code, objects);
    }
  }

  /** Under 1:1 a passing validation has exactly one object, and it sits on
      the side opposite the acting record. */
  lemma OneToOneTakesOneOpposite(defs: map<string, RefDef>, kind: ObjectType, storageCode: string, id: string,
                                 code: string, objects: seq<ObjRef>)
    requires code in defs && Normalise(defs[code]).cardinality == OneToOne
    requires Validate(defs, kind, storageCode, id, code, objects).Pass?
    ensures |objects| == 1
    ensures var d := Normalise(defs[code]);
      SideOf(d, objects[0].kind, objects[0].storeCode) == Ok(Opposite(SideOf(d, kind, storageCode).value))
  {
    var d := Normalise(defs[code]);
    ValidateCardinality(defs, kind, storageCode, id, code, objects);
    ClassifySides(d, objects);
    var side := SideOf(d, kind, storageCode).value;
    if Opposite(side) == Source {
      assert |objects| == |OnSide(d, objects, Source)| + |OnSide(d, objects, Target)|;
    } else {
      assert |objects| == |OnSide(d, objects, Source)| + |OnSide(d, objects, Target)|;
    }
    assert SideOf(d, objects[0].kind, objects[0].storeCode).Ok?;
    assert SideOf(d, objects[0].kind, objects[0].storeCode) != Ok(side);
  }

  /** A list whose first object sits on the acting record's own side and
      carries another id is refused: the acting record must come first on
      its side. */
  lemma ValidateRejectsForeignFirst(defs: map<string, RefDef>, kind: ObjectType, storageCode: string,
                                    id: string, code: string, objects: seq<ObjRef>)
    requires code in defs && objects != [] && objects[0].id != id
    requires SideOf(Normalise(defs[code]), kind, storageCode).Ok?
    requires SideOf(Normalise(defs[code]), objects[0].kind, objects[0].storeCode)
             == SideOf(Normalise(defs[code]), kind, storageCode)
    ensures Validate(defs, kind, storageCode, id, code, objects).Fail?
  {
    var d := Normalise(defs[code]);
    ValidateCardinality(defs, kind, storageCode, id, code, objects);
    assert OnSide(d, objects, SideOf(d, kind, storageCode).value)[0] == objects[0].id;
  }

  /** Whether `addReference` first discards the acting record's earlier ids:
      under 1:1 always, under 1:M when the acting record is not the source. */
  predicate Resets(defs: map<string, RefDef>, code: string, kind: ObjectType, storageCode: string) {
    && code in defs
    && var d := Normalise(defs[code]);
       (d.cardinality == OneToOne
        || (d.cardinality == OneToMany && SideOf(d, kind, storageCode) != Ok(Source)))
  }
}
