/** The fallback contract validator: recursion on instance, schema and union types, against keyword-wise JSON Schema. */
module SchemaValidator {
  import opened Common

  datatype Json =
    | Null | Bool(b: bool) | Int(n: int) | Num(x: real) | Str(s: string)
    | Arr(items: seq<Json>) | Obj(fields: seq<Field>)

  datatype Field = Field(name: string, value: Json)

  datatype TypeName = TNull | TObject | TArray | TString | TInteger | TNumber | TBoolean | TOther

  datatype Types = Untyped | One(t: TypeName) | Union(ts: seq<TypeName>)

  datatype Property = Property(name: string, schema: Schema)

  /** The keywords the validator looks at; a pattern is the search it stands for. */
  datatype Keywords = Keywords(
    required: seq<string>, properties: seq<Property>, closed: bool, minItems: int, items: Option<Schema>,
    minLength: int, enumeration: Option<seq<Json>>, constant: Option<Json>, pattern: Option<string -> bool>,
    minimum: Option<int>, maximum: Option<int>)

  datatype Schema = Ref(name: string) | OneOf(branches: seq<Schema>) | Typed(types: Types, k: Keywords)

  type Defs = map<string, Schema>

  predicate HasKey(fields: seq<Field>, key: string) {
    exists i :: 0 <= i < |fields| && fields[i].name == key
  }

  function PropertyNamed(properties: seq<Property>, key: string): (r: Option<Schema>)
    ensures r.Some? ==>
              exists i :: 0 <= i < |properties| && properties[i].name == key && properties[i].schema == r.value
  {
    if properties == [] then None
    else if properties[0].name == key then Some(properties[0].schema)
    else
      assert forall i :: 0 <= i < |properties[1..]| ==> properties[1..][i] == properties[i + 1];
      PropertyNamed(properties[1..], key)
  }

  /** A reference directly under a property or under items is looked up; an unknown name is an error. */
  function Resolve(s: Schema, defs: Defs): Option<Schema> {
    if !s.Ref? then Some(s) else if s.name in defs then Some(defs[s.name]) else None
  }

  function CountTrue(bs: seq<bool>): (n: nat)
    ensures n <= |bs|
  {
    if bs == [] then 0 else CountTrue(bs[..|bs| - 1]) + if bs[|bs| - 1] then 1 else 0
  }

  ghost predicate OnlyTrue(bs: seq<bool>, i: nat) {
    i < |bs| && bs[i] && forall j :: 0 <= j < |bs| && j != i ==> !bs[j]
  }

  ghost predicate ExactlyOne(bs: seq<bool>) {
    exists i: nat :: OnlyTrue(bs, i)
  }

  lemma {:induction false} NoneTrue(bs: seq<bool>)
    ensures CountTrue(bs) == 0 <==> forall i :: 0 <= i < |bs| ==> !bs[i]
  {
    if bs != [] { NoneTrue(bs[..|bs| - 1]); }
  }

  /** A match counter of one means exactly one match. */
  lemma {:induction false} OneTrue(bs: seq<bool>)
    ensures CountTrue(bs) == 1 <==> ExactlyOne(bs)
  {
    if bs != [] {
      var n := |bs| - 1;
      var init := bs[..n];
      OneTrue(init);
      NoneTrue(init);
      if CountTrue(bs) == 1 {
        if bs[n] {
          assert OnlyTrue(bs, n);
        } else {
          var i: nat :| OnlyTrue(init, i);
          assert OnlyTrue(bs, i);
        }
      }
      if i: nat :| OnlyTrue(bs, i) {
        if i < n { assert OnlyTrue(init, i); }
      }
    }
  }

  // ---- The validator ----

  /** Whether the validator returns rather than raises. A reference anywhere else is not followed and accepts
      anything. */
  ghost predicate Accepts(s: Schema, inst: Json, defs: Defs)
    decreases inst, 0, s, 1
  {
    match s
    case Ref(_) => true
    case OneOf(branches) =>
      CountTrue(seq(|branches|, i requires 0 <= i < |branches| => Accepts(branches[i], inst, defs))) == 1
    case Typed(types, k) =>
      match types
      case Untyped => true
      case One(t) => AcceptsType(k, t, inst, defs)
      case Union(ts) => exists i :: 0 <= i < |ts| && AcceptsType(k, ts[i], inst, defs)
  }

  /** The checks behind one type name; the only recursion is into fields and items. */
  ghost predicate AcceptsType(k: Keywords, t: TypeName, inst: Json, defs: Defs)
    decreases inst, 0, k, 0
  {
    match t
    case TNull => inst.Null?
    case TObject =>
      && inst.Obj?
      && (forall r :: r in k.required ==> HasKey(inst.fields, r))
      && (k.closed ==> forall i :: 0 <= i < |inst.fields| ==> PropertyNamed(k.properties, inst.fields[i].name).Some?)
      && (forall i :: 0 <= i < |inst.fields| ==>
            var p := PropertyNamed(k.properties, inst.fields[i].name);
            p.Some? ==> AcceptsSub(p.value, inst.fields[i].value, defs))
    case TArray =>
      && inst.Arr? && |inst.items| >= k.minItems
      && (k.items.Some? ==> forall i :: 0 <= i < |inst.items| ==> AcceptsSub(k.items.value, inst.items[i], defs))
    case TString =>
      && inst.Str? && |inst.s| >= k.minLength
      && (k.enumeration.Some? ==> inst in k.enumeration.value)
      && (k.constant.Some? && k.constant.value != Null ==> inst == k.constant.value)
      && (k.pattern.Some? ==> k.pattern.value(inst.s))
    case TInteger =>
      && inst.Int?
      && (k.minimum.Some? ==> inst.n >= k.minimum.value)
      && (k.maximum.Some? ==> inst.n <= k.maximum.value)
    case TNumber => inst.Int? || inst.Num?
    case TBoolean => inst.Bool?
    case TOther => true
  }

  /** A schema under a property or under items. */
  ghost predicate AcceptsSub(s: Schema, inst: Json, defs: Defs)
    decreases inst, 1
  {
    Resolve(s, defs).Some? && Accepts(Resolve(s, defs).value, inst, defs)
  }

  /** The validator itself; it terminates however the definitions refer to each other. */
  method FallbackValidate(s: Schema, inst: Json, defs: Defs) returns (ok: bool)
    ensures ok == Accepts(s, inst, defs)
    decreases inst, 0, s, 2
  {
    match s
    case Ref(_) => return true;
    case OneOf(branches) =>
      var count := 0;
      ghost var verdicts := seq(|branches|, i requires 0 <= i < |branches| => Accepts(branches[i], inst, defs));
      for i := 0 to |branches|
        invariant count == CountTrue(verdicts[..i])
      {
        var matched := FallbackValidate(branches[i], inst, defs);
        assert verdicts[..i + 1][..i] == verdicts[..i];
        if matched { count := count + 1; }
      }
      assert verdicts[..|branches|] == verdicts;
      return count == 1;
    case Typed(types, k) =>
      match types
      case Untyped => return true;
      case One(t) => ok := CheckType(k, t, inst, defs);
      case Union(ts) =>
        for i := 0 to |ts|
          invariant forall j :: 0 <= j < i ==> !AcceptsType(k, ts[j], inst, defs)
        {
          var matched := CheckType(k, ts[i], inst, defs);
          if matched { return true; }
        }
        return false;
  }

  method CheckType(k: Keywords, t: TypeName, inst: Json, defs: Defs) returns (ok: bool)
    ensures ok == AcceptsType(k, t, inst, defs)
    decreases inst, 0, k, 1
  {
    match t
    case TNull => return inst.Null?;
    case TObject => ok := CheckObject(k, inst, defs);
    case TArray => ok := CheckArray(k, inst, defs);
    case TString =>
      if !inst.Str? || |inst.s| < k.minLength { return false; }
      if k.enumeration.Some? && inst !in k.enumeration.value { return false; }
      if k.constant.Some? && k.constant.value != Null && inst != k.constant.value { return false; }
      return k.pattern.None? || k.pattern.value(inst.s);
    case TInteger =>
      if !inst.Int? { return false; }
      if k.minimum.Some? && inst.n < k.minimum.value { return false; }
      return k.maximum.None? || inst.n <= k.maximum.value;
    case TNumber => return inst.Int? || inst.Num?;
    case TBoolean => return inst.Bool?;
    case TOther => return true;
  }

  method CheckObject(k: Keywords, inst: Json, defs: Defs) returns (ok: bool)
    ensures ok == AcceptsType(k, TObject, inst, defs)
    decreases inst, 0, k, 0
  {
    if !inst.Obj? { return false; }
    for i := 0 to |k.required|
      invariant forall j :: 0 <= j < i ==> HasKey(inst.fields, k.required[j])
    {
      if !HasKey(inst.fields, k.required[i]) { return false; }
    }
    if k.closed {
      for i := 0 to |inst.fields|
        invariant forall j :: 0 <= j < i ==> PropertyNamed(k.properties, inst.fields[j].name).Some?
      {
        if PropertyNamed(k.properties, inst.fields[i].name).None? { return false; }
      }
    }
    for i := 0 to |inst.fields|
      invariant forall j :: 0 <= j < i ==>
                  var p := PropertyNamed(k.properties, inst.fields[j].name);
                  p.Some? ==> AcceptsSub(p.value, inst.fields[j].value, defs)
    {
      var p := PropertyNamed(k.properties, inst.fields[i].name);
      if p.Some? {
        var valid := ValidateSub(p.value, inst.fields[i].value, defs);
        if !valid { return false; }
      }
    }
    ok := true;
  }

  method CheckArray(k: Keywords, inst: Json, defs: Defs) returns (ok: bool)
    ensures ok == AcceptsType(k, TArray, inst, defs)
    decreases inst, 0, k, 0
  {
    if !inst.Arr? || |inst.items| < k.minItems { return false; }
    if k.items.Some? {
      for i := 0 to |inst.items|
        invariant forall j :: 0 <= j < i ==> AcceptsSub(k.items.value, inst.items[j], defs)
      {
        var valid := ValidateSub(k.items.value, inst.items[i], defs);
        if !valid { return false; }
      }
    }
    ok := true;
  }

  method ValidateSub(s: Schema, inst: Json, defs: Defs) returns (ok: bool)
    ensures ok == AcceptsSub(s, inst, defs)
    decreases inst, 1
  {
    var target := Resolve(s, defs);
    if target.None? { return false; }
    ok := FallbackValidate(target.value, inst, defs);
  }

  // ---- JSON Schema, keyword by keyword ----

  /**
   A keyword asserts something only about instances of its own type, and a reference, wherever it stands, means
   its definition. On one instance at most `hops` references are followed: as many as there are definitions is
   enough unless they refer to each other in a circle, and a circle means nothing.
   */
  ghost predicate Meets(s: Schema, inst: Json, defs: Defs, hops: nat)
    decreases inst, 1, hops, s
  {
    match s
    case Ref(name) => name in defs && hops > 0 && Meets(defs[name], inst, defs, hops - 1)
    case OneOf(branches) =>
      ExactlyOne(seq(|branches|, i requires 0 <= i < |branches| => Meets(branches[i], inst, defs, hops)))
    case Typed(types, k) =>
      HasType(types, inst) && ValueKeywords(k, inst) && ObjectKeywords(k, inst, defs) && ArrayKeywords(k, inst, defs)
  }

  ghost predicate Conforms(s: Schema, inst: Json, defs: Defs)
    decreases inst, 2
  {
    Meets(s, inst, defs, |defs|)
  }

  predicate IsType(t: TypeName, inst: Json) {
    match t
    case TNull => inst.Null?
    case TObject => inst.Obj?
    case TArray => inst.Arr?
    case TString => inst.Str?
    case TInteger => inst.Int? || (inst.Num? && inst.x == inst.x.Floor as real)
    case TNumber => inst.Int? || inst.Num?
    case TBoolean => inst.Bool?
    case TOther => false
  }

  predicate HasType(types: Types, inst: Json) {
    match types
    case Untyped => true
    case One(t) => IsType(t, inst)
    case Union(ts) => exists i :: 0 <= i < |ts| && IsType(ts[i], inst)
  }

  /** enum and const hold for values of every type, the others for strings and numbers. */
  predicate ValueKeywords(k: Keywords, inst: Json) {
    && (k.enumeration.Some? ==> inst in k.enumeration.value)
    && (k.constant.Some? ==> inst == k.constant.value)
    && (inst.Str? ==> |inst.s| >= k.minLength && (k.pattern.Some? ==> k.pattern.value(inst.s)))
    && (inst.Int? && k.minimum.Some? ==> inst.n >= k.minimum.value)
    && (inst.Int? && k.maximum.Some? ==> inst.n <= k.maximum.value)
    && (inst.Num? && k.minimum.Some? ==> inst.x >= k.minimum.value as real)
    && (inst.Num? && k.maximum.Some? ==> inst.x <= k.maximum.value as real)
  }

  ghost predicate ObjectKeywords(k: Keywords, inst: Json, defs: Defs)
    decreases inst, 0
  {
    inst.Obj? ==>
      && (forall r :: r in k.required ==> HasKey(inst.fields, r))
      && (k.closed ==> forall i :: 0 <= i < |inst.fields| ==> PropertyNamed(k.properties, inst.fields[i].name).Some?)
      && (forall i :: 0 <= i < |inst.fields| ==>
            var p := PropertyNamed(k.properties, inst.fields[i].name);
            p.Some? ==> Conforms(p.value, inst.fields[i].value, defs))
  }

  ghost predicate ArrayKeywords(k: Keywords, inst: Json, defs: Defs)
    decreases inst, 0
  {
    inst.Arr? ==>
      && |inst.items| >= k.minItems
      && (k.items.Some? ==> forall i :: 0 <= i < |inst.items| ==> Conforms(k.items.value, inst.items[i], defs))
  }

  // ---- Where the two agree ----

  function TypeNames(types: Types): set<TypeName> {
    match types
    case Untyped => {}
    case One(t) => {t}
    case Union(ts) => set t | t in ts
  }

  /** Typed schemas whose value keywords sit only where the validator reads them. */
  predicate KeywordsInPlace(types: Types, k: Keywords) {
    && !types.Untyped? && TOther !in TypeNames(types)
    && (k.enumeration.Some? || k.constant.Some? ==> TypeNames(types) <= {TString})
    && k.constant != Some(Null)
    && (k.minimum.Some? || k.maximum.Some? ==> TNumber !in TypeNames(types))
  }

  /** The fragment: oneOf without references as branches, references only under properties and items. */
  predicate InFragment(s: Schema)
    decreases s, 1
  {
    match s
    case Ref(_) => false
    case OneOf(branches) => forall i :: 0 <= i < |branches| ==> InFragment(branches[i])
    case Typed(types, k) =>
      && KeywordsInPlace(types, k)
      && (forall i :: 0 <= i < |k.properties| ==> SubInFragment(k.properties[i].schema))
      && (k.items.Some? ==> SubInFragment(k.items.value))
  }

  predicate SubInFragment(s: Schema)
    decreases s, 2
  {
    s.Ref? || InFragment(s)
  }

  predicate DefsInFragment(defs: Defs) {
    forall name :: name in defs ==> InFragment(defs[name])
  }

  /** No floating-point number in the instance has an integral value. */
  predicate Plain(inst: Json) {
    match inst
    case Num(x) => x != x.Floor as real
    case Arr(items) => forall i :: 0 <= i < |items| ==> Plain(items[i])
    case Obj(fields) => forall i :: 0 <= i < |fields| ==> Plain(fields[i].value)
    case _ => true
  }

  ghost function Accepted(branches: seq<Schema>, inst: Json, defs: Defs): (r: seq<bool>)
    ensures |r| == |branches| && forall i :: 0 <= i < |r| ==> r[i] == Accepts(branches[i], inst, defs)
  {
    seq(|branches|, i requires 0 <= i < |branches| => Accepts(branches[i], inst, defs))
  }

  ghost function Conforming(branches: seq<Schema>, inst: Json, defs: Defs): (r: seq<bool>)
    ensures |r| == |branches| && forall i :: 0 <= i < |r| ==> r[i] == Conforms(branches[i], inst, defs)
  {
    seq(|branches|, i requires 0 <= i < |branches| => Conforms(branches[i], inst, defs))
  }

  lemma {:induction false} OneOfCounts(branches: seq<Schema>, inst: Json, defs: Defs)
    ensures Accepts(OneOf(branches), inst, defs) <==> CountTrue(Accepted(branches, inst, defs)) == 1
    ensures Conforms(OneOf(branches), inst, defs) <==> CountTrue(Conforming(branches, inst, defs)) == 1
  {
    var s := OneOf(branches);
    assert Accepted(branches, inst, defs) ==
           seq(|s.branches|, i requires 0 <= i < |s.branches| => Accepts(s.branches[i], inst, defs));
    assert Conforming(branches, inst, defs) ==
           seq(|s.branches|, i requires 0 <= i < |s.branches| => Meets(s.branches[i], inst, defs, |defs|));
    OneTrue(Conforming(branches, inst, defs));
  }

  /** Inside the fragment no reference is followed on one instance more than once. */
  lemma {:induction false} HopsDoNotMatter(s: Schema, inst: Json, defs: Defs, hops: nat, hops': nat)
    requires InFragment(s)
    ensures Meets(s, inst, defs, hops) == Meets(s, inst, defs, hops')
    decreases s
  {
    if s.OneOf? {
      var n := |s.branches|;
      forall i | 0 <= i < n ensures Meets(s.branches[i], inst, defs, hops) == Meets(s.branches[i], inst, defs, hops') {
        HopsDoNotMatter(s.branches[i], inst, defs, hops, hops');
      }
      assert seq(n, i requires 0 <= i < n => Meets(s.branches[i], inst, defs, hops)) ==
             seq(n, i requires 0 <= i < n => Meets(s.branches[i], inst, defs, hops'));
    }
  }

  lemma {:induction false} ReferenceConforms(name: string, inst: Json, defs: Defs)
    requires name in defs && InFragment(defs[name])
    ensures Conforms(Ref(name), inst, defs) <==> Conforms(defs[name], inst, defs)
  {
    assert name in defs.Keys && |defs.Keys| == |defs|;
    HopsDoNotMatter(defs[name], inst, defs, |defs| - 1, |defs|);
  }

  lemma {:induction false} TypedAgrees(types: Types, k: Keywords, inst: Json, defs: Defs)
    requires !types.Untyped?
    requires forall t :: t in TypeNames(types) ==>
               (AcceptsType(k, t, inst, defs) <==> IsType(t, inst) && Conforms(Typed(types, k), inst, defs))
    ensures Accepts(Typed(types, k), inst, defs) <==> Conforms(Typed(types, k), inst, defs)
  {
    if types.Union? {
      forall i | 0 <= i < |types.ts| ensures types.ts[i] in TypeNames(types) { }
    }
  }

  /** On the fragment the fallback validator accepts exactly the instances that conform. */
  lemma {:induction false} AcceptsExactlyConforming(s: Schema, inst: Json, defs: Defs)
    requires DefsInFragment(defs) && InFragment(s) && Plain(inst)
    ensures Accepts(s, inst, defs) <==> Conforms(s, inst, defs)
    decreases inst, 0, s, 1
  {
    match s
    case OneOf(branches) =>
      forall i | 0 <= i < |branches| ensures Accepts(branches[i], inst, defs) <==> Conforms(branches[i], inst, defs) {
        AcceptsExactlyConforming(branches[i], inst, defs);
      }
      assert Accepted(branches, inst, defs) == Conforming(branches, inst, defs);
      OneOfCounts(branches, inst, defs);
    case Typed(types, k) =>
      FieldsAgree(k, inst, defs);
      ItemsAgree(k, inst, defs);
      forall t | t in TypeNames(types)
        ensures AcceptsType(k, t, inst, defs) <==> IsType(t, inst) && Conforms(s, inst, defs)
      {
        TypeAgrees(types, k, t, inst, defs);
      }
      TypedAgrees(types, k, inst, defs);
  }

  lemma {:induction false} SubAgrees(s: Schema, inst: Json, defs: Defs)
    requires DefsInFragment(defs) && SubInFragment(s) && Plain(inst)
    ensures AcceptsSub(s, inst, defs) <==> Conforms(s, inst, defs)
    decreases inst, 1
  {
    if Resolve(s, defs).Some? { AcceptsExactlyConforming(Resolve(s, defs).value, inst, defs); }
    if s.Ref? && s.name in defs { ReferenceConforms(s.name, inst, defs); }
  }

  lemma {:induction false} FieldsAgree(k: Keywords, inst: Json, defs: Defs)
    requires DefsInFragment(defs) && Plain(inst)
    requires forall i :: 0 <= i < |k.properties| ==> SubInFragment(k.properties[i].schema)
    ensures inst.Obj? ==> (AcceptsType(k, TObject, inst, defs) <==> ObjectKeywords(k, inst, defs))
    decreases inst, 0, k, 0
  {
    if inst.Obj? {
      forall i | 0 <= i < |inst.fields| && PropertyNamed(k.properties, inst.fields[i].name).Some?
        ensures var p := PropertyNamed(k.properties, inst.fields[i].name).value;
                AcceptsSub(p, inst.fields[i].value, defs) <==> Conforms(p, inst.fields[i].value, defs)
      {
        SubAgrees(PropertyNamed(k.properties, inst.fields[i].name).value, inst.fields[i].value, defs);
      }
    }
  }

  lemma {:induction false} ItemsAgree(k: Keywords, inst: Json, defs: Defs)
    requires DefsInFragment(defs) && Plain(inst)
    requires k.items.Some? ==> SubInFragment(k.items.value)
    ensures inst.Arr? ==> (AcceptsType(k, TArray, inst, defs) <==> ArrayKeywords(k, inst, defs))
    decreases inst, 0, k, 0
  {
    if inst.Arr? && k.items.Some? {
      forall i | 0 <= i < |inst.items|
        ensures AcceptsSub(k.items.value, inst.items[i], defs) <==> Conforms(k.items.value, inst.items[i], defs)
      {
        SubAgrees(k.items.value, inst.items[i], defs);
      }
    }
  }

  /** The checks behind one type name are that type and every keyword. */
  lemma {:induction false} TypeAgrees(types: Types, k: Keywords, t: TypeName, inst: Json, defs: Defs)
    requires KeywordsInPlace(types, k) && t in TypeNames(types) && Plain(inst)
    requires inst.Obj? ==> (AcceptsType(k, TObject, inst, defs) <==> ObjectKeywords(k, inst, defs))
    requires inst.Arr? ==> (AcceptsType(k, TArray, inst, defs) <==> ArrayKeywords(k, inst, defs))
    ensures AcceptsType(k, t, inst, defs) <==> IsType(t, inst) && Conforms(Typed(types, k), inst, defs)
  {
    TypedConforms(types, k, inst, defs);
    if IsType(t, inst) { NameGivesType(types, t, inst); }
  }

  ghost predicate Keyworded(types: Types, k: Keywords, inst: Json, defs: Defs) {
    HasType(types, inst) && ValueKeywords(k, inst) && ObjectKeywords(k, inst, defs) && ArrayKeywords(k, inst, defs)
  }

  lemma {:induction false} TypedConforms(types: Types, k: Keywords, inst: Json, defs: Defs)
    ensures Conforms(Typed(types, k), inst, defs) <==> Keyworded(types, k, inst, defs)
  {
  }

  lemma {:induction false} NameGivesType(types: Types, t: TypeName, inst: Json)
    requires t in TypeNames(types) && IsType(t, inst)
    ensures HasType(types, inst)
  {
  }

  // ---- Where they do not ----

  /** The validator and JSON Schema agree on the fields and items of the instance. */
  ghost predicate ChildrenAgree(k: Keywords, inst: Json, defs: Defs) {
    && (inst.Obj? ==> (AcceptsType(k, TObject, inst, defs) <==> ObjectKeywords(k, inst, defs)))
    && (inst.Arr? ==> (AcceptsType(k, TArray, inst, defs) <==> ArrayKeywords(k, inst, defs)))
  }

  /** Some type name lets the instance through with no keyword read. */
  predicate WavedThrough(types: Types, inst: Json) {
    || types.Untyped? || TOther in TypeNames(types)
    || (inst.Null? && TNull in TypeNames(types))
    || (inst.Bool? && TBoolean in TypeNames(types))
    || ((inst.Int? || inst.Num?) && TNumber in TypeNames(types))
  }

  predicate Listed(k: Keywords, inst: Json) {
    (k.enumeration.Some? ==> inst in k.enumeration.value) && (k.constant.Some? ==> inst == k.constant.value)
  }

  /** Object or array keywords hold, but enum or const, which are not read there, do not. */
  ghost predicate UnlistedContainer(types: Types, k: Keywords, inst: Json, defs: Defs) {
    && !Listed(k, inst)
    && ((inst.Obj? && TObject in TypeNames(types) && ObjectKeywords(k, inst, defs)) ||
        (inst.Arr? && TArray in TypeNames(types) && ArrayKeywords(k, inst, defs)))
  }

  /** An integer is compared with its bounds but not with enum and const. */
  predicate UnlistedInteger(types: Types, k: Keywords, inst: Json) {
    inst.Int? && TInteger in TypeNames(types) && !Listed(k, inst) &&
    (k.minimum.Some? ==> inst.n >= k.minimum.value) && (k.maximum.Some? ==> inst.n <= k.maximum.value)
  }

  /** A const of null is no const for a string. */
  predicate StringBesideNull(types: Types, k: Keywords, inst: Json) {
    inst.Str? && TString in TypeNames(types) && k.constant == Some(Null) && ValueKeywords(k.(constant := None), inst)
  }

  /** A float with an integral value is an integer to JSON Schema alone. */
  predicate IntegralFloat(types: Types, k: Keywords, inst: Json) {
    inst.Num? && inst.x == inst.x.Floor as real && TInteger in TypeNames(types) && ValueKeywords(k, inst)
  }

  predicate HasName(types: Types, t: TypeName) {
    t in TypeNames(types)
  }

  lemma {:induction false} ByName(types: Types, k: Keywords, inst: Json, defs: Defs)
    ensures Accepts(Typed(types, k), inst, defs) <==>
            types.Untyped? || exists t :: HasName(types, t) && AcceptsType(k, t, inst, defs)
    ensures HasType(types, inst) <==> types.Untyped? || exists t :: HasName(types, t) && IsType(t, inst)
  {
    match types
    case Untyped =>
    case One(t) => assert HasName(types, t);
    case Union(ts) =>
      forall i | 0 <= i < |ts| ensures HasName(types, ts[i]) {}
  }

  /** The name under which the validator compares an instance with keywords. */
  function OwnName(inst: Json): (t: TypeName)
    ensures t != TOther
  {
    match inst
    case Null => TNull
    case Bool(_) => TBoolean
    case Int(_) => TInteger
    case Num(_) => TNumber
    case Str(_) => TString
    case Arr(_) => TArray
    case Obj(_) => TObject
  }

  lemma {:induction false} AcceptsByOwnName(types: Types, k: Keywords, inst: Json, defs: Defs)
    ensures Accepts(Typed(types, k), inst, defs) <==>
            WavedThrough(types, inst) ||
            (HasName(types, OwnName(inst)) && AcceptsType(k, OwnName(inst), inst, defs))
  {
    ByName(types, k, inst, defs);
    assert HasName(types, TOther) ==> AcceptsType(k, TOther, inst, defs);
    assert (inst.Int? || inst.Num?) && HasName(types, TNumber) ==> AcceptsType(k, TNumber, inst, defs);
  }

  lemma {:induction false} TypeByOwnName(types: Types, inst: Json)
    requires !WavedThrough(types, inst)
    ensures HasType(types, inst) <==>
            HasName(types, OwnName(inst)) || (inst.Num? && HasName(types, TInteger) && inst.x == inst.x.Floor as real)
  {
    if HasName(types, OwnName(inst)) { NameGivesType(types, OwnName(inst), inst); }
    if HasName(types, TInteger) && IsType(TInteger, inst) { NameGivesType(types, TInteger, inst); }
  }

  /** One level of a typed schema: accepted though not conforming, for one of four reasons. */
  lemma {:induction false} AcceptsTooMuchExactly(types: Types, k: Keywords, inst: Json, defs: Defs)
    requires ChildrenAgree(k, inst, defs)
    ensures Accepts(Typed(types, k), inst, defs) && !Conforms(Typed(types, k), inst, defs) <==>
            if WavedThrough(types, inst) then !Keyworded(types, k, inst, defs)
            else UnlistedContainer(types, k, inst, defs) || UnlistedInteger(types, k, inst) ||
                 StringBesideNull(types, k, inst)
  {
    AcceptsByOwnName(types, k, inst, defs);
    TypedConforms(types, k, inst, defs);
    if !WavedThrough(types, inst) { TypeByOwnName(types, inst); }
  }

  /** One level of a typed schema: what conforms is accepted, integral floats under integer excepted. */
  lemma {:induction false} RejectsTooMuchExactly(types: Types, k: Keywords, inst: Json, defs: Defs)
    requires ChildrenAgree(k, inst, defs)
    ensures !Accepts(Typed(types, k), inst, defs) && Conforms(Typed(types, k), inst, defs) <==>
            !WavedThrough(types, inst) && IntegralFloat(types, k, inst)
  {
    AcceptsByOwnName(types, k, inst, defs);
    TypedConforms(types, k, inst, defs);
    if !WavedThrough(types, inst) { TypeByOwnName(types, inst); }
  }

  /** Where null is allowed it is always accepted, and conforms exactly when enum and const leave it over. */
  lemma {:induction false} NullPassesExactly(types: Types, k: Keywords, defs: Defs)
    requires TNull in TypeNames(types)
    ensures Accepts(Typed(types, k), Null, defs)
    ensures Conforms(Typed(types, k), Null, defs) <==>
            (k.enumeration.Some? ==> Null in k.enumeration.value) && (k.constant.Some? ==> k.constant.value == Null)
  {
    AcceptsByOwnName(types, k, Null, defs);
    TypedConforms(types, k, Null, defs);
    NameGivesType(types, TNull, Null);
  }

  /** Where numbers are allowed they are always accepted, and conform exactly when listed and within the bounds. */
  lemma {:induction false} NumbersPassExactly(types: Types, k: Keywords, x: real, defs: Defs)
    requires TNumber in TypeNames(types)
    ensures Accepts(Typed(types, k), Num(x), defs)
    ensures Conforms(Typed(types, k), Num(x), defs) <==>
            && Listed(k, Num(x))
            && (k.minimum.Some? ==> x >= k.minimum.value as real) && (k.maximum.Some? ==> x <= k.maximum.value as real)
  {
    AcceptsByOwnName(types, k, Num(x), defs);
    TypedConforms(types, k, Num(x), defs);
    NameGivesType(types, TNumber, Num(x));
  }

  // ---- References as branches ----

  /** A reference met anywhere but under a property or items is accepted unread, whatever its definition says. */
  lemma {:induction false} BareReferencePasses(name: string, inst: Json, defs: Defs)
    ensures Accepts(Ref(name), inst, defs)
    ensures name in defs && InFragment(defs[name]) ==>
              (Conforms(Ref(name), inst, defs) <==> Conforms(defs[name], inst, defs))
    ensures name !in defs ==> !Conforms(Ref(name), inst, defs)
  {
    if name in defs && InFragment(defs[name]) { ReferenceConforms(name, inst, defs); }
  }

  lemma {:induction false} CountTrueMonotone(a: seq<bool>, b: seq<bool>)
    requires |a| == |b| && forall i :: 0 <= i < |a| ==> a[i] ==> b[i]
    ensures CountTrue(a) <= CountTrue(b)
    ensures CountTrue(a) == CountTrue(b) ==> a == b
  {
    if a != [] {
      var n := |a| - 1;
      CountTrueMonotone(a[..n], b[..n]);
      assert a == a[..n] + [a[n]] && b == b[..n] + [b[n]];
    }
  }

  /** Every branch that is no reference is judged alike. */
  ghost predicate BranchesAgree(branches: seq<Schema>, inst: Json, defs: Defs) {
    forall i :: 0 <= i < |branches| && !branches[i].Ref? ==>
      (Accepts(branches[i], inst, defs) <==> Conforms(branches[i], inst, defs))
  }

  /** Some reference among the branches leads to a definition that does not hold. */
  ghost predicate FailingReference(branches: seq<Schema>, inst: Json, defs: Defs) {
    exists i :: 0 <= i < |branches| && branches[i].Ref? && !Conforms(branches[i], inst, defs)
  }

  /**
   A reference as a branch counts as a match. So the two disagree exactly when some such reference does not hold
   and one of the two counts of matches, with or without those references, is one.
   */
  lemma {:induction false} BranchReferencesExactly(branches: seq<Schema>, inst: Json, defs: Defs)
    requires BranchesAgree(branches, inst, defs)
    ensures (Accepts(OneOf(branches), inst, defs) != Conforms(OneOf(branches), inst, defs)) <==>
            FailingReference(branches, inst, defs) &&
            (CountTrue(Accepted(branches, inst, defs)) == 1 || CountTrue(Conforming(branches, inst, defs)) == 1)
  {
    var a, c := Accepted(branches, inst, defs), Conforming(branches, inst, defs);
    OneOfCounts(branches, inst, defs);
    CountTrueMonotone(c, a);
    if CountTrue(a) == CountTrue(c) {
      assert forall i :: 0 <= i < |branches| ==> c[i] == a[i];
    } else if !FailingReference(branches, inst, defs) {
      assert c == a;
    }
  }
}
