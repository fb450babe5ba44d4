/** Where the comparison stops: an unchanged surface never breaks, the check is not transitive, and the exact changes
    it lets through although they turn away values (each a side condition of the soundness theorems). */
module CompatLimits {
  import opened Wrappers
  import opened CompatModel
  import opened CompatCheck
  import opened CompatContexts
  import opened CompatSurface

  // ---- nothing changed ---------------------------------------------------------------------------------------

  lemma {:induction false} FieldUnchanged(f: Field, side: Side)
    ensures FieldCompatible(f, f, side)
    decreases f, 0
  {
    FieldsUnchanged(f.fields, side);
    if f.values.Some? { FieldUnchanged(f.values.value, side); }
    if f.element.Some? { FieldUnchanged(f.element.value, side); }
    forall g | g in BySignature(f.oneOf) ensures AlternativeCompatible(f, f, g, side) {
      FieldUnchanged(BySignature(f.oneOf)[g], side);
    }
  }

  lemma {:induction false} FieldsUnchanged(fs: Fields, side: Side)
    ensures FieldsCompatible(fs, fs, side)
    decreases fs, 0
  {
    forall n | n in fs.byName ensures MemberCompatible(fs, fs, n, side) {
      FieldUnchanged(fs.byName[n], side);
    }
  }

  /** A surface is compatible with itself, dangling names, shadowed alternatives and cycles included. */
  lemma SurfaceUnchanged(s: Surface)
    ensures SurfaceCompatible(s, s)
  {
    forall fs, side ensures FieldsCompatible(fs, fs, side) { FieldsUnchanged(fs, side); }
  }

  // ---- two steps ---------------------------------------------------------------------------------------------

  /** An enumeration that was lifted is not redrawn without a value it had. */
  predicate NotRedrawn(a: set<string>, b: set<string>, c: set<string>) {
    a != {} && b == {} && c != {} ==> a <= c
  }

  /** No enumeration at any depth was lifted and redrawn without a value it had. */
  ghost predicate EnumsLast(a: Field, b: Field, c: Field)
    decreases a, 1
  {
    && NotRedrawn(a.enum, b.enum, c.enum) && NotRedrawn(a.itemEnum, b.itemEnum, c.itemEnum)
    && MembersLast(a.fields, b.fields, c.fields)
    && NestedLast(a.values, b.values, c.values) && NestedLast(a.element, b.element, c.element)
    && forall g :: g in BySignature(a.oneOf) ==> AlternativeLasts(a, b, c, g)
  }

  ghost predicate AlternativeLasts(a: Field, b: Field, c: Field, g: Signature)
    requires g in BySignature(a.oneOf)
    decreases a, 0
  {
    g in BySignature(b.oneOf) && g in BySignature(c.oneOf) ==>
      EnumsLast(BySignature(a.oneOf)[g], BySignature(b.oneOf)[g], BySignature(c.oneOf)[g])
  }

  ghost predicate NestedLast(a: Option<Field>, b: Option<Field>, c: Option<Field>)
    decreases a, 0
  {
    a.Some? && b.Some? && c.Some? ==> EnumsLast(a.value, b.value, c.value)
  }

  ghost predicate MembersLast(a: Fields, b: Fields, c: Fields)
    decreases a, 0
  {
    forall n :: n in a.byName && n in b.byName && n in c.byName ==> EnumsLast(a.byName[n], b.byName[n], c.byName[n])
  }

  /** Two accepted steps make an accepted step on requests. On responses they do so exactly when no enumeration was
      lifted by the first and redrawn by the second without a value it had. */
  lemma {:induction false} StepsCompose(a: Field, b: Field, c: Field, side: Side)
    requires FieldCompatible(a, b, side) && FieldCompatible(b, c, side)
    ensures FieldCompatible(a, c, side) <==> side.Request? || EnumsLast(a, b, c)
    decreases a, 1
  {
    MembersCompose(a.fields, b.fields, c.fields, side);
    NestedComposes(a.values, b.values, c.values, side);
    NestedComposes(a.element, b.element, c.element, side);
    FlatComposes(a, b, c, side);
    forall g | g in BySignature(a.oneOf)
      ensures AlternativeCompatible(a, c, g, side) <==> side.Request? || AlternativeLasts(a, b, c, g)
    {
      AlternativeComposes(a, b, c, g, side);
    }
  }

  lemma FlatComposes(a: Field, b: Field, c: Field, side: Side)
    requires FlatCompatible(a, b, side) && FlatCompatible(b, c, side)
    ensures FlatCompatible(a, c, side) <==>
      side.Request? || (NotRedrawn(a.enum, b.enum, c.enum) && NotRedrawn(a.itemEnum, b.itemEnum, c.itemEnum))
  {
  }

  lemma {:induction false} NestedComposes(a: Option<Field>, b: Option<Field>, c: Option<Field>, side: Side)
    requires NestedCompatible(a, b, side) && NestedCompatible(b, c, side)
    ensures NestedCompatible(a, c, side) <==> side.Request? || NestedLast(a, b, c)
    decreases a, 0
  {
    if a.Some? { StepsCompose(a.value, b.value, c.value, side); }
  }

  lemma {:induction false} AlternativeComposes(a: Field, b: Field, c: Field, g: Signature, side: Side)
    requires AlternativesCompatible(a, b, side) && AlternativesCompatible(b, c, side) && g in BySignature(a.oneOf)
    ensures AlternativeCompatible(a, c, g, side) <==> side.Request? || AlternativeLasts(a, b, c, g)
    decreases a, 0
  {
    var x, y, z := BySignature(a.oneOf), BySignature(b.oneOf), BySignature(c.oneOf);
    assert AlternativeCompatible(a, b, g, side);
    if g in y {
      assert AlternativeCompatible(b, c, g, side);
      if g in z { StepsCompose(x[g], y[g], z[g], side); }
    }
  }

  lemma StaysOptional(b: Field, c: Field)
    requires FieldCompatible(b, c, Request) && !b.required
    ensures !c.required
  {
  }

  lemma {:induction false} MembersCompose(a: Fields, b: Fields, c: Fields, side: Side)
    requires FieldsCompatible(a, b, side) && FieldsCompatible(b, c, side)
    ensures FieldsCompatible(a, c, side) <==> side.Request? || MembersLast(a, b, c)
    decreases a, 0
  {
    forall n | n in a.byName
      ensures n in b.byName && n in c.byName
      ensures MemberCompatible(a, c, n, side) <==> side.Request? || EnumsLast(a.byName[n], b.byName[n], c.byName[n])
    {
      assert MemberCompatible(a, b, n, side) && MemberCompatible(b, c, n, side);
      StepsCompose(a.byName[n], b.byName[n], c.byName[n], side);
    }
    forall n | side.Request? && n in c.byName && n !in a.byName ensures !c.byName[n].required {
      if n in b.byName {
        assert MemberCompatible(b, c, n, side);
        StaysOptional(b.byName[n], c.byName[n]);
      }
    }
  }

  /** So the check is not transitive: a response enumeration may be lifted and then redrawn. */
  lemma NotTransitive()
    ensures exists a, b, c ::
      FieldCompatible(a, b, Response) && FieldCompatible(b, c, Response) && !FieldCompatible(a, c, Response)
  {
    var b := Plain({"string"}, true);
    var a, c := b.(enum := {"old"}), b.(enum := {"new"});
    assert "old" in a.enum && "old" !in c.enum;
    assert FieldCompatible(a, b, Response) && FieldCompatible(b, c, Response);
    assert !EnumCompatible(a.enum, c.enum, Response);
    assert !FieldCompatible(a, c, Response);
  }

  // ---- a member list or a union appears ----------------------------------------------------------------------

  /** A field that says nothing beyond its JSON types. */
  function Plain(types: set<string>, required: bool): Field {
    Field(types, required, {}, {}, "", "", NO_FIELDS, None, None, [])
  }

  lemma FreshName(names: set<string>) returns (n: string)
    ensures forall x :: x in names ==> |x| < |n|
  {
    if names == {} {
      n := "";
    } else {
      var x :| x in names;
      n := FreshName(names - {x});
      n := n + x + "+";
    }
  }

  /** Every value of one field is a value of the other. */
  ghost predicate Includes(from: Field, to: Field, mf: Models, mt: Models, side: Side) {
    forall v :: Conforms(v, from, mf, side) ==> Conforms(v, to, mt, side)
  }

  lemma Excludes(v: Json, from: Field, to: Field, mf: Models, mt: Models, side: Side)
    requires Conforms(v, from, mf, side) && !Conforms(v, to, mt, side)
    ensures !Includes(from, to, mf, mt, side)
  {
  }

  /** Giving a plain request field a list of members passes the comparison exactly when all are optional. */
  lemma MemberListPasses(b: Field, fields: Fields)
    requires b == Plain(b.types, b.required)
    ensures FieldCompatible(b, b.(fields := fields), Request) <==>
      forall n :: n in fields.byName ==> !fields.byName[n].required
  {
    assert FieldsCompatible(b.fields, fields, Request) <==>
      forall n :: n in fields.byName ==> !fields.byName[n].required;
  }

  /** A change of a plain request field that passes, such as a list of optional members, keeps every request valid
      exactly when there is no list, or the field never was an object or an array. */
  lemma MemberListExact(b: Field, c: Field, mb: Models, mc: Models)
    requires b == Plain(b.types, b.required) && c.oneOf == []
    requires FieldCompatible(b, c, Request)
    ensures Includes(b, c, mb, mc, Request) <==> c.fields == NO_FIELDS || ("object" !in b.types && "array" !in b.types)
  {
    if c.fields != NO_FIELDS && ("object" in b.types || "array" in b.types) {
      var n := FreshName(c.fields.byName.Keys);
      var o := Obj(map[n := Null]);
      UndeclaredMember(o, n, c, mc);
      var v := if "object" in b.types then o else Arr([o]);
      assert HasType(v, if "object" in b.types then "object" else "array");
      assert ElementConforms(o, b, mb, Request) && Conforms(v, b, mb, Request);
      assert v.Arr? ==> !ElementConforms(v.elems[0], c, mc, Request);
      Excludes(v, b, c, mb, mc, Request);
    } else {
      forall v | Conforms(v, b, mb, Request) ensures Conforms(v, c, mc, Request) {
        var t :| t in b.types && HasType(v, t);
        assert t in c.types;
      }
    }
  }

  lemma UndeclaredMember(o: Json, n: string, c: Field, mc: Models)
    requires o.Obj? && n in o.members && c.fields != NO_FIELDS && n !in c.fields.byName
    ensures !Conforms(o, c, mc, Request) && !ElementConforms(o, c, mc, Request)
  {
    assert n in o.members.Keys && n !in c.fields.byName.Keys;
    assert !IsRecord(o, c.fields, mc, Request);
    assert Conforms(o, c, mc, Request) ==> Shaped(o, c, mc, Request);
  }

  const JSON_TYPES := {"null", "boolean", "integer", "number", "string", "array", "object"}

  function Sample(t: string): Json {
    if t == "null" then Null
    else if t == "boolean" then Bool(false)
    else if t == "integer" then Integer(0)
    else if t == "number" then Decimal(0.5)
    else if t == "string" then Str("")
    else if t == "array" then Arr([])
    else Obj(map[])
  }

  /** Some alternative takes every value of a JSON type. */
  ghost predicate Covered(t: string, alts: seq<Field>) {
    exists i :: 0 <= i < |alts| && (t in alts[i].types || (t == "integer" && "number" in alts[i].types))
  }

  ghost predicate AllCovered(types: set<string>, alts: seq<Field>) {
    forall t :: t in types && t in JSON_TYPES ==> Covered(t, alts)
  }

  ghost predicate PlainUnion(f: Field) {
    && f.items == "" && f.model == "" && f.fields == NO_FIELDS && f.values.None? && f.element.None?
    && forall i :: 0 <= i < |f.oneOf| ==> f.oneOf[i] == Plain(f.oneOf[i].types, f.oneOf[i].required)
  }

  /** Splitting a plain field into a union on the accepting side (a request's current field, a response's base field)
      passes the comparison, whatever the alternatives. */
  lemma UnionPasses(f: Field, alts: seq<Field>)
    requires f == Plain(f.types, f.required)
    ensures FieldCompatible(f, f.(oneOf := alts), Request) && FieldCompatible(f.(oneOf := alts), f, Response)
  {
    var union := f.(oneOf := alts);
    assert forall g :: g in BySignature(alts) ==> AlternativeCompatible(union, f, g, Response);
  }

  /** Such a split keeps every value exactly when the alternatives, plain ones, cover it. */
  lemma UnionExact(b: Field, c: Field, side: Side, from: Field, to: Field, mf: Models, mt: Models)
    requires FieldCompatible(b, c, side)
    requires from == (if side.Request? then b else c) && to == (if side.Request? then c else b)
    requires from == Plain(from.types, from.required) && PlainUnion(to)
    ensures Includes(from, to, mf, mt, side) <==> to.oneOf == [] || AllCovered(from.types, to.oneOf)
  {
    if to.oneOf == [] || AllCovered(from.types, to.oneOf) {
      forall v | Conforms(v, from, mf, side) ensures Conforms(v, to, mt, side) {
        PlainFits(v, from, to, mf, mt, side);
      }
    } else {
      var t :| t in from.types && t in JSON_TYPES && !Covered(t, to.oneOf);
      UncoveredSample(t, from, to, mf, mt, side);
      Excludes(Sample(t), from, to, mf, mt, side);
    }
  }

  lemma UncoveredSample(t: string, from: Field, to: Field, mf: Models, mt: Models, side: Side)
    requires from == Plain(from.types, from.required) && PlainUnion(to) && to.oneOf != []
    requires t in from.types && t in JSON_TYPES && !Covered(t, to.oneOf)
    ensures Conforms(Sample(t), from, mf, side) && !Conforms(Sample(t), to, mt, side)
  {
    var v := Sample(t);
    assert HasType(v, t);
    forall i | 0 <= i < |to.oneOf| ensures !Conforms(v, to.oneOf[i], mt, side) {
      assert forall u :: HasType(v, u) ==> u == t || (t == "integer" && u == "number");
    }
  }

  lemma PlainFits(v: Json, from: Field, to: Field, mf: Models, mt: Models, side: Side)
    requires from == Plain(from.types, from.required) && PlainUnion(to) && from.types <= to.types
    requires side.Request? ==> to.enum == {} && to.itemEnum == {}
    requires to.oneOf == [] || AllCovered(from.types, to.oneOf)
    requires Conforms(v, from, mf, side)
    ensures Conforms(v, to, mt, side)
  {
    var t :| t in from.types && HasType(v, t);
    assert t in to.types && t in JSON_TYPES;
    if to.oneOf != [] {
      assert Covered(t, to.oneOf);
      var i :| 0 <= i < |to.oneOf| && (t in to.oneOf[i].types || (t == "integer" && "number" in to.oneOf[i].types));
      assert HasType(v, if t in to.oneOf[i].types then t else "number");
      assert Conforms(v, to.oneOf[i], mt, side);
    }
  }

  // ---- what the comparison cannot see ------------------------------------------------------------------------

  const A_STRING := Plain({"string"}, true)

  function Holding(n: string): Field {
    Plain({"object"}, true).(fields := Fields(map[n := A_STRING]))
  }

  /** Alternatives that share a signature hide each other: one can go unnoticed. */
  lemma SharedSignatureLimit(models: Models)
    ensures var b := Plain({"object"}, true).(oneOf := [Holding("x"), Holding("y")]);
            var c := Plain({"object"}, true).(oneOf := [Holding("y")]);
            var v := Obj(map["x" := Str("")]);
            FieldCompatible(b, c, Request) && Conforms(v, b, models, Request) && !Conforms(v, c, models, Request)
  {
    var x, y := Holding("x"), Holding("y");
    var b, c := Plain({"object"}, true).(oneOf := [x, y]), Plain({"object"}, true).(oneOf := [y]);
    SharedSignaturePasses(x, y, b, c);
    var v := Obj(map["x" := Str("")]);
    HoldingTakes("x", "x", models);
    HoldingTakes("y", "x", models);
    assert HasType(v, "object") && Conforms(v, b.oneOf[0], models, Request);
    assert !Conforms(v, c.oneOf[0], models, Request);
  }

  lemma SharedSignaturePasses(x: Field, y: Field, b: Field, c: Field)
    requires x == Holding("x") && y == Holding("y")
    requires b == Plain({"object"}, true).(oneOf := [x, y]) && c == Plain({"object"}, true).(oneOf := [y])
    ensures FieldCompatible(b, c, Request)
  {
    assert [x, y][..1] == [x] && [x][..0] == [] && [y][..0] == [];
    assert BySignature(b.oneOf) == BySignature([x])[SignatureOf(y) := y] == map[SignatureOf(y) := y];
    assert BySignature(c.oneOf) == map[SignatureOf(y) := y];
    FieldUnchanged(y, Request);
    assert AlternativeCompatible(b, c, SignatureOf(y), Request);
  }

  lemma HoldingTakes(n: string, k: string, models: Models)
    ensures Conforms(Obj(map[k := Str("")]), Holding(n), models, Request) <==> n == k
  {
    var v := Obj(map[k := Str("")]);
    assert HasType(v, "object") && HasType(v.members[k], "string");
    assert Conforms(v.members[k], A_STRING, models, Request);
    assert n in Holding(n).fields.byName;
    assert IsRecord(v, Holding(n).fields, models, Request) <==> n == k;
    assert Shaped(v, Holding(n), models, Request) <==> n == k;
  }

  /** A surface with one command and one envelope member. */
  function Small(c: Command, models: Models, frame: Fields): Surface {
    Surface(map["c" := c], models, frame, NO_FIELDS, NO_FIELDS, {}, {})
  }

  /** A base that names a model it does not declare may see it declared with required members. */
  lemma UndeclaredModelLimit()
    ensures var frame := Fields(map["p" := Plain({"object"}, false).(model := "M")]);
            var c := Command("payload", NO_FIELDS, NO_FIELDS, "", map[]);
            var base, cur := Small(c, map[], frame), Small(c, map["M" := Fields(map["x" := A_STRING])], frame);
            var m := Message("c", None, Obj(map["p" := Obj(map[])]), Obj(map[]));
            SurfaceCompatible(base, cur) && RequestValid(m, base) && !RequestValid(m, cur)
  {
    var p := Plain({"object"}, false).(model := "M");
    var frame := Fields(map["p" := p]);
    var c := Command("payload", NO_FIELDS, NO_FIELDS, "", map[]);
    var base, cur := Small(c, map[], frame), Small(c, map["M" := Fields(map["x" := A_STRING])], frame);
    var o := Obj(map[]);
    FieldsUnchanged(frame, Request);
    FieldsUnchanged(NO_FIELDS, Request);
    FieldsUnchanged(NO_FIELDS, Response);
    assert NamedCommandCompatible(base, cur, "c");
    assert HasType(o, "object") && Conforms(o, p, base.models, Request);
    assert "x" in Declared(cur.models, "M").byName && !IsRecord(o, Declared(cur.models, "M"), cur.models, Request);
    assert !Conforms(o, p, cur.models, Request);
    assert IsRecord(Obj(map["p" := o]), frame, base.models, Request);
    assert "p" in frame.byName && !IsRecord(Obj(map["p" := o]), frame, cur.models, Request);
  }

  /** A command without input may start to read the envelope token. */
  lemma TokenInputLimit()
    ensures var base := Small(Command("none", NO_FIELDS, NO_FIELDS, "", map[]), map[], NO_FIELDS);
            var cur := Small(Command("token", NO_FIELDS, NO_FIELDS, "", map[]), map[], NO_FIELDS);
            var m := Message("c", None, Obj(map[]), Obj(map[]));
            SurfaceCompatible(base, cur) && RequestValid(m, base) && !RequestValid(m, cur)
  {
    var base := Small(Command("none", NO_FIELDS, NO_FIELDS, "", map[]), map[], NO_FIELDS);
    var cur := Small(Command("token", NO_FIELDS, NO_FIELDS, "", map[]), map[], NO_FIELDS);
    FieldsUnchanged(NO_FIELDS, Request);
    FieldsUnchanged(NO_FIELDS, Response);
    assert NamedCommandCompatible(base, cur, "c");
  }
}
