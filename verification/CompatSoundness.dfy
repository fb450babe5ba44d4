/** What "no breaks" means for clients: every request an old surface allows is still valid, every answer of the new
    surface is still readable, through nested and cyclic models, under side conditions stated as predicates. */
module CompatSoundness {
  import opened Wrappers
  import opened CompatModel
  import opened CompatCheck
  import opened CompatContexts
  import opened Worklist
  import opened CompatSurface

  // ---- simulation --------------------------------------------------------------------------------------------
  // `from` simulates into `to`: values of `from` are values of `to`. Requests go from base to current, responses
  // from current to base. `ok` holds the model names the two surfaces are known to agree on.

  ghost predicate EnumRefines(from: set<string>, to: set<string>) {
    to != {} ==> from != {} && from <= to
  }

  ghost predicate FlatRefines(from: Field, to: Field, side: Side, ok: iset<string>) {
    && (to.required ==> from.required)
    && from.types <= to.types
    && from.items == to.items && from.model == to.model && (to.model != "" ==> to.model in ok)
    && (side.Request? ==> EnumRefines(from.enum, to.enum) && EnumRefines(from.itemEnum, to.itemEnum))
  }

  ghost predicate Refines(from: Field, to: Field, side: Side, ok: iset<string>)
    decreases from, 1
  {
    && FlatRefines(from, to, side, ok)
    && (to.fields != NO_FIELDS ==> from.fields != NO_FIELDS && RecordRefines(from.fields, to.fields, side, ok))
    && NestedRefines(from.values, to.values, side, ok)
    && NestedRefines(from.element, to.element, side, ok)
    && (to.oneOf != [] ==> from.oneOf != [])
    && (forall i :: 0 <= i < |from.oneOf| && to.oneOf != [] ==> AlternativeRefines(from, i, to, side, ok))
  }

  ghost predicate NestedRefines(from: Option<Field>, to: Option<Field>, side: Side, ok: iset<string>)
    decreases from, 0
  {
    to.Some? ==> from.Some? && Refines(from.value, to.value, side, ok)
  }

  ghost predicate AlternativeRefines(from: Field, i: nat, to: Field, side: Side, ok: iset<string>)
    requires i < |from.oneOf|
    decreases from, 0
  {
    exists j :: 0 <= j < |to.oneOf| && Refines(from.oneOf[i], to.oneOf[j], side, ok)
  }

  ghost predicate RecordRefines(from: Fields, to: Fields, side: Side, ok: iset<string>)
    decreases from, 0
  {
    && (forall n :: n in to.byName ==>
          if n in from.byName then Refines(from.byName[n], to.byName[n], side, ok)
          else side.Request? && !to.byName[n].required)
    && (side.Request? ==> from.byName.Keys <= to.byName.Keys)
  }

  ghost predicate ModelsRefine(mf: Models, mt: Models, side: Side, ok: iset<string>) {
    forall m :: m in ok ==> RecordRefines(Declared(mf, m), Declared(mt, m), side, ok)
  }

  lemma {:induction false} ValueRefines(
    v: Json, from: Field, to: Field, mf: Models, mt: Models, side: Side, ok: iset<string>)
    requires Refines(from, to, side, ok) && ModelsRefine(mf, mt, side, ok)
    requires Conforms(v, from, mf, side)
    ensures Conforms(v, to, mt, side)
    decreases v, 3, from
  {
    if v.Obj? {
      ShapeRefines(v, from, to, mf, mt, side, ok);
      if to.values.Some? {
        forall k | k in v.members ensures Conforms(v.members[k], to.values.value, mt, side) {
          ValueRefines(v.members[k], from.values.value, to.values.value, mf, mt, side, ok);
        }
      }
    }
    if v.Arr? {
      forall i | 0 <= i < |v.elems| ensures ElementConforms(v.elems[i], to, mt, side) {
        ElementRefines(v.elems[i], from, to, mf, mt, side, ok);
      }
    }
    if to.oneOf != [] {
      var i :| 0 <= i < |from.oneOf| && Conforms(v, from.oneOf[i], mf, side);
      assert AlternativeRefines(from, i, to, side, ok);
      var j :| 0 <= j < |to.oneOf| && Refines(from.oneOf[i], to.oneOf[j], side, ok);
      ValueRefines(v, from.oneOf[i], to.oneOf[j], mf, mt, side, ok);
    }
  }

  lemma {:induction false} ElementRefines(
    e: Json, from: Field, to: Field, mf: Models, mt: Models, side: Side, ok: iset<string>)
    requires Refines(from, to, side, ok) && ModelsRefine(mf, mt, side, ok)
    requires ElementConforms(e, from, mf, side)
    ensures ElementConforms(e, to, mt, side)
    decreases e, 4, from
  {
    if e.Obj? {
      ShapeRefines(e, from, to, mf, mt, side, ok);
    }
    if to.element.Some? {
      ValueRefines(e, from.element.value, to.element.value, mf, mt, side, ok);
    }
  }

  lemma {:induction false} ShapeRefines(
    o: Json, from: Field, to: Field, mf: Models, mt: Models, side: Side, ok: iset<string>)
    requires o.Obj? && Refines(from, to, side, ok) && ModelsRefine(mf, mt, side, ok)
    requires Shaped(o, from, mf, side)
    ensures Shaped(o, to, mt, side)
    decreases o, 2, from
  {
    if to.fields != NO_FIELDS {
      RecordOfRefines(o, from.fields, to.fields, mf, mt, side, ok);
    }
    if to.model != "" {
      RecordOfRefines(o, Declared(mf, to.model), Declared(mt, to.model), mf, mt, side, ok);
    }
  }

  lemma {:induction false} RecordOfRefines(
    o: Json, from: Fields, to: Fields, mf: Models, mt: Models, side: Side, ok: iset<string>)
    requires o.Obj? && RecordRefines(from, to, side, ok) && ModelsRefine(mf, mt, side, ok)
    requires IsRecord(o, from, mf, side)
    ensures IsRecord(o, to, mt, side)
    decreases o, 1, from
  {
    forall n | n in to.byName
      ensures if n in o.members then Conforms(o.members[n], to.byName[n], mt, side) else !to.byName[n].required
    {
      if n in o.members && n in from.byName {
        ValueRefines(o.members[n], from.byName[n], to.byName[n], mf, mt, side, ok);
      }
    }
  }

  // ---- side conditions ---------------------------------------------------------------------------------------

  /** No two alternatives of a union share a signature (the comparison keeps one per signature). */
  predicate DistinctSignatures(alts: seq<Field>) {
    forall i, j :: 0 <= i < j < |alts| ==> SignatureOf(alts[i]) != SignatureOf(alts[j])
  }

  /** A field keeps its kind: what lists members or alternatives afterwards did so before. */
  ghost predicate KindKept(from: Field, to: Field, side: Side)
    decreases from, 0
  {
    && (side.Request? && to.fields != NO_FIELDS ==> from.fields != NO_FIELDS)
    && (to.oneOf != [] ==> from.oneOf != [])
    && DistinctSignatures(from.oneOf)
    && KindsKept(from.fields, to.fields, side)
    && (from.values.Some? && to.values.Some? ==> KindKept(from.values.value, to.values.value, side))
    && (from.element.Some? && to.element.Some? ==> KindKept(from.element.value, to.element.value, side))
    && (forall i, j :: 0 <= i < |from.oneOf| && 0 <= j < |to.oneOf| ==>
      SignatureOf(from.oneOf[i]) == SignatureOf(to.oneOf[j]) ==> KindKept(from.oneOf[i], to.oneOf[j], side))
  }

  ghost predicate KindsKept(from: Fields, to: Fields, side: Side)
    decreases from, 0
  {
    forall n :: n in from.byName && n in to.byName ==> KindKept(from.byName[n], to.byName[n], side)
  }

  ghost predicate VariantKept(b: Variant, c: Variant, side: Side) {
    KindsKept(Source(SideOf(b, side), SideOf(c, side), side), Target(SideOf(b, side), SideOf(c, side), side), side)
  }

  ghost predicate CommandKept(b: Command, c: Command, side: Side) {
    && (if side.Request? then KindsKept(b.payload, c.payload, side) else KindsKept(c.response, b.response, side))
    && forall mode :: mode in b.variants && mode in c.variants ==> VariantKept(b.variants[mode], c.variants[mode], side)
  }

  ghost predicate EnvelopeKept(b: Surface, c: Surface, side: Side) {
    if side.Request? then KindsKept(b.request, c.request, side)
    else KindsKept(c.response, b.response, side) && KindsKept(c.errorFrame, b.errorFrame, side)
  }

  /** What one side reads keeps its kind: commands, the envelope, and the models the base reaches on that side. */
  ghost predicate SurfaceKept(b: Surface, c: Surface, side: Side) {
    && (forall n :: n in b.commands && n in c.commands ==> CommandKept(b.commands[n], c.commands[n], side))
    && (forall m :: Reachable(b, side, m) && m in b.models && m in c.models ==>
          KindsKept(Source(b.models[m], c.models[m], side), Target(b.models[m], c.models[m], side), side))
    && EnvelopeKept(b, c, side)
  }

  /** Every model that requests of a surface reach is declared. */
  ghost predicate Closed(s: Surface) {
    forall m :: Reachable(s, Request, m) ==> m in s.models
  }

  /** No command without input starts to need the token. */
  ghost predicate TokensKept(b: Surface, c: Surface) {
    forall n :: n in b.commands && n in c.commands ==>
      !(b.commands[n].input == "none" && c.commands[n].input == "token")
  }

  ghost function Source<T>(b: T, c: T, side: Side): T { if side.Request? then b else c }
  ghost function Target<T>(b: T, c: T, side: Side): T { if side.Request? then c else b }

  // ---- compatible means simulated ----------------------------------------------------------------------------

  // `rb` holds the models the base reads on this side, `rc` those the current surface refers to.

  lemma {:induction false} FieldSimulates(b: Field, c: Field, side: Side, rb: iset<string>, rc: iset<string>)
    requires FieldCompatible(b, c, side) && KindKept(Source(b, c, side), Target(b, c, side), side)
    requires forall m :: m in ModelsOf(b) ==> m in rb
    requires forall m :: m in ModelsOf(c) ==> m in rc
    ensures Refines(Source(b, c, side), Target(b, c, side), side, rb * rc)
    decreases b, 0
  {
    var from, to := Source(b, c, side), Target(b, c, side);
    assert FlatRefines(from, to, side, rb * rc) by {
      assert b.model != "" ==> b.model in ModelsOf(b) && c.model in ModelsOf(c);
    }
    FieldsSimulate(b.fields, c.fields, side, rb, rc);
    FieldsKeepKind(b, c, side);
    NestedSimulates(b.values, c.values, side, rb, rc);
    NestedSimulates(b.element, c.element, side, rb, rc);
    AlternativesSimulate(b, c, side, rb, rc);
  }

  lemma {:induction false} NestedSimulates(
    b: Option<Field>, c: Option<Field>, side: Side, rb: iset<string>, rc: iset<string>)
    requires NestedCompatible(b, c, side)
    requires b.Some? && c.Some? ==> KindKept(Source(b, c, side).value, Target(b, c, side).value, side)
    requires forall m :: m in ModelsOfNested(b) ==> m in rb
    requires forall m :: m in ModelsOfNested(c) ==> m in rc
    ensures NestedRefines(Source(b, c, side), Target(b, c, side), side, rb * rc)
    decreases b, 0
  {
    if b.Some? && c.Some? {
      FieldSimulates(b.value, c.value, side, rb, rc);
    }
  }

  /** The member list itself: on the response side the comparison already keeps its kind. */
  lemma FieldsKeepKind(b: Field, c: Field, side: Side)
    requires FieldCompatible(b, c, side) && KindKept(Source(b, c, side), Target(b, c, side), side)
    ensures Target(b, c, side).fields != NO_FIELDS ==> Source(b, c, side).fields != NO_FIELDS
  {
    if side.Response? && b.fields != NO_FIELDS {
      assert b.fields.byName != map[];
      var n :| n in b.fields.byName;
      assert MemberCompatible(b.fields, c.fields, n, side);
    }
  }

  lemma {:induction false} FieldsSimulate(bs: Fields, cs: Fields, side: Side, rb: iset<string>, rc: iset<string>)
    requires FieldsCompatible(bs, cs, side) && KindsKept(Source(bs, cs, side), Target(bs, cs, side), side)
    requires forall m :: m in ModelsIn(bs) ==> m in rb
    requires forall m :: m in ModelsIn(cs) ==> m in rc
    ensures RecordRefines(Source(bs, cs, side), Target(bs, cs, side), side, rb * rc)
    decreases bs, 0
  {
    forall n | n in bs.byName
      ensures n in cs.byName
      ensures Refines(Source(bs.byName[n], cs.byName[n], side), Target(bs.byName[n], cs.byName[n], side), side, rb * rc)
    {
      assert MemberCompatible(bs, cs, n, side);
      forall m | m in ModelsOf(bs.byName[n]) ensures m in ModelsIn(bs) {}
      forall m | m in ModelsOf(cs.byName[n]) ensures m in ModelsIn(cs) {}
      FieldSimulates(bs.byName[n], cs.byName[n], side, rb, rc);
    }
  }

  lemma ModelsOfAlternative(alts: seq<Field>, i: nat)
    requires i < |alts|
    ensures ModelsOf(alts[i]) <= ModelsOfAll(alts)
  {
    if i < |alts| - 1 {
      ModelsOfAlternative(alts[..|alts| - 1], i);
    }
  }

  lemma OneBySignature(alts: seq<Field>, i: nat)
    requires DistinctSignatures(alts) && i < |alts|
    ensures BySignature(alts)[SignatureOf(alts[i])] == alts[i]
  {
    var g := SignatureOf(alts[i]);
    assert alts[i] in alts && g in BySignature(alts);
  }

  lemma {:induction false} AlternativesSimulate(b: Field, c: Field, side: Side, rb: iset<string>, rc: iset<string>)
    requires FieldCompatible(b, c, side) && KindKept(Source(b, c, side), Target(b, c, side), side)
    requires forall m :: m in ModelsOf(b) ==> m in rb
    requires forall m :: m in ModelsOf(c) ==> m in rc
    ensures forall i :: 0 <= i < |Source(b, c, side).oneOf| ==>
              AlternativeRefines(Source(b, c, side), i, Target(b, c, side), side, rb * rc)
    decreases b, -1
  {
    var from, to := Source(b, c, side), Target(b, c, side);
    forall i | 0 <= i < |from.oneOf|
      ensures AlternativeRefines(from, i, to, side, rb * rc)
    {
      var g := SignatureOf(from.oneOf[i]);
      OneBySignature(from.oneOf, i);
      assert from.oneOf[i] in from.oneOf && g in BySignature(from.oneOf);
      assert g in BySignature(b.oneOf) && AlternativeCompatible(b, c, g, side);
      var fb, fc := BySignature(b.oneOf)[g], BySignature(c.oneOf)[g];
      var ib: nat :| ib < |b.oneOf| && fb == b.oneOf[ib];
      var ic: nat :| ic < |c.oneOf| && fc == c.oneOf[ic];
      ModelsOfAlternative(b.oneOf, ib);
      ModelsOfAlternative(c.oneOf, ic);
      var j := if side.Request? then ic else ib;
      assert KindKept(from.oneOf[i], to.oneOf[j], side);
      FieldSimulates(fb, fc, side, rb, rc);
    }
  }
}
