/** The comparison: what counts as a break (as predicates), and the recursive walk that records breaks in a `Diff`. */
module CompatCheck {
  import opened Wrappers
  import opened CompatModel

  // ---- what breaks -------------------------------------------------------------------------------------------

  datatype Signature = Signature(types: set<string>, model: string, items: string)

  function SignatureOf(f: Field): Signature {
    Signature(f.types, f.model, f.items)
  }

  /** Alternatives by signature; of several with one signature, the last. */
  function BySignature(alts: seq<Field>): (r: map<Signature, Field>)
    ensures forall a :: a in alts ==> SignatureOf(a) in r
    ensures forall g :: g in r ==> r[g] in alts && SignatureOf(r[g]) == g
  {
    if alts == [] then map[]
    else
      var last := alts[|alts| - 1];
      BySignature(alts[..|alts| - 1])[SignatureOf(last) := last]
  }

  predicate EnumCompatible(b: set<string>, c: set<string>, side: Side) {
    if b != {} && c != {} then b <= c else c != {} ==> side.Response?
  }

  predicate TypesCompatible(b: set<string>, c: set<string>, side: Side) {
    if side.Request? then b <= c else c <= b
  }

  predicate RequiredCompatible(b: bool, c: bool, side: Side) {
    if side.Request? then c ==> b else b ==> c
  }

  /** The keys that hold no nested field. */
  predicate FlatCompatible(b: Field, c: Field, side: Side) {
    && RequiredCompatible(b.required, c.required, side)
    && TypesCompatible(b.types, c.types, side)
    && b.items == c.items && b.model == c.model
    && EnumCompatible(b.enum, c.enum, side) && EnumCompatible(b.itemEnum, c.itemEnum, side)
  }

  ghost predicate FieldCompatible(b: Field, c: Field, side: Side)
    decreases b, 1
  {
    && FlatCompatible(b, c, side)
    && FieldsCompatible(b.fields, c.fields, side)
    && NestedCompatible(b.values, c.values, side)
    && NestedCompatible(b.element, c.element, side)
    && AlternativesCompatible(b, c, side)
  }

  ghost predicate NestedCompatible(b: Option<Field>, c: Option<Field>, side: Side)
    decreases b, 0
  {
    if b.Some? && c.Some? then FieldCompatible(b.value, c.value, side) else b.None? && c.None?
  }

  ghost predicate AlternativesCompatible(b: Field, c: Field, side: Side)
    decreases b, 0
  {
    && (forall g :: g in BySignature(b.oneOf) ==> AlternativeCompatible(b, c, g, side))
    && (side.Response? ==> BySignature(c.oneOf).Keys <= BySignature(b.oneOf).Keys)
  }

  ghost predicate AlternativeCompatible(b: Field, c: Field, g: Signature, side: Side)
    requires g in BySignature(b.oneOf)
    decreases b, 0, 0
  {
    if g in BySignature(c.oneOf) then FieldCompatible(BySignature(b.oneOf)[g], BySignature(c.oneOf)[g], side)
    else side.Response?
  }

  ghost predicate MemberCompatible(bs: Fields, cs: Fields, n: string, side: Side)
    requires n in bs.byName
    decreases bs, 0
  {
    n in cs.byName && FieldCompatible(bs.byName[n], cs.byName[n], side)
  }

  ghost predicate FieldsCompatible(bs: Fields, cs: Fields, side: Side)
    decreases bs, 1
  {
    && (forall n :: n in bs.byName ==> MemberCompatible(bs, cs, n, side))
    && (side.Request? ==> forall n :: n in cs.byName && n !in bs.byName ==> !cs.byName[n].required)
  }

  // ---- the walk ----------------------------------------------------------------------------------------------

  datatype What =
    | NewlyRequired | MadeOptional
    | TypesLost(types: set<string>) | TypesGained(types: set<string>)
    | ItemsChanged(from: string, to: string) | ModelChanged(from: string, to: string)
    | EnumRemoved(gone: set<string>) | EnumRestricted(to_: set<string>)
    | ShapeChanged(key: string)
    | AlternativeLost(types: set<string>) | AlternativeGained(types: set<string>)
    | FieldRemoved | NewFieldRequired
    | CommandRemoved | InputChanged(from: string, to: string) | VariantRemoved(mode: string)
    | ModelRemoved | CodeRemoved | CapabilityRemoved

  datatype Finding = Finding(where_: string, what: What)

  /** The breaks found so far, each listed once. */
  class Diff {
    var breaks: seq<Finding>

    constructor ()
      ensures breaks == []
    {
      breaks := [];
    }

    method Break(where_: string, what: What)
      modifies this
      ensures breaks ==
        if Finding(where_, what) in old(breaks) then old(breaks) else old(breaks) + [Finding(where_, what)]
      ensures breaks != []
    {
      var f := Finding(where_, what);
      if f !in breaks {
        breaks := breaks + [f];
      }
    }
  }

  method CompareEnums(b: set<string>, c: set<string>, side: Side, where_: string, d: Diff)
    modifies d
    ensures old(d.breaks) <= d.breaks
    ensures d.breaks == [] <==> old(d.breaks) == [] && EnumCompatible(b, c, side)
  {
    if b != {} && c != {} {
      assert b - c == {} <==> b <= c by { assert b <= c + (b - c); }
      if b - c != {} {
        d.Break(where_, EnumRemoved(b - c));
      }
    } else if c != {} && side.Request? {
      d.Break(where_, EnumRestricted(c));
    }
  }

  method CompareTypes(b: set<string>, c: set<string>, side: Side, where_: string, d: Diff)
    modifies d
    ensures old(d.breaks) <= d.breaks
    ensures d.breaks == [] <==> old(d.breaks) == [] && TypesCompatible(b, c, side)
  {
    var lost, gained := b - c, c - b;
    assert lost == {} <==> b <= c by { assert b <= c + lost; }
    assert gained == {} <==> c <= b by { assert c <= b + gained; }
    if side.Request? && lost != {} {
      d.Break(where_, TypesLost(lost));
    }
    if side.Response? && gained != {} {
      d.Break(where_, TypesGained(gained));
    }
  }

  /** The flat keys of a field: required, types, items, model and the enumerations. */
  method CompareFlat(b: Field, c: Field, side: Side, where_: string, d: Diff)
    modifies d
    ensures old(d.breaks) <= d.breaks
    ensures d.breaks == [] <==> old(d.breaks) == [] && FlatCompatible(b, c, side)
  {
    if side.Request? && c.required && !b.required {
      d.Break(where_, NewlyRequired);
    }
    if side.Response? && b.required && !c.required {
      d.Break(where_, MadeOptional);
    }
    CompareTypes(b.types, c.types, side, where_, d);
    if b.items != c.items {
      d.Break(where_, ItemsChanged(b.items, c.items));
    }
    if b.model != c.model {
      d.Break(where_, ModelChanged(b.model, c.model));
    }
    CompareEnums(b.enum, c.enum, side, where_, d);
    CompareEnums(b.itemEnum, c.itemEnum, side, where_ + "[]", d);
  }

  method CompareField(b: Field, c: Field, side: Side, where_: string, d: Diff)
    modifies d
    ensures old(d.breaks) <= d.breaks
    ensures d.breaks == [] <==> old(d.breaks) == [] && FieldCompatible(b, c, side)
    decreases b, 1
  {
    CompareFlat(b, c, side, where_, d);
    if b.fields != NO_FIELDS || c.fields != NO_FIELDS {
      CompareFields(b.fields, c.fields, side, where_, d);
    }
    CompareNested(b.values, c.values, side, "values", where_ + ".*", d);
    CompareNested(b.element, c.element, side, "element", where_ + "[]", d);
    if b.oneOf != [] || c.oneOf != [] {
      CompareAlternatives(b, c, side, where_, d);
    }
  }

  method CompareNested(b: Option<Field>, c: Option<Field>, side: Side, key: string, where_: string, d: Diff)
    modifies d
    ensures old(d.breaks) <= d.breaks
    ensures d.breaks == [] <==> old(d.breaks) == [] && NestedCompatible(b, c, side)
    decreases b, 0
  {
    if b.Some? && c.Some? {
      CompareField(b.value, c.value, side, where_, d);
    } else if b.Some? || c.Some? {
      d.Break(where_, ShapeChanged(key));
    }
  }

  method CompareAlternatives(b: Field, c: Field, side: Side, where_: string, d: Diff)
    modifies d
    ensures old(d.breaks) <= d.breaks
    ensures d.breaks == [] <==> old(d.breaks) == [] && AlternativesCompatible(b, c, side)
    decreases b, 0
  {
    var ba, ca := BySignature(b.oneOf), BySignature(c.oneOf);
    var todo := ba.Keys;
    while todo != {}
      invariant todo <= ba.Keys && old(d.breaks) <= d.breaks
      invariant d.breaks == [] <==> (
        old(d.breaks) == [] && forall g :: g in ba && g !in todo ==> AlternativeCompatible(b, c, g, side))
    {
      var g :| g in todo;
      if g in ca {
        CompareField(ba[g], ca[g], side, where_ + "|", d);
      } else if side.Request? {
        d.Break(where_, AlternativeLost(g.types));
      }
      todo := todo - {g};
    }
    CompareNewAlternatives(ba.Keys, ca.Keys, side, where_, d);
  }

  method CompareNewAlternatives(ba: set<Signature>, ca: set<Signature>, side: Side, where_: string, d: Diff)
    modifies d
    ensures old(d.breaks) <= d.breaks
    ensures d.breaks == [] <==> old(d.breaks) == [] && (side.Response? ==> ca <= ba)
  {
    var todo := ca;
    while todo != {}
      invariant todo <= ca && old(d.breaks) <= d.breaks
      invariant d.breaks == [] <==> old(d.breaks) == [] && (side.Response? ==> ca - todo <= ba)
    {
      var g :| g in todo;
      if g !in ba && side.Response? {
        d.Break(where_, AlternativeGained(g.types));
      }
      todo := todo - {g};
    }
  }

  method CompareFields(bs: Fields, cs: Fields, side: Side, where_: string, d: Diff)
    modifies d
    ensures old(d.breaks) <= d.breaks
    ensures d.breaks == [] <==> old(d.breaks) == [] && FieldsCompatible(bs, cs, side)
    decreases bs, 0
  {
    var todo := bs.byName.Keys;
    while todo != {}
      invariant todo <= bs.byName.Keys && old(d.breaks) <= d.breaks
      invariant d.breaks == [] <==> (
        old(d.breaks) == [] && forall n :: n in bs.byName && n !in todo ==> MemberCompatible(bs, cs, n, side))
    {
      var n :| n in todo;
      if n !in cs.byName {
        d.Break(where_ + "." + n, FieldRemoved);
      } else {
        CompareField(bs.byName[n], cs.byName[n], side, where_ + "." + n, d);
      }
      todo := todo - {n};
    }
    todo := cs.byName.Keys;
    while todo != {}
      invariant todo <= cs.byName.Keys && old(d.breaks) <= d.breaks
      invariant d.breaks == [] <==> (
        && old(d.breaks) == []
        && (forall n :: n in bs.byName ==> MemberCompatible(bs, cs, n, side))
        && (side.Request? ==> forall n :: n in cs.byName && n !in bs.byName && n !in todo ==> !cs.byName[n].required))
    {
      var n :| n in todo;
      if n !in bs.byName && side.Request? && cs.byName[n].required {
        d.Break(where_ + "." + n, NewFieldRequired);
      }
      todo := todo - {n};
    }
  }
}
