/** Which changes pass, exactly: a reading of the comparison place by place, without its recursion, and the additions
    that always pass. */
module CompatChanges {
  import opened Wrappers
  import opened CompatModel
  import opened CompatCheck
  import opened CompatContexts
  import opened CompatSurface

  // ---- places ------------------------------------------------------------------------------------------------

  /** One step into a field. */
  datatype Place = Member(name: string) | Values | Element | Alternative(signature: Signature)

  function Inside(f: Field, p: Place): Option<Field> {
    match p
    case Member(n) => if n in f.fields.byName then Some(f.fields.byName[n]) else None
    case Values => f.values
    case Element => f.element
    case Alternative(g) => if g in BySignature(f.oneOf) then Some(BySignature(f.oneOf)[g]) else None
  }

  function At(f: Field, path: seq<Place>): Option<Field> {
    if path == [] then Some(f)
    else match Inside(f, path[0]) case None => None case Some(x) => At(x, path[1..])
  }

  predicate OfKind(a: Field, g: Signature) {
    a.types == g.types && a.model == g.model && a.items == g.items
  }

  ghost predicate Counts(alts: seq<Field>, g: Signature, a: Field) {
    g in BySignature(alts) && BySignature(alts)[g] == a
  }

  lemma CountsLast(alts: seq<Field>, last: Field, g: Signature)
    ensures OfKind(last, g) ==> Counts(alts + [last], g, last)
    ensures !OfKind(last, g) ==> forall a :: Counts(alts, g, a) ==> Counts(alts + [last], g, a)
  {
    assert (alts + [last])[..|alts|] == alts;
  }

  /** Alternatives are told apart by their types, model and element type, and the last of a kind counts. */
  lemma {:induction false} LastOfKind(alts: seq<Field>, i: nat, g: Signature)
    requires i < |alts| && OfKind(alts[i], g) && forall j :: i < j < |alts| ==> !OfKind(alts[j], g)
    ensures Counts(alts, g, alts[i])
    decreases |alts|
  {
    var n := |alts| - 1;
    var front, last := alts[..n], alts[n];
    assert alts == front + [last];
    if i < n {
      assert front[i] == alts[i];
      LastOfKind(front, i, g);
    }
    CountsLast(front, last, g);
  }

  /** A value is gone from an enumeration, or a request is newly restricted to one. */
  ghost predicate EnumBroken(b: set<string>, c: set<string>, side: Side) {
    || (c != {} && exists v :: v in b && v !in c)
    || (side.Request? && b == {} && c != {})
  }

  /** The breaking changes of two fields at one place. */
  ghost predicate Broken(b: Field, c: Field, side: Side) {
    || (side.Request? && c.required && !b.required)
    || (side.Response? && b.required && !c.required)
    || (side.Request? && exists t :: t in b.types && t !in c.types)
    || (side.Response? && exists t :: t in c.types && t !in b.types)
    || b.items != c.items || b.model != c.model
    || EnumBroken(b.enum, c.enum, side) || EnumBroken(b.itemEnum, c.itemEnum, side)
    || MembersBroken(b.fields, c.fields, side)
    || b.values.Some? != c.values.Some? || b.element.Some? != c.element.Some?
    || (side.Request? && exists g :: g in BySignature(b.oneOf) && g !in BySignature(c.oneOf))
    || (side.Response? && exists g :: g in BySignature(c.oneOf) && g !in BySignature(b.oneOf))
  }

  /** A member is gone, or a request needs a new one. */
  ghost predicate MembersBroken(b: Fields, c: Fields, side: Side) {
    || (exists n :: n in b.byName && n !in c.byName)
    || (side.Request? && exists n :: n in c.byName && n !in b.byName && c.byName[n].required)
  }

  ghost predicate BrokenAt(b: Field, c: Field, path: seq<Place>, side: Side) {
    At(b, path).Some? && At(c, path).Some? && Broken(At(b, path).value, At(c, path).value, side)
  }

  ghost predicate Breaks(b: Field, c: Field, side: Side) {
    exists path :: BrokenAt(b, c, path, side)
  }

  /** A record breaks when its members do, or one of them does at some place. */
  ghost predicate RecordBreaks(b: Fields, c: Fields, side: Side) {
    || MembersBroken(b, c, side)
    || exists n :: n in b.byName && n in c.byName && Breaks(b.byName[n], c.byName[n], side)
  }

  // ---- no break, no broken place -----------------------------------------------------------------------------

  lemma CompatibleHere(b: Field, c: Field, side: Side)
    requires FieldCompatible(b, c, side)
    ensures !Broken(b, c, side)
  {
    forall n | n in b.fields.byName ensures n in c.fields.byName {
      assert MemberCompatible(b.fields, c.fields, n, side);
    }
    forall g | g in BySignature(b.oneOf) ensures g in BySignature(c.oneOf) || side.Response? {
      assert AlternativeCompatible(b, c, g, side);
    }
  }

  lemma CompatibleInside(b: Field, c: Field, side: Side, p: Place)
    requires FieldCompatible(b, c, side) && Inside(b, p).Some? && Inside(c, p).Some?
    ensures FieldCompatible(Inside(b, p).value, Inside(c, p).value, side)
  {
    match p
    case Member(n) => assert MemberCompatible(b.fields, c.fields, n, side);
    case Values =>
    case Element =>
    case Alternative(g) => assert AlternativeCompatible(b, c, g, side);
  }

  lemma {:induction false} CompatibleAt(b: Field, c: Field, side: Side, path: seq<Place>)
    requires FieldCompatible(b, c, side)
    ensures !BrokenAt(b, c, path, side)
    decreases path
  {
    if path == [] {
      CompatibleHere(b, c, side);
    } else if Inside(b, path[0]).Some? && Inside(c, path[0]).Some? {
      CompatibleInside(b, c, side, path[0]);
      CompatibleAt(Inside(b, path[0]).value, Inside(c, path[0]).value, side, path[1..]);
    }
  }

  // ---- no broken place, no break -----------------------------------------------------------------------------

  lemma BreaksInside(b: Field, c: Field, side: Side, p: Place)
    requires Inside(b, p).Some? && Inside(c, p).Some? && Breaks(Inside(b, p).value, Inside(c, p).value, side)
    ensures Breaks(b, c, side)
  {
    var path :| BrokenAt(Inside(b, p).value, Inside(c, p).value, path, side);
    assert ([p] + path)[0] == p && ([p] + path)[1..] == path;
    assert BrokenAt(b, c, [p] + path, side);
  }

  lemma NotBrokenHere(b: Field, c: Field, side: Side)
    requires !Breaks(b, c, side)
    ensures !Broken(b, c, side)
  {
    assert !BrokenAt(b, c, [], side);
  }

  lemma FlatOk(b: Field, c: Field, side: Side)
    requires !Broken(b, c, side)
    ensures FlatCompatible(b, c, side)
  {
    assert side.Request? ==> b.types <= c.types;
    assert side.Response? ==> c.types <= b.types;
  }

  lemma {:induction false} UnbrokenCompatible(b: Field, c: Field, side: Side)
    requires !Breaks(b, c, side)
    ensures FieldCompatible(b, c, side)
    decreases b, 1
  {
    NotBrokenHere(b, c, side);
    FlatOk(b, c, side);
    forall n | n in b.fields.byName ensures MemberCompatible(b.fields, c.fields, n, side) {
      UnbrokenMember(b, c, side, n);
    }
    UnbrokenNested(b, c, side);
    forall g | g in BySignature(b.oneOf) ensures AlternativeCompatible(b, c, g, side) {
      UnbrokenAlternative(b, c, side, g);
    }
  }

  lemma {:induction false} UnbrokenMember(b: Field, c: Field, side: Side, n: string)
    requires !Breaks(b, c, side) && n in b.fields.byName && n in c.fields.byName
    ensures MemberCompatible(b.fields, c.fields, n, side)
    decreases b, 0
  {
    var x, y := b.fields.byName[n], c.fields.byName[n];
    if Breaks(x, y, side) { BreaksInside(b, c, side, Member(n)); }
    UnbrokenCompatible(x, y, side);
  }

  lemma {:induction false} UnbrokenNested(b: Field, c: Field, side: Side)
    requires !Breaks(b, c, side) && b.values.Some? == c.values.Some? && b.element.Some? == c.element.Some?
    ensures NestedCompatible(b.values, c.values, side) && NestedCompatible(b.element, c.element, side)
    decreases b, 0
  {
    if b.values.Some? {
      if Breaks(b.values.value, c.values.value, side) { BreaksInside(b, c, side, Values); }
      UnbrokenCompatible(b.values.value, c.values.value, side);
    }
    if b.element.Some? {
      if Breaks(b.element.value, c.element.value, side) { BreaksInside(b, c, side, Element); }
      UnbrokenCompatible(b.element.value, c.element.value, side);
    }
  }

  lemma {:induction false} UnbrokenAlternative(b: Field, c: Field, side: Side, g: Signature)
    requires !Breaks(b, c, side) && g in BySignature(b.oneOf) && (side.Response? || g in BySignature(c.oneOf))
    ensures AlternativeCompatible(b, c, g, side)
    decreases b, 0
  {
    if g in BySignature(c.oneOf) {
      var x, y := BySignature(b.oneOf)[g], BySignature(c.oneOf)[g];
      if Breaks(x, y, side) { BreaksInside(b, c, side, Alternative(g)); }
      UnbrokenCompatible(x, y, side);
    }
  }

  /** Two fields are compatible exactly when nothing is broken at any place they share. */
  lemma FieldExactly(b: Field, c: Field, side: Side)
    ensures FieldCompatible(b, c, side) <==> !Breaks(b, c, side)
  {
    if FieldCompatible(b, c, side) {
      forall path ensures !BrokenAt(b, c, path, side) { CompatibleAt(b, c, side, path); }
    } else if !Breaks(b, c, side) {
      UnbrokenCompatible(b, c, side);
    }
  }

  lemma RecordExactly(b: Fields, c: Fields, side: Side)
    ensures FieldsCompatible(b, c, side) <==> !RecordBreaks(b, c, side)
  {
    forall n | n in b.byName && n in c.byName
      ensures MemberCompatible(b, c, n, side) <==> !Breaks(b.byName[n], c.byName[n], side)
    {
      FieldExactly(b.byName[n], c.byName[n], side);
    }
    forall n | n in b.byName && n !in c.byName ensures !MemberCompatible(b, c, n, side) {}
  }

  // ---- surfaces ----------------------------------------------------------------------------------------------

  /** The breaking changes of a command that is kept. */
  ghost predicate CommandBreaks(b: Command, c: Command) {
    || (b.input != "none" && c.input != b.input)
    || RecordBreaks(b.payload, c.payload, Request) || RecordBreaks(b.response, c.response, Response)
    || (b.responseModel != "" && c.responseModel != b.responseModel)
    || (exists mode :: mode in b.variants && mode !in c.variants)
    || (exists mode :: mode in b.variants && mode in c.variants && VariantBreaks(b.variants[mode], c.variants[mode]))
  }

  ghost predicate VariantBreaks(b: Variant, c: Variant) {
    RecordBreaks(b.payload, c.payload, Request) || RecordBreaks(b.response, c.response, Response)
  }

  /** Those of a model that is kept, on each side it is read on (as a response if it is read on none). */
  ghost predicate ModelBreaks(b: Surface, c: Surface, m: string)
    requires m in b.models && m in c.models
  {
    || (Reachable(b, Request, m) && RecordBreaks(b.models[m], c.models[m], Request))
    || ((Reachable(b, Response, m) || !Reachable(b, Request, m)) && RecordBreaks(b.models[m], c.models[m], Response))
  }

  /** A command is gone or breaks. */
  ghost predicate CommandsBreak(b: Surface, c: Surface) {
    || (exists n :: n in b.commands && n !in c.commands)
    || (exists n :: n in b.commands && n in c.commands && CommandBreaks(b.commands[n], c.commands[n]))
  }

  /** A model is gone while something still refers to it, or breaks. */
  ghost predicate ModelsBreak(b: Surface, c: Surface) {
    || (exists m :: m in b.models && m !in c.models && (Reachable(c, Request, m) || Reachable(c, Response, m)))
    || (exists m :: m in b.models && m in c.models && ModelBreaks(b, c, m))
  }

  ghost predicate EnvelopeBreaks(b: Surface, c: Surface) {
    || RecordBreaks(b.request, c.request, Request) || RecordBreaks(b.response, c.response, Response)
    || RecordBreaks(b.errorFrame, c.errorFrame, Response)
  }

  /** The breaking changes of a whole surface. */
  ghost predicate SurfaceBreaks(b: Surface, c: Surface) {
    || CommandsBreak(b, c) || ModelsBreak(b, c) || EnvelopeBreaks(b, c)
    || (exists code :: code in b.errorCodes && code !in c.errorCodes)
    || (exists name :: name in b.capabilities && name !in c.capabilities)
  }

  lemma CommandExactly(b: Command, c: Command)
    ensures CommandCompatible(b, c) <==> !CommandBreaks(b, c)
  {
    RecordExactly(b.payload, c.payload, Request);
    RecordExactly(b.response, c.response, Response);
    forall mode | mode in b.variants && mode in c.variants
      ensures ModeCompatible(b, c, mode) <==> !VariantBreaks(b.variants[mode], c.variants[mode])
    {
      RecordExactly(b.variants[mode].payload, c.variants[mode].payload, Request);
      RecordExactly(b.variants[mode].response, c.variants[mode].response, Response);
    }
    forall mode | mode in b.variants && mode !in c.variants ensures !ModeCompatible(b, c, mode) {}
  }

  lemma ModelExactly(b: Surface, c: Surface, m: string)
    requires m in b.models
    ensures ModelCompatible(b, c, m) <==>
      if m in c.models then !ModelBreaks(b, c, m) else !(Reachable(c, Request, m) || Reachable(c, Response, m))
  {
    if m in c.models {
      RecordExactly(b.models[m], c.models[m], Request);
      RecordExactly(b.models[m], c.models[m], Response);
      SidesRead(b, m);
    }
  }

  lemma SidesRead(b: Surface, m: string)
    ensures ComparedOn(b, m, Request) <==> Reachable(b, Request, m)
    ensures ComparedOn(b, m, Response) <==> Reachable(b, Response, m) || !Reachable(b, Request, m)
  {
  }

  lemma EnvelopeExactly(b: Surface, c: Surface)
    ensures EnvelopeCompatible(b, c) <==> !EnvelopeBreaks(b, c)
  {
    RecordExactly(b.request, c.request, Request);
    RecordExactly(b.response, c.response, Response);
    RecordExactly(b.errorFrame, c.errorFrame, Response);
  }

  /** A refresh is refused exactly when one of the listed breaks occurs at some place. */
  lemma BreaksExactly(b: Surface, c: Surface)
    ensures SurfaceCompatible(b, c) <==> !SurfaceBreaks(b, c)
  {
    CommandsExactly(b, c);
    ModelsExactly(b, c);
    EnvelopeExactly(b, c);
    assert b.errorCodes <= c.errorCodes <==> !(exists code :: code in b.errorCodes && code !in c.errorCodes);
    assert b.capabilities <= c.capabilities <==> !(exists name :: name in b.capabilities && name !in c.capabilities);
  }

  lemma CommandsExactly(b: Surface, c: Surface)
    ensures (forall n :: n in b.commands ==> NamedCommandCompatible(b, c, n)) <==> !CommandsBreak(b, c)
  {
    forall n | n in b.commands
      ensures NamedCommandCompatible(b, c, n) <==>
        n in c.commands && !CommandBreaks(b.commands[n], c.commands[n])
    {
      if n in c.commands { CommandExactly(b.commands[n], c.commands[n]); }
    }
  }

  lemma ModelsExactly(b: Surface, c: Surface)
    ensures (forall m :: m in b.models ==> ModelCompatible(b, c, m)) <==> !ModelsBreak(b, c)
  {
    forall m | m in b.models
      ensures ModelCompatible(b, c, m) <==>
        if m in c.models then !ModelBreaks(b, c, m) else !(Reachable(c, Request, m) || Reachable(c, Response, m))
    {
      ModelExactly(b, c, m);
    }
  }

  // ---- additions ---------------------------------------------------------------------------------------------

  /** An enumeration that is there gains values. */
  predicate EnumGrows(b: set<string>, c: set<string>) {
    b <= c && (b == {} ==> c == {})
  }

  /** A field gains nothing but enumeration values and members, at any depth. */
  ghost predicate FieldExtends(b: Field, c: Field, side: Side)
    decreases b, 1
  {
    && c.types == b.types && c.required == b.required && c.items == b.items && c.model == b.model
    && EnumGrows(b.enum, c.enum) && EnumGrows(b.itemEnum, c.itemEnum)
    && RecordExtends(b.fields, c.fields, side)
    && NestedExtends(b.values, c.values, side) && NestedExtends(b.element, c.element, side)
    && |c.oneOf| == |b.oneOf| && forall i :: 0 <= i < |b.oneOf| ==> FieldExtends(b.oneOf[i], c.oneOf[i], side)
  }

  ghost predicate NestedExtends(b: Option<Field>, c: Option<Field>, side: Side)
    decreases b, 0
  {
    if b.Some? && c.Some? then FieldExtends(b.value, c.value, side) else b.None? && c.None?
  }

  /** A record gains members, optional ones if it is a request. */
  ghost predicate RecordExtends(b: Fields, c: Fields, side: Side)
    decreases b, 0
  {
    && (forall n :: n in b.byName ==> n in c.byName && FieldExtends(b.byName[n], c.byName[n], side))
    && (side.Request? ==> forall n :: n in c.byName && n !in b.byName ==> !c.byName[n].required)
  }

  ghost predicate VariantExtends(b: Variant, c: Variant) {
    RecordExtends(b.payload, c.payload, Request) && RecordExtends(b.response, c.response, Response)
  }

  ghost predicate CommandExtends(b: Command, c: Command) {
    && c.input == b.input && c.responseModel == b.responseModel
    && RecordExtends(b.payload, c.payload, Request) && RecordExtends(b.response, c.response, Response)
    && forall mode :: mode in b.variants ==> mode in c.variants && VariantExtends(b.variants[mode], c.variants[mode])
  }

  /** A surface gains commands, variants, members, enumeration values, models, error codes and capabilities. */
  ghost predicate SurfaceExtends(b: Surface, c: Surface) {
    && (forall n :: n in b.commands ==> n in c.commands && CommandExtends(b.commands[n], c.commands[n]))
    && (forall m :: m in b.models ==>
      && m in c.models && RecordExtends(b.models[m], c.models[m], Response)
      && (Reachable(b, Request, m) ==> RecordExtends(b.models[m], c.models[m], Request)))
    && RecordExtends(b.request, c.request, Request) && RecordExtends(b.response, c.response, Response)
    && RecordExtends(b.errorFrame, c.errorFrame, Response)
    && b.errorCodes <= c.errorCodes && b.capabilities <= c.capabilities
  }

  /** Alternatives that are extended one by one have the same signatures. */
  lemma {:induction false} Aligned(b: seq<Field>, c: seq<Field>, side: Side, g: Signature)
    requires |b| == |c| && forall i :: 0 <= i < |b| ==> FieldExtends(b[i], c[i], side)
    ensures g in BySignature(b) <==> g in BySignature(c)
    ensures g in BySignature(b) ==> FieldExtends(BySignature(b)[g], BySignature(c)[g], side)
    decreases |b|
  {
    if b != [] {
      var n := |b| - 1;
      Aligned(b[..n], c[..n], side, g);
      assert FieldExtends(b[n], c[n], side) && SignatureOf(b[n]) == SignatureOf(c[n]);
    }
  }

  lemma {:induction false} ExtendedField(b: Field, c: Field, side: Side)
    requires FieldExtends(b, c, side)
    ensures FieldCompatible(b, c, side)
    decreases b, 1
  {
    ExtendedRecord(b.fields, c.fields, side);
    if b.values.Some? { ExtendedField(b.values.value, c.values.value, side); }
    if b.element.Some? { ExtendedField(b.element.value, c.element.value, side); }
    forall g ensures g in BySignature(b.oneOf) <==> g in BySignature(c.oneOf) { Aligned(b.oneOf, c.oneOf, side, g); }
    forall g | g in BySignature(b.oneOf) ensures AlternativeCompatible(b, c, g, side) {
      Aligned(b.oneOf, c.oneOf, side, g);
      ExtendedField(BySignature(b.oneOf)[g], BySignature(c.oneOf)[g], side);
    }
  }

  lemma {:induction false} ExtendedRecord(b: Fields, c: Fields, side: Side)
    requires RecordExtends(b, c, side)
    ensures FieldsCompatible(b, c, side)
    decreases b, 0
  {
    forall n | n in b.byName ensures MemberCompatible(b, c, n, side) {
      ExtendedField(b.byName[n], c.byName[n], side);
    }
  }

  lemma ExtendedCommand(b: Command, c: Command)
    requires CommandExtends(b, c)
    ensures CommandCompatible(b, c)
  {
    ExtendedRecord(b.payload, c.payload, Request);
    ExtendedRecord(b.response, c.response, Response);
    forall mode | mode in b.variants ensures ModeCompatible(b, c, mode) {
      ExtendedRecord(b.variants[mode].payload, c.variants[mode].payload, Request);
      ExtendedRecord(b.variants[mode].response, c.variants[mode].response, Response);
    }
  }

  /** Additions always pass. */
  lemma AdditionsPass(b: Surface, c: Surface)
    requires SurfaceExtends(b, c)
    ensures SurfaceCompatible(b, c)
  {
    forall n | n in b.commands ensures NamedCommandCompatible(b, c, n) {
      ExtendedCommand(b.commands[n], c.commands[n]);
    }
    forall m | m in b.models ensures ModelCompatible(b, c, m) {
      ExtendedRecord(b.models[m], c.models[m], Response);
      if Reachable(b, Request, m) { ExtendedRecord(b.models[m], c.models[m], Request); }
    }
    ExtendedRecord(b.request, c.request, Request);
    ExtendedRecord(b.response, c.response, Response);
    ExtendedRecord(b.errorFrame, c.errorFrame, Response);
  }
}
