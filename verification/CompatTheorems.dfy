/** The promises of the compatibility check, for whole surfaces and for whole runs of baseline refreshes. */
module CompatTheorems {
  import opened Wrappers
  import opened CompatModel
  import opened CompatCheck
  import opened CompatContexts
  import opened Worklist
  import opened CompatSurface
  import opened CompatSoundness

  /** What a refresh must satisfy for one side: no breaks, and the conditions on that side that the comparison itself
      does not look at. A model that the base does not declare asks nothing of an answer. */
  ghost predicate Refresh(base: Surface, cur: Surface, side: Side) {
    SurfaceCompatible(base, cur) && SurfaceKept(base, cur, side) && (side.Request? ==> Closed(base))
  }

  ghost function ReadBy(s: Surface, side: Side): iset<string> {
    iset m | Reachable(s, side, m)
  }

  ghost function NamedBy(s: Surface): iset<string> {
    iset m | Referenced(s, m)
  }

  lemma DeclaredSimulates(base: Surface, cur: Surface, side: Side, m: string)
    requires SurfaceCompatible(base, cur) && SurfaceKept(base, cur, side)
    requires Reachable(base, side, m) && Referenced(cur, m) && m in base.models
    ensures RecordRefines(Declared(Source(base, cur, side).models, m), Declared(Target(base, cur, side).models, m),
      side, ReadBy(base, side) * NamedBy(cur))
  {
    var rb, rc := ReadBy(base, side), NamedBy(cur);
    assert Referenced(base, m) && ModelCompatible(base, cur, m);
    assert ComparedOn(base, m, side) && FieldsCompatible(base.models[m], cur.models[m], side);
    forall x | x in ModelsIn(base.models[m]) ensures x in rb {
      ReachesNext(Roots(base, side), Names(base.models), m, x);
    }
    forall x | x in ModelsIn(cur.models[m]) ensures x in rc {
      ModelNamesReferenced(cur, m, x);
    }
    FieldsSimulate(base.models[m], cur.models[m], side, rb, rc);
  }

  /** Models both surfaces name simulate each other, whatever cycles they form. */
  lemma ModelsSimulate(base: Surface, cur: Surface, side: Side)
    requires Refresh(base, cur, side)
    ensures ModelsRefine(Source(base, cur, side).models, Target(base, cur, side).models, side,
                         ReadBy(base, side) * NamedBy(cur))
  {
    var rb, rc := ReadBy(base, side), NamedBy(cur);
    forall m | m in rb * rc
      ensures RecordRefines(Declared(Source(base, cur, side).models, m), Declared(Target(base, cur, side).models, m),
        side, rb * rc)
    {
      if m in base.models { DeclaredSimulates(base, cur, side, m); }
    }
  }

  lemma ModelNamesReferenced(s: Surface, m: string, x: string)
    requires Referenced(s, m) && x in ModelsIn(Declared(s.models, m))
    ensures Referenced(s, x)
  {
    var side := if Reachable(s, Request, m) then Request else Response;
    ReachesNext(Roots(s, side), Names(s.models), m, x);
  }

  /** A compatible record of the two surfaces' own messages carries values over. */
  lemma RecordCarries(o: Json, bs: Fields, cs: Fields, base: Surface, cur: Surface, side: Side)
    requires o.Obj? && Refresh(base, cur, side)
    requires FieldsCompatible(bs, cs, side) && KindsKept(Source(bs, cs, side), Target(bs, cs, side), side)
    requires ModelsIn(bs) <= Roots(base, side) && ModelsIn(cs) <= Roots(cur, side)
    requires IsRecord(o, Source(bs, cs, side), Source(base, cur, side).models, side)
    ensures IsRecord(o, Target(bs, cs, side), Target(base, cur, side).models, side)
  {
    var rb, rc := ReadBy(base, side), NamedBy(cur);
    forall m | m in ModelsIn(bs) ensures m in rb {
      ReachesRoot(Roots(base, side), Names(base.models), m);
    }
    forall m | m in ModelsIn(cs) ensures m in rc {
      ReachesRoot(Roots(cur, side), Names(cur.models), m);
    }
    FieldsSimulate(bs, cs, side, rb, rc);
    ModelsSimulate(base, cur, side);
    RecordOfRefines(o, Source(bs, cs, side), Target(bs, cs, side),
                    Source(base, cur, side).models, Target(base, cur, side).models, side, rb * rc);
  }

  /** So does a model that messages of both surfaces name as a whole. */
  lemma ModelCarries(o: Json, name: string, base: Surface, cur: Surface, side: Side)
    requires o.Obj? && Refresh(base, cur, side)
    requires name in Roots(base, side) && name in Roots(cur, side)
    requires IsRecord(o, Declared(Source(base, cur, side).models, name), Source(base, cur, side).models, side)
    ensures IsRecord(o, Declared(Target(base, cur, side).models, name), Target(base, cur, side).models, side)
  {
    ReachesRoot(Roots(base, side), Names(base.models), name);
    ReachesRoot(Roots(cur, side), Names(cur.models), name);
    ModelsSimulate(base, cur, side);
    RecordOfRefines(o, Declared(Source(base, cur, side).models, name), Declared(Target(base, cur, side).models, name),
                    Source(base, cur, side).models, Target(base, cur, side).models, side,
                    ReadBy(base, side) * NamedBy(cur));
  }

  lemma CommandRootsWithin(s: Surface, n: string, side: Side)
    requires n in s.commands
    ensures CommandRoots(s.commands[n], side) <= Roots(s, side)
    ensures ModelsIn(if side.Request? then s.commands[n].payload else s.commands[n].response) <= Roots(s, side)
    ensures forall mode :: mode in s.commands[n].variants ==>
      ModelsIn(SideOf(s.commands[n].variants[mode], side)) <= Roots(s, side)
  {
    var c := s.commands[n];
    forall m | m in CommandRoots(c, side) ensures m in Roots(s, side) {}
    forall mode | mode in c.variants ensures ModelsIn(SideOf(c.variants[mode], side)) <= Roots(s, side) {
      forall m | m in ModelsIn(SideOf(c.variants[mode], side)) ensures m in VariantModels(c, c.variants.Keys, side) {}
    }
  }

  /** Every request an old client may send, whatever the command, mode and nesting, is still accepted. */
  lemma RequestsStayValid(base: Surface, cur: Surface, m: Message)
    requires Refresh(base, cur, Request) && TokensKept(base, cur)
    requires RequestValid(m, base)
    ensures RequestValid(m, cur)
  {
    RecordCarries(m.frame, base.request, cur.request, base, cur, Request);
    assert NamedCommandCompatible(base, cur, m.command);
    CommandRootsWithin(base, m.command, Request);
    CommandRootsWithin(cur, m.command, Request);
    var b, c := base.commands[m.command], cur.commands[m.command];
    match m.mode
    case None =>
      RecordCarries(m.body, b.payload, c.payload, base, cur, Request);
    case Some(mode) =>
      assert ModeCompatible(b, c, mode) && VariantKept(b.variants[mode], c.variants[mode], Request);
      RecordCarries(m.body, b.variants[mode].payload, c.variants[mode].payload, base, cur, Request);
  }

  /** The command and session mode exist on a surface. */
  predicate Known(m: Message, s: Surface) {
    m.command in s.commands && (m.mode.Some? ==> m.mode.value in s.commands[m.command].variants)
  }

  /** Every answer the current surface can give to a request an old client knows is readable by that client. */
  lemma AnswersStayReadable(base: Surface, cur: Surface, m: Message)
    requires Refresh(base, cur, Response)
    requires Known(m, base)
    requires AnswerValid(m, cur)
    ensures AnswerValid(m, base)
  {
    RecordCarries(m.frame, base.response, cur.response, base, cur, Response);
    assert NamedCommandCompatible(base, cur, m.command);
    CommandRootsWithin(base, m.command, Response);
    CommandRootsWithin(cur, m.command, Response);
    var b, c := base.commands[m.command], cur.commands[m.command];
    match m.mode
    case None =>
      RecordCarries(m.body, b.response, c.response, base, cur, Response);
      if b.responseModel != "" {
        ModelCarries(m.body, b.responseModel, base, cur, Response);
      }
    case Some(mode) =>
      assert ModeCompatible(b, c, mode) && VariantKept(b.variants[mode], c.variants[mode], Response);
      RecordCarries(m.body, b.variants[mode].response, c.variants[mode].response, base, cur, Response);
  }

  lemma ErrorFramesStayReadable(base: Surface, cur: Surface, frame: Json)
    requires Refresh(base, cur, Response)
    requires ErrorFrameValid(frame, cur)
    ensures ErrorFrameValid(frame, base)
  {
    RecordCarries(frame, base.errorFrame, cur.errorFrame, base, cur, Response);
  }

  // ---- references --------------------------------------------------------------------------------------------

  /** A compatible request shape still names every model the old one named. */
  lemma {:induction false} FieldKeepsModels(b: Field, c: Field)
    requires FieldCompatible(b, c, Request) && KindKept(b, c, Request)
    ensures ModelsOf(b) <= ModelsOf(c)
    decreases b, 0
  {
    FieldsKeepModels(b.fields, c.fields);
    if b.values.Some? { FieldKeepsModels(b.values.value, c.values.value); }
    if b.element.Some? { FieldKeepsModels(b.element.value, c.element.value); }
    forall m | m in ModelsOfAll(b.oneOf) ensures m in ModelsOfAll(c.oneOf) {
      var i := AlternativeNaming(b.oneOf, m);
      var g := SignatureOf(b.oneOf[i]);
      OneBySignature(b.oneOf, i);
      assert b.oneOf[i] in b.oneOf && AlternativeCompatible(b, c, g, Request);
      var fc := BySignature(c.oneOf)[g];
      var j: nat :| j < |c.oneOf| && fc == c.oneOf[j];
      FieldKeepsModels(b.oneOf[i], c.oneOf[j]);
      ModelsOfAlternative(c.oneOf, j);
    }
  }

  lemma AlternativeNaming(alts: seq<Field>, m: string) returns (i: nat)
    requires m in ModelsOfAll(alts)
    ensures i < |alts| && m in ModelsOf(alts[i])
  {
    if m in ModelsOf(alts[|alts| - 1]) {
      i := |alts| - 1;
    } else {
      i := AlternativeNaming(alts[..|alts| - 1], m);
    }
  }

  lemma {:induction false} FieldsKeepModels(bs: Fields, cs: Fields)
    requires FieldsCompatible(bs, cs, Request) && KindsKept(bs, cs, Request)
    ensures ModelsIn(bs) <= ModelsIn(cs)
    decreases bs, 0
  {
    forall m | m in ModelsIn(bs) ensures m in ModelsIn(cs) {
      assert m in ModelsAmong(bs, bs.byName.Keys);
      var n :| n in bs.byName.Keys && m in ModelsOf(bs.byName[n]);
      assert MemberCompatible(bs, cs, n, Request);
      FieldKeepsModels(bs.byName[n], cs.byName[n]);
    }
  }

  lemma CommandKeepsModels(b: Command, c: Command)
    requires CommandCompatible(b, c) && CommandKept(b, c, Request)
    ensures CommandRoots(b, Request) <= CommandRoots(c, Request)
  {
    FieldsKeepModels(b.payload, c.payload);
    forall m | m in VariantModels(b, b.variants.Keys, Request) ensures m in VariantModels(c, c.variants.Keys, Request) {
      var mode :| mode in b.variants && m in ModelsIn(SideOf(b.variants[mode], Request));
      assert ModeCompatible(b, c, mode) && VariantKept(b.variants[mode], c.variants[mode], Request);
      FieldsKeepModels(b.variants[mode].payload, c.variants[mode].payload);
      assert mode in c.variants.Keys && m in ModelsIn(SideOf(c.variants[mode], Request));
    }
  }

  /** Without breaks, every model a request of the base can reach is still reached by the current requests. */
  lemma RequestModelsStayReferenced(base: Surface, cur: Surface, m: string)
    requires SurfaceCompatible(base, cur) && SurfaceKept(base, cur, Request)
    requires Reachable(base, Request, m)
    ensures Reachable(cur, Request, m)
  {
    var path :| Leads(Roots(base, Request), Names(base.models), path, m);
    RequestPathKept(base, cur, path, m);
  }

  lemma {:induction false} RequestPathKept(base: Surface, cur: Surface, path: seq<string>, m: string)
    requires SurfaceCompatible(base, cur) && SurfaceKept(base, cur, Request)
    requires Leads(Roots(base, Request), Names(base.models), path, m)
    ensures Reachable(cur, Request, m)
    decreases |path|
  {
    if |path| == 1 {
      RequestRootKept(base, cur, m);
      ReachesRoot(Roots(cur, Request), Names(cur.models), m);
    } else {
      var k := |path| - 2;
      assert Leads(Roots(base, Request), Names(base.models), path[..k + 1], path[k]);
      RequestPathKept(base, cur, path[..k + 1], path[k]);
      assert path[k + 1] in Names(base.models)(path[k]);
      RequestStepKept(base, cur, path[k], m);
    }
  }

  lemma RequestStepKept(base: Surface, cur: Surface, x: string, m: string)
    requires SurfaceCompatible(base, cur) && SurfaceKept(base, cur, Request)
    requires Reachable(base, Request, x) && Reachable(cur, Request, x) && m in Names(base.models)(x)
    ensures Reachable(cur, Request, m)
  {
    assert x in base.models && ModelCompatible(base, cur, x) && ComparedOn(base, x, Request);
    FieldsKeepModels(base.models[x], cur.models[x]);
    ReachesNext(Roots(cur, Request), Names(cur.models), x, m);
  }

  lemma RequestRootKept(base: Surface, cur: Surface, m: string)
    requires SurfaceCompatible(base, cur) && SurfaceKept(base, cur, Request) && m in Roots(base, Request)
    ensures m in Roots(cur, Request)
  {
    if m in EnvelopeRoots(base, Request) {
      FieldsKeepModels(base.request, cur.request);
    } else {
      var n :| n in base.commands && m in CommandRoots(base.commands[n], Request);
      assert NamedCommandCompatible(base, cur, n);
      CommandKeepsModels(base.commands[n], cur.commands[n]);
    }
  }

  // ---- whole runs --------------------------------------------------------------------------------------------

  /** Successive baselines of one protocol version, each accepted as a refresh of the one before. */
  ghost predicate IsHistory(history: seq<Surface>) {
    history != [] && forall i :: 0 <= i < |history| - 1 ==> Accepted(history[i], history[i + 1])
  }

  ghost predicate Accepted(base: Surface, cur: Surface) {
    Refresh(base, cur, Request) && Refresh(base, cur, Response) && TokensKept(base, cur)
  }

  /** What clients of surface `a` keep when the server moves on to surface `b`: their requests are accepted, their
      commands are there and answered readably, error frames too, and command names, error codes and capabilities
      only grew. */
  ghost predicate StillServed(a: Surface, b: Surface, m: Message) {
    && (RequestValid(m, a) ==> RequestValid(m, b))
    && (Known(m, a) ==> Known(m, b) && (AnswerValid(m, b) ==> AnswerValid(m, a)))
    && (ErrorFrameValid(m.frame, b) ==> ErrorFrameValid(m.frame, a))
    && a.commands.Keys <= b.commands.Keys && a.errorCodes <= b.errorCodes && a.capabilities <= b.capabilities
  }

  lemma RefreshServes(base: Surface, cur: Surface, m: Message)
    requires Accepted(base, cur)
    ensures StillServed(base, cur, m)
  {
    if RequestValid(m, base) {
      RequestsStayValid(base, cur, m);
    }
    if Known(m, base) {
      RefreshKnows(base, cur, m);
      if AnswerValid(m, cur) {
        AnswersStayReadable(base, cur, m);
      }
    }
    if ErrorFrameValid(m.frame, cur) {
      ErrorFramesStayReadable(base, cur, m.frame);
    }
    forall n | n in base.commands ensures n in cur.commands {
      assert NamedCommandCompatible(base, cur, n);
    }
  }

  lemma RefreshKnows(base: Surface, cur: Surface, m: Message)
    requires SurfaceCompatible(base, cur) && Known(m, base)
    ensures Known(m, cur)
  {
    assert NamedCommandCompatible(base, cur, m.command);
    if m.mode.Some? {
      assert ModeCompatible(base.commands[m.command], cur.commands[m.command], m.mode.value);
    }
  }

  /** Over any number of refreshes, clients of the first baseline are still served by the last. */
  lemma {:induction false} HistoryServes(history: seq<Surface>, m: Message)
    requires IsHistory(history)
    ensures StillServed(history[0], history[|history| - 1], m)
    decreases |history|
  {
    if |history| > 1 {
      var k := |history| - 2;
      HistoryServes(history[..k + 1], m);
      assert Accepted(history[k], history[k + 1]);
      RefreshServes(history[k], history[k + 1], m);
    }
  }
}
