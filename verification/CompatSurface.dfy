/** Comparing two whole surfaces, and the frozen baseline that `--write` refreshes only when nothing breaks. */
module CompatSurface {
  import opened Wrappers
  import opened CompatModel
  import opened CompatCheck
  import opened CompatContexts

  ghost predicate VariantCompatible(b: Variant, c: Variant) {
    FieldsCompatible(b.payload, c.payload, Request) && FieldsCompatible(b.response, c.response, Response)
  }

  ghost predicate ModeCompatible(b: Command, c: Command, mode: string)
    requires mode in b.variants
  {
    mode in c.variants && VariantCompatible(b.variants[mode], c.variants[mode])
  }

  ghost predicate CommandCompatible(b: Command, c: Command) {
    && (b.input != c.input ==> b.input == "none")
    && FieldsCompatible(b.payload, c.payload, Request)
    && FieldsCompatible(b.response, c.response, Response)
    && (b.responseModel != "" ==> b.responseModel == c.responseModel)
    && forall mode :: mode in b.variants ==> ModeCompatible(b, c, mode)
  }

  ghost predicate NamedCommandCompatible(b: Surface, c: Surface, n: string)
    requires n in b.commands
  {
    n in c.commands && CommandCompatible(b.commands[n], c.commands[n])
  }

  /** The sides a model is compared on: those it is read on, or as a response when nothing refers to it. */
  ghost predicate ComparedOn(b: Surface, m: string, side: Side) {
    Reachable(b, side, m) || (side.Response? && !Referenced(b, m))
  }

  ghost predicate ModelCompatible(b: Surface, c: Surface, m: string)
    requires m in b.models
  {
    if m !in c.models then !Referenced(c, m)
    else forall side :: ComparedOn(b, m, side) ==> FieldsCompatible(b.models[m], c.models[m], side)
  }

  ghost predicate EnvelopeCompatible(b: Surface, c: Surface) {
    && FieldsCompatible(b.request, c.request, Request)
    && FieldsCompatible(b.response, c.response, Response)
    && FieldsCompatible(b.errorFrame, c.errorFrame, Response)
  }

  ghost predicate SurfaceCompatible(b: Surface, c: Surface) {
    && (forall n :: n in b.commands ==> NamedCommandCompatible(b, c, n))
    && (forall m :: m in b.models ==> ModelCompatible(b, c, m))
    && EnvelopeCompatible(b, c)
    && b.errorCodes <= c.errorCodes
    && b.capabilities <= c.capabilities
  }

  // ---- the comparison ----------------------------------------------------------------------------------------

  method CompareCommand(b: Command, c: Command, name: string, d: Diff)
    modifies d
    ensures old(d.breaks) <= d.breaks
    ensures d.breaks == [] <==> old(d.breaks) == [] && CommandCompatible(b, c)
  {
    if b.input != c.input && b.input != "none" {
      d.Break(name, InputChanged(b.input, c.input));
    }
    CompareFields(b.payload, c.payload, Request, name + " payload", d);
    CompareFields(b.response, c.response, Response, name + " response", d);
    if b.responseModel != "" && b.responseModel != c.responseModel {
      d.Break(name, ModelChanged(b.responseModel, c.responseModel));
    }
    label variants:
    var todo := b.variants.Keys;
    while todo != {}
      invariant todo <= b.variants.Keys && old@variants(d.breaks) <= d.breaks
      invariant d.breaks == [] <==> (
        old@variants(d.breaks) == [] && forall mode :: mode in b.variants && mode !in todo ==>
          ModeCompatible(b, c, mode))
    {
      var mode :| mode in todo;
      if mode !in c.variants {
        d.Break(name, VariantRemoved(mode));
      } else {
        CompareFields(b.variants[mode].payload, c.variants[mode].payload, Request, name + " (" + mode + ") payload", d);
        CompareFields(b.variants[mode].response, c.variants[mode].response, Response,
          name + " (" + mode + ") response", d);
      }
      todo := todo - {mode};
    }
  }

  method CompareCommands(b: Surface, c: Surface, d: Diff)
    modifies d
    ensures old(d.breaks) <= d.breaks
    ensures d.breaks == [] <==> old(d.breaks) == [] && forall n :: n in b.commands ==> NamedCommandCompatible(b, c, n)
  {
    var todo := b.commands.Keys;
    while todo != {}
      invariant todo <= b.commands.Keys && old(d.breaks) <= d.breaks
      invariant d.breaks == [] <==> (
        old(d.breaks) == [] && forall n :: n in b.commands && n !in todo ==> NamedCommandCompatible(b, c, n))
    {
      var n :| n in todo;
      if n !in c.commands {
        d.Break(n, CommandRemoved);
      } else {
        CompareCommand(b.commands[n], c.commands[n], n, d);
      }
      todo := todo - {n};
    }
  }

  method CompareModel(b: Surface, c: Surface, m: string, sides: set<Side>, kept: bool, d: Diff)
    requires m in b.models
    requires forall side :: side in sides <==> ComparedOn(b, m, side)
    requires kept <==> Referenced(c, m)
    modifies d
    ensures old(d.breaks) <= d.breaks
    ensures d.breaks == [] <==> old(d.breaks) == [] && ModelCompatible(b, c, m)
  {
    if m !in c.models {
      if kept {
        d.Break("model " + m, ModelRemoved);
      }
      return;
    }
    if Request in sides {
      CompareFields(b.models[m], c.models[m], Request, "model " + m, d);
    }
    if Response in sides {
      CompareFields(b.models[m], c.models[m], Response, "model " + m, d);
    }
  }

  method CompareModels(b: Surface, c: Surface, d: Diff)
    modifies d
    ensures old(d.breaks) <= d.breaks
    ensures d.breaks == [] <==> old(d.breaks) == [] && forall m :: m in b.models ==> ModelCompatible(b, c, m)
  {
    var contexts := ModelContexts(b);
    var stillReferenced := ModelContexts(c);
    var todo := b.models.Keys;
    while todo != {}
      invariant todo <= b.models.Keys && old(d.breaks) <= d.breaks
      invariant d.breaks == [] <==> (
        old(d.breaks) == [] && forall m :: m in b.models && m !in todo ==> ModelCompatible(b, c, m))
    {
      var m :| m in todo;
      var sides := if m in contexts then contexts[m] else {Response};
      CompareModel(b, c, m, sides, m in stillReferenced, d);
      todo := todo - {m};
    }
  }

  method CompareNames(b: set<string>, c: set<string>, label_: string, what: What, d: Diff)
    modifies d
    ensures old(d.breaks) <= d.breaks
    ensures d.breaks == [] <==> old(d.breaks) == [] && b <= c
  {
    var todo := b - c;
    assert todo == {} <==> b <= c by { assert b <= c + todo; }
    while todo != {}
      invariant todo <= b - c && old(d.breaks) <= d.breaks
      invariant d.breaks == [] <==> old(d.breaks) == [] && todo == b - c
    {
      var x :| x in todo;
      d.Break(label_ + x, what);
      todo := todo - {x};
    }
  }

  /** No breaks exactly when the current surface is compatible with the base. */
  method Compare(b: Surface, c: Surface) returns (d: Diff)
    ensures fresh(d)
    ensures d.breaks == [] <==> SurfaceCompatible(b, c)
  {
    d := new Diff();
    CompareCommands(b, c, d);
    CompareModels(b, c, d);
    CompareFields(b.request, c.request, Request, "envelope request", d);
    CompareFields(b.response, c.response, Response, "envelope response", d);
    CompareFields(b.errorFrame, c.errorFrame, Response, "envelope error_frame", d);
    CompareNames(b.errorCodes, c.errorCodes, "error code ", CodeRemoved, d);
    CompareNames(b.capabilities, c.capabilities, "capability ", CapabilityRemoved, d);
  }

  /** The frozen baselines, one per protocol version. */
  class Baselines {
    var frozen: map<nat, Surface>

    /** `--write`: freezes the first surface of a version, and afterwards only compatible refreshes of it. */
    method Write(version: nat, cur: Surface) returns (exit: int)
      modifies this
      ensures exit == 0 <==> (version in old(frozen) ==> SurfaceCompatible(old(frozen)[version], cur))
      ensures frozen == if exit == 0 then old(frozen)[version := cur] else old(frozen)
    {
      if version in frozen {
        var d := Compare(frozen[version], cur);
        if d.breaks != [] {
          return 1;
        }
      }
      frozen := frozen[version := cur];
      return 0;
    }
  }
}
