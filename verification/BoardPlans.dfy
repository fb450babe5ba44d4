/** What a plan of a select field's options is, entry by entry (tools/project/board.py `plan_options`), without the
    loops that compute it. */
module BoardPlans {
  import opened Wrappers
  import opened Sequences
  import opened BoardOptions

  // ---- the schema's options ----------------------------------------------------------------------------------

  /** The last option of this name on the board is not taken by one of the first i entries. */
  ghost predicate Available(existing: seq<Existing>, plan: seq<Entry>, i: nat, name: string)
    requires i <= |plan|
  {
    exists m: nat :: Offers(existing, plan, i, name, m)
  }

  ghost predicate Offers(existing: seq<Existing>, plan: seq<Entry>, i: nat, name: string, m: nat)
    requires i <= |plan|
  {
    && m < |existing| && existing[m].name == name && LastOfName(existing, m)
    && forall j :: 0 <= j < i ==> plan[j].id != Some(existing[m].id)
  }

  lemma {:induction false} ByNameLast(existing: seq<Existing>, name: string) returns (m: nat)
    requires name in ByName(existing)
    ensures m < |existing| && existing[m].name == name && LastOfName(existing, m)
    ensures ByName(existing)[name] == existing[m]
    decreases |existing|
  {
    var n := |existing| - 1;
    if existing[n].name == name {
      m := n;
    } else {
      m := ByNameLast(existing[..n], name);
      assert forall j :: 0 <= j < n ==> existing[..n][j] == existing[j];
    }
  }

  lemma {:induction false} ChosenFront(options: seq<Wanted>, byName: map<string, Existing>, i: nat)
    requires i <= |options|
    ensures Chosen(options[..i], byName) == Chosen(options, byName)[..i]
    decreases |options|
  {
    if i == |options| {
      assert options[..i] == options;
    } else {
      var n := |options| - 1;
      ChosenFront(options[..n], byName, i);
      assert options[..n][..i] == options[..i];
    }
  }

  /** An id is taken by the first i options exactly when one of the first i entries has it. */
  lemma TakenBefore(spec: Spec, existing: seq<Existing>, used: map<string, nat>, i: nat, id: string)
    requires i <= |spec.options|
    ensures var plan := Plan(spec, existing, used);
      && |spec.options| <= |plan|
      && (id in Kept(spec.options[..i], ByName(existing)) <==> exists j :: 0 <= j < i && plan[j].id == Some(id))
  {
    var byName, plan := ByName(existing), Plan(spec, existing, used);
    ChosenIds(spec.options[..i], byName);
    ChosenFront(spec.options, byName, i);
    assert forall j :: 0 <= j < i ==> plan[j] == Chosen(spec.options[..i], byName)[j];
  }

  lemma AvailableName(spec: Spec, existing: seq<Existing>, used: map<string, nat>, i: nat, name: string)
    requires i <= |spec.options| <= |Plan(spec, existing, used)|
    ensures var byName := ByName(existing);
      Available(existing, Plan(spec, existing, used), i, name) <==>
      name in byName && byName[name].id !in Kept(spec.options[..i], byName)
  {
    var byName, plan := ByName(existing), Plan(spec, existing, used);
    if name in byName {
      var m := ByNameLast(existing, name);
      TakenBefore(spec, existing, used, i, existing[m].id);
      assert Offers(existing, plan, i, name, m) <==> byName[name].id !in Kept(spec.options[..i], byName);
    }
    forall m: nat | Offers(existing, plan, i, name, m)
      ensures name in byName && byName[name].id !in Kept(spec.options[..i], byName)
    {
      ByNameFinds(existing, m);
      TakenBefore(spec, existing, used, i, existing[m].id);
    }
  }

  /** The first of some names whose option is not taken. */
  lemma {:induction false} MatchFirst(names: seq<string>, byName: map<string, Existing>, kept: set<string>)
    returns (a: nat)
    ensures a <= |names| && forall b :: 0 <= b < a ==> !(names[b] in byName && byName[names[b]].id !in kept)
    ensures a == |names| ==> Match(names, byName, kept) == None
    ensures a < |names| ==>
      names[a] in byName && byName[names[a]].id !in kept && Match(names, byName, kept) == Some(byName[names[a]].id)
    decreases names
  {
    if names == [] || (names[0] in byName && byName[names[0]].id !in kept) {
      a := 0;
    } else {
      var c := MatchFirst(names[1..], byName, kept);
      a := c + 1;
      assert forall b :: 1 <= b < |names| ==> names[b] == names[1..][b - 1];
    }
  }

  /** The i-th entry is the i-th option of the schema, with its color and description, under the id of the last option
      on the board that has its name, or else the first of its former names, and is not taken by an earlier entry;
      without such an option it is new. */
  lemma ChoosesFirst(spec: Spec, existing: seq<Existing>, used: map<string, nat>, i: nat) returns (a: nat)
    requires i < |spec.options|
    ensures var plan, w := Plan(spec, existing, used), spec.options[i];
      && |spec.options| <= |plan| && a <= 1 + |w.renamedFrom|
      && plan[i].name == w.name && plan[i].color == w.color && plan[i].description == w.description
      && (forall b :: 0 <= b < a ==> !Available(existing, plan, i, ([w.name] + w.renamedFrom)[b]))
      && (a == 1 + |w.renamedFrom| ==> plan[i].id == None)
      && (a < 1 + |w.renamedFrom| ==> exists m: nat ::
        Offers(existing, plan, i, ([w.name] + w.renamedFrom)[a], m) && plan[i].id == Some(existing[m].id))
  {
    var byName, plan, w := ByName(existing), Plan(spec, existing, used), spec.options[i];
    var names, kept := [w.name] + w.renamedFrom, Kept(spec.options[..i], byName);
    ChosenPrefix(spec.options, byName, i);
    a := MatchFirst(names, byName, kept);
    forall b | 0 <= b < |names|
      ensures Available(existing, plan, i, names[b]) <==> names[b] in byName && byName[names[b]].id !in kept
    {
      AvailableName(spec, existing, used, i, names[b]);
    }
    if a < |names| {
      var m := ByNameLast(existing, names[a]);
      TakenBefore(spec, existing, used, i, existing[m].id);
      assert Offers(existing, plan, i, names[a], m);
    }
  }

  // ---- the leftovers -----------------------------------------------------------------------------------------

  /** An entry is an option of the board as it is. */
  predicate Copies(e: Entry, o: Existing) {
    && e.id == Some(o.id) && e.name == o.name && e.color == o.color
    && e.description == if o.description.Some? then o.description.value else ""
  }

  /** The entries are the board's options at these places, in order. */
  predicate CopiesAll(entries: seq<Entry>, existing: seq<Existing>, ks: seq<nat>) {
    && Places(ks, |existing|) && |ks| == |entries|
    && forall t :: 0 <= t < |ks| ==> Copies(entries[t], existing[ks[t]])
  }

  lemma CopiesMore(entries: seq<Entry>, front: seq<Existing>, ks: seq<nat>, o: Existing)
    requires CopiesAll(entries, front, ks)
    ensures CopiesAll(entries, front + [o], ks)
    ensures CopiesAll(entries + [AsIs(o)], front + [o], ks + [|front|])
  {
    assert (front + [o])[|front|] == o && Copies(AsIs(o), o);
  }

  lemma {:induction false} LeftoverPlaces(
    existing: seq<Existing>, kept: set<string>, retired: set<string>, used: map<string, nat>) returns (ks: seq<nat>)
    ensures CopiesAll(Leftovers(existing, kept, retired, used), existing, ks)
    ensures forall m: nat :: m < |existing| ==> (m in ks <==> Stays(existing[m], kept, retired, used))
    decreases existing
  {
    if existing == [] {
      ks := [];
    } else {
      var n := |existing| - 1;
      var front, o := existing[..n], existing[n];
      ks := LeftoverPlaces(front, kept, retired, used);
      CopiesMore(Leftovers(front, kept, retired, used), front, ks, o);
      assert existing == front + [o] && forall m: nat :: m < n ==> front[m] == existing[m];
      if Stays(o, kept, retired, used) { ks := ks + [n]; }
    }
  }

  /** No entry of the schema's part has the option's id. */
  ghost predicate Untaken(plan: seq<Entry>, k: nat, o: Existing)
    requires k <= |plan|
  {
    forall j :: 0 <= j < k ==> plan[j].id != Some(o.id)
  }

  lemma UntakenExactly(spec: Spec, existing: seq<Existing>, used: map<string, nat>, o: Existing)
    ensures var plan := Plan(spec, existing, used);
      && |spec.options| <= |plan|
      && (Untaken(plan, |spec.options|, o) <==> o.id !in Kept(spec.options, ByName(existing)))
  {
    TakenBefore(spec, existing, used, |spec.options|, o.id);
    assert spec.options[..|spec.options|] == spec.options;
  }

  /** After the schema's options come, in the board's order and as they are, exactly those of its options that the
      schema took no id of and that are not retired or are held by some item. */
  lemma LeavesTheRest(spec: Spec, existing: seq<Existing>, used: map<string, nat>) returns (ks: seq<nat>)
    ensures var plan, k := Plan(spec, existing, used), |spec.options|;
      && k <= |plan| && CopiesAll(plan[k..], existing, ks)
      && forall m: nat :: m < |existing| ==> (m in ks <==>
        Untaken(plan, k, existing[m]) && (existing[m].name !in spec.retired || Count(used, existing[m].name) > 0))
  {
    var kept := Kept(spec.options, ByName(existing));
    ks := LeftoverPlaces(existing, kept, spec.retired, used);
    PlanRest(spec, existing, used);
    forall m: nat | m < |existing|
      ensures Untaken(Plan(spec, existing, used), |spec.options|, existing[m]) <==> existing[m].id !in kept
    {
      UntakenExactly(spec, existing, used, existing[m]);
    }
  }

  lemma PlanRest(spec: Spec, existing: seq<Existing>, used: map<string, nat>)
    ensures var plan := Plan(spec, existing, used);
      && |spec.options| <= |plan|
      && plan[|spec.options|..] ==
        Leftovers(existing, Kept(spec.options, ByName(existing)), spec.retired, used)
  {
  }

  /** A plan differs from the board exactly when some option's id, name, color or description does, or their number. */
  lemma DifferExactly(desired: seq<Entry>, existing: seq<Existing>)
    ensures !Differ(desired, existing) <==>
      |desired| == |existing| && forall i :: 0 <= i < |desired| ==> Copies(desired[i], existing[i])
  {
    assert forall i :: 0 <= i < |desired| && |desired| == |existing| ==>
      (desired[i] == AsIs(existing[i]) <==> Copies(desired[i], existing[i]));
  }
}
