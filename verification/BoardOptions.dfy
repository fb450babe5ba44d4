/** Reconciling the options of a project board's select field with its schema (tools/project/board.py). */
module BoardOptions {
  import opened Wrappers

  /** An option on the board, one in the schema, and one to be written. */
  datatype Existing = Existing(id: string, name: string, color: string, description: Option<string>)
  datatype Wanted = Wanted(name: string, color: string, description: string, renamedFrom: seq<string>)
  datatype Entry = Entry(id: Option<string>, name: string, color: string, description: string)

  datatype Spec = Spec(options: seq<Wanted>, retired: set<string>)

  // ---- usage -------------------------------------------------------------------------------------------------

  /** The values of one item: for each field the texts it holds (a single value is a list of one; None is no text). */
  type Item = seq<(string, seq<Option<string>>)>

  function Get(usage: map<(string, string), nat>, field: string, name: string): nat {
    if (field, name) in usage then usage[(field, name)] else 0
  }

  predicate Holds(item: Item, field: string, name: string) {
    exists i, j :: 0 <= i < |item| && item[i].0 == field && 0 <= j < |item[i].1| && item[i].1[j] == Some(name)
  }

  /** How often an item holds a name in a field. */
  function HeldBy(item: Item, field: string, name: string): nat {
    if item == [] then 0
    else
      var n := |item| - 1;
      HeldBy(item[..n], field, name) + if item[n].0 == field then multiset(item[n].1)[Some(name)] else 0
  }

  /** How often all items together do. */
  function Held(items: seq<Item>, field: string, name: string): nat {
    if items == [] then 0
    else var n := |items| - 1; Held(items[..n], field, name) + HeldBy(items[n], field, name)
  }

  method OptionUsage(items: seq<Item>) returns (usage: map<(string, string), nat>)
    ensures forall f, n :: Get(usage, f, n) == Held(items, f, n)
  {
    usage := map[];
    for k := 0 to |items|
      invariant forall f, n :: Get(usage, f, n) == Held(items[..k], f, n)
    {
      ghost var before := usage;
      var item := items[k];
      for i := 0 to |item|
        invariant forall f, n :: Get(usage, f, n) == Get(before, f, n) + HeldBy(item[..i], f, n)
      {
        usage := CountTexts(usage, item[i].0, item[i].1);
        assert item[..i + 1][..i] == item[..i];
      }
      assert item[..|item|] == item && items[..k + 1][..k] == items[..k];
    }
    assert items[..|items|] == items;
  }

  method CountTexts(usage: map<(string, string), nat>, field: string, texts: seq<Option<string>>)
    returns (now: map<(string, string), nat>)
    ensures forall f, n ::
      Get(now, f, n) == Get(usage, f, n) + if f == field then multiset(texts)[Some(n)] else 0
  {
    now := usage;
    for j := 0 to |texts|
      invariant forall f, n ::
        Get(now, f, n) == Get(usage, f, n) + if f == field then multiset(texts[..j])[Some(n)] else 0
    {
      if texts[j].Some? {
        now := now[(field, texts[j].value) := Get(now, field, texts[j].value) + 1];
      }
      assert texts[..j + 1] == texts[..j] + [texts[j]];
    }
    assert texts[..|texts|] == texts;
  }

  lemma {:induction false} HeldByHolds(item: Item, field: string, name: string)
    ensures HeldBy(item, field, name) > 0 <==> Holds(item, field, name)
    decreases item
  {
    if item != [] {
      var n := |item| - 1;
      HeldByHolds(item[..n], field, name);
      assert item == item[..n] + [item[n]];
      assert multiset(item[n].1)[Some(name)] > 0 <==> Some(name) in item[n].1;
      if Holds(item[..n], field, name) {
        var i, j :|
          && 0 <= i < n && item[..n][i].0 == field
          && 0 <= j < |item[..n][i].1| && item[..n][i].1[j] == Some(name);
        assert item[i] == item[..n][i];
      }
      if Holds(item, field, name) {
        var i, j :| 0 <= i < |item| && item[i].0 == field && 0 <= j < |item[i].1| && item[i].1[j] == Some(name);
        if i < n { assert item[..n][i] == item[i]; }
      }
    }
  }

  /** A name is counted exactly when some item holds it. */
  lemma {:induction false} HeldHolds(items: seq<Item>, field: string, name: string)
    ensures Held(items, field, name) > 0 <==> exists k :: 0 <= k < |items| && Holds(items[k], field, name)
    decreases items
  {
    if items != [] {
      var n := |items| - 1;
      HeldHolds(items[..n], field, name);
      HeldByHolds(items[n], field, name);
      assert forall k :: 0 <= k < n ==> items[..n][k] == items[k];
    }
  }

  // ---- the plan ----------------------------------------------------------------------------------------------

  function ByName(existing: seq<Existing>): map<string, Existing> {
    if existing == [] then map[]
    else var last := existing[|existing| - 1]; ByName(existing[..|existing| - 1])[last.name := last]
  }

  /** The id of the first option under one of these names that is not taken yet. */
  function Match(names: seq<string>, byName: map<string, Existing>, kept: set<string>): Option<string> {
    if names == [] then None
    else if names[0] in byName && byName[names[0]].id !in kept then Some(byName[names[0]].id)
    else Match(names[1..], byName, kept)
  }

  function ToEntry(w: Wanted, id: Option<string>): Entry {
    Entry(id, w.name, w.color, w.description)
  }

  function Taken(id: Option<string>): set<string> {
    match id case None => {} case Some(i) => {i}
  }

  /** The ids taken by the schema's options, in their order. */
  function Kept(options: seq<Wanted>, byName: map<string, Existing>): set<string> {
    if options == [] then {}
    else
      var kept := Kept(options[..|options| - 1], byName);
      kept + Taken(IdOf(options[|options| - 1], byName, kept))
  }

  function IdOf(w: Wanted, byName: map<string, Existing>, kept: set<string>): Option<string> {
    Match([w.name] + w.renamedFrom, byName, kept)
  }

  function Chosen(options: seq<Wanted>, byName: map<string, Existing>): (r: seq<Entry>)
    ensures |r| == |options|
  {
    if options == [] then []
    else
      var n := |options| - 1;
      Chosen(options[..n], byName) + [ToEntry(options[n], IdOf(options[n], byName, Kept(options[..n], byName)))]
  }

  /** How many items hold a name in the field that is planned. */
  function Count(used: map<string, nat>, name: string): nat {
    if name in used then used[name] else 0
  }

  predicate Stays(o: Existing, kept: set<string>, retired: set<string>, used: map<string, nat>) {
    o.id !in kept && (o.name !in retired || Count(used, o.name) > 0)
  }

  function AsIs(o: Existing): Entry {
    Entry(Some(o.id), o.name, o.color, match o.description case None => "" case Some(d) => d)
  }

  function Leftovers(
    existing: seq<Existing>, kept: set<string>, retired: set<string>, used: map<string, nat>): seq<Entry> {
    if existing == [] then []
    else
      var n := |existing| - 1;
      Leftovers(existing[..n], kept, retired, used)
        + if Stays(existing[n], kept, retired, used) then [AsIs(existing[n])] else []
  }

  function Plan(spec: Spec, existing: seq<Existing>, used: map<string, nat>): seq<Entry> {
    var byName := ByName(existing);
    Chosen(spec.options, byName) + Leftovers(existing, Kept(spec.options, byName), spec.retired, used)
  }

  predicate Differ(desired: seq<Entry>, existing: seq<Existing>) {
    |desired| != |existing| || exists i :: 0 <= i < |desired| && desired[i] != AsIs(existing[i])
  }

  function UsedIn(usage: map<(string, string), nat>, field: string): map<string, nat> {
    map k | k in usage && k.0 == field :: k.1 := usage[k]
  }

  lemma UsedInField(usage: map<(string, string), nat>, field: string, name: string)
    ensures Count(UsedIn(usage, field), name) == Get(usage, field, name)
  {
    if (field, name) in usage { assert name in UsedIn(usage, field); }
  }

  method IndexByName(existing: seq<Existing>) returns (byName: map<string, Existing>)
    ensures byName == ByName(existing)
  {
    byName := map[];
    for i := 0 to |existing|
      invariant byName == ByName(existing[..i])
    {
      assert existing[..i + 1][..i] == existing[..i];
      byName := byName[existing[i].name := existing[i]];
    }
    assert existing[..|existing|] == existing;
  }

  method ChooseIds(options: seq<Wanted>, byName: map<string, Existing>) returns (out: seq<Entry>, kept: set<string>)
    ensures out == Chosen(options, byName) && kept == Kept(options, byName)
  {
    out, kept := [], {};
    for i := 0 to |options|
      invariant out == Chosen(options[..i], byName) && kept == Kept(options[..i], byName)
    {
      assert options[..i + 1][..i] == options[..i];
      var w := options[i];
      var id := FindId([w.name] + w.renamedFrom, byName, kept);
      if id.Some? { kept := kept + {id.value}; }
      out := out + [Entry(id, w.name, w.color, w.description)];
    }
    assert options[..|options|] == options;
  }

  datatype Warning = StillUsed(name: string, items: nat) | NotInSchema(name: string)

  /** One warning for each entry, which says why it stays: retired but held by items, or unknown to the schema. */
  predicate Explains(warnings: seq<Warning>, rest: seq<Entry>, retired: set<string>, used: map<string, nat>) {
    && |warnings| == |rest|
    && forall i :: 0 <= i < |rest| ==>
      if rest[i].name in retired then
        Count(used, rest[i].name) > 0 && warnings[i] == StillUsed(rest[i].name, Count(used, rest[i].name))
      else warnings[i] == NotInSchema(rest[i].name)
  }

  method KeepRest(
    existing: seq<Existing>, kept: set<string>, retired: set<string>, usage: map<(string, string), nat>, field: string,
    ghost used: map<string, nat>)
    returns (rest: seq<Entry>, warnings: seq<Warning>)
    requires forall n :: Count(used, n) == Get(usage, field, n)
    ensures rest == Leftovers(existing, kept, retired, used) && Explains(warnings, rest, retired, used)
  {
    rest, warnings := [], [];
    for i := 0 to |existing|
      invariant rest == Leftovers(existing[..i], kept, retired, used) && Explains(warnings, rest, retired, used)
    {
      assert existing[..i + 1][..i] == existing[..i];
      var o := existing[i];
      if o.id in kept { continue; }
      var n := Get(usage, field, o.name);
      if o.name in retired && n == 0 { continue; }
      warnings := warnings + [if o.name in retired then StillUsed(o.name, n) else NotInSchema(o.name)];
      rest := rest + [Entry(Some(o.id), o.name, o.color, match o.description case None => "" case Some(d) => d)];
    }
    assert existing[..|existing|] == existing;
  }

  method PlanOptions(spec: Spec, existing: seq<Existing>, usage: map<(string, string), nat>, field: string)
    returns (out: seq<Entry>, warnings: seq<Warning>)
    ensures out == Plan(spec, existing, UsedIn(usage, field)) && |spec.options| <= |out|
    ensures Explains(warnings, out[|spec.options|..], spec.retired, UsedIn(usage, field))
  {
    var byName := IndexByName(existing);
    var chosen, kept := ChooseIds(spec.options, byName);
    forall n ensures Count(UsedIn(usage, field), n) == Get(usage, field, n) { UsedInField(usage, field, n); }
    var rest;
    rest, warnings := KeepRest(existing, kept, spec.retired, usage, field, UsedIn(usage, field));
    out := chosen + rest;
    assert out[|spec.options|..] == rest;
  }

  method FindId(names: seq<string>, byName: map<string, Existing>, kept: set<string>) returns (id: Option<string>)
    ensures id == Match(names, byName, kept)
  {
    for i := 0 to |names|
      invariant Match(names, byName, kept) == Match(names[i..], byName, kept)
    {
      assert names[i..][1..] == names[i + 1..];
      if names[i] in byName && byName[names[i]].id !in kept { return Some(byName[names[i]].id); }
    }
    id := None;
  }

  // ---- ids ---------------------------------------------------------------------------------------------------

  ghost predicate HasId(entries: seq<Entry>, id: string) {
    exists i :: 0 <= i < |entries| && entries[i].id == Some(id)
  }

  predicate NoIdTwice(entries: seq<Entry>) {
    forall i, j :: 0 <= i < j < |entries| && entries[i].id.Some? ==> entries[i].id != entries[j].id
  }

  predicate UniqueIds(existing: seq<Existing>) {
    forall i, j :: 0 <= i < j < |existing| ==> existing[i].id != existing[j].id
  }

  lemma HasSnoc(entries: seq<Entry>, e: Entry, id: string)
    ensures HasId(entries + [e], id) <==> HasId(entries, id) || e.id == Some(id)
  {
    var all := entries + [e];
    assert all[|entries|] == e;
    assert forall i :: 0 <= i < |entries| ==> all[i] == entries[i];
  }

  lemma HasConcat(a: seq<Entry>, b: seq<Entry>, id: string)
    ensures HasId(a + b, id) <==> HasId(a, id) || HasId(b, id)
  {
    var all := a + b;
    assert forall i :: 0 <= i < |a| ==> all[i] == a[i];
    assert forall i :: 0 <= i < |b| ==> all[|a| + i] == b[i];
    if HasId(all, id) {
      var i :| 0 <= i < |all| && all[i].id == Some(id);
      if i >= |a| { assert b[i - |a|].id == Some(id); }
    }
  }

  lemma {:induction false} MatchFresh(names: seq<string>, byName: map<string, Existing>, kept: set<string>)
    ensures Match(names, byName, kept).Some? ==> Match(names, byName, kept).value !in kept
    ensures Match(names, byName, kept).Some? ==>
      exists n :: n in names && n in byName && byName[n].id == Match(names, byName, kept).value
    decreases names
  {
    if names != [] && !(names[0] in byName && byName[names[0]].id !in kept) {
      MatchFresh(names[1..], byName, kept);
    }
  }

  /** The ids taken are exactly those in the schema's part of the plan, each once. */
  lemma {:induction false} ChosenIds(options: seq<Wanted>, byName: map<string, Existing>)
    ensures NoIdTwice(Chosen(options, byName))
    ensures forall id :: id in Kept(options, byName) <==> HasId(Chosen(options, byName), id)
    decreases options
  {
    if options != [] {
      var n := |options| - 1;
      var before, kept := Chosen(options[..n], byName), Kept(options[..n], byName);
      var id := IdOf(options[n], byName, kept);
      var e := ToEntry(options[n], id);
      ChosenIds(options[..n], byName);
      MatchFresh([options[n].name] + options[n].renamedFrom, byName, kept);
      forall x ensures HasId(before + [e], x) <==> HasId(before, x) || e.id == Some(x) { HasSnoc(before, e, x); }
      assert e.id.Some? ==> !HasId(before, e.id.value);
      assert NoIdTwice(before + [e]);
    }
  }

  lemma {:induction false} LeftoverIds(
    existing: seq<Existing>, kept: set<string>, retired: set<string>, used: map<string, nat>)
    ensures forall id :: HasId(Leftovers(existing, kept, retired, used), id) <==>
      exists i :: 0 <= i < |existing| && existing[i].id == id && Stays(existing[i], kept, retired, used)
    ensures UniqueIds(existing) ==> NoIdTwice(Leftovers(existing, kept, retired, used))
    decreases existing
  {
    if existing != [] {
      var n := |existing| - 1;
      var o := existing[n];
      var before := Leftovers(existing[..n], kept, retired, used);
      LeftoverIds(existing[..n], kept, retired, used);
      assert forall i :: 0 <= i < n ==> existing[..n][i] == existing[i];
      if Stays(o, kept, retired, used) {
        forall id ensures HasId(before + [AsIs(o)], id) <==> HasId(before, id) || AsIs(o).id == Some(id) {
          HasSnoc(before, AsIs(o), id);
        }
        if UniqueIds(existing) {
          assert !HasId(before, o.id);
          assert NoIdTwice(before + [AsIs(o)]);
        }
      } else {
        assert before + [] == before;
      }
    }
  }

  lemma {:induction false} ByNameIsExisting(existing: seq<Existing>)
    ensures forall n :: n in ByName(existing) ==> ByName(existing)[n] in existing && ByName(existing)[n].name == n
    decreases existing
  {
    if existing != [] {
      var n := |existing| - 1;
      ByNameIsExisting(existing[..n]);
      assert existing == existing[..n] + [existing[n]];
    }
  }

  /** The id belongs to an option of this name or one of its former names. */
  ghost predicate IsFormer(w: Wanted, byName: map<string, Existing>, id: string) {
    exists n :: n in [w.name] + w.renamedFrom && n in byName && byName[n].id == id
  }

  lemma {:induction false} ChosenAreExisting(options: seq<Wanted>, byName: map<string, Existing>, i: nat)
    requires i < |options|
    ensures Chosen(options, byName)[i] == ToEntry(options[i], Chosen(options, byName)[i].id)
    ensures var e := Chosen(options, byName)[i]; e.id.Some? ==> IsFormer(options[i], byName, e.id.value)
    decreases |options|
  {
    var n := |options| - 1;
    if i < n {
      ChosenAreExisting(options[..n], byName, i);
    } else {
      MatchFresh([options[n].name] + options[n].renamedFrom, byName, Kept(options[..n], byName));
    }
  }

  /** With distinct ids on the board: the plan lists the schema's options in order, each under its own or a former
      option's id or as a new one; no id stands twice; every id is one of the board's; and an option is dropped only
      if it is retired and no item holds it. */
  lemma PlanKeepsIds(spec: Spec, existing: seq<Existing>, used: map<string, nat>)
    requires UniqueIds(existing)
    ensures var plan := Plan(spec, existing, used); |plan| >= |spec.options| && NoIdTwice(plan)
    ensures var plan := Plan(spec, existing, used); forall i :: 0 <= i < |spec.options| ==>
      && plan[i] == ToEntry(spec.options[i], plan[i].id)
      && (plan[i].id.Some? ==> IsFormer(spec.options[i], ByName(existing), plan[i].id.value))
    ensures forall i :: 0 <= i < |existing| && !HasId(Plan(spec, existing, used), existing[i].id) ==>
      existing[i].name in spec.retired && Count(used, existing[i].name) == 0
    ensures forall id :: HasId(Plan(spec, existing, used), id) ==>
      exists i :: 0 <= i < |existing| && existing[i].id == id
  {
    var byName := ByName(existing);
    var kept := Kept(spec.options, byName);
    var chosen, rest := Chosen(spec.options, byName), Leftovers(existing, kept, spec.retired, used);
    ChosenIds(spec.options, byName);
    LeftoverIds(existing, kept, spec.retired, used);
    ByNameIsExisting(existing);
    forall i | 0 <= i < |spec.options|
      ensures chosen[i] == ToEntry(spec.options[i], chosen[i].id)
      ensures chosen[i].id.Some? ==> IsFormer(spec.options[i], byName, chosen[i].id.value)
    {
      ChosenAreExisting(spec.options, byName, i);
    }
    forall id ensures HasId(chosen + rest, id) <==> HasId(chosen, id) || HasId(rest, id) {
      HasConcat(chosen, rest, id);
    }
    Disjoint(chosen, rest, kept);
    forall id | HasId(chosen, id) ensures exists i :: 0 <= i < |existing| && existing[i].id == id {
      var i :| 0 <= i < |chosen| && chosen[i].id == Some(id);
      var n :| n in [spec.options[i].name] + spec.options[i].renamedFrom && n in byName && byName[n].id == id;
      assert byName[n] in existing;
    }
  }

  lemma Disjoint(a: seq<Entry>, b: seq<Entry>, kept: set<string>)
    requires NoIdTwice(a) && NoIdTwice(b)
    requires (forall id :: HasId(a, id) ==> id in kept) && forall id :: HasId(b, id) ==> id !in kept
    ensures NoIdTwice(a + b)
  {
    var all := a + b;
    forall i, j | 0 <= i < j < |all| && all[i].id.Some? ensures all[i].id != all[j].id {
      if i < |a| <= j {
        assert HasId(a, all[i].id.value);
        if all[j].id.Some? { assert b[j - |a|] == all[j] && HasId(b, all[j].id.value); }
      } else if i >= |a| {
        assert all[i] == b[i - |a|] && all[j] == b[j - |a|];
      }
    }
  }

  // ---- applying the plan and planning again ------------------------------------------------------------------

  /** No later option has its name. */
  predicate LastOfName(now: seq<Existing>, i: nat)
    requires i < |now|
  {
    forall j :: i < j < |now| ==> now[j].name != now[i].name
  }

  /** No later option has the name of one of the first k. */
  predicate Settled(now: seq<Existing>, k: nat)
    requires k <= |now|
  {
    forall i :: 0 <= i < k ==> LastOfName(now, i)
  }

  predicate UniqueWanted(options: seq<Wanted>) {
    forall i, j :: 0 <= i < j < |options| ==> options[i].name != options[j].name
  }

  /** The board after the plan was written: the options as planned, under their ids or new ones. */
  predicate Applied(plan: seq<Entry>, now: seq<Existing>) {
    && |now| == |plan| && UniqueIds(now)
    && forall i :: 0 <= i < |plan| ==>
      plan[i] == AsIs(now[i]).(id := plan[i].id) && (plan[i].id.Some? ==> now[i].id == plan[i].id.value)
  }

  lemma {:induction false} ByNameFinds(existing: seq<Existing>, i: nat)
    requires i < |existing| && LastOfName(existing, i)
    ensures existing[i].name in ByName(existing) && ByName(existing)[existing[i].name] == existing[i]
    decreases |existing|
  {
    var n := |existing| - 1;
    if i < n {
      assert forall j :: 0 <= j < n ==> existing[..n][j] == existing[j];
      ByNameFinds(existing[..n], i);
    }
  }

  lemma {:induction false} KeptGrows(options: seq<Wanted>, byName: map<string, Existing>, i: nat)
    requires i <= |options|
    ensures Kept(options[..i], byName) <= Kept(options, byName)
    decreases |options|
  {
    var n := |options| - 1;
    if i <= n {
      KeptGrows(options[..n], byName, i);
      assert options[..n][..i] == options[..i];
    } else {
      assert options[..i] == options;
    }
  }

  /** The last option on the board under a schema option's own name is taken. */
  lemma OwnNameTaken(options: seq<Wanted>, existing: seq<Existing>, i: nat, k: nat)
    requires i < |options| && k < |existing| && LastOfName(existing, k) && existing[k].name == options[i].name
    ensures existing[k].id in Kept(options, ByName(existing))
  {
    var byName := ByName(existing);
    ByNameFinds(existing, k);
    KeptGrows(options, byName, i);
    KeptGrows(options, byName, i + 1);
    assert options[..i + 1][..i] == options[..i];
    var names := [options[i].name] + options[i].renamedFrom;
    assert names[0] == options[i].name;
  }

  ghost predicate IsLeftover(
    e: Entry, existing: seq<Existing>, kept: set<string>, retired: set<string>, used: map<string, nat>) {
    exists i :: 0 <= i < |existing| && e == AsIs(existing[i]) && Stays(existing[i], kept, retired, used)
  }

  /** Each leftover is one of the board's options. */
  lemma {:induction false} LeftoversFromBoard(
    existing: seq<Existing>, kept: set<string>, retired: set<string>, used: map<string, nat>, j: nat)
    requires j < |Leftovers(existing, kept, retired, used)|
    ensures IsLeftover(Leftovers(existing, kept, retired, used)[j], existing, kept, retired, used)
    decreases existing
  {
    var n := |existing| - 1;
    var before, all := Leftovers(existing[..n], kept, retired, used), Leftovers(existing, kept, retired, used);
    if j < |before| {
      LeftoversFromBoard(existing[..n], kept, retired, used, j);
      var i :| 0 <= i < n && before[j] == AsIs(existing[..n][i]) && Stays(existing[..n][i], kept, retired, used);
      assert existing[..n][i] == existing[i] && all[j] == before[j];
    } else {
      assert all[j] == AsIs(existing[n]);
    }
  }

  /** No schema option's name stands twice on the board. */
  predicate NamedOnce(options: seq<Wanted>, existing: seq<Existing>) {
    forall i, a, b :: 0 <= i < |options| && 0 <= a < b < |existing| && existing[a].name == options[i].name ==>
      existing[b].name != options[i].name
  }

  lemma LeftoverNames(
    options: seq<Wanted>, existing: seq<Existing>, retired: set<string>, used: map<string, nat>, i: nat, e: Entry)
    requires NamedOnce(options, existing) && i < |options|
    requires IsLeftover(e, existing, Kept(options, ByName(existing)), retired, used)
    ensures e.name != options[i].name
  {
    var kept := Kept(options, ByName(existing));
    var m :| 0 <= m < |existing| && e == AsIs(existing[m]) && Stays(existing[m], kept, retired, used);
    if existing[m].name == options[i].name {
      assert LastOfName(existing, m);
      OwnNameTaken(options, existing, i, m);
    }
  }

  /** The names of the schema's options stand first and once on the applied board. */
  lemma PlanSettles(spec: Spec, existing: seq<Existing>, used: map<string, nat>, now: seq<Existing>)
    requires NamedOnce(spec.options, existing) && UniqueWanted(spec.options)
    requires Applied(Plan(spec, existing, used), now)
    ensures |spec.options| <= |now| && Settled(now, |spec.options|)
  {
    var k, plan := |spec.options|, Plan(spec, existing, used);
    AppliedPlan(spec, existing, used, now);
    forall i, j | 0 <= i < k && i < j < |now| ensures now[j].name != now[i].name {
      assert AsIs(now[i]) == ToEntry(spec.options[i], Some(now[i].id));
      if j < k {
        assert AsIs(now[j]) == ToEntry(spec.options[j], Some(now[j].id));
      } else {
        var kept := Kept(spec.options, ByName(existing));
        assert plan[j] == Leftovers(existing, kept, spec.retired, used)[j - k];
        LeftoversFromBoard(existing, kept, spec.retired, used, j - k);
        LeftoverNames(spec.options, existing, spec.retired, used, i, plan[j]);
      }
    }
  }

  function Ids(now: seq<Existing>): set<string> {
    if now == [] then {} else Ids(now[..|now| - 1]) + {now[|now| - 1].id}
  }

  lemma {:induction false} InIds(now: seq<Existing>, id: string)
    ensures id in Ids(now) <==> exists i :: 0 <= i < |now| && now[i].id == id
    decreases now
  {
    if now != [] {
      var n := |now| - 1;
      InIds(now[..n], id);
      assert forall i :: 0 <= i < n ==> now[..n][i] == now[i];
    }
  }

  function AllAsIs(now: seq<Existing>): (r: seq<Entry>)
    ensures |r| == |now| && forall i :: 0 <= i < |now| ==> r[i] == AsIs(now[i])
  {
    if now == [] then [] else AllAsIs(now[..|now| - 1]) + [AsIs(now[|now| - 1])]
  }

  /** On the applied board a schema option finds itself exactly when no later option has its name. */
  lemma FindsItself(w: Wanted, now: seq<Existing>, n: nat)
    requires UniqueIds(now) && n < |now| && now[n].name == w.name
    ensures IdOf(w, ByName(now), Ids(now[..n])) == Some(now[n].id) <==> LastOfName(now, n)
  {
    var m := LastNamed(now, n);
    ByNameFinds(now, m);
    InIds(now[..n], now[m].id);
    assert forall i :: 0 <= i < n ==> now[..n][i] == now[i];
    assert ([w.name] + w.renamedFrom)[0] == w.name;
  }

  lemma LastNamed(now: seq<Existing>, n: nat) returns (m: nat)
    requires n < |now|
    ensures n <= m < |now| && now[m].name == now[n].name && LastOfName(now, m)
    ensures LastOfName(now, n) <==> m == n
    decreases |now| - n
  {
    if LastOfName(now, n) {
      m := n;
    } else {
      var j :| n < j < |now| && now[j].name == now[n].name;
      m := LastNamed(now, j);
    }
  }

  /** The board holds the schema's options first, as the schema wants them. */
  predicate Holding(options: seq<Wanted>, now: seq<Existing>) {
    && UniqueIds(now) && |options| <= |now|
    && forall j :: 0 <= j < |options| ==> AsIs(now[j]) == ToEntry(options[j], Some(now[j].id))
  }

  lemma {:induction false} ReplanChosen(options: seq<Wanted>, now: seq<Existing>, i: nat)
    requires Holding(options, now) && i <= |options| && Settled(now, i)
    ensures Kept(options[..i], ByName(now)) == Ids(now[..i]) && Chosen(options[..i], ByName(now)) == AllAsIs(now[..i])
    decreases i
  {
    if i > 0 {
      var n := i - 1;
      ReplanChosen(options, now, n);
      assert options[..i][..n] == options[..n] && now[..i][..n] == now[..n];
      assert AsIs(now[n]) == ToEntry(options[n], Some(now[n].id));
      FindsItself(options[n], now, n);
    }
  }

  lemma {:induction false} ChosenPrefix(options: seq<Wanted>, byName: map<string, Existing>, n: nat)
    requires n < |options|
    ensures Chosen(options, byName)[n] == ToEntry(options[n], IdOf(options[n], byName, Kept(options[..n], byName)))
    decreases |options|
  {
    var m := |options| - 1;
    if n < m {
      ChosenPrefix(options[..m], byName, n);
      assert options[..m][..n] == options[..n];
    }
  }

  /** An option that a later one of its name follows is given that one's id. */
  lemma {:induction false} Unsettled(options: seq<Wanted>, now: seq<Existing>, i: nat)
    requires Holding(options, now) && i <= |options| && !Settled(now, i)
    ensures exists n :: 0 <= n < |options| && Chosen(options, ByName(now))[n] != AsIs(now[n])
    decreases i
  {
    var n := i - 1;
    if Settled(now, n) {
      assert !LastOfName(now, n);
      ReplanChosen(options, now, n);
      assert AsIs(now[n]) == ToEntry(options[n], Some(now[n].id));
      FindsItself(options[n], now, n);
      ChosenPrefix(options, ByName(now), n);
    } else {
      Unsettled(options, now, n);
    }
  }

  /** The first k are taken, the others stay. */
  ghost predicate TakenTo(now: seq<Existing>, k: nat, kept: set<string>, retired: set<string>, used: map<string, nat>) {
    && (forall j :: 0 <= j < k && j < |now| ==> now[j].id in kept)
    && (forall j :: k <= j < |now| ==> Stays(now[j], kept, retired, used))
  }

  lemma {:induction false} RestStays(
    now: seq<Existing>, k: nat, m: nat, kept: set<string>, retired: set<string>, used: map<string, nat>)
    requires k <= m <= |now| && TakenTo(now, k, kept, retired, used)
    ensures Leftovers(now[..m], kept, retired, used) == AllAsIs(now[k..m])
    decreases m
  {
    if m == k {
      NoneStay(now, k, kept, retired, used);
    } else {
      var n := m - 1;
      RestStays(now, k, n, kept, retired, used);
      LeftoversStep(now, m, kept, retired, used);
      AsIsStep(now, k, m);
    }
  }

  lemma LeftoversStep(now: seq<Existing>, m: nat, kept: set<string>, retired: set<string>, used: map<string, nat>)
    requires 0 < m <= |now| && Stays(now[m - 1], kept, retired, used)
    ensures Leftovers(now[..m], kept, retired, used) ==
      Leftovers(now[..m - 1], kept, retired, used) + [AsIs(now[m - 1])]
  {
    assert now[..m][..m - 1] == now[..m - 1] && now[..m][m - 1] == now[m - 1];
  }

  lemma AsIsStep(now: seq<Existing>, k: nat, m: nat)
    requires k < m <= |now|
    ensures AllAsIs(now[k..m]) == AllAsIs(now[k..m - 1]) + [AsIs(now[m - 1])]
  {
    assert now[k..m][..m - 1 - k] == now[k..m - 1] && now[k..m][m - 1 - k] == now[m - 1];
  }

  lemma {:induction false} NoneStay(
    now: seq<Existing>, m: nat, kept: set<string>, retired: set<string>, used: map<string, nat>)
    requires m <= |now| && forall j :: 0 <= j < m ==> now[j].id in kept
    ensures Leftovers(now[..m], kept, retired, used) == []
    decreases m
  {
    if m > 0 {
      NoneStay(now, m - 1, kept, retired, used);
      assert now[..m][..m - 1] == now[..m - 1] && now[..m][m - 1] == now[m - 1];
    }
  }

  lemma IdsTo(now: seq<Existing>, k: nat)
    requires UniqueIds(now) && k <= |now|
    ensures forall j :: 0 <= j < |now| ==> (now[j].id in Ids(now[..k]) <==> j < k)
  {
    forall j | 0 <= j < |now| ensures now[j].id in Ids(now[..k]) <==> j < k {
      InIds(now[..k], now[j].id);
      if j < k { assert now[..k][j].id == now[j].id; }
    }
  }

  lemma {:induction false} FewerStay(
    now: seq<Existing>, k: nat, m: nat, kept: set<string>, retired: set<string>, used: map<string, nat>)
    requires k <= m <= |now| && forall j :: 0 <= j < k ==> now[j].id in kept
    ensures |Leftovers(now[..m], kept, retired, used)| <= m - k
    ensures (exists j :: k <= j < m && !Stays(now[j], kept, retired, used)) ==>
      |Leftovers(now[..m], kept, retired, used)| < m - k
    decreases m
  {
    if m == k {
      NoneStay(now, k, kept, retired, used);
    } else {
      FewerStay(now, k, m - 1, kept, retired, used);
      assert now[..m][..m - 1] == now[..m - 1] && now[..m][m - 1] == now[m - 1];
    }
  }

  /** What the plan says of the board it is applied to. */
  lemma AppliedPlan(spec: Spec, existing: seq<Existing>, used: map<string, nat>, now: seq<Existing>)
    requires Applied(Plan(spec, existing, used), now)
    ensures Holding(spec.options, now) && Retained(spec, now, used)
  {
    var byName := ByName(existing);
    var kept := Kept(spec.options, byName);
    var k := |spec.options|;
    var plan, chosen := Plan(spec, existing, used), Chosen(spec.options, byName);
    var rest := Leftovers(existing, kept, spec.retired, used);
    forall j | 0 <= j < k ensures AsIs(now[j]) == ToEntry(spec.options[j], Some(now[j].id)) {
      ChosenAreExisting(spec.options, byName, j);
      assert plan[j] == chosen[j];
    }
    forall j | k <= j < |now| ensures now[j].name !in spec.retired || Count(used, now[j].name) > 0 {
      assert plan[j] == rest[j - k];
      LeftoversFromBoard(existing, kept, spec.retired, used, j - k);
    }
  }

  /** What follows the schema's options is not retired, or some item holds it. */
  predicate Retained(spec: Spec, now: seq<Existing>, used: map<string, nat>) {
    forall j :: |spec.options| <= j < |now| ==> now[j].name !in spec.retired || Count(used, now[j].name) > 0
  }

  /** On a board that holds the schema's options first, planning changes nothing exactly when no later option has the
      name of one of them and no retired option has become unused. */
  lemma ReplanExactly(spec: Spec, now: seq<Existing>, later: map<string, nat>)
    requires Holding(spec.options, now)
    ensures !Differ(Plan(spec, now, later), now) <==> Settled(now, |spec.options|) && Retained(spec, now, later)
  {
    var k := |spec.options|;
    var plan := Plan(spec, now, later);
    if !Settled(now, k) {
      Unsettled(spec.options, now, k);
      var n :| 0 <= n < k && Chosen(spec.options, ByName(now))[n] != AsIs(now[n]);
      assert plan[n] != AsIs(now[n]);
    } else {
      ReplanFirst(spec.options, now);
      IdsTo(now, k);
      if Retained(spec, now, later) {
        ReplanOf(spec, now, later);
      } else {
        FewerStay(now, k, |now|, Ids(now[..k]), spec.retired, later);
        assert now[..|now|] == now;
      }
    }
  }

  lemma ReplanRest(spec: Spec, now: seq<Existing>, later: map<string, nat>)
    requires UniqueIds(now) && |spec.options| <= |now| && Retained(spec, now, later)
    ensures var k := |spec.options|; Leftovers(now, Ids(now[..k]), spec.retired, later) == AllAsIs(now[k..])
  {
    var k := |spec.options|;
    IdsTo(now, k);
    RestStays(now, k, |now|, Ids(now[..k]), spec.retired, later);
    assert now[..|now|] == now && now[k..|now|] == now[k..];
  }

  lemma ReplanOf(spec: Spec, now: seq<Existing>, later: map<string, nat>)
    requires Holding(spec.options, now) && Settled(now, |spec.options|) && Retained(spec, now, later)
    ensures !Differ(Plan(spec, now, later), now)
  {
    ReplanFirst(spec.options, now);
    ReplanRest(spec, now, later);
    AsIsConcat(now, |spec.options|);
  }

  lemma ReplanFirst(options: seq<Wanted>, now: seq<Existing>)
    requires Holding(options, now) && Settled(now, |options|)
    ensures Kept(options, ByName(now)) == Ids(now[..|options|])
    ensures Chosen(options, ByName(now)) == AllAsIs(now[..|options|])
  {
    ReplanChosen(options, now, |options|);
    assert options[..|options|] == options;
  }

  lemma AsIsConcat(now: seq<Existing>, k: nat)
    requires k <= |now|
    ensures AllAsIs(now[..k]) + AllAsIs(now[k..]) == AllAsIs(now)
  {
    Concat(AllAsIs(now[..k]), AllAsIs(now[k..]), AllAsIs(now), now, k);
  }

  lemma Concat(a: seq<Entry>, b: seq<Entry>, all: seq<Entry>, now: seq<Existing>, k: nat)
    requires |a| == k && k + |b| == |all| == |now| && forall i :: 0 <= i < |now| ==> all[i] == AsIs(now[i])
    requires forall i :: 0 <= i < k ==> a[i] == AsIs(now[..k][i])
    requires forall i :: 0 <= i < |b| ==> b[i] == AsIs(now[k..][i])
    ensures a + b == all
  {
    forall i | 0 <= i < |all| ensures (a + b)[i] == all[i] {
      if i < k { assert now[..k][i] == now[i]; } else { assert now[k..][i - k] == now[i]; }
    }
  }

  /** Planning again on the applied board changes nothing, when the schema's names are distinct, none of them stands
      twice on the board, and what items held they still hold. */
  lemma ReplanIsStable(
    spec: Spec, existing: seq<Existing>, used: map<string, nat>, now: seq<Existing>, later: map<string, nat>)
    requires NamedOnce(spec.options, existing) && UniqueWanted(spec.options)
    requires Applied(Plan(spec, existing, used), now)
    requires forall j :: |spec.options| <= j < |now| && Count(used, now[j].name) > 0 ==> Count(later, now[j].name) > 0
    ensures !Differ(Plan(spec, now, later), now)
  {
    AppliedPlan(spec, existing, used, now);
    PlanSettles(spec, existing, used, now);
    ReplanExactly(spec, now, later);
  }

  lemma TwoOfOneName(x: string, y: string)
    requires x != y
    ensures var options := [Wanted("A", "c", "", [])];
      var a := [Existing(x, "A", "c", Some("")), Existing(y, "A", "c", Some(""))];
      Plan(Spec(options, {}), a, map[]) == [Entry(Some(y), "A", "c", ""), Entry(Some(x), "A", "c", "")]
  {
    var a := [Existing(x, "A", "c", Some("")), Existing(y, "A", "c", Some(""))];
    var options := [Wanted("A", "c", "", [])];
    assert a[..1] == [a[0]] && a[..1][..0] == [] && options[..0] == [];
    var byName := ByName(a);
    assert byName == map["A" := a[1]] by {
      assert ByName(a[..1][..0]) == map[];
      assert ByName(a[..1]) == map["A" := a[0]];
      assert byName == ByName(a[..1])["A" := a[1]];
    }
    assert IdOf(options[0], byName, {}) == Some(y) by { assert ([options[0].name] + [])[0] == "A"; }
    assert Kept(options, byName) == {y} by { assert Kept(options[..0], byName) == {}; }
    assert Chosen(options, byName) == [Entry(Some(y), "A", "c", "")] by { assert Chosen(options[..0], byName) == []; }
    assert Leftovers(a[..1], {y}, {}, map[]) == [AsIs(a[0])] by { assert Leftovers(a[..1][..0], {y}, {}, map[]) == []; }
  }

  /** Such boards come up: two options of one schema name change places with every plan that is applied. */
  lemma NamesMatter()
    ensures var spec := Spec([Wanted("A", "c", "", [])], {});
      var a := [Existing("1", "A", "c", Some("")), Existing("2", "A", "c", Some(""))];
      var b := [Existing("2", "A", "c", Some("")), Existing("1", "A", "c", Some(""))];
      Applied(Plan(spec, a, map[]), b) && Differ(Plan(spec, b, map[]), b)
  {
    TwoOfOneName("1", "2");
    TwoOfOneName("2", "1");
    var spec := Spec([Wanted("A", "c", "", [])], {});
    var b := [Existing("2", "A", "c", Some("")), Existing("1", "A", "c", Some(""))];
    assert Plan(spec, b, map[])[0] != AsIs(b[0]);
  }

  /** The id of every option that some item holds survives. */
  lemma HeldIsKept(
    spec: Spec, existing: seq<Existing>, items: seq<Item>, usage: map<(string, string), nat>, field: string,
    i: nat, k: nat)
    requires forall f, n :: Get(usage, f, n) == Held(items, f, n)
    requires UniqueIds(existing) && i < |existing| && k < |items| && Holds(items[k], field, existing[i].name)
    ensures HasId(Plan(spec, existing, UsedIn(usage, field)), existing[i].id)
  {
    UsedInField(usage, field, existing[i].name);
    HeldHolds(items, field, existing[i].name);
    PlanKeepsIds(spec, existing, UsedIn(usage, field));
  }
}
