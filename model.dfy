/**
 * A Model: the ordered Steps of a kit build and four registries filled as
 * Steps are added, of the Parts (and Assembly copies) by id, the
 * Assemblies by id, the paints by colour handle and paint type, and the
 * decals by id.
 */
module Models {
  import opened Base
  import opened Detail
  import opened HashMaps
  import opened Parts
  import opened Steps

  /** The paints registry key: the colour's code, or its name when the code is empty, and the paint type. */
  function PaintKey(p: Paint): (k: (string, PaintType))
    ensures k.1 == p.paintType
    ensures p.color.code != "" ==> k.0 == p.color.code
    ensures p.color.code == "" ==> k.0 == p.color.name
  {
    (if p.color.code != "" then p.color.code else p.color.name, p.paintType)
  }

  /**
   * The parts (or assemblies) registry after `for x in xs: m[x.id] = x`. The
   * code guards the store with `x not in m`, but the registry's keys are
   * strings and `x` a Part, so the guard always holds: a later object with
   * the same id replaces an earlier one.
   */
  function Register(m: map<string, Part>, xs: seq<Part>): (r: map<string, Part>)
    ensures r.Keys == m.Keys + (set i | 0 <= i < |xs| :: xs[i].id)
    ensures forall id :: id in r ==> (r[id] in xs && r[id].id == id) || (id in m && r[id] == m[id])
  {
    if xs == [] then m
    else
      var front := xs[..|xs| - 1];
      var r := Register(m, front)[xs[|xs| - 1].id := xs[|xs| - 1]];
      assert forall i :: 0 <= i < |front| ==> front[i] == xs[i];
      assert (set i | 0 <= i < |xs| :: xs[i].id) == (set i | 0 <= i < |front| :: front[i].id) + {xs[|xs| - 1].id};
      r
  }

  /** Registering one more object puts it under its id, over whatever was there. */
  lemma RegisterSnoc(m: map<string, Part>, xs: seq<Part>, i: nat)
    requires i < |xs|
    ensures Register(m, xs[..i + 1]) == Register(m, xs[..i])[xs[i].id := xs[i]]
  {
    assert xs[..i + 1][..i] == xs[..i];
  }

  /** The last object with a given id is the one registered; ids nobody in `xs` has keep their entry. */
  lemma {:induction false} RegisterLastWins(m: map<string, Part>, xs: seq<Part>)
    ensures forall i :: 0 <= i < |xs| && (forall j :: i < j < |xs| ==> xs[j].id != xs[i].id) ==>
              Register(m, xs)[xs[i].id] == xs[i]
    ensures forall id :: id in m && (forall j :: 0 <= j < |xs| ==> xs[j].id != id) ==> Register(m, xs)[id] == m[id]
    decreases |xs|
  {
    if xs != [] {
      var front := xs[..|xs| - 1];
      RegisterLastWins(m, front);
      assert forall i :: 0 <= i < |front| ==> front[i] == xs[i];
    }
  }

  /** The decals registry entries a set of decal keys adds: each decal under its id. */
  function DecalsById(keys: set<Obj>): (r: map<string, Decal>)
    ensures forall id :: id in r <==> DecalObj(Decal(id)) in keys
    ensures forall id :: id in r ==> r[id] == Decal(id)
  {
    map o | o in keys && o.DecalObj? :: o.decal.id := o.decal
  }

  lemma UnionUpdate<K, V>(a: map<K, V>, b: map<K, V>, k: K, v: V)
    ensures (a + b)[k := v] == a + b[k := v]
  {
  }

  /** One more decal key adds its decal under its id; any other key adds nothing. */
  lemma DecalsByIdAdd(done: set<Obj>, o: Obj)
    ensures DecalsById(done + {o}) == if o.DecalObj? then DecalsById(done)[o.decal.id := o.decal] else DecalsById(done)
  {
    var a := DecalsById(done + {o});
    var b := if o.DecalObj? then DecalsById(done)[o.decal.id := o.decal] else DecalsById(done);
    assert a.Keys == b.Keys;
    assert forall id :: id in a ==> a[id] == b[id];
  }

  /**
   * The paints registry after `for paint in keys: m[key(paint)] = paint`, in
   * whatever order the keys come: every paint's key is present, it maps to
   * one of the paints with that key, and every other entry is kept.
   */
  ghost predicate PaintsAdded(m: map<(string, PaintType), Paint>, keys: set<Obj>, r: map<(string, PaintType), Paint>) {
    && r.Keys == m.Keys + (set o | o in keys && o.PaintObj? :: PaintKey(o.paint))
    && (forall k :: k in r ==>
          if exists o :: o in keys && o.PaintObj? && PaintKey(o.paint) == k
          then PaintObj(r[k]) in keys && PaintKey(r[k]) == k
          else r[k] == m[k])
  }

  /** `steps[i]` with Python's indexing: a negative index counts from the end. */
  function PyIndex(xs: seq<Part>, i: int): (r: Result<Part>)
    ensures r.Ok? <==> -|xs| <= i < |xs|
    ensures r.Err? ==> r.error == IndexError
    ensures 0 <= i < |xs| ==> r == Ok(xs[i])
    ensures -|xs| <= i < 0 ==> r == Ok(xs[|xs| + i])
  {
    if 0 <= i < |xs| then Ok(xs[i])
    else if -|xs| <= i < 0 then Ok(xs[|xs| + i])
    else Err(IndexError)
  }

  /** The int path of `getStep` as written: `steps[number - 1]`. */
  function NumberedStep(steps: seq<Part>, number: int): (r: Result<Part>)
    ensures 1 <= number <= |steps| ==> r == Ok(steps[number - 1])
    ensures number > |steps| ==> r == Err(IndexError)
  {
    PyIndex(steps, number - 1)
  }

  /** Step number 0 is not rejected: it names the last step, and -1 the one before it. */
  lemma NumberedStepZero(steps: seq<Part>)
    requires |steps| >= 2
    ensures NumberedStep(steps, 0) == Ok(steps[|steps| - 1])
    ensures NumberedStep(steps, -1) == Ok(steps[|steps| - 2])
  {
  }

  /** The int path of `getStep` as documented: absolute step numbers from 1, anything else an IndexError. */
  function AbsoluteStep(steps: seq<Part>, number: int): (r: Result<Part>)
    ensures r.Ok? <==> 1 <= number <= |steps|
    ensures r.Ok? ==> r.value == steps[number - 1]
    ensures r.Err? ==> r.error == IndexError
  {
    if 1 <= number <= |steps| then Ok(steps[number - 1]) else Err(IndexError)
  }

  /** The corrected lookup agrees with the written one on every real step number and refuses the rest. */
  lemma AbsoluteStepAgrees(steps: seq<Part>, number: int)
    ensures 1 <= number <= |steps| ==> AbsoluteStep(steps, number) == NumberedStep(steps, number)
    ensures number < 1 ==> AbsoluteStep(steps, number) == Err(IndexError)
  {
  }

  /** Every object is a Step, the first has no previous Step and each other one points at the one before. */
  ghost predicate Chained(steps: seq<Part>) {
    && (forall i :: 0 <= i < |steps| ==> steps[i].kind == StepKind)
    && (|steps| > 0 ==> steps[0].previous == null)
    && (forall i :: 0 < i < |steps| ==> steps[i].previous == steps[i - 1])
  }

  /** Every object sits under its own id (and, in the assemblies registry, is an Assembly). */
  ghost predicate ById(m: map<string, Part>, isAssembly: bool) {
    forall id :: id in m ==> m[id].id == id && (isAssembly ==> m[id].kind == AssemblyKind)
  }

  /** Every paint sits under its own key. */
  ghost predicate PaintsByKey(m: map<(string, PaintType), Paint>) {
    forall k :: k in m ==> PaintKey(m[k]) == k
  }

  /** Every decal sits under its own id. */
  ghost predicate DecalsByKey(m: map<string, Decal>) {
    forall id :: id in m ==> m[id].id == id
  }

  /** Registering objects under their own ids keeps every entry under its own id. */
  lemma RegisterById(m: map<string, Part>, xs: seq<Part>, isAssembly: bool)
    requires ById(m, isAssembly)
    requires isAssembly ==> forall i :: 0 <= i < |xs| ==> xs[i].kind == AssemblyKind
    ensures ById(Register(m, xs), isAssembly)
  {
    var r := Register(m, xs);
    forall id | id in r
      ensures r[id].id == id && (isAssembly ==> r[id].kind == AssemblyKind)
    {
      if r[id] in xs && r[id].id == id {
        var i :| 0 <= i < |xs| && xs[i] == r[id];
      }
    }
  }

  /** Adding paints under `PaintKey` keeps every paint under its own key. */
  lemma PaintsAddedByKey(m: map<(string, PaintType), Paint>, keys: set<Obj>, r: map<(string, PaintType), Paint>)
    requires PaintsByKey(m) && PaintsAdded(m, keys, r)
    ensures PaintsByKey(r)
  {
  }

  class Model {
    const name: string
    var steps: seq<Part>
    var parts: map<string, Part>
    var assemblies: map<string, Part>
    var paints: map<(string, PaintType), Paint>
    var decals: map<string, Decal>

    /**
     * The Steps form one chain, each pointing at the one before, and every
     * registry entry sits under its own key.
     */
    ghost predicate Valid()
      reads this
    {
      Chained(steps) && ById(parts, false) && ById(assemblies, true) && PaintsByKey(paints) && DecalsByKey(decals)
    }

    constructor Make(name: string)
      ensures this.name == name && steps == []
      ensures parts == map[] && assemblies == map[] && paints == map[] && decals == map[]
      ensures Valid()
    {
      this.name := name;
      steps := [];
      parts := map[];
      assemblies := map[];
      paints := map[];
      decals := map[];
    }

    /** `len(model)`: the number of steps taken so far. */
    function Len(): (n: nat)
      reads this
      ensures n == 0 <==> steps == []
      // the first index past the last step
      ensures GetItem(IntObj(n)) == Err(IndexError)
      ensures n > 0 ==> GetItem(IntObj(n - 1)).Ok?
    {
      |steps|
    }

    /** `model[item]` for an int (or bool) item: Python indexing into the steps; any other item is a TypeError. */
    function GetItem(item: Obj): (r: Result<Part>)
      reads this
      ensures AsInt(item).None? ==> r == Err(TypeError)
      ensures AsInt(item).Some? ==>
                var i := AsInt(item).value;
                && (r.Ok? <==> -|steps| <= i < |steps|)
                && (r.Err? ==> r.error == IndexError)
                && (0 <= i < |steps| ==> r == Ok(steps[i]))
                && (i < 0 && r.Ok? ==> r == Ok(steps[|steps| + i]))
    {
      match AsInt(item)
      case None => Err(TypeError)
      case Some(i) => PyIndex(steps, i)
    }

    /**
     * `getStep(number)`: an int (a bool counts) is taken as `steps[number -
     * 1]`; a str selects the first Step with that name, ValueError when none
     * has it; anything else is a TypeError.
     */
    method GetStep(number: Obj) returns (r: Result<Part>)
      ensures AsInt(number).Some? ==> r == NumberedStep(steps, AsInt(number).value)
      ensures AsInt(number).None? && !number.StrObj? ==> r == Err(TypeError)
      ensures number.StrObj? ==>
                && (r.Ok? <==> exists i :: 0 <= i < |steps| && steps[i].id == number.s)
                && (r.Err? ==> r.error == ValueError)
                && (r.Ok? ==> exists i :: 0 <= i < |steps| && steps[i] == r.value && r.value.id == number.s
                                && forall j :: 0 <= j < i ==> steps[j].id != number.s)
    {
      match AsInt(number) {
        case Some(k) =>
          return NumberedStep(steps, k);
        case None =>
      }
      if !number.StrObj? {
        return Err(TypeError);
      }
      var i := 0;
      while i < |steps|
        invariant 0 <= i <= |steps|
        invariant forall j :: 0 <= j < i ==> steps[j].id != number.s
      {
        if steps[i].id == number.s {
          return Ok(steps[i]);
        }
        i := i + 1;
      }
      r := Err(ValueError);
    }

    /**
     * `nextStep(name, members)`: a Step is built on the last one (or on
     * None) and appended; then its members are registered by id, its
     * Assembly copies by id, its paints by `PaintKey` and its decals by id,
     * each a later entry replacing an earlier one under the same key. When
     * building the Step raises, nothing of the Model changes (masters the
     * Step set before raising stay set).
     */
    method NextStep(name: Obj, members: Arg, ghost rank: map<Part, nat>) returns (r: Outcome)
      requires Valid() && Ranked(rank) && Held(members, rank)
      modifies this, rank.Keys`master
      ensures Valid()
      ensures r.Fail? ==> r.error == TypeError || r.error == ValueError
      ensures r.Fail? ==> steps == old(steps) && parts == old(parts) && assemblies == old(assemblies)
                          && paints == old(paints) && decals == old(decals)
      ensures forall n :: n in rank && old(n.master) != null ==> n.master == old(n.master)
      // only the members and what lies below them take the Step, even when building it fails
      ensures forall n :: n in rank && n.master != old(n.master) ==> Under(n, members, rank)
      // a single Part that already has a master is refused
      ensures members.Node? && members.node.kind == PartKind && old(members.node.master) != null ==> r == Fail(ValueError)
      ensures r.Pass? ==>
                && name.StrObj? && ParseMembers(members).Ok?
                && Len() == old(Len()) + 1 && steps[..|old(steps)|] == old(steps)
                && var s := steps[|steps| - 1];
                && fresh(s) && s.id == name.s && s.master == null
                && s.previous == (if old(steps) == [] then null else old(steps)[|old(steps)| - 1])
                && |s.parts| == |ParseMembers(members).value|
                && (forall n :: n in rank ==> n.master == old(n.master) || n.master == s)
                && parts == Register(old(parts), s.parts)
                && assemblies == Register(old(assemblies), s.assemblies)
                && PaintsAdded(old(paints), s.paints.items.Keys, paints)
                && decals == old(decals) + DecalsById(s.decals.items.Keys)
      ensures ParseMembers(members).Ok? && name.StrObj?
              && AllKeysOf(old(PaintKeysOf(ParseMembers(members).value)), true)
              && AllKeysOf(old(DecalKeysOf(ParseMembers(members).value)), false)
              && old(Independent(ParseMembers(members).value, rank))
              && (forall i :: 0 <= i < |ParseMembers(members).value| ==> old(ParseMembers(members).value[i].master) == null)
              ==> r.Pass?
    {
      var previous := if steps == [] then Val(NoneObj) else Node(steps[|steps| - 1]);
      var built := NewStep(name, members, previous, rank);
      if built.Err? {
        return Fail(built.error);
      }
      Append(built.value);
      r := Pass;
    }

    /** The part of `nextStep` after the Step is built: append it, then register what it holds. */
    method Append(s: Part)
      requires Valid() && s.kind == StepKind
      requires s.previous == if steps == [] then null else steps[|steps| - 1]
      requires s.assemblies == AssembliesOf(s.parts)
      modifies this`steps, this`parts, this`assemblies, this`paints, this`decals
      ensures Valid()
      ensures steps == old(steps) + [s]
      ensures parts == Register(old(parts), s.parts)
      ensures assemblies == Register(old(assemblies), s.assemblies)
      ensures PaintsAdded(old(paints), s.paints.items.Keys, paints)
      ensures decals == old(decals) + DecalsById(s.decals.items.Keys)
    {
      steps := steps + [s];
      assert Chained(steps);
      RegisterParts(s.parts, false);
      RegisterById(old(parts), s.parts, false);
      RegisterParts(s.assemblies, true);
      RegisterById(old(assemblies), s.assemblies, true);
      RegisterPaints(s.paints.items.Keys);
      PaintsAddedByKey(old(paints), s.paints.items.Keys, paints);
      RegisterDecals(s.decals.items.Keys);
      assert Chained(steps);
      assert ById(parts, false);
      assert ById(assemblies, true);
      assert PaintsByKey(paints);
      assert DecalsByKey(decals);
    }

    /** The loop of `nextStep` over the Step's members (or its Assemblies). */
    method RegisterParts(xs: seq<Part>, isAssembly: bool)
      requires isAssembly ==> forall i :: 0 <= i < |xs| ==> xs[i].kind == AssemblyKind
      modifies this`parts, this`assemblies
      ensures !isAssembly ==> parts == Register(old(parts), xs) && assemblies == old(assemblies)
      ensures isAssembly ==> assemblies == Register(old(assemblies), xs) && parts == old(parts)
    {
      var i := 0;
      while i < |xs|
        invariant 0 <= i <= |xs|
        invariant !isAssembly ==> parts == Register(old(parts), xs[..i]) && assemblies == old(assemblies)
        invariant isAssembly ==> assemblies == Register(old(assemblies), xs[..i]) && parts == old(parts)
      {
        RegisterSnoc(if isAssembly then old(assemblies) else old(parts), xs, i);
        if isAssembly {
          assemblies := assemblies[xs[i].id := xs[i]];
        } else {
          parts := parts[xs[i].id := xs[i]];
        }
        i := i + 1;
      }
      assert xs[..|xs|] == xs;
    }

    /** The loop of `nextStep` over the Step's paint keys, taken in any order. */
    method RegisterPaints(keys: set<Obj>)
      modifies this`paints
      ensures PaintsAdded(old(paints), keys, paints)
    {
      var rest := keys;
      while rest != {}
        invariant rest <= keys
        invariant PaintsAdded(old(paints), keys - rest, paints)
        decreases |rest|
      {
        var o :| o in rest;
        if o.PaintObj? {
          paints := paints[PaintKey(o.paint) := o.paint];
        }
        rest := rest - {o};
      }
      assert keys - rest == keys;
    }

    /** The loop of `nextStep` over the Step's decal keys. */
    method RegisterDecals(keys: set<Obj>)
      modifies this`decals
      ensures decals == old(decals) + DecalsById(keys)
    {
      var rest := keys;
      ghost var added: map<string, Decal> := map[];
      assert DecalsById({}) == map[];
      while rest != {}
        invariant rest <= keys
        invariant added == DecalsById(keys - rest)
        invariant decals == old(decals) + added
        decreases |rest|
      {
        var o :| o in rest;
        DecalsByIdAdd(keys - rest, o);
        assert keys - (rest - {o}) == (keys - rest) + {o};
        if o.DecalObj? {
          UnionUpdate(old(decals), added, o.decal.id, o.decal);
          decals := decals[o.decal.id := o.decal];
          added := added[o.decal.id := o.decal];
        }
        rest := rest - {o};
      }
      assert keys - rest == keys;
    }
  }

  /** `Model(name)`: the name must be a str; the Model starts with no steps and empty registries. */
  method NewModel(name: Obj) returns (r: Result<Model>)
    ensures r.Err? <==> !name.StrObj?
    ensures r.Err? ==> r.error == TypeError
    ensures r.Ok? ==> fresh(r.value) && r.value.name == name.s && r.value.Valid() && r.value.Len() == 0
                      && r.value.parts == map[] && r.value.assemblies == map[]
                      && r.value.paints == map[] && r.value.decals == map[]
  {
    if !name.StrObj? {
      return Err(TypeError);
    }
    var m := new Model.Make(name.s);
    r := Ok(m);
  }
}
