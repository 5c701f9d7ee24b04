/**
 * The kit-build graph: Parts, Assemblies (a Part made of member Parts and
 * Assemblies) and Steps (an Assembly that records one build step and the
 * step before it). One class `Part` stands for all three Python classes;
 * `kind` says which one an object is, so the methods each class overrides
 * branch on it.
 *
 * Members are shared objects: one Part may sit in several Assemblies, and a
 * shallow copy of an Assembly shares its status maps and member objects with
 * the original. A member is owned by at most one Step: its `master` is
 * written once, when the Step that takes it is built.
 *
 * The graph is acyclic in every state the constructors can reach. The proofs
 * carry that as a ghost `rank` map: every member has a smaller rank than the
 * node holding it. Functions over the graph read only the fields they use,
 * so stamping `master` does not disturb what they say about members and
 * statuses.
 */
module Parts {
  import opened Base
  import opened Detail
  import opened HashMaps

  /** Which Python class an object is an instance of. */
  datatype Kind = PartKind | AssemblyKind | StepKind

  /** `type(p) == Part or type(p) == Assembly`: the only things an Assembly may hold. */
  predicate IsMemberKind(k: Kind) {
    k == PartKind || k == AssemblyKind
  }

  /**
   * An argument that may hold graph objects: a plain value, one Part object
   * (of any kind), or a list or tuple of further arguments.
   */
  datatype Arg = Val(obj: Obj) | Node(node: Part) | Items(items: seq<Arg>)

  class Part {
    const kind: Kind
    const id: string
    /** The paint statuses: a PaintMap. */
    const paints: HashMap
    /** The decal statuses: a plain HashMap. */
    const decals: HashMap
    /** The Step before this one; null unless `kind` is StepKind. */
    const previous: Part?
    /** The Step this object was attached to; null while unattached. */
    var master: Part?
    /** The members in order; empty for a plain Part. */
    var parts: seq<Part>
    /** The members that are Assemblies, in order. */
    var assemblies: seq<Part>

    /** A new object with its fields as given and no master. */
    constructor Make(kind: Kind, id: string, paints: HashMap, decals: HashMap, members: seq<Part>, previous: Part?)
      ensures this.kind == kind && this.id == id && this.previous == previous
      ensures this.paints == paints && this.decals == decals
      ensures master == null && parts == members && assemblies == AssembliesOf(members)
    {
      this.kind := kind;
      this.id := id;
      this.paints := paints;
      this.decals := decals;
      this.previous := previous;
      master := null;
      parts := members;
      assemblies := AssembliesOf(members);
    }

    /**
     * `Part.__init__` once its arguments are checked: a fresh PaintMap and a
     * fresh HashMap holding the given keys, none of them done, no master.
     */
    constructor Init(kind: Kind, id: string, pk: set<Obj>, dk: set<Obj>, members: seq<Part>, previous: Part?)
      ensures this.kind == kind && this.id == id && this.previous == previous
      ensures fresh(paints) && fresh(decals) && paints != decals
      ensures paints.guarded && !decals.guarded && paints.items == Seeded(pk) && decals.items == Seeded(dk)
      ensures master == null && parts == members && assemblies == AssembliesOf(members)
    {
      this.kind := kind;
      this.id := id;
      paints := new HashMap(true, Seeded(pk));
      decals := new HashMap(false, Seeded(dk));
      this.previous := previous;
      master := null;
      parts := members;
      assemblies := AssembliesOf(members);
    }

    /** Sets the members of an object being built. */
    method Fill(members: seq<Part>)
      modifies this`parts, this`assemblies
      ensures parts == members && assemblies == AssembliesOf(members)
    {
      parts := members;
      assemblies := AssembliesOf(members);
    }

    /** `copy.copy(original)`: a new object whose slots hold the same values, so the maps and members are shared. */
    constructor Copy(original: Part)
      ensures kind == original.kind && id == original.id && previous == original.previous
      ensures paints == original.paints && decals == original.decals
      ensures master == original.master && parts == original.parts && assemblies == original.assemblies
    {
      kind := original.kind;
      id := original.id;
      paints := original.paints;
      decals := original.decals;
      previous := original.previous;
      master := original.master;
      parts := original.parts;
      assemblies := original.assemblies;
    }

    /**
     * The `master` setter. A plain Part takes `value` only while it has no
     * master (ValueError otherwise). An Assembly or Step takes it while it has
     * none and hands it to every member that has none, each by its own
     * setter; it raises ValueError only when nothing at all took the value.
     * Anything but a Step is refused with TypeError.
     */
    method SetMaster(value: Part?, ghost rank: map<Part, nat>) returns (r: Outcome)
      requires Ranked(rank) && this in rank
      modifies rank.Keys`master
      decreases rank[this], 1
      ensures value == null || value.kind != StepKind ==> r == Fail(TypeError)
      ensures r.Fail? ==> forall n :: n in rank ==> n.master == old(n.master)
      ensures kind == PartKind && value != null && value.kind == StepKind ==>
                r == if old(master) == null then Pass else Fail(ValueError)
      ensures kind != PartKind && value != null && value.kind == StepKind ==>
                r == if old(master) == null || exists i :: 0 <= i < |parts| && old(parts[i].master) == null
                     then Pass else Fail(ValueError)
      // exactly the objects reached through objects without a master take `value`; no other master changes
      ensures var unset := old(Unset(rank));
              forall n :: n in rank ==>
                n.master == if value != null && value.kind == StepKind && n in Given(this, unset, rank)
                            then value else old(n.master)
      ensures r.Pass? ==> master != null && MembersAttached(this)
      // an object that took the value passed it on to all its members
      ensures forall n :: n in rank && old(n.master) == null && n.master != null ==> MembersAttached(n)
    {
      if value == null || value.kind != StepKind {
        return Fail(TypeError);
      }
      assert Shaped(this, rank);
      if kind == PartKind {
        assert Handed(this, old(Unset(rank)), rank) == {};
        if master == null {
          master := value;
          r := Pass;
        } else {
          r := Fail(ValueError);
        }
        return;
      }
      ghost var unset := Unset(rank);
      var changed := false;
      if master == null {
        master := value;
        changed := true;
        assert Unset(rank) == unset - {this};
      }
      var handed := HandDown(value, rank);
      forall n | n in rank
        ensures n.master == if n in Given(this, unset, rank) then value else old(n.master)
      {
        HandedAbove(this, unset, this, n, rank);
      }
      r := if changed || handed then Pass else Fail(ValueError);
    }

    /** The loop of the Assembly setter: each member still without a master is given `value` by its own setter. */
    method HandDown(value: Part, ghost rank: map<Part, nat>) returns (changed: bool)
      requires Ranked(rank) && this in rank && kind != PartKind && value.kind == StepKind && master != null
      modifies rank.Keys`master
      decreases rank[this], 0
      ensures changed <==> exists i :: 0 <= i < |parts| && old(parts[i].master) == null
      ensures !changed ==> forall n :: n in rank ==> n.master == old(n.master)
      ensures var unset := old(Unset(rank));
              forall n :: n in rank ==> n.master == if n in Handed(this, unset, rank) then value else old(n.master)
      ensures MembersAttached(this)
      ensures forall n :: n in rank && old(n.master) == null && n.master != null ==> MembersAttached(n)
    {
      assert Shaped(this, rank);
      ghost var unset := Unset(rank);
      changed := false;
      var i := 0;
      while i < |parts|
        invariant 0 <= i <= |parts|
        invariant unset == old(Unset(rank))
        invariant forall n :: n in rank ==>
                    n.master == if n in HandedUpTo(this, i, unset, rank) then value else old(n.master)
        invariant forall j :: 0 <= j < i ==> parts[j].master != null
        invariant forall n :: n in rank && old(n.master) == null && n.master != null ==> MembersAttached(n)
        invariant changed <==> exists j :: 0 <= j < i && old(parts[j].master) == null
        invariant !changed ==> forall n :: n in rank ==> n.master == old(n.master)
      {
        HandedNext(this, i, unset, rank);
        var took := parts[i].TakeOver(value, rank, unset, HandedUpTo(this, i, unset, rank));
        changed := changed || took;
        i := i + 1;
      }
    }

    /**
     * One turn of that loop: the setter is called on this member only when it
     * has no master. `unset - done` is the set of objects still without one.
     */
    method TakeOver(value: Part, ghost rank: map<Part, nat>, ghost unset: set<Part>, ghost done: set<Part>)
      returns (took: bool)
      requires Ranked(rank) && this in rank && value.kind == StepKind
      requires unset <= rank.Keys && forall n :: n in rank ==> (n.master == null <==> n in unset - done)
      modifies rank.Keys`master
      decreases rank[this], 2
      ensures took <==> old(master) == null
      ensures master != null
      ensures forall n :: n in rank ==>
                n.master == if took && n in Given(this, unset - done, rank) then value else old(n.master)
      ensures forall n :: n in rank && old(n.master) == null && n.master != null ==> MembersAttached(n)
    {
      took := master == null;
      if took {
        assert Unset(rank) == unset - done;
        var _ := SetMaster(value, rank);
      }
    }

    /**
     * `Assembly.attach(members)`: the master is reset first, even when the
     * argument is then refused with TypeError. New members are appended to
     * fresh lists (an earlier shallow copy keeps the old ones) and every paint
     * and decal of theirs that is missing from this object's maps is added as
     * not done; the maps are updated in place, so a copy sharing them sees
     * the new keys too.
     */
    method Attach(members: Arg, ghost rank: map<Part, nat>) returns (r: Outcome)
      requires kind != PartKind
      requires paints != decals
      modifies this`master, this`parts, this`assemblies, paints`items, decals`items
      ensures master == null
      ensures r.Fail? <==> ParseMembers(members).Err?
      ensures r.Fail? ==> r.error == TypeError && parts == old(parts) && assemblies == old(assemblies)
                          && paints.items == old(paints.items) && decals.items == old(decals.items)
      ensures r.Pass? ==>
                var ms := ParseMembers(members).value;
                parts == old(parts) + ms && assemblies == old(assemblies) + AssembliesOf(ms)
                && paints.items == AddMissing(old(paints.items), old(PaintKeysOf(ms)))
                && decals.items == AddMissing(old(decals.items), old(DecalKeysOf(ms)))
      ensures old(Ranked(rank)) && this in rank && ArgBelow(members, rank, rank[this]) ==> Ranked(rank)
    {
      var parsed := ParseMembers(members);
      if parsed.Err? {
        master := null;
        return Fail(parsed.error);
      }
      var ms := parsed.value;
      var newPaints := PaintKeysOf(ms);
      var newDecals := DecalKeysOf(ms);
      if Ranked(rank) && this in rank && ArgBelow(members, rank, rank[this]) {
        ParsedBelow(members, rank, rank[this]);
      }
      master := null;
      AddKeys(newPaints, newDecals);
      Extend(ms, rank);
      r := Pass;
    }

    /** Adds the keys missing from the paint and decal maps, as not done; present keys keep their status. */
    method AddKeys(pk: set<Obj>, dk: set<Obj>)
      requires paints != decals
      modifies paints`items, decals`items
      ensures paints.items == AddMissing(old(paints.items), pk)
      ensures decals.items == AddMissing(old(decals.items), dk)
    {
      ghost var oldDecals := decals.items;
      paints.items := AddMissing(paints.items, pk);
      assert decals.items == oldDecals;
      decals.items := AddMissing(decals.items, dk);
    }

    /** Appends members to fresh member lists; members ranked below this object keep the graph ranked. */
    method Extend(ms: seq<Part>, ghost rank: map<Part, nat>)
      requires kind != PartKind
      requires forall i :: 0 <= i < |ms| ==> IsMemberKind(ms[i].kind)
      modifies this`parts, this`assemblies
      ensures parts == old(parts) + ms && assemblies == old(assemblies) + AssembliesOf(ms)
      ensures old(Ranked(rank)) && this in rank && (forall i :: 0 <= i < |ms| ==> ms[i] in rank && rank[ms[i]] < rank[this])
              ==> Ranked(rank)
    {
      ghost var oldParts := parts;
      parts := parts + ms;
      assemblies := assemblies + AssembliesOf(ms);
      if old(Ranked(rank)) && this in rank && forall i :: 0 <= i < |ms| ==> ms[i] in rank && rank[ms[i]] < rank[this] {
        assert Shaped(this, rank) by {
          assert old(Shaped(this, rank));
          AssembliesOfAppend(oldParts, ms);
          forall i | 0 <= i < |parts|
            ensures parts[i] in rank && rank[parts[i]] < rank[this] && IsMemberKind(parts[i].kind)
          {
            if i < |oldParts| {
              assert parts[i] == oldParts[i];
            } else {
              assert parts[i] == ms[i - |oldParts|];
            }
          }
          AssembliesOfMembers(parts);
          forall i | 0 <= i < |assemblies|
            ensures assemblies[i] in rank && rank[assemblies[i]] < rank[this] && assemblies[i].kind == AssemblyKind
          {
            var j :| 0 <= j < |parts| && parts[j] == assemblies[i];
          }
        }
        assert Ranked(rank) by {
          forall n | n in rank && n != this
            ensures Shaped(n, rank)
          {
            assert old(Shaped(n, rank));
          }
        }
      }
    }
  }

  // ---------------------------------------------------------------- shape of the graph

  /** The members of `ms` that are Assemblies, in order (`type(p) == Assembly`). */
  function AssembliesOf(ms: seq<Part>): (r: seq<Part>)
    ensures |r| <= |ms|
    ensures forall i :: 0 <= i < |r| ==> r[i].kind == AssemblyKind
  {
    if ms == [] then []
    else (if ms[0].kind == AssemblyKind then [ms[0]] else []) + AssembliesOf(ms[1..])
  }

  /** The Assemblies listed are exactly the members that are Assemblies. */
  lemma {:induction false} AssembliesOfMembers(ms: seq<Part>)
    ensures forall i :: 0 <= i < |AssembliesOf(ms)| ==> AssembliesOf(ms)[i] in ms
    ensures forall i :: 0 <= i < |ms| && ms[i].kind == AssemblyKind ==> ms[i] in AssembliesOf(ms)
  {
    if ms != [] {
      AssembliesOfMembers(ms[1..]);
      var head := if ms[0].kind == AssemblyKind then [ms[0]] else [];
      var r := AssembliesOf(ms);
      assert r == head + AssembliesOf(ms[1..]);
      forall i | 0 <= i < |r|
        ensures r[i] in ms
      {
        if i >= |head| {
          assert r[i] == AssembliesOf(ms[1..])[i - |head|];
        }
      }
      forall i | 0 <= i < |ms| && ms[i].kind == AssemblyKind
        ensures ms[i] in r
      {
        if i > 0 {
          assert ms[i] == ms[1..][i - 1];
        }
      }
    }
  }

  lemma {:induction false} AssembliesOfAppend(xs: seq<Part>, ys: seq<Part>)
    ensures AssembliesOf(xs + ys) == AssembliesOf(xs) + AssembliesOf(ys)
  {
    if xs == [] {
      assert xs + ys == ys;
    } else {
      assert (xs + ys)[1..] == xs[1..] + ys;
      AssembliesOfAppend(xs[1..], ys);
    }
  }

  /**
   * One object's shape: a plain Part has no members, `assemblies` lists the
   * Assembly members, every member is a Part or an Assembly of smaller rank,
   * and the two status maps are distinct objects.
   */
  ghost predicate Shaped(n: Part, rank: map<Part, nat>)
    requires n in rank
    reads n`parts, n`assemblies
  {
    && (n.kind == PartKind ==> n.parts == [])
    && n.assemblies == AssembliesOf(n.parts)
    && n.paints != n.decals
    && (forall i :: 0 <= i < |n.parts| ==>
          n.parts[i] in rank && rank[n.parts[i]] < rank[n] && IsMemberKind(n.parts[i].kind))
    && (forall i :: 0 <= i < |n.assemblies| ==>
          n.assemblies[i] in rank && rank[n.assemblies[i]] < rank[n] && n.assemblies[i].kind == AssemblyKind)
  }

  /** Every ranked object is well shaped, so following members always descends in rank: the graph is acyclic. */
  ghost predicate Ranked(rank: map<Part, nat>)
    reads rank.Keys`parts, rank.Keys`assemblies
  {
    forall n {:trigger Shaped(n, rank)} :: n in rank ==> Shaped(n, rank)
  }

  /** `n` and everything below it, following members. */
  ghost function Reach(n: Part, rank: map<Part, nat>): (s: set<Part>)
    requires Ranked(rank) && n in rank
    reads rank.Keys`parts, rank.Keys`assemblies
    ensures n in s && s <= rank.Keys
    decreases rank[n], |n.parts| + 1
  {
    {n} + ReachFrom(n, 0, rank)
  }

  /** Everything below the members `n.parts[i..]`. */
  ghost function ReachFrom(n: Part, i: nat, rank: map<Part, nat>): (s: set<Part>)
    requires Ranked(rank) && n in rank && i <= |n.parts|
    reads rank.Keys`parts, rank.Keys`assemblies
    ensures s <= rank.Keys
    decreases rank[n], |n.parts| - i
  {
    assert Shaped(n, rank);
    if i == |n.parts| then {} else Reach(n.parts[i], rank) + ReachFrom(n, i + 1, rank)
  }

  /** `x` lies below the members from `i` on exactly when it lies below one of them. */
  lemma {:induction false} ReachFromMember(n: Part, i: nat, x: Part, rank: map<Part, nat>)
    requires Ranked(rank) && n in rank && i <= |n.parts|
    ensures Shaped(n, rank)
    ensures x in ReachFrom(n, i, rank) <==> exists j :: i <= j < |n.parts| && x in Reach(n.parts[j], rank)
    decreases |n.parts| - i
  {
    assert Shaped(n, rank);
    if i < |n.parts| {
      ReachFromMember(n, i + 1, x, rank);
    }
  }

  /** Only Parts and Assemblies lie strictly below an object. */
  lemma {:induction false} BelowAreMembers(n: Part, x: Part, rank: map<Part, nat>)
    requires Ranked(rank) && n in rank && x in ReachFrom(n, 0, rank)
    ensures IsMemberKind(x.kind)
    decreases rank[n]
  {
    ReachFromMember(n, 0, x, rank);
    var j :| 0 <= j < |n.parts| && x in Reach(n.parts[j], rank);
    if x != n.parts[j] {
      BelowAreMembers(n.parts[j], x, rank);
    }
  }

  /** Everything below the members from `j` on lies below `n`. */
  lemma {:induction false} ReachFromBelow(n: Part, j: nat, rank: map<Part, nat>)
    requires Ranked(rank) && n in rank && j <= |n.parts|
    ensures ReachFrom(n, j, rank) <= Reach(n, rank)
    decreases j
  {
    if j > 0 {
      ReachFromBelow(n, j - 1, rank);
      assert ReachFrom(n, j - 1, rank) == Reach(n.parts[j - 1], rank) + ReachFrom(n, j, rank) by {
        assert Shaped(n, rank);
      }
    }
  }

  /** What lies below a member lies below the object holding it. */
  lemma ReachMember(n: Part, i: nat, rank: map<Part, nat>)
    requires Ranked(rank) && n in rank && i < |n.parts|
    ensures Shaped(n, rank) && n.parts[i] in rank
    ensures Reach(n.parts[i], rank) <= Reach(n, rank)
  {
    assert Shaped(n, rank);
    ReachFromBelow(n, i, rank);
  }

  /** Every member of `n` has a master. */
  ghost predicate MembersAttached(n: Part)
    reads n`parts, (set i | 0 <= i < |n.parts| :: n.parts[i])`master
  {
    forall i :: 0 <= i < |n.parts| ==> n.parts[i].master != null
  }

  /** The ranked objects that have no master yet. */
  ghost function Unset(rank: map<Part, nat>): (u: set<Part>)
    reads rank.Keys`master
    ensures u <= rank.Keys && forall n :: n in rank ==> (n in u <==> n.master == null)
  {
    set n | n in rank && n.master == null
  }

  /**
   * What the setter of `n` hands a Step on to when the objects in `unset`
   * have no master: each member in `unset`, and what that member's own
   * setter hands it on to. A member with a master is skipped, and so is
   * everything below it.
   */
  ghost function Handed(n: Part, unset: set<Part>, rank: map<Part, nat>): set<Part>
    requires Ranked(rank) && n in rank
    reads rank.Keys`parts, rank.Keys`assemblies
    decreases rank[n], |n.parts| + 1
  {
    HandedUpTo(n, |n.parts|, unset, rank)
  }

  /** What the first `i` turns of the setter's loop over the members of `n` hand on. */
  ghost function HandedUpTo(n: Part, i: nat, unset: set<Part>, rank: map<Part, nat>): set<Part>
    requires Ranked(rank) && n in rank && i <= |n.parts|
    reads rank.Keys`parts, rank.Keys`assemblies
    decreases rank[n], i
  {
    assert Shaped(n, rank);
    if i == 0 then {}
    else
      var m := n.parts[i - 1];
      HandedUpTo(n, i - 1, unset, rank) + (if m in unset then {m} + Handed(m, unset, rank) else {})
  }

  /** What the setter of `n` gives the Step to: `n` itself when it has no master, and what it hands on. */
  ghost function Given(n: Part, unset: set<Part>, rank: map<Part, nat>): set<Part>
    requires Ranked(rank) && n in rank
    reads rank.Keys`parts, rank.Keys`assemblies
  {
    (if n in unset then {n} else {}) + Handed(n, unset, rank)
  }

  /** An object is handed on by the first `i` turns exactly when one of those members took it. */
  lemma {:induction false} HandedUpToMember(n: Part, i: nat, unset: set<Part>, x: Part, rank: map<Part, nat>)
    requires Ranked(rank) && n in rank && i <= |n.parts|
    ensures Shaped(n, rank)
    ensures x in HandedUpTo(n, i, unset, rank) <==>
              exists j :: 0 <= j < i && n.parts[j] in unset && (x == n.parts[j] || x in Handed(n.parts[j], unset, rank))
  {
    assert Shaped(n, rank);
    if i > 0 {
      HandedUpToMember(n, i - 1, unset, x, rank);
    }
  }

  /** Only objects without a master, strictly below `n`, are handed on. */
  lemma {:induction false} HandedBelow(n: Part, unset: set<Part>, x: Part, rank: map<Part, nat>)
    requires Ranked(rank) && n in rank && x in Handed(n, unset, rank)
    ensures x in unset && x in rank && rank[x] < rank[n] && x in ReachFrom(n, 0, rank)
    decreases rank[n]
  {
    HandedUpToMember(n, |n.parts|, unset, x, rank);
    var j :| 0 <= j < |n.parts| && n.parts[j] in unset && (x == n.parts[j] || x in Handed(n.parts[j], unset, rank));
    ReachFromMember(n, 0, x, rank);
    if x != n.parts[j] {
      HandedBelow(n.parts[j], unset, x, rank);
      ReachFromBelow(n.parts[j], 0, rank);
    }
  }

  /** What an object handed on by `m` hands on, `m` hands on as well. */
  lemma {:induction false} HandedTrans(m: Part, unset: set<Part>, x: Part, rank: map<Part, nat>)
    requires Ranked(rank) && m in rank && x in Handed(m, unset, rank)
    ensures x in rank && Handed(x, unset, rank) <= Handed(m, unset, rank)
    decreases rank[m]
  {
    HandedBelow(m, unset, x, rank);
    HandedUpToMember(m, |m.parts|, unset, x, rank);
    var j :| 0 <= j < |m.parts| && m.parts[j] in unset && (x == m.parts[j] || x in Handed(m.parts[j], unset, rank));
    var c := m.parts[j];
    if x != c {
      HandedTrans(c, unset, x, rank);
    }
    forall y | y in Handed(c, unset, rank)
      ensures y in Handed(m, unset, rank)
    {
      HandedUpToMember(m, |m.parts|, unset, y, rank);
    }
  }

  /** The objects handed on by the first `i` turns hand on nothing outside them. */
  lemma {:induction false} HandedUpToClosed(n: Part, i: nat, unset: set<Part>, rank: map<Part, nat>)
    requires Ranked(rank) && n in rank && i <= |n.parts|
    ensures forall d :: d in HandedUpTo(n, i, unset, rank) ==>
              d in rank && Handed(d, unset, rank) <= HandedUpTo(n, i, unset, rank)
  {
    forall d | d in HandedUpTo(n, i, unset, rank)
      ensures d in rank && Handed(d, unset, rank) <= HandedUpTo(n, i, unset, rank)
    {
      HandedUpToMember(n, i, unset, d, rank);
      var j :| 0 <= j < i && n.parts[j] in unset && (d == n.parts[j] || d in Handed(n.parts[j], unset, rank));
      var c := n.parts[j];
      if d != c {
        HandedTrans(c, unset, d, rank);
      }
      forall y | y in Handed(c, unset, rank)
        ensures y in HandedUpTo(n, i, unset, rank)
      {
        HandedUpToMember(n, i, unset, y, rank);
      }
    }
  }

  /**
   * Objects `done` that hand on nothing outside themselves may as well be
   * left out of `unset`: together with them, the same objects are handed on.
   */
  lemma {:induction false} HandedWithout(n: Part, unset: set<Part>, done: set<Part>, x: Part, rank: map<Part, nat>)
    requires Ranked(rank) && n in rank
    requires forall d :: d in done ==> d in rank && Handed(d, unset, rank) <= done
    ensures x in Handed(n, unset - done, rank) + done <==> x in Handed(n, unset, rank) + done
    decreases rank[n]
  {
    HandedUpToMember(n, |n.parts|, unset - done, x, rank);
    HandedUpToMember(n, |n.parts|, unset, x, rank);
    if x in Handed(n, unset - done, rank) {
      var j :| 0 <= j < |n.parts| && n.parts[j] in unset - done
               && (x == n.parts[j] || x in Handed(n.parts[j], unset - done, rank));
      if x != n.parts[j] {
        HandedWithout(n.parts[j], unset, done, x, rank);
      }
    } else if x in Handed(n, unset, rank) && x !in done {
      var j :| 0 <= j < |n.parts| && n.parts[j] in unset && (x == n.parts[j] || x in Handed(n.parts[j], unset, rank));
      var c := n.parts[j];
      if c !in done && x != c {
        HandedWithout(c, unset, done, x, rank);
      }
    }
  }

  /**
   * One turn of the setter's loop: a member still without a master gives the
   * Step to what it would have been given with the earlier turns' objects
   * already set; any other member adds nothing.
   */
  /** The setter only gives a master to objects without one, and only to objects below where it starts. */
  lemma GivenBelow(n: Part, unset: set<Part>, rank: map<Part, nat>)
    requires Ranked(rank) && n in rank
    ensures forall x :: x in Given(n, unset, rank) ==> x in unset && x in Reach(n, rank)
  {
    forall x | x in Handed(n, unset, rank)
      ensures x in unset && x in Reach(n, rank)
    {
      HandedBelow(n, unset, x, rank);
    }
  }

  lemma HandedNext(n: Part, i: nat, unset: set<Part>, rank: map<Part, nat>)
    requires Ranked(rank) && n in rank && i < |n.parts|
    ensures Shaped(n, rank) && n.parts[i] in rank
    ensures var done := HandedUpTo(n, i, unset, rank);
            forall x :: x in HandedUpTo(n, i + 1, unset, rank) <==>
              x in done || (n.parts[i] in unset - done && x in Given(n.parts[i], unset - done, rank))
  {
    assert Shaped(n, rank);
    var done := HandedUpTo(n, i, unset, rank);
    var p := n.parts[i];
    HandedUpToClosed(n, i, unset, rank);
    forall x
      ensures x in HandedUpTo(n, i + 1, unset, rank) <==>
                x in done || (p in unset - done && x in Given(p, unset - done, rank))
    {
      if p in unset - done {
        HandedWithout(p, unset, done, x, rank);
      }
    }
  }

  /** Whether an object of rank at least `n`'s has a master does not change what `n` hands on. */
  lemma {:induction false} HandedAbove(n: Part, unset: set<Part>, d: Part, x: Part, rank: map<Part, nat>)
    requires Ranked(rank) && n in rank && d in rank && rank[n] <= rank[d]
    ensures x in Handed(n, unset - {d}, rank) <==> x in Handed(n, unset, rank)
    decreases rank[n]
  {
    HandedUpToMember(n, |n.parts|, unset - {d}, x, rank);
    HandedUpToMember(n, |n.parts|, unset, x, rank);
    forall j | 0 <= j < |n.parts|
      ensures x in Handed(n.parts[j], unset - {d}, rank) <==> x in Handed(n.parts[j], unset, rank)
    {
      HandedAbove(n.parts[j], unset, d, x, rank);
    }
  }

  /** Every Part object the argument holds, at any depth, is ranked below `bound`. */
  ghost predicate ArgBelow(a: Arg, rank: map<Part, nat>, bound: nat) {
    match a
    case Val(_) => true
    case Node(n) => n in rank && rank[n] < bound
    case Items(xs) => forall i :: 0 <= i < |xs| ==> ArgBelow(xs[i], rank, bound)
  }

  /** Members parsed from an argument below a bound are ranked below it. */
  lemma ParsedBelow(a: Arg, rank: map<Part, nat>, bound: nat)
    requires ArgBelow(a, rank, bound) && ParseMembers(a).Ok?
    ensures forall i :: 0 <= i < |ParseMembers(a).value| ==>
              ParseMembers(a).value[i] in rank && rank[ParseMembers(a).value[i]] < bound
  {
    if !(a.Node? && IsMemberKind(a.node.kind)) && a.Items? {
      var ms := ParseMembers(a).value;
      forall i | 0 <= i < |ms|
        ensures ms[i] in rank && rank[ms[i]] < bound
      {
        assert ArgBelow(a.items[i], rank, bound);
      }
    }
  }

  // ---------------------------------------------------------------- arguments

  /** The items of a list or tuple argument; a string iterates as one-character strings. */
  function AsItems(a: Arg): (r: Option<seq<Arg>>)
    ensures a.Items? ==> r == Some(a.items)
    ensures a.Node? ==> r.None?
  {
    match a
    case Items(xs) => Some(xs)
    case Node(_) => None
    case Val(o) =>
      match AsSequence(o)
      case None => None
      case Some(os) => Some(seq(|os|, i requires 0 <= i < |os| => Val(os[i])))
  }

  /** A plain value iterates to plain values. */
  lemma ValItems(a: Arg)
    requires AsItems(a).Some?
    ensures a.Val? ==> forall i :: 0 <= i < |AsItems(a).value| ==> AsItems(a).value[i].Val?
    ensures a.Val? && |AsItems(a).value| > 0 ==> AsItems(a).value[0].Val?
  {
  }

  /**
   * `Assembly._parseParts` after the single-object wrap: a Part or an
   * Assembly stands for itself, a sequence must hold only Parts and
   * Assemblies, and anything else is a TypeError.
   */
  function ParseMembers(a: Arg): (r: Result<seq<Part>>)
    ensures r.Err? ==> r.error == TypeError
    ensures r.Ok? ==> forall i :: 0 <= i < |r.value| ==> IsMemberKind(r.value[i].kind)
    ensures a.Node? ==> (r.Ok? <==> IsMemberKind(a.node.kind)) && (r.Ok? ==> r.value == [a.node])
    ensures a.Items? ==>
              (r.Ok? <==> forall i :: 0 <= i < |a.items| ==> a.items[i].Node? && IsMemberKind(a.items[i].node.kind))
              && (r.Ok? ==> |r.value| == |a.items| && forall i :: 0 <= i < |a.items| ==> r.value[i] == a.items[i].node)
    ensures a.Val? && r.Ok? ==> r.value == []
  {
    if a.Node? && IsMemberKind(a.node.kind) then Ok([a.node])
    else match AsItems(a)
      case None => Err(TypeError)
      case Some(xs) =>
        ValItems(a);
        if forall i :: 0 <= i < |xs| ==> xs[i].Node? && IsMemberKind(xs[i].node.kind)
        then Ok(seq(|xs|, i requires 0 <= i < |xs| => xs[i].node))
        else Err(TypeError)
  }

  /** The union of the members' paint keys. */
  function PaintKeysOf(ms: seq<Part>): (keys: set<Obj>)
    reads set i | 0 <= i < |ms| :: ms[i].paints
    ensures forall k :: k in keys <==> exists i :: 0 <= i < |ms| && k in ms[i].paints.items
  {
    if ms == [] then {}
    else
      var rest := PaintKeysOf(ms[1..]);
      assert forall i :: 1 <= i < |ms| ==> ms[i] == ms[1..][i - 1];
      ms[0].paints.items.Keys + rest
  }

  /** The union of the members' decal keys. */
  function DecalKeysOf(ms: seq<Part>): (keys: set<Obj>)
    reads set i | 0 <= i < |ms| :: ms[i].decals
    ensures forall k :: k in keys <==> exists i :: 0 <= i < |ms| && k in ms[i].decals.items
  {
    if ms == [] then {}
    else
      var rest := DecalKeysOf(ms[1..]);
      assert forall i :: 1 <= i < |ms| ==> ms[i] == ms[1..][i - 1];
      ms[0].decals.items.Keys + rest
  }

  /** A paint key is a Paint, a decal key a Decal. */
  predicate IsKeyOf(k: Obj, isPaint: bool) {
    if isPaint then k.PaintObj? else k.DecalObj?
  }

  /**
   * What Part's constructor accepts for `paints` (or `decals`): None, one
   * Paint (Decal), or a sequence of them; the result is the key set.
   */
  function KeysArg(o: Obj, isPaint: bool): (r: Result<set<Obj>>)
    ensures r.Err? ==> r.error == TypeError
    ensures r.Ok? ==> forall k :: k in r.value ==> IsKeyOf(k, isPaint)
    ensures o.NoneObj? ==> r == Ok({})
    ensures IsKeyOf(o, isPaint) ==> r == Ok({o})
    ensures o.ListObj? || o.TupleObj? ==>
              r == if forall i :: 0 <= i < |o.items| ==> IsKeyOf(o.items[i], isPaint)
                   then Ok(set i | 0 <= i < |o.items| :: o.items[i]) else Err(TypeError)
  {
    if o.NoneObj? then Ok({})
    else if IsKeyOf(o, isPaint) then Ok({o})
    else match AsSequence(o)
      case None => Err(TypeError)
      case Some(xs) =>
        if forall i :: 0 <= i < |xs| ==> IsKeyOf(xs[i], isPaint)
        then Ok(set i | 0 <= i < |xs| :: xs[i])
        else Err(TypeError)
  }

  /** Part's constructor checks: the id is a str, then the paints, then the decals. */
  function PartFields(id: Obj, paints: Obj, decals: Obj): (r: Result<(string, set<Obj>, set<Obj>)>)
    ensures r.Err? ==> r.error == TypeError
    ensures r.Ok? <==> id.StrObj? && KeysArg(paints, true).Ok? && KeysArg(decals, false).Ok?
    ensures r.Ok? ==> r.value == (id.s, KeysArg(paints, true).value, KeysArg(decals, false).value)
  {
    if !id.StrObj? then Err(TypeError)
    else match KeysArg(paints, true)
      case Err(e) => Err(e)
      case Ok(pk) =>
        match KeysArg(decals, false)
        case Err(e) => Err(e)
        case Ok(dk) => Ok((id.s, pk, dk))
  }

  /** `Part(id, paints, decals)`: every listed paint and decal starts not done. */
  method NewPart(id: Obj, paints: Obj, decals: Obj) returns (r: Result<Part>)
    ensures r.Err? <==> PartFields(id, paints, decals).Err?
    ensures r.Err? ==> r.error == TypeError
    ensures r.Ok? ==>
              var (i, pk, dk) := PartFields(id, paints, decals).value;
              var p := r.value;
              && fresh(p) && fresh(p.paints) && fresh(p.decals)
              && p.kind == PartKind && p.id == i && p.previous == null
              && p.paints.guarded && !p.decals.guarded
              && p.paints.items == Seeded(pk) && p.decals.items == Seeded(dk)
              && p.master == null && p.parts == [] && p.assemblies == []
  {
    var fields := PartFields(id, paints, decals);
    if fields.Err? {
      return Err(fields.error);
    }
    var (i, pk, dk) := fields.value;
    var p := new Part.Init(PartKind, i, pk, dk, [], null);
    r := Ok(p);
  }

  /** Every key is a Paint (or every key a Decal). */
  predicate AllKeysOf(keys: set<Obj>, isPaint: bool) {
    forall k :: k in keys ==> IsKeyOf(k, isPaint)
  }

  /**
   * `Assembly(id, members)`: the members are parsed, then Part's constructor
   * checks the id and the union of the members' paints and decals (a member
   * whose maps gained a non-Paint or non-Decal key makes it raise TypeError).
   */
  method NewAssembly(id: Obj, members: Arg) returns (r: Result<Part>)
    ensures ParseMembers(members).Err? ==> r == Err(TypeError)
    ensures ParseMembers(members).Ok? ==>
              var ms := ParseMembers(members).value;
              r.Ok? <==> id.StrObj? && AllKeysOf(old(PaintKeysOf(ms)), true) && AllKeysOf(old(DecalKeysOf(ms)), false)
    ensures r.Err? ==> r.error == TypeError
    ensures r.Ok? ==>
              var ms := ParseMembers(members).value;
              var a := r.value;
              && fresh(a) && fresh(a.paints) && fresh(a.decals)
              && a.kind == AssemblyKind && a.id == id.s && a.previous == null
              && a.paints.guarded && !a.decals.guarded
              && a.paints.items == Seeded(old(PaintKeysOf(ms))) && a.decals.items == Seeded(old(DecalKeysOf(ms)))
              && a.master == null && a.parts == ms && a.assemblies == AssembliesOf(ms)
  {
    var parsed := ParseMembers(members);
    if parsed.Err? {
      return Err(parsed.error);
    }
    var ms := parsed.value;
    var pk := PaintKeysOf(ms);
    var dk := DecalKeysOf(ms);
    if !id.StrObj? || !AllKeysOf(pk, true) || !AllKeysOf(dk, false) {
      return Err(TypeError);
    }
    var a := new Part.Init(AssemblyKind, id.s, pk, dk, ms, null);
    r := Ok(a);
  }

  /** A rank one above every member's: where a new object holding `ms` goes. */
  ghost function RankAbove(ms: seq<Part>, rank: map<Part, nat>): (k: nat)
    requires forall i :: 0 <= i < |ms| ==> ms[i] in rank
    ensures forall i :: 0 <= i < |ms| ==> rank[ms[i]] < k
  {
    if ms == [] then 0
    else
      var k := RankAbove(ms[1..], rank);
      assert forall i :: 1 <= i < |ms| ==> ms[i] == ms[1..][i - 1];
      if rank[ms[0]] + 1 > k then rank[ms[0]] + 1 else k
  }

  /** A new, well-shaped object whose members are ranked keeps the graph ranked once it is added above them. */
  lemma AddRanked(rank: map<Part, nat>, n: Part)
    requires Ranked(rank) && n !in rank
    requires n.kind == PartKind ==> n.parts == []
    requires n.assemblies == AssembliesOf(n.parts) && n.paints != n.decals
    requires forall i :: 0 <= i < |n.parts| ==> n.parts[i] in rank && IsMemberKind(n.parts[i].kind)
    ensures Ranked(rank[n := RankAbove(n.parts, rank)])
  {
    var rank' := rank[n := RankAbove(n.parts, rank)];
    forall m | m in rank'
      ensures Shaped(m, rank')
    {
      if m != n {
        assert Shaped(m, rank);
      } else {
        AssembliesOfMembers(n.parts);
      }
    }
  }

  /** `number` as `Part.copy` checks it: an int (a bool counts as one), and positive. */
  function CopyCount(number: Obj): (r: Result<nat>)
    ensures r.Ok? <==> AsInt(number).Some? && AsInt(number).value > 0
    ensures r.Ok? ==> r.value == AsInt(number).value
    ensures r.Err? ==> r.error == if AsInt(number).None? then TypeError else ValueError
  {
    match AsInt(number)
    case None => Err(TypeError)
    case Some(k) => if k <= 0 then Err(ValueError) else Ok(k)
  }

  /**
   * `part.copy(number)` for a plain Part that is not yet attached: `number`
   * independent deep copies, each with its own status maps holding the same
   * statuses (one object when `number` is 1, a sequence of them otherwise).
   */
  method CopyPart(p: Part, number: Obj) returns (r: Result<seq<Part>>)
    requires p.kind == PartKind && p.master == null
    ensures r.Err? <==> CopyCount(number).Err?
    ensures r.Err? ==> r.error == CopyCount(number).error
    ensures r.Ok? ==> |r.value| == CopyCount(number).value
    ensures r.Ok? ==> forall i :: 0 <= i < |r.value| ==>
              var c := r.value[i];
              && fresh(c) && fresh(c.paints) && fresh(c.decals)
              && c.kind == PartKind && c.id == p.id && c.previous == null && c.master == null
              && c.paints.guarded == p.paints.guarded && c.decals.guarded == p.decals.guarded
              && c.paints.items == p.paints.items && c.decals.items == p.decals.items
              && c.parts == [] && c.assemblies == []
    ensures r.Ok? ==> forall i, j :: 0 <= i < j < |r.value| ==>
              r.value[i] != r.value[j] && r.value[i].paints != r.value[j].paints
              && r.value[i].decals != r.value[j].decals
  {
    var count := CopyCount(number);
    if count.Err? {
      return Err(count.error);
    }
    var copies: seq<Part> := [];
    while |copies| < count.value
      invariant |copies| <= count.value
      invariant forall i :: 0 <= i < |copies| ==>
                  var c := copies[i];
                  && fresh(c) && fresh(c.paints) && fresh(c.decals)
                  && c.kind == PartKind && c.id == p.id && c.previous == null && c.master == null
                  && c.paints.guarded == p.paints.guarded && c.decals.guarded == p.decals.guarded
                  && c.paints.items == p.paints.items && c.decals.items == p.decals.items
                  && c.parts == [] && c.assemblies == []
      invariant forall i, j :: 0 <= i < j < |copies| ==>
                  copies[i] != copies[j] && copies[i].paints != copies[j].paints
                  && copies[i].decals != copies[j].decals
    {
      var pm := new HashMap(p.paints.guarded, p.paints.items);
      var dm := new HashMap(p.decals.guarded, p.decals.items);
      var c := new Part.Make(PartKind, p.id, pm, dm, [], null);
      copies := copies + [c];
    }
    r := Ok(copies);
  }
}
