/**
 * What the graph answers without changing: statuses (checkPaint,
 * isPainted, isDecaled, isComplete), value equality (`__hash__`/`__eq__`),
 * membership (`in`) and the Assembly searches get, getUnpainted and
 * getUndecaled.
 *
 * Every function here reads the members, the status maps and (for the
 * searches) the masters of the ranked objects, and nothing else.
 */
module Queries {
  import opened Base
  import opened Detail
  import opened HashMaps
  import opened Parts

  // ---------------------------------------------------------------- statuses

  /** No status is exactly `False` (`v is False`: None and True both count as done). */
  predicate NoneFalse(m: map<Obj, Obj>) {
    forall k :: k in m ==> m[k] != BoolObj(false)
  }

  /** The paint map or the decal map of an object. */
  function StatusMap(n: Part, isPaint: bool): HashMap {
    if isPaint then n.paints else n.decals
  }

  /**
   * `isPainted()` (`isPaint`) or `isDecaled()`: a plain Part looks at its own
   * map; an Assembly or Step ignores its own map and asks every member.
   */
  ghost predicate Finished(n: Part, isPaint: bool, rank: map<Part, nat>)
    requires Ranked(rank) && n in rank
    reads rank.Keys`parts, rank.Keys`assemblies
    reads set m | m in rank :: m.paints, set m | m in rank :: m.decals
    decreases rank[n]
  {
    assert Shaped(n, rank);
    if n.kind == PartKind then NoneFalse(StatusMap(n, isPaint).items)
    else forall i :: 0 <= i < |n.parts| ==> Finished(n.parts[i], isPaint, rank)
  }

  /** `isComplete()`: painted and decaled. */
  ghost predicate Complete(n: Part, rank: map<Part, nat>)
    requires Ranked(rank) && n in rank
    reads rank.Keys`parts, rank.Keys`assemblies
    reads set m | m in rank :: m.paints, set m | m in rank :: m.decals
  {
    Finished(n, true, rank) && Finished(n, false, rank)
  }

  /**
   * An object is painted (decaled) exactly when no plain Part at or below it
   * has a paint (decal) left at `False`; the statuses of Assemblies and
   * Steps themselves never matter.
   */
  lemma {:induction false} FinishedLeaves(n: Part, isPaint: bool, rank: map<Part, nat>)
    requires Ranked(rank) && n in rank
    ensures Finished(n, isPaint, rank) <==>
              forall x :: x in Reach(n, rank) && x.kind == PartKind ==> NoneFalse(StatusMap(x, isPaint).items)
    decreases rank[n]
  {
    assert Shaped(n, rank);
    if n.kind == PartKind {
      assert ReachFrom(n, 0, rank) == {};
      assert Reach(n, rank) == {n};
    } else {
      forall i | 0 <= i < |n.parts| {
        FinishedLeaves(n.parts[i], isPaint, rank);
      }
      forall x | x in Reach(n, rank) && x != n
        ensures exists j :: 0 <= j < |n.parts| && x in Reach(n.parts[j], rank)
      {
        ReachFromMember(n, 0, x, rank);
      }
      forall j, x | 0 <= j < |n.parts| && x in Reach(n.parts[j], rank)
        ensures x in Reach(n, rank)
      {
        ReachMember(n, j, rank);
      }
    }
  }

  /** `isComplete()` of an Assembly or Step: complete exactly when every member is. */
  lemma CompleteMembers(n: Part, rank: map<Part, nat>)
    requires Ranked(rank) && n in rank && n.kind != PartKind
    ensures Shaped(n, rank)
    ensures Complete(n, rank) <==> forall i :: 0 <= i < |n.parts| ==> Complete(n.parts[i], rank)
  {
    assert Shaped(n, rank);
  }

  /** `checkPaint(paint)` / `checkDecal(decal)`: the stored status, None when absent; TypeError for a wrong argument. */
  function CheckStatus(n: Part, key: Obj, isPaint: bool): (r: Result<Obj>)
    reads StatusMap(n, isPaint)
    ensures r.Err? <==> !IsKeyOf(key, isPaint)
    ensures r.Err? ==> r.error == TypeError
    ensures r.Ok? ==> (r.value == NoneObj <==> key !in StatusMap(n, isPaint).items
                                               || StatusMap(n, isPaint).items[key] == NoneObj)
    ensures r.Ok? && key in StatusMap(n, isPaint).items ==> r.value == StatusMap(n, isPaint).items[key]
  {
    if !IsKeyOf(key, isPaint) then Err(TypeError) else Ok(Lookup(StatusMap(n, isPaint).items, key))
  }

  /**
   * `Part.__contains__(item)`: a Paint is looked up among the paints, a Decal
   * among the decals. An Assembly or a Step answers membership with its own
   * `__contains__` (`Contains`).
   */
  function PartContains(n: Part, item: Arg): (r: Result<bool>)
    requires n.kind == PartKind
    reads n.paints, n.decals
    ensures r.Err? <==> !(item.Val? && (item.obj.PaintObj? || item.obj.DecalObj?))
    ensures r.Err? ==> r.error == TypeError
    ensures r.Ok? ==> r.value == (item.obj in StatusMap(n, item.obj.PaintObj?).items)
  {
    if item.Val? && item.obj.PaintObj? then Ok(item.obj in n.paints.items)
    else if item.Val? && item.obj.DecalObj? then Ok(item.obj in n.decals.items)
    else Err(TypeError)
  }

  // ---------------------------------------------------------------- hashing and equality

  /**
   * What `__hash__` is computed from. A Part hashes its id and the key sets
   * of its two maps (the statuses play no part); an Assembly adds its
   * members' hashes in order; a Step salts an Assembly's hash with its class
   * name.
   */
  datatype Print =
    | LeafPrint(id: string, paintKeys: set<Obj>, decalKeys: set<Obj>)
    | AssemblyPrint(own: Print, members: seq<Print>)
    | StepPrint(assembly: Print)

  ghost function Fingerprint(n: Part, rank: map<Part, nat>): Print
    requires Ranked(rank) && n in rank
    reads rank.Keys`parts, rank.Keys`assemblies
    reads set m | m in rank :: m.paints, set m | m in rank :: m.decals
    decreases rank[n], |n.parts| + 1
  {
    var own := LeafPrint(n.id, n.paints.items.Keys, n.decals.items.Keys);
    match n.kind
    case PartKind => own
    case AssemblyKind => AssemblyPrint(own, MemberPrints(n, 0, rank))
    case StepKind => StepPrint(AssemblyPrint(own, MemberPrints(n, 0, rank)))
  }

  /** The hashes of the members `n.parts[i..]`. */
  ghost function MemberPrints(n: Part, i: nat, rank: map<Part, nat>): (ps: seq<Print>)
    requires Ranked(rank) && n in rank && i <= |n.parts|
    reads rank.Keys`parts, rank.Keys`assemblies
    reads set m | m in rank :: m.paints, set m | m in rank :: m.decals
    ensures |ps| == |n.parts| - i
    decreases rank[n], |n.parts| - i
  {
    assert Shaped(n, rank);
    if i == |n.parts| then [] else [Fingerprint(n.parts[i], rank)] + MemberPrints(n, i + 1, rank)
  }

  lemma {:induction false} MemberPrintsAt(n: Part, i: nat, rank: map<Part, nat>)
    requires Ranked(rank) && n in rank && i <= |n.parts|
    ensures Shaped(n, rank)
    ensures forall j :: i <= j < |n.parts| ==> MemberPrints(n, i, rank)[j - i] == Fingerprint(n.parts[j], rank)
    decreases |n.parts| - i
  {
    assert Shaped(n, rank);
    if i < |n.parts| {
      MemberPrintsAt(n, i + 1, rank);
    }
  }

  /**
   * `p == q` between graph objects: the hashes are compared when the classes
   * let `__eq__` answer, and otherwise Python falls back to identity, which
   * fails as well; both come down to equal hashes.
   */
  ghost predicate Equal(p: Part, q: Part, rank: map<Part, nat>)
    requires Ranked(rank) && p in rank && q in rank
    reads rank.Keys`parts, rank.Keys`assemblies
    reads set m | m in rank :: m.paints, set m | m in rank :: m.decals
  {
    Fingerprint(p, rank) == Fingerprint(q, rank)
  }

  /**
   * Equality is by value: objects of different classes are never equal; two
   * Parts are equal when their ids and paint and decal key sets agree,
   * whatever the statuses and masters; two Assemblies (or two Steps) are
   * equal when, in addition, their members are equal one by one.
   */
  lemma EqualByValue(p: Part, q: Part, rank: map<Part, nat>)
    requires Ranked(rank) && p in rank && q in rank
    ensures Shaped(p, rank) && Shaped(q, rank)
    ensures p.kind != q.kind ==> !Equal(p, q, rank)
    ensures p.kind == q.kind ==>
              (Equal(p, q, rank) <==>
                 && p.id == q.id
                 && p.paints.items.Keys == q.paints.items.Keys
                 && p.decals.items.Keys == q.decals.items.Keys
                 && |p.parts| == |q.parts|
                 && forall i :: 0 <= i < |p.parts| ==> Equal(p.parts[i], q.parts[i], rank))
  {
    assert Shaped(p, rank) && Shaped(q, rank);
    if p.kind == q.kind && p.kind != PartKind {
      MemberPrintsAt(p, 0, rank);
      MemberPrintsAt(q, 0, rank);
      var pp, qp := MemberPrints(p, 0, rank), MemberPrints(q, 0, rank);
      if Equal(p, q, rank) {
        assert pp == qp;
        forall i | 0 <= i < |p.parts|
          ensures Equal(p.parts[i], q.parts[i], rank)
        {
          assert pp[i] == qp[i];
        }
      }
      if |p.parts| == |q.parts| && forall i :: 0 <= i < |p.parts| ==> Equal(p.parts[i], q.parts[i], rank) {
        forall i | 0 <= i < |pp|
          ensures pp[i] == qp[i]
        {
          assert Equal(p.parts[i], q.parts[i], rank);
        }
        assert pp == qp;
      }
    }
  }

  // ---------------------------------------------------------------- searches

  /** What `get` matches members against: an id, or the hash of a given object. */
  datatype Query = ById(id: string) | ByPrint(hash: Print)

  /** The `part` argument of `get`: a str, or any Part, Assembly or Step; anything else is a TypeError. */
  ghost function AsQuery(part: Arg, rank: map<Part, nat>): (r: Result<Query>)
    requires Ranked(rank) && (part.Node? ==> part.node in rank)
    reads rank.Keys`parts, rank.Keys`assemblies
    reads set m | m in rank :: m.paints, set m | m in rank :: m.decals
    ensures r.Err? <==> !(part.Node? || (part.Val? && part.obj.StrObj?))
    ensures r.Err? ==> r.error == TypeError
  {
    match part
    case Val(StrObj(s)) => Ok(ById(s))
    case Node(q) => Ok(ByPrint(Fingerprint(q, rank)))
    case _ => Err(TypeError)
  }

  /**
   * A search over an Assembly: `get` (a query, and whether `recursive` is
   * True), `getUnpainted` (a paint, or None), or the recursive search for
   * undecaled members that `getUndecaled` evidently intends.
   */
  datatype Search =
    | ByQuery(query: Query, deep: bool)
    | Unpainted(paint: Obj)
    | Undecaled

  /** Whether a member is reported by the search. */
  ghost predicate Selects(s: Search, p: Part, rank: map<Part, nat>)
    requires Ranked(rank) && p in rank
    reads rank.Keys`parts, rank.Keys`assemblies
    reads set m | m in rank :: m.paints, set m | m in rank :: m.decals
  {
    match s
    case ByQuery(ById(id), _) => p.id == id
    case ByQuery(ByPrint(h), _) => Fingerprint(p, rank) == h
    case Unpainted(paint) => Lookup(p.paints.items, paint) == BoolObj(false)
    case Undecaled => !Finished(p, false, rank)
  }

  /**
   * Whether the search goes into a sub-assembly: `get` does when the
   * sub-assembly has the same master (`is`) or the search is recursive; the
   * others always do.
   */
  ghost predicate Descends(s: Search, n: Part, a: Part)
    reads n`master, a`master
  {
    !s.ByQuery? || a.master == n.master || s.deep
  }

  /** A search that enters every sub-assembly. */
  predicate Exhaustive(s: Search) {
    !s.ByQuery? || s.deep
  }

  /** The members from `parts[i]` on that the search reports, in order. */
  ghost function Filter(n: Part, s: Search, i: nat, rank: map<Part, nat>): (r: seq<Part>)
    requires Ranked(rank) && n in rank && i <= |n.parts|
    reads rank.Keys`parts, rank.Keys`assemblies
    reads set m | m in rank :: m.paints, set m | m in rank :: m.decals
    ensures Shaped(n, rank)
    ensures forall k :: 0 <= k < |r| ==> r[k] in n.parts[i..] && Selects(s, r[k], rank)
    ensures forall j :: i <= j < |n.parts| && Selects(s, n.parts[j], rank) ==> n.parts[j] in r
    decreases |n.parts| - i
  {
    assert Shaped(n, rank);
    if i == |n.parts| then []
    else
      var rest := Filter(n, s, i + 1, rank);
      assert forall k :: 0 <= k < |rest| ==> rest[k] in n.parts[i..];
      if Selects(s, n.parts[i], rank) then [n.parts[i]] + rest else rest
  }

  /** The search's results in `n`: matching members first, then each sub-assembly's results. */
  ghost function Collect(n: Part, s: Search, rank: map<Part, nat>): seq<Part>
    requires Ranked(rank) && n in rank
    reads rank.Keys`parts, rank.Keys`assemblies, rank.Keys`master
    reads set m | m in rank :: m.paints, set m | m in rank :: m.decals
    decreases rank[n], |n.assemblies| + 1
  {
    Filter(n, s, 0, rank) + CollectFrom(n, s, 0, rank)
  }

  /** The results of the sub-assemblies `n.assemblies[i..]` the search goes into. */
  ghost function CollectFrom(n: Part, s: Search, i: nat, rank: map<Part, nat>): seq<Part>
    requires Ranked(rank) && n in rank && i <= |n.assemblies|
    reads rank.Keys`parts, rank.Keys`assemblies, rank.Keys`master
    reads set m | m in rank :: m.paints, set m | m in rank :: m.decals
    decreases rank[n], |n.assemblies| - i
  {
    assert Shaped(n, rank);
    if i == |n.assemblies| then []
    else
      var a := n.assemblies[i];
      (if Descends(s, n, a) then Collect(a, s, rank) else []) + CollectFrom(n, s, i + 1, rank)
  }

  /** A result of a sub-assembly the search goes into is among the results gathered from the sub-assemblies. */
  lemma {:induction false} CollectFromHas(n: Part, s: Search, i: nat, j: nat, x: Part, rank: map<Part, nat>)
    requires Ranked(rank) && n in rank && i <= j < |n.assemblies| && Shaped(n, rank)
    requires Descends(s, n, n.assemblies[j]) && x in Collect(n.assemblies[j], s, rank)
    ensures x in CollectFrom(n, s, i, rank)
    decreases j - i
  {
    var a := n.assemblies[i];
    var head := if Descends(s, n, a) then Collect(a, s, rank) else [];
    assert CollectFrom(n, s, i, rank) == head + CollectFrom(n, s, i + 1, rank);
    if i < j {
      CollectFromHas(n, s, i + 1, j, x, rank);
    }
  }

  /** Every result gathered from the sub-assemblies comes from one the search goes into. */
  lemma {:induction false} CollectFromWitness(n: Part, s: Search, i: nat, x: Part, rank: map<Part, nat>) returns (j: nat)
    requires Ranked(rank) && n in rank && i <= |n.assemblies| && Shaped(n, rank)
    requires x in CollectFrom(n, s, i, rank)
    ensures i <= j < |n.assemblies| && Descends(s, n, n.assemblies[j]) && x in Collect(n.assemblies[j], s, rank)
    decreases |n.assemblies| - i
  {
    var a := n.assemblies[i];
    var head := if Descends(s, n, a) then Collect(a, s, rank) else [];
    assert CollectFrom(n, s, i, rank) == head + CollectFrom(n, s, i + 1, rank);
    if x in head {
      j := i;
    } else {
      j := CollectFromWitness(n, s, i + 1, x, rank);
    }
  }

  /** Every result lies below `n` and is selected by the search. */
  lemma {:induction false} CollectSound(n: Part, s: Search, x: Part, rank: map<Part, nat>)
    requires Ranked(rank) && n in rank
    ensures x in Collect(n, s, rank) ==> x in ReachFrom(n, 0, rank) && x in rank && Selects(s, x, rank)
    decreases rank[n]
  {
    assert Shaped(n, rank);
    if x in Collect(n, s, rank) {
      if x in Filter(n, s, 0, rank) {
        var j :| 0 <= j < |n.parts| && n.parts[j] == x;
        ReachFromMember(n, 0, x, rank);
      } else {
        assert x in CollectFrom(n, s, 0, rank);
        var j := CollectFromWitness(n, s, 0, x, rank);
        var a := n.assemblies[j];
        CollectSound(a, s, x, rank);
        AssembliesOfMembers(n.parts);
        assert a in n.parts;
        var k :| 0 <= k < |n.parts| && n.parts[k] == a;
        ReachFromBelow(a, 0, rank);
        ReachFromMember(n, 0, x, rank);
      }
    }
  }

  /** A search that enters every sub-assembly finds exactly the selected objects below `n`. */
  lemma {:induction false} CollectExhaustive(n: Part, s: Search, x: Part, rank: map<Part, nat>)
    requires Ranked(rank) && n in rank && x in rank && Exhaustive(s)
    ensures x in Collect(n, s, rank) <==> x in ReachFrom(n, 0, rank) && Selects(s, x, rank)
    decreases rank[n]
  {
    CollectSound(n, s, x, rank);
    assert Shaped(n, rank);
    if x in ReachFrom(n, 0, rank) && Selects(s, x, rank) {
      ReachFromMember(n, 0, x, rank);
      var j :| 0 <= j < |n.parts| && x in Reach(n.parts[j], rank);
      var p := n.parts[j];
      if x == p {
        assert x in Filter(n, s, 0, rank);
      } else {
        assert x in ReachFrom(p, 0, rank);
        assert Shaped(p, rank);
        assert p.kind == AssemblyKind;
        AssembliesOfMembers(n.parts);
        assert p in n.assemblies;
        var k :| 0 <= k < |n.assemblies| && n.assemblies[k] == p;
        CollectExhaustive(p, s, x, rank);
        CollectFromHas(n, s, 0, k, x, rank);
      }
    }
  }

  /**
   * `Assembly.get(part, recursive)`: the members equal to `part` (or with
   * `part` as id), then the results of each sub-assembly that shares this
   * object's master, or of every sub-assembly when `recursive` is True.
   */
  ghost function Get(n: Part, part: Arg, recursive: Obj, rank: map<Part, nat>): (r: Result<seq<Part>>)
    requires Ranked(rank) && n in rank && n.kind != PartKind && (part.Node? ==> part.node in rank)
    reads rank.Keys`parts, rank.Keys`assemblies, rank.Keys`master
    reads set m | m in rank :: m.paints, set m | m in rank :: m.decals
    ensures r.Err? <==> AsQuery(part, rank).Err?
    ensures r.Err? ==> r.error == TypeError
  {
    match AsQuery(part, rank)
    case Err(e) => Err(e)
    case Ok(q) => Ok(Collect(n, ByQuery(q, recursive == BoolObj(true)), rank))
  }

  /** `get` reports only objects below `n` that match the query. */
  lemma GetSound(n: Part, part: Arg, recursive: Obj, x: Part, rank: map<Part, nat>)
    requires Ranked(rank) && n in rank && n.kind != PartKind && (part.Node? ==> part.node in rank)
    requires Get(n, part, recursive, rank).Ok? && x in Get(n, part, recursive, rank).value
    ensures x in ReachFrom(n, 0, rank) && x in rank
    ensures part.Val? ==> x.id == part.obj.s
    ensures part.Node? ==> Equal(x, part.node, rank)
  {
    var q := AsQuery(part, rank).value;
    CollectSound(n, ByQuery(q, recursive == BoolObj(true)), x, rank);
  }

  /** With `recursive` True, `get` reports every matching object anywhere below `n`. */
  lemma GetRecursive(n: Part, part: Arg, x: Part, rank: map<Part, nat>)
    requires Ranked(rank) && n in rank && n.kind != PartKind && x in rank && (part.Node? ==> part.node in rank)
    requires AsQuery(part, rank).Ok?
    ensures Get(n, part, BoolObj(true), rank).Ok?
    ensures x in Get(n, part, BoolObj(true), rank).value <==>
              x in ReachFrom(n, 0, rank)
              && (if part.Node? then Equal(x, part.node, rank) else x.id == part.obj.s)
  {
    var q := AsQuery(part, rank).value;
    CollectExhaustive(n, ByQuery(q, true), x, rank);
  }

  /**
   * Where a non-recursive `get` looks: the direct members of `n`, and
   * everything it finds in each sub-assembly that has the same master as `n`.
   */
  ghost function ScopedReach(n: Part, rank: map<Part, nat>): set<Part>
    requires Ranked(rank) && n in rank
    reads rank.Keys`parts, rank.Keys`assemblies, rank.Keys`master
    decreases rank[n], |n.assemblies| + 1
  {
    (set p | p in n.parts) + ScopedFrom(n, 0, rank)
  }

  /** What `ScopedReach` takes from the sub-assemblies `n.assemblies[i..]`. */
  ghost function ScopedFrom(n: Part, i: nat, rank: map<Part, nat>): set<Part>
    requires Ranked(rank) && n in rank && i <= |n.assemblies|
    reads rank.Keys`parts, rank.Keys`assemblies, rank.Keys`master
    decreases rank[n], |n.assemblies| - i
  {
    assert Shaped(n, rank);
    if i == |n.assemblies| then {}
    else
      var a := n.assemblies[i];
      (if a.master == n.master then ScopedReach(a, rank) else {}) + ScopedFrom(n, i + 1, rank)
  }

  /** `ScopedFrom` is the union over the sub-assemblies from `i` on that share the master. */
  lemma {:induction false} ScopedFromMember(n: Part, i: nat, x: Part, rank: map<Part, nat>)
    requires Ranked(rank) && n in rank && i <= |n.assemblies| && Shaped(n, rank)
    ensures x in ScopedFrom(n, i, rank) <==>
              exists j :: i <= j < |n.assemblies| && n.assemblies[j].master == n.master
                          && x in ScopedReach(n.assemblies[j], rank)
    decreases |n.assemblies| - i
  {
    if i < |n.assemblies| {
      ScopedFromMember(n, i + 1, x, rank);
    }
  }

  /** A search that does not go into sub-assemblies of another master finds exactly the selected objects in `ScopedReach`. */
  lemma {:induction false} CollectScoped(n: Part, s: Search, x: Part, rank: map<Part, nat>)
    requires Ranked(rank) && n in rank && x in rank && s.ByQuery? && !s.deep
    ensures x in Collect(n, s, rank) <==> x in ScopedReach(n, rank) && Selects(s, x, rank)
    decreases rank[n]
  {
    assert Shaped(n, rank);
    assert n.parts[0..] == n.parts;
    ScopedFromMember(n, 0, x, rank);
    if x in Collect(n, s, rank) && x !in Filter(n, s, 0, rank) {
      var j := CollectFromWitness(n, s, 0, x, rank);
      CollectScoped(n.assemblies[j], s, x, rank);
    }
    if x in ScopedReach(n, rank) && Selects(s, x, rank) {
      if x in n.parts {
        var j :| 0 <= j < |n.parts| && n.parts[j] == x;
        assert x in Filter(n, s, 0, rank);
      } else {
        var j :| 0 <= j < |n.assemblies| && n.assemblies[j].master == n.master
                 && x in ScopedReach(n.assemblies[j], rank);
        CollectScoped(n.assemblies[j], s, x, rank);
        CollectFromHas(n, s, 0, j, x, rank);
      }
    }
  }

  /**
   * With `recursive` anything but True, `get` reports exactly the matching
   * objects among the direct members and, recursively, the sub-assemblies
   * that share this object's master.
   */
  lemma GetScoped(n: Part, part: Arg, recursive: Obj, x: Part, rank: map<Part, nat>)
    requires Ranked(rank) && n in rank && n.kind != PartKind && x in rank && (part.Node? ==> part.node in rank)
    requires AsQuery(part, rank).Ok? && recursive != BoolObj(true)
    ensures Get(n, part, recursive, rank).Ok?
    ensures x in Get(n, part, recursive, rank).value <==>
              x in ScopedReach(n, rank)
              && (if part.Node? then Equal(x, part.node, rank) else x.id == part.obj.s)
  {
    var q := AsQuery(part, rank).value;
    CollectScoped(n, ByQuery(q, false), x, rank);
  }

  /** Whatever `get` reports, it also reports when `recursive` is True. */
  lemma GetRecursiveFindsMore(n: Part, part: Arg, recursive: Obj, x: Part, rank: map<Part, nat>)
    requires Ranked(rank) && n in rank && n.kind != PartKind && (part.Node? ==> part.node in rank)
    requires Get(n, part, recursive, rank).Ok? && x in Get(n, part, recursive, rank).value
    ensures x in Get(n, part, BoolObj(true), rank).value
  {
    var q := AsQuery(part, rank).value;
    CollectSound(n, ByQuery(q, recursive == BoolObj(true)), x, rank);
    CollectExhaustive(n, ByQuery(q, true), x, rank);
  }

  /**
   * `Assembly.__contains__(item)`: only a Part or an Assembly (not a Step)
   * may be asked about, and it is in when a non-recursive `get` finds an
   * equal object.
   */
  ghost function Contains(n: Part, item: Arg, rank: map<Part, nat>): (r: Result<bool>)
    requires Ranked(rank) && n in rank && n.kind != PartKind && (item.Node? ==> item.node in rank)
    reads rank.Keys`parts, rank.Keys`assemblies, rank.Keys`master
    reads set m | m in rank :: m.paints, set m | m in rank :: m.decals
    ensures r.Err? <==> !(item.Node? && IsMemberKind(item.node.kind))
    ensures r.Err? ==> r.error == TypeError
  {
    if item.Node? && IsMemberKind(item.node.kind)
    then Ok(|Get(n, item, BoolObj(false), rank).value| > 0)
    else Err(TypeError)
  }

  /** An Assembly contains a Part or an Assembly exactly when an equal object lies where a non-recursive `get` looks. */
  lemma ContainsExact(n: Part, item: Part, rank: map<Part, nat>)
    requires Ranked(rank) && n in rank && n.kind != PartKind && item in rank && IsMemberKind(item.kind)
    ensures Contains(n, Node(item), rank) == Ok(true) <==>
              exists x :: x in rank && x in ScopedReach(n, rank) && Equal(x, item, rank)
  {
    var found := Get(n, Node(item), BoolObj(false), rank).value;
    if |found| > 0 {
      GetSound(n, Node(item), BoolObj(false), found[0], rank);
      GetScoped(n, Node(item), BoolObj(false), found[0], rank);
    }
    forall x | x in rank && x in ScopedReach(n, rank) && Equal(x, item, rank)
      ensures |found| > 0
    {
      GetScoped(n, Node(item), BoolObj(false), x, rank);
    }
  }

  /** Every direct member is in its Assembly, and so is every object equal to one. */
  lemma ContainsMembers(n: Part, i: nat, item: Part, rank: map<Part, nat>)
    requires Ranked(rank) && n in rank && n.kind != PartKind && item in rank && IsMemberKind(item.kind)
    requires i < |n.parts| && Shaped(n, rank) && Equal(n.parts[i], item, rank)
    ensures Contains(n, Node(item), rank) == Ok(true)
  {
    var s := ByQuery(ByPrint(Fingerprint(item, rank)), false);
    assert n.parts[i] in Filter(n, s, 0, rank);
  }

  /** Membership is by value: objects that are equal are in the same Assemblies. */
  lemma ContainsByValue(n: Part, p: Part, q: Part, rank: map<Part, nat>)
    requires Ranked(rank) && n in rank && n.kind != PartKind && p in rank && q in rank && Equal(p, q, rank)
    ensures Contains(n, Node(p), rank) == Contains(n, Node(q), rank)
  {
    EqualByValue(p, q, rank);
  }

  /**
   * `getUnpainted(paint, recursive)`: TypeError unless `paint` is None or a
   * Paint and `recursive` a bool; then the members whose status for `paint`
   * is exactly False, and the same from every sub-assembly, whatever
   * `recursive` says.
   */
  ghost function GetUnpainted(n: Part, paint: Obj, recursive: Obj, rank: map<Part, nat>): (r: Result<seq<Part>>)
    requires Ranked(rank) && n in rank
    reads rank.Keys`parts, rank.Keys`assemblies, rank.Keys`master
    reads set m | m in rank :: m.paints, set m | m in rank :: m.decals
    ensures r.Err? <==> !(paint.NoneObj? || paint.PaintObj?) || !recursive.BoolObj?
    ensures r.Err? ==> r.error == TypeError
  {
    if !paint.NoneObj? && !paint.PaintObj? then Err(TypeError)
    else if !recursive.BoolObj? then Err(TypeError)
    else Ok(Collect(n, Unpainted(paint), rank))
  }

  /** `getUnpainted` reports exactly the objects below `n` whose status for `paint` is False. */
  lemma GetUnpaintedExact(n: Part, paint: Obj, recursive: Obj, x: Part, rank: map<Part, nat>)
    requires Ranked(rank) && n in rank && x in rank
    requires GetUnpainted(n, paint, recursive, rank).Ok?
    ensures x in GetUnpainted(n, paint, recursive, rank).value <==>
              x in ReachFrom(n, 0, rank) && Lookup(x.paints.items, paint) == BoolObj(false)
  {
    CollectExhaustive(n, Unpainted(paint), x, rank);
  }

  /**
   * Once every plain Part below `n` is painted, `getUnpainted` can still
   * report sub-assemblies: their own paint maps start at False and painting
   * their members does not change them.
   */
  lemma PaintedLeavesOnlyAssemblies(n: Part, paint: Obj, recursive: Obj, x: Part, rank: map<Part, nat>)
    requires Ranked(rank) && n in rank && Finished(n, true, rank)
    requires GetUnpainted(n, paint, recursive, rank).Ok? && x in GetUnpainted(n, paint, recursive, rank).value
    ensures x.kind == AssemblyKind
  {
    CollectSound(n, Unpainted(paint), x, rank);
    FinishedLeaves(n, true, rank);
    ReachFromBelow(n, 0, rank);
    BelowAreMembers(n, x, rank);
    assert !NoneFalse(x.paints.items);
  }

  /**
   * `getUndecaled(recursive)` as written: TypeError unless `recursive` is a
   * bool; the members that are not decaled, followed, when `recursive` is
   * True, by every sub-assembly whether decaled or not.
   */
  ghost function GetUndecaled(n: Part, recursive: Obj, rank: map<Part, nat>): (r: Result<seq<Part>>)
    requires Ranked(rank) && n in rank
    reads rank.Keys`parts, rank.Keys`assemblies
    reads set m | m in rank :: m.paints, set m | m in rank :: m.decals
    ensures r.Err? <==> !recursive.BoolObj?
    ensures r.Err? ==> r.error == TypeError
  {
    if !recursive.BoolObj? then Err(TypeError)
    else Ok(Filter(n, Undecaled, 0, rank) + (if recursive.b then n.assemblies else []))
  }

  /** As written, a recursive `getUndecaled` lists every sub-assembly, even one that is fully decaled. */
  lemma GetUndecaledListsDecaled(n: Part, j: nat, rank: map<Part, nat>)
    requires Ranked(rank) && n in rank && Shaped(n, rank) && j < |n.assemblies|
    requires Finished(n.assemblies[j], false, rank)
    ensures n.assemblies[j] in GetUndecaled(n, BoolObj(true), rank).value
  {
  }

  /** The search `getUndecaled` evidently intends: every object below `n` that is not decaled. */
  ghost function UndecaledBelow(n: Part, recursive: Obj, rank: map<Part, nat>): (r: Result<seq<Part>>)
    requires Ranked(rank) && n in rank
    reads rank.Keys`parts, rank.Keys`assemblies, rank.Keys`master
    reads set m | m in rank :: m.paints, set m | m in rank :: m.decals
    ensures r.Err? <==> !recursive.BoolObj?
    ensures r.Err? ==> r.error == TypeError
  {
    if !recursive.BoolObj? then Err(TypeError)
    else if recursive.b then Ok(Collect(n, Undecaled, rank))
    else Ok(Filter(n, Undecaled, 0, rank))
  }

  /** The intended search reports exactly the undecaled objects: the members, or everything below when recursive. */
  lemma UndecaledBelowExact(n: Part, recursive: Obj, x: Part, rank: map<Part, nat>)
    requires Ranked(rank) && n in rank && x in rank && recursive.BoolObj?
    ensures Shaped(n, rank)
    ensures x in UndecaledBelow(n, recursive, rank).value <==>
              !Finished(x, false, rank) && (if recursive.b then x in ReachFrom(n, 0, rank) else x in n.parts)
  {
    assert Shaped(n, rank);
    if recursive.b {
      CollectExhaustive(n, Undecaled, x, rank);
    } else {
      assert n.parts[0..] == n.parts;
      if x in n.parts && !Finished(x, false, rank) {
        var j :| 0 <= j < |n.parts| && n.parts[j] == x;
      }
    }
  }
}
