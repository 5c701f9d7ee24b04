/**
 * Building a Step: the Step records one build step, takes ownership of the
 * Parts and Assemblies it is given (their `master` becomes the Step) and
 * holds shallow copies of the Assemblies, so a later `attach` on the
 * original Assembly does not change what the Step lists.
 */
module Steps {
  import opened Base
  import opened Detail
  import opened HashMaps
  import opened Parts

  /** Every Part object the argument holds, at any depth, is ranked. */
  ghost predicate Held(a: Arg, rank: map<Part, nat>) {
    match a
    case Val(_) => true
    case Node(n) => n in rank
    case Items(xs) => forall i :: 0 <= i < |xs| ==> Held(xs[i], rank)
  }

  /** Every object that is, or lies below, one of the graph objects among `xs[..i]`. */
  ghost function ReachFirst(xs: seq<Arg>, i: nat, rank: map<Part, nat>): (s: set<Part>)
    requires Ranked(rank) && i <= |xs| && forall k :: 0 <= k < |xs| && xs[k].Node? ==> xs[k].node in rank
    reads rank.Keys`parts, rank.Keys`assemblies
    ensures s <= rank.Keys
  {
    if i == 0 then {}
    else ReachFirst(xs, i - 1, rank) + (if xs[i - 1].Node? then Reach(xs[i - 1].node, rank) else {})
  }

  /** `ReachFirst` is the union of the `Reach` of those elements. */
  lemma {:induction false} ReachFirstMember(n: Part, xs: seq<Arg>, i: nat, rank: map<Part, nat>)
    requires Ranked(rank) && i <= |xs| && forall k :: 0 <= k < |xs| && xs[k].Node? ==> xs[k].node in rank
    ensures n in ReachFirst(xs, i, rank) <==> exists k :: 0 <= k < i && xs[k].Node? && n in Reach(xs[k].node, rank)
  {
    if i > 0 {
      ReachFirstMember(n, xs, i - 1, rank);
    }
  }

  /** What lies below the `j`-th element is in `ReachFirst` of any longer prefix. */
  lemma {:induction false} ReachFirstHas(xs: seq<Arg>, i: nat, j: nat, rank: map<Part, nat>)
    requires Ranked(rank) && i <= |xs| && forall k :: 0 <= k < |xs| && xs[k].Node? ==> xs[k].node in rank
    requires j < i && xs[j].Node?
    ensures Reach(xs[j].node, rank) <= ReachFirst(xs, i, rank)
  {
    if j < i - 1 {
      ReachFirstHas(xs, i - 1, j, rank);
    }
  }

  /** `n` is, or lies below, an object given as members: the object itself, or an element of a list or tuple. */
  ghost predicate Under(n: Part, a: Arg, rank: map<Part, nat>)
    requires Ranked(rank) && Held(a, rank)
    reads rank.Keys`parts, rank.Keys`assemblies
  {
    match a
    case Node(m) => n in Reach(m, rank)
    case Items(xs) =>
      assert forall k :: 0 <= k < |xs| && xs[k].Node? ==> Held(xs[k], rank);
      n in ReachFirst(xs, |xs|, rank)
    case Val(_) => false
  }

  /** For members that parse, `Under` means lying in the `Reach` of one of them. */
  lemma UnderParsed(n: Part, a: Arg, rank: map<Part, nat>)
    requires Ranked(rank) && Held(a, rank) && ParseMembers(a).Ok?
    ensures Under(n, a, rank) <==>
              exists k :: 0 <= k < |ParseMembers(a).value| && ParseMembers(a).value[k] in rank
                          && n in Reach(ParseMembers(a).value[k], rank)
  {
    var ms := ParseMembers(a).value;
    match a
    case Node(m) =>
      assert ms[0] == m;
    case Items(xs) =>
      ReachFirstMember(n, xs, |xs|, rank);
      if Under(n, a, rank) {
        var k :| 0 <= k < |xs| && xs[k].Node? && n in Reach(xs[k].node, rank);
        assert ms[k] == xs[k].node;
      }
    case Val(o) =>
  }

  /** The `previous` argument: None or a Step, anything else is a TypeError. */
  function PreviousArg(previous: Arg): (r: Result<Part?>)
    ensures r.Err? ==> r.error == TypeError
    ensures r.Ok? <==> previous == Val(NoneObj) || (previous.Node? && previous.node.kind == StepKind)
    ensures r.Ok? ==> r.value == if previous.Node? then previous.node else null
  {
    if previous == Val(NoneObj) then Ok(null)
    else if previous.Node? && previous.node.kind == StepKind then Ok(previous.node)
    else Err(TypeError)
  }

  /**
   * No member lies below another one (so no member is listed twice either):
   * stamping one member never reaches the next.
   */
  ghost predicate Independent(ms: seq<Part>, rank: map<Part, nat>)
    requires Ranked(rank)
    reads rank.Keys`parts, rank.Keys`assemblies
  {
    && (forall i :: 0 <= i < |ms| ==> ms[i] in rank)
    && (forall i, j :: 0 <= i < |ms| && 0 <= j < |ms| && i != j ==> ms[j] !in Reach(ms[i], rank))
  }

  /** `c` holds the same slots as `m` (apart from `master`): `m` itself or a shallow copy of it. */
  predicate SameSlots(c: Part, m: Part)
    reads c`parts, c`assemblies, m`parts, m`assemblies
  {
    && c.kind == m.kind && c.id == m.id && c.previous == m.previous
    && c.paints == m.paints && c.decals == m.decals
    && c.parts == m.parts && c.assemblies == m.assemblies
  }

  /** Members holding the same maps have the same keys. */
  lemma SameKeys(xs: seq<Part>, ys: seq<Part>)
    requires |xs| == |ys|
    requires forall i :: 0 <= i < |xs| ==> xs[i].paints == ys[i].paints && xs[i].decals == ys[i].decals
    ensures PaintKeysOf(xs) == PaintKeysOf(ys) && DecalKeysOf(xs) == DecalKeysOf(ys)
  {
    assert forall k :: k in PaintKeysOf(xs) <==> k in PaintKeysOf(ys);
    assert forall k :: k in DecalKeysOf(xs) <==> k in DecalKeysOf(ys);
  }

  /**
   * One element of the list: a Part is kept, an Assembly is copied (the copy
   * keeps the master the Assembly has now), then the element's master is set.
   */
  method Take(s: Part, p: Part, ghost rank: map<Part, nat>) returns (r: Outcome, c: Part)
    requires Ranked(rank) && p in rank && IsMemberKind(p.kind) && s.kind == StepKind && s !in rank
    modifies rank.Keys`master
    ensures SameSlots(c, p) && (p.kind == PartKind ==> c == p)
    ensures p.kind == AssemblyKind ==> fresh(c) && c.master == old(p.master)
    ensures r.Fail? ==> r.error == ValueError
    // passes exactly when the element or one of its direct members had no master
    ensures r.Pass? <==> old(p.master) == null || (p.kind != PartKind && !old(MembersAttached(p)))
    ensures old(p.master) == null ==> r.Pass?
    ensures old(p.master) != null && old(MembersAttached(p)) ==> r.Fail?
    ensures r.Pass? ==> p.master != null
    ensures forall n :: n in rank ==>
              || n.master == old(n.master)
              || (old(n.master) == null && n.master == s && n in Reach(p, rank) && MembersAttached(n))
  {
    c := p;
    if p.kind == AssemblyKind {
      c := new Part.Copy(p);
    }
    ghost var unset := Unset(rank);
    r := p.SetMaster(s, rank);
    GivenBelow(p, unset, rank);
  }

  /** Under `Independent`, stamping the `i`-th element never reaches another element. */
  lemma Apart(xs: seq<Arg>, i: nat, rank: map<Part, nat>)
    requires Ranked(rank) && i < |xs| && ParseMembers(Items(xs)).Ok?
    requires Independent(ParseMembers(Items(xs)).value, rank)
    ensures forall k :: 0 <= k < |xs| && k != i ==> xs[k].node !in Reach(xs[i].node, rank)
  {
    var ms := ParseMembers(Items(xs)).value;
    assert forall k :: 0 <= k < |xs| ==> ms[k] == xs[k].node;
  }

  /**
   * `m` has a master and `c` stands for it in a Step: `m` itself for a Part,
   * or a copy of an Assembly holding the master `before` it had when copied.
   */
  predicate Stamped(c: Part, m: Part, before: Part?)
    reads c`master, c`parts, c`assemblies, m`master, m`parts, m`assemblies
  {
    && IsMemberKind(m.kind) && m.master != null && SameSlots(c, m)
    && (m.kind == PartKind ==> c == m)
    && (m.kind == AssemblyKind ==> c.master == before)
  }

  /**
   * The loop of `Step.__init__` over a list of members: each element must be
   * a Part or an Assembly (TypeError otherwise, after the earlier elements
   * were stamped); an Assembly is copied BEFORE its master is set, so the
   * copy keeps the master the Assembly had then; then the element's master
   * is set to `s`, whose ValueError ends the loop.
   */
  /** The objects without a master, and the masters of the elements, as they are now. */
  lemma Snapshot(xs: seq<Arg>, rank: map<Part, nat>) returns (unset: set<Part>, olds: seq<Part?>)
    requires forall k :: 0 <= k < |xs| && xs[k].Node? ==> xs[k].node in rank
    ensures forall n :: n in rank ==> (n in unset <==> n.master == null)
    ensures |olds| == |xs| && forall k :: 0 <= k < |xs| && xs[k].Node? ==> olds[k] == xs[k].node.master
  {
    unset := set n | n in rank && n.master == null;
    olds := seq(|xs|, k requires 0 <= k < |xs| reads set j | 0 <= j < |xs| && xs[j].Node? :: xs[j].node =>
                  if xs[k].Node? then xs[k].node.master else null);
  }

  method StampEach(s: Part, xs: seq<Arg>, ghost rank: map<Part, nat>) returns (r: Result<seq<Part>>)
    requires Ranked(rank) && s.kind == StepKind && s !in rank
    requires forall k :: 0 <= k < |xs| && xs[k].Node? ==> xs[k].node in rank
    modifies rank.Keys`master
    ensures r.Err? ==> r.error == TypeError || r.error == ValueError
    // only the elements and what lies below them take the Step
    ensures forall n :: n in rank ==>
              n.master == old(n.master) || (old(n.master) == null && n.master == s && n in ReachFirst(xs, |xs|, rank))
    ensures r.Ok? ==> ParseMembers(Items(xs)).Ok? && |r.value| == |xs|
    ensures r.Ok? ==> forall k :: 0 <= k < |xs| ==> Stamped(r.value[k], xs[k].node, old(xs[k].node.master))
    ensures r.Ok? ==> forall k :: 0 <= k < |xs| && xs[k].node.kind == AssemblyKind ==> fresh(r.value[k])
    ensures ParseMembers(Items(xs)).Ok? && old(Independent(ParseMembers(Items(xs)).value, rank))
            && (forall k :: 0 <= k < |xs| ==> old(xs[k].node.master) == null)
            ==> r.Ok?
  {
    ghost var hyp := ParseMembers(Items(xs)).Ok? && Independent(ParseMembers(Items(xs)).value, rank)
                     && (forall k :: 0 <= k < |xs| ==> xs[k].node.master == null);
    ghost var unset, olds := Snapshot(xs, rank);
    ghost var below := ReachFirst(xs, |xs|, rank);
    var tmp: seq<Part> := [];
    var i := 0;
    while i < |xs|
      invariant 0 <= i <= |xs| && |tmp| == i
      invariant forall k :: 0 <= k < |xs| && xs[k].Node? ==> olds[k] == old(xs[k].node.master)
      invariant forall k :: 0 <= k < i ==>
                  && xs[k].Node? && Stamped(tmp[k], xs[k].node, olds[k])
                  && (xs[k].node.kind == AssemblyKind ==> fresh(tmp[k]))
      invariant forall n :: n in rank && n !in unset ==> n.master == old(n.master)
      invariant forall n :: n in rank && n.master == null ==> n in unset
      invariant forall n :: n in rank && n in unset ==> n.master == null || (n.master == s && MembersAttached(n) && n in below)
      invariant below == ReachFirst(xs, |xs|, rank)
      invariant hyp ==> forall k :: i <= k < |xs| ==> xs[k].node.master == null
    {
      if xs[i].Node? {
        ReachFirstHas(xs, |xs|, i, rank);
      }
      var next := StampNext(s, xs, i, tmp, rank, unset, below, olds, hyp);
      if next.Err? {
        return Err(next.error);
      }
      tmp := next.value;
      i := i + 1;
    }
    r := Ok(tmp);
  }

  /**
   * One turn of that loop. `unset` holds the objects that had no master when
   * the loop began, `below` what lies below the elements, and `olds` the
   * masters the elements had then.
   */
  method StampNext(s: Part, xs: seq<Arg>, i: nat, tmp: seq<Part>, ghost rank: map<Part, nat>,
                   ghost unset: set<Part>, ghost below: set<Part>, ghost olds: seq<Part?>, ghost hyp: bool)
    returns (r: Result<seq<Part>>)
    requires Ranked(rank) && s.kind == StepKind && s !in rank
    requires forall k :: 0 <= k < |xs| && xs[k].Node? ==> xs[k].node in rank
    requires i < |xs| && |tmp| == i && |olds| == |xs|
    requires forall k :: 0 <= k < i ==>
               && xs[k].Node? && Stamped(tmp[k], xs[k].node, olds[k])
               && (xs[k].node.kind == AssemblyKind ==> tmp[k] !in rank)
    requires forall n :: n in rank && n in unset ==> n.master == null || (n.master == s && MembersAttached(n) && n in below)
    requires xs[i].Node? ==> Reach(xs[i].node, rank) <= below
    requires forall n :: n in rank && n.master == null ==> n in unset
    requires xs[i].Node? && xs[i].node.master != olds[i] ==> xs[i].node in unset && xs[i].node.master != null
    requires xs[i].Node? && olds[i] == null ==> xs[i].node in unset
    requires hyp ==> && ParseMembers(Items(xs)).Ok? && Independent(ParseMembers(Items(xs)).value, rank)
                     && forall k :: i <= k < |xs| ==> xs[k].node.master == null
    modifies rank.Keys`master
    ensures r.Err? ==> r.error == TypeError || r.error == ValueError
    ensures forall n :: n in rank && old(n.master) != null ==> n.master == old(n.master)
    ensures forall n :: n in rank && n in unset ==> n.master == null || (n.master == s && MembersAttached(n) && n in below)
    ensures forall n :: n in rank && n !in unset ==> n.master == old(n.master)
    ensures forall n :: n in rank && n.master == null ==> n in unset
    ensures r.Ok? ==>
              && |r.value| == i + 1 && (forall k :: 0 <= k < i ==> r.value[k] == tmp[k])
              && xs[i].Node? && (xs[i].node.kind == AssemblyKind ==> fresh(r.value[i]))
    ensures r.Ok? ==> forall k :: 0 <= k <= i ==> xs[k].Node? && Stamped(r.value[k], xs[k].node, olds[k])
    ensures hyp ==> r.Ok? && forall k :: i < k < |xs| ==> xs[k].node.master == null
  {
    var x := xs[i];
    if !(x.Node? && IsMemberKind(x.node.kind)) {
      return Err(TypeError);
    }
    var p := x.node;
    var stamped, c := Take(s, p, rank);
    if stamped.Fail? {
      return Err(stamped.error);
    }
    if hyp {
      Apart(xs, i, rank);
    }
    r := Ok(tmp + [c]);
  }

  /**
   * How `Step.__init__` takes its members: a single Part or Assembly has its
   * master set first and an Assembly is copied after that, so the copy holds
   * the new master; a list or tuple goes through `StampEach`; anything else
   * is a TypeError.
   */
  method Gather(s: Part, members: Arg, ghost rank: map<Part, nat>) returns (r: Result<seq<Part>>)
    requires Ranked(rank) && Held(members, rank) && s.kind == StepKind && s !in rank
    modifies rank.Keys`master
    ensures r.Err? ==> r.error == TypeError || r.error == ValueError
    // only the members and what lies below them take the Step
    ensures forall n :: n in rank ==>
              n.master == old(n.master) || (old(n.master) == null && n.master == s && Under(n, members, rank))
    // a single Part that already has a master is refused
    ensures members.Node? && members.node.kind == PartKind && old(members.node.master) != null ==> r == Err(ValueError)
    ensures r.Ok? ==>
              && ParseMembers(members).Ok?
              && var ms := ParseMembers(members).value;
              && |r.value| == |ms|
              && (forall k :: 0 <= k < |ms| ==> ms[k].master != null && SameSlots(r.value[k], ms[k]))
              && (forall k :: 0 <= k < |ms| && ms[k].kind == PartKind ==> r.value[k] == ms[k])
              && (forall k :: 0 <= k < |ms| && ms[k].kind == AssemblyKind ==> fresh(r.value[k]))
    ensures r.Ok? && members.Node? ==> r.value[0].master == members.node.master
    ensures r.Ok? && !members.Node? ==>
              var ms := ParseMembers(members).value;
              forall k :: 0 <= k < |ms| && ms[k].kind == AssemblyKind ==> r.value[k].master == old(ms[k].master)
    ensures ParseMembers(members).Ok? && old(Independent(ParseMembers(members).value, rank))
            && (forall k :: 0 <= k < |ParseMembers(members).value| ==> old(ParseMembers(members).value[k].master) == null)
            ==> r.Ok?
  {
    if members.Node? && IsMemberKind(members.node.kind) {
      var p := members.node;
      assert ParseMembers(members).value == [p];
      ghost var unset := forall k :: 0 <= k < |ParseMembers(members).value| ==> ParseMembers(members).value[k].master == null;
      assert unset ==> p.master == null by {
        if unset {
          assert ParseMembers(members).value[0].master == null;
        }
      }
      ghost var before := Unset(rank);
      var stamped := p.SetMaster(s, rank);
      GivenBelow(p, before, rank);
      if stamped.Fail? {
        return Err(stamped.error);
      }
      if p.kind == AssemblyKind {
        var c := new Part.Copy(p);
        r := Ok([c]);
      } else {
        r := Ok([p]);
      }
    } else {
      var items := AsItems(members);
      if items.None? {
        return Err(TypeError);
      }
      assert ParseMembers(members) == ParseMembers(Items(items.value));
      if members.Val? {
        ValItems(members);
      }
      assert forall k :: 0 <= k < |items.value| && items.value[k].Node? ==> items.value[k].node in rank;
      r := StampEach(s, items.value, rank);
      if members.Val? {
        forall n | n in rank
          ensures n !in ReachFirst(items.value, |items.value|, rank)
        {
          ValItems(members);
          ReachFirstMember(n, items.value, |items.value|, rank);
        }
      }
    }
  }

  /**
   * Adding the members of a new Step keeps the graph ranked: each is either
   * already ranked or a copy holding the same slots as a ranked object.
   */
  lemma {:induction false} AddCopies(rank: map<Part, nat>, cs: seq<Part>, ms: seq<Part>) returns (rank': map<Part, nat>)
    requires Ranked(rank) && |cs| == |ms|
    decreases |cs|
    requires forall k :: 0 <= k < |ms| ==> ms[k] in rank && SameSlots(cs[k], ms[k])
    ensures Ranked(rank') && forall n :: n in rank ==> n in rank' && rank'[n] == rank[n]
    ensures forall k :: 0 <= k < |cs| ==> cs[k] in rank'
    ensures forall n :: n in rank' ==> n in rank || n in cs
  {
    if cs == [] {
      return rank;
    }
    var c := cs[0];
    var grown := rank;
    if c !in rank {
      assert Shaped(ms[0], rank);
      AddRanked(rank, c);
      grown := rank[c := RankAbove(c.parts, rank)];
    }
    assert forall k :: 1 <= k < |cs| ==> cs[k] == cs[1..][k - 1] && ms[k] == ms[1..][k - 1];
    rank' := AddCopies(grown, cs[1..], ms[1..]);
  }

  /** A new Step over ranked members and their copies keeps the graph ranked once it and the copies are added. */
  lemma RankStep(rank: map<Part, nat>, s: Part, ms: seq<Part>) returns (rank': map<Part, nat>)
    requires Ranked(rank) && s !in rank && s.kind == StepKind
    requires s.assemblies == AssembliesOf(s.parts) && s.paints != s.decals && |s.parts| == |ms|
    requires forall k :: 0 <= k < |ms| ==> ms[k] in rank && IsMemberKind(ms[k].kind) && SameSlots(s.parts[k], ms[k])
    ensures Ranked(rank') && s in rank' && forall n :: n in rank ==> n in rank' && rank'[n] == rank[n]
  {
    rank' := AddCopies(rank, s.parts, ms);
    assert s !in rank';
    AddRanked(rank', s);
    rank' := rank'[s := RankAbove(s.parts, rank')];
  }

  /** The members of a Step being built: taken by `Gather`, then set as its members. */
  method Populate(s: Part, members: Arg, ghost rank: map<Part, nat>) returns (r: Result<seq<Part>>)
    requires Ranked(rank) && Held(members, rank) && s.kind == StepKind && s !in rank && s.master == null
    modifies rank.Keys`master, s`parts, s`assemblies
    ensures r.Err? ==> r.error == TypeError || r.error == ValueError
    // only the members and what lies below them take the Step
    ensures forall n :: n in rank ==>
              n.master == old(n.master) || (old(n.master) == null && n.master == s && Under(n, members, rank))
    // a single Part that already has a master is refused
    ensures members.Node? && members.node.kind == PartKind && old(members.node.master) != null ==> r == Err(ValueError)
    ensures r.Ok? ==>
              && ParseMembers(members).Ok?
              && var ms := ParseMembers(members).value;
              && |r.value| == |ms|
              && (forall k :: 0 <= k < |ms| ==> ms[k].master != null && SameSlots(r.value[k], ms[k]))
              && (forall k :: 0 <= k < |ms| && ms[k].kind == PartKind ==> r.value[k] == ms[k])
              && (forall k :: 0 <= k < |ms| && ms[k].kind == AssemblyKind ==> fresh(r.value[k]))
    ensures r.Ok? && members.Node? ==> r.value[0].master == members.node.master
    ensures r.Ok? && !members.Node? ==>
              var ms := ParseMembers(members).value;
              forall k :: 0 <= k < |ms| && ms[k].kind == AssemblyKind ==> r.value[k].master == old(ms[k].master)
    ensures ParseMembers(members).Ok? && old(Independent(ParseMembers(members).value, rank))
            && (forall k :: 0 <= k < |ParseMembers(members).value| ==> old(ParseMembers(members).value[k].master) == null)
            ==> r.Ok?
    ensures s.master == null
    ensures r.Ok? ==> s.parts == r.value && s.assemblies == AssembliesOf(r.value)
  {
    r := Gather(s, members, rank);
    if r.Ok? {
      s.Fill(r.value);
    }
  }

  /**
   * What `Step.__init__` leaves behind when it succeeds: a Step without a
   * master, named `id`, after `previous`, whose member at each position is
   * the member given there (a Part) or a shallow copy of it (an Assembly),
   * every given member now having a master, and whose maps hold the keys
   * `pk` and `dk` of the members, none of them done.
   */
  ghost predicate Built(s: Part, id: string, previous: Part?, ms: seq<Part>, pk: set<Obj>, dk: set<Obj>)
    reads s, s.paints, s.decals, set k | 0 <= k < |s.parts| :: s.parts[k], set k | 0 <= k < |ms| :: ms[k]
  {
    && s.paints != s.decals && s.kind == StepKind && s.id == id && s.previous == previous
    && s.master == null && s.paints.guarded && !s.decals.guarded
    && s.paints.items == Seeded(pk) && s.decals.items == Seeded(dk)
    && |s.parts| == |ms| && s.assemblies == AssembliesOf(s.parts)
    && (forall i :: 0 <= i < |ms| ==> ms[i].master != null && SameSlots(s.parts[i], ms[i]))
    && (forall i :: 0 <= i < |ms| && ms[i].kind == PartKind ==> s.parts[i] == ms[i])
  }

  /**
   * `Step(name, members, previous)`. The previous Step is checked first. A
   * single Part or Assembly has its master set first, and an Assembly is
   * then copied, so that copy holds the new Step as its master; a list goes
   * through `StampEach`. Then Assembly's constructor checks the members and
   * Part's constructor the name and the union of the members' keys. Masters
   * set before a later check raised stay set.
   */
  method NewStep(name: Obj, members: Arg, previous: Arg, ghost rank: map<Part, nat>) returns (r: Result<Part>)
    requires Ranked(rank) && Held(members, rank)
    modifies rank.Keys`master
    ensures PreviousArg(previous).Err? ==> r == Err(TypeError) && forall n :: n in rank ==> n.master == old(n.master)
    ensures r.Err? ==> r.error == TypeError || r.error == ValueError
    // a master, once set, is never replaced
    ensures forall n :: n in rank && old(n.master) != null ==> n.master == old(n.master)
    ensures r.Ok? ==> forall n :: n in rank ==> n.master == old(n.master) || n.master == r.value
    // only the members and what lies below them take the Step
    ensures forall n :: n in rank && n.master != old(n.master) ==> Under(n, members, rank)
    // a single Part that already has a master is refused
    ensures PreviousArg(previous).Ok? && members.Node? && members.node.kind == PartKind && old(members.node.master) != null
            ==> r == Err(ValueError)
    ensures r.Ok? ==>
              && PreviousArg(previous).Ok? && ParseMembers(members).Ok? && name.StrObj?
              && AllKeysOf(old(PaintKeysOf(ParseMembers(members).value)), true)
              && AllKeysOf(old(DecalKeysOf(ParseMembers(members).value)), false)
    ensures r.Ok? ==>
              var ms := ParseMembers(members).value;
              && fresh(r.value) && fresh(r.value.paints) && fresh(r.value.decals)
              && Built(r.value, name.s, PreviousArg(previous).value, ms, old(PaintKeysOf(ms)), old(DecalKeysOf(ms)))
              && (forall i :: 0 <= i < |ms| && ms[i].kind == AssemblyKind ==> fresh(r.value.parts[i]))
    // the copy of a single Assembly holds its master as set; a copy made from a list holds the old one
    ensures r.Ok? && members.Node? ==> r.value.parts[0].master == members.node.master
    ensures r.Ok? && !members.Node? ==>
              var ms := ParseMembers(members).value;
              forall i :: 0 <= i < |ms| && ms[i].kind == AssemblyKind ==> r.value.parts[i].master == old(ms[i].master)
    // fresh, independent members under a valid name and valid keys always make a Step
    ensures PreviousArg(previous).Ok? && ParseMembers(members).Ok? && name.StrObj?
            && AllKeysOf(old(PaintKeysOf(ParseMembers(members).value)), true)
            && AllKeysOf(old(DecalKeysOf(ParseMembers(members).value)), false)
            && old(Independent(ParseMembers(members).value, rank))
            && (forall i :: 0 <= i < |ParseMembers(members).value| ==> old(ParseMembers(members).value[i].master) == null)
            ==> r.Ok?
  {
    var prev := PreviousArg(previous);
    if prev.Err? {
      r := Err(prev.error);
      return;
    }
    var parsed := ParseMembers(members);
    var pk := if parsed.Ok? then PaintKeysOf(parsed.value) else {};
    var dk := if parsed.Ok? then DecalKeysOf(parsed.value) else {};
    var s := new Part.Init(StepKind, if name.StrObj? then name.s else "", pk, dk, [], prev.value);
    var gathered := Populate(s, members, rank);
    if gathered.Err? {
      r := Err(gathered.error);
      return;
    }
    if !name.StrObj? || !AllKeysOf(pk, true) || !AllKeysOf(dk, false) {
      r := Err(TypeError);
      return;
    }
    r := Ok(s);
  }
}
