/**
 * HashMap and PaintMap: the status maps every Part carries. A HashMap is a
 * dict whose hash is its class name plus its key set, so two maps with the
 * same keys hash alike whatever their values or insertion order. A PaintMap
 * is a HashMap whose item assignment refuses a Color key (a Paint was
 * meant) and any value other than True, False or None.
 */
module HashMaps {
  import opened Base
  import opened Detail

  /** What a HashMap's hash is computed from: the class name salt and the key set. */
  datatype MapIdentity = MapIdentity(className: string, keys: set<Obj>)

  /**
   * `value in (True, False, None)`: the three statuses, and the ints 1 and 0,
   * which compare equal to True and False.
   */
  predicate IsStatus(v: Obj) {
    v == BoolObj(true) || v == BoolObj(false) || v == NoneObj || v == IntObj(1) || v == IntObj(0)
  }

  /** `type(key) == Color`: an instance of Color itself, not of its subclass ColorMix. */
  predicate IsExactColor(key: Obj) {
    key.ColorObj? && !key.isMix
  }

  /** The checks `PaintMap.__setitem__` makes before storing; a plain HashMap makes none. */
  function SetItemCheck(guarded: bool, key: Obj, value: Obj): (r: Outcome)
    ensures r.Pass? <==> !guarded || (!IsExactColor(key) && IsStatus(value))
    ensures r.Fail? ==> r.error == TypeError
  {
    if !guarded then Pass
    else if IsExactColor(key) then Fail(TypeError)
    else if !IsStatus(value) then Fail(TypeError)
    else Pass
  }

  /** `dict.get(key)`: the stored value, or None when the key is absent. */
  function Lookup(m: map<Obj, Obj>, key: Obj): (v: Obj)
    ensures v == NoneObj <==> key !in m || m[key] == NoneObj
    ensures v == BoolObj(false) <==> key in m && m[key] == BoolObj(false)
  {
    if key in m then m[key] else NoneObj
  }

  /** A fresh status map: every key not done (False). */
  function Seeded(keys: set<Obj>): (m: map<Obj, Obj>)
    ensures m.Keys == keys
    ensures forall k :: k in m ==> m[k] == BoolObj(false)
  {
    map k | k in keys :: BoolObj(false)
  }

  /** `for k in keys: if k not in m: m.update({k: False})`: new keys arrive not done, existing statuses are kept. */
  function AddMissing(m: map<Obj, Obj>, keys: set<Obj>): (r: map<Obj, Obj>)
    ensures r.Keys == m.Keys + keys
    ensures forall k :: k in m ==> r[k] == m[k]
    ensures forall k :: k in keys && k !in m ==> r[k] == BoolObj(false)
  {
    map k | k in m.Keys + keys :: if k in m then m[k] else BoolObj(false)
  }

  class HashMap {
    /** True for a PaintMap, false for a plain HashMap. */
    const guarded: bool
    var items: map<Obj, Obj>

    constructor (guarded: bool, items: map<Obj, Obj>)
      ensures this.guarded == guarded && this.items == items
    {
      this.guarded := guarded;
      this.items := items;
    }

    function ClassName(): string {
      if guarded then "PaintMap" else "HashMap"
    }

    /** `__hash__`: the class name and the keys; the values play no part. */
    function Identity(): (r: MapIdentity)
      reads this
    {
      MapIdentity(ClassName(), items.Keys)
    }

    /** `m[key] = value`: a PaintMap raises TypeError for a Color key or a non-status value; otherwise the pair is stored. */
    method SetItem(key: Obj, value: Obj) returns (r: Outcome)
      modifies this`items
      ensures r == SetItemCheck(guarded, key, value)
      ensures items == if r.Pass? then old(items)[key := value] else old(items)
      ensures key in old(items) ==> Identity() == old(Identity())
    {
      r := SetItemCheck(guarded, key, value);
      if r.Pass? {
        items := items[key := value];
      }
    }
  }

  /**
   * Two maps of one class hash alike exactly when their key sets agree, so
   * neither values nor the order keys were added in matter, and maps of the
   * two classes never hash alike.
   */
  lemma IdentityIsKeySet(a: HashMap, b: HashMap)
    ensures a.Identity() == b.Identity() <==> a.guarded == b.guarded && a.items.Keys == b.items.Keys
  {
  }
}
