/**
 * The paint and decal value types the kit-build graph keys its status maps on:
 * PaintType, Color (and ColorMix, which builds a Color from a list of
 * (Color, ratio) pairs), Paint and Decal. All of them are immutable values
 * whose equality is equality of their defining fields.
 *
 * Python checks its arguments' types at run time, so every constructor here
 * takes `Obj`, a model of the Python object it may be handed, and returns a
 * `Result` that carries the TypeError or ValueError the source raises.
 */
module Detail {
  import opened Base

  datatype PaintType = SPRAY | BRUSH

  /** Brand, code and name. A ColorMix is a Color whose code is computed. */
  datatype Color = Color(brand: string, code: string, name: string)

  datatype Paint = Paint(color: Color, paintType: PaintType)

  datatype Decal = Decal(id: string)

  /**
   * A Python object as the type checks see it. `ColorObj` stands for an
   * instance of Color (`isMix` false) or of its subclass ColorMix (`isMix`
   * true). `OtherObj` is any object of another class: not a sequence, not
   * subscriptable and without a `brand` attribute.
   */
  datatype Obj =
    | NoneObj
    | BoolObj(b: bool)
    | IntObj(i: int)
    | StrObj(s: string)
    | TupleObj(items: seq<Obj>)
    | ListObj(items: seq<Obj>)
    | ColorObj(color: Color, isMix: bool)
    | PaintObj(paint: Paint)
    | PaintTypeObj(paintType: PaintType)
    | DecalObj(decal: Decal)
    | OtherObj

  /** `isinstance(o, collections.abc.Sequence)`: tuples, lists and strings; a string iterates as one-character strings. */
  function AsSequence(o: Obj): (r: Option<seq<Obj>>)
    ensures r.Some? <==> o.TupleObj? || o.ListObj? || o.StrObj?
    ensures o.StrObj? ==> r.Some? && |r.value| == |o.s|
                          && forall i :: 0 <= i < |o.s| ==> r.value[i] == StrObj([o.s[i]])
  {
    match o
    case TupleObj(xs) => Some(xs)
    case ListObj(xs) => Some(xs)
    case StrObj(s) => Some(seq(|s|, i requires 0 <= i < |s| => StrObj([s[i]])))
    case _ => None
  }

  /** `isinstance(o, int)`, which bool passes too (True is 1, False is 0). */
  function AsInt(o: Obj): (r: Option<int>)
    ensures r.Some? <==> o.IntObj? || o.BoolObj?
  {
    match o
    case IntObj(i) => Some(i)
    case BoolObj(b) => Some(if b then 1 else 0)
    case _ => None
  }

  /** `str(b)` of a bool. */
  function BoolText(b: bool): (s: string)
    ensures s != ""
  {
    if b then "True" else "False"
  }

  /** `str(o)` of an int or bool. */
  function IntText(o: Obj): (s: string)
    requires AsInt(o).Some?
    ensures s != ""
  {
    if o.BoolObj? then BoolText(o.b) else IntToString(o.i)
  }

  // ---------------------------------------------------------------- Color

  /** A color is usable only if it has a code or a name to be referred to by. */
  predicate HasHandle(c: Color) {
    c.code != "" || c.name != ""
  }

  /** `Color(brand, code, name)`: all three must be str, and code and name cannot both be empty. */
  function NewColor(brand: Obj, code: Obj, name: Obj): (r: Result<Color>)
    ensures r.Ok? <==> brand.StrObj? && code.StrObj? && name.StrObj? && (code.s != "" || name.s != "")
    ensures r.Ok? ==> r.value == Color(brand.s, code.s, name.s) && HasHandle(r.value)
    ensures !(brand.StrObj? && code.StrObj? && name.StrObj?) ==> r == Err(TypeError)
    ensures brand.StrObj? && code.StrObj? && name.StrObj? && code.s == "" && name.s == "" ==> r == Err(ValueError)
  {
    if !brand.StrObj? then Err(TypeError)
    else if !code.StrObj? then Err(TypeError)
    else if !name.StrObj? then Err(TypeError)
    else if code.s == "" && name.s == "" then Err(ValueError)
    else Ok(Color(brand.s, code.s, name.s))
  }

  /** The `spray` property of a Color. */
  function Spray(c: Color): Paint {
    Paint(c, SPRAY)
  }

  /** The `brush` property of a Color. */
  function Brush(c: Color): Paint {
    Paint(c, BRUSH)
  }

  /** Both derived paints carry the color itself; they differ only in how they are applied, and each determines its color. */
  lemma SprayAndBrush(c: Color, d: Color)
    ensures Spray(c).color == c && Spray(c).paintType == SPRAY
    ensures Brush(c).color == c && Brush(c).paintType == BRUSH
    ensures Spray(c) != Brush(d)
    ensures Spray(c) == Spray(d) <==> c == d
    ensures Brush(c) == Brush(d) <==> c == d
  {
  }

  // ---------------------------------------------------------------- Paint and Decal

  /** `Paint(color, paintType)`: a Color (or ColorMix) and a PaintType. */
  function NewPaint(color: Obj, paintType: Obj): (r: Result<Paint>)
    ensures r.Ok? <==> color.ColorObj? && paintType.PaintTypeObj?
    ensures r.Ok? ==> r.value.color == color.color && r.value.paintType == paintType.paintType
    ensures r.Err? ==> r.error == TypeError
  {
    if !color.ColorObj? then Err(TypeError)
    else if !paintType.PaintTypeObj? then Err(TypeError)
    else Ok(Paint(color.color, paintType.paintType))
  }

  /** `Decal(id)`: the id must be a str. */
  function NewDecal(id: Obj): (r: Result<Decal>)
    ensures r.Ok? <==> id.StrObj?
    ensures r.Ok? ==> r.value.id == id.s
    ensures r.Err? ==> r.error == TypeError
  {
    if id.StrObj? then Ok(Decal(id.s)) else Err(TypeError)
  }

  // ---------------------------------------------------------------- equality

  predicate IsValueObject(o: Obj) {
    o.ColorObj? || o.PaintObj? || o.DecalObj?
  }

  /**
   * Python's `a == b` when one side is a Color, Paint or Decal: each class
   * compares the hash of its defining fields with an instance of its own class
   * (a ColorMix is a Color), and any other pairing falls back to identity,
   * which two distinct objects fail.
   */
  function ValueEquals(a: Obj, b: Obj): bool
    requires IsValueObject(a) || IsValueObject(b)
  {
    match (a, b)
    case (ColorObj(c, _), ColorObj(d, _)) => (c.brand, c.code, c.name) == (d.brand, d.code, d.name)
    case (PaintObj(p), PaintObj(q)) => (p.color, p.paintType) == (q.color, q.paintType)
    case (DecalObj(d), DecalObj(e)) => d.id == e.id
    case _ => false
  }

  /** Colors, paints and decals are equal exactly when their fields are; a ColorMix equals a Color with the same fields; no class equals another. */
  lemma ValueEqualsByFields(a: Obj, b: Obj)
    requires IsValueObject(a) || IsValueObject(b)
    ensures a.ColorObj? && b.ColorObj? ==> (ValueEquals(a, b) <==> a.color == b.color)
    ensures a.PaintObj? && b.PaintObj? ==> (ValueEquals(a, b) <==> a.paint == b.paint)
    ensures a.DecalObj? && b.DecalObj? ==> (ValueEquals(a, b) <==> a.decal == b.decal)
    ensures ValueEquals(a, b) ==> (a.ColorObj? && b.ColorObj?) || (a.PaintObj? && b.PaintObj?) || (a.DecalObj? && b.DecalObj?)
    ensures ValueEquals(a, b) == ValueEquals(b, a)
  {
  }

  // ---------------------------------------------------------------- ColorMix

  /** The `brand` local of `ColorMix._checkArgs`: a str, or `False` once two brands differ. */
  datatype MixBrand = Shared(brand: string) | Mixed

  /** Python truthiness of the `brand` local: `False` and '' are falsy. */
  predicate Truthy(b: MixBrand) {
    b.Shared? && b.brand != ""
  }

  /** `o[0]`: a sequence's first item, IndexError when it is empty, TypeError when `o` is not subscriptable. */
  function First(o: Obj): (r: Result<Obj>)
    ensures r.Ok? <==> AsSequence(o).Some? && |AsSequence(o).value| > 0
    ensures r.Ok? ==> r.value == AsSequence(o).value[0]
  {
    match AsSequence(o)
    case None => Err(TypeError)
    case Some(xs) => if xs == [] then Err(IndexError) else Ok(xs[0])
  }

  /** `o.brand`: only a Color has one. */
  function BrandOf(o: Obj): Result<string> {
    if o.ColorObj? then Ok(o.color.brand) else Err(AttributeError)
  }

  /** The checks `_checkArgs` makes of one entry before using it, in the order it makes them. */
  function EntryCheck(e: Obj): (r: Outcome)
    ensures r.Pass? ==> e.TupleObj? && |e.items| == 2 && e.items[0].ColorObj? && AsInt(e.items[1]).Some?
  {
    if !e.TupleObj? then Fail(TypeError)
    else if |e.items| != 2 then Fail(ValueError)
    else if !e.items[0].ColorObj? then Fail(TypeError)
    else if AsInt(e.items[1]).None? then Fail(TypeError)
    else if !HasHandle(e.items[0].color) then Fail(ValueError)
    else Pass
  }

  /** The color of a well-formed entry. */
  function EntryColor(e: Obj): Color
    requires EntryCheck(e).Pass?
  {
    e.items[0].color
  }

  /** 'code:ratio' for a well-formed entry, using the name when the code is empty. */
  function Handle(e: Obj): (h: string)
    requires EntryCheck(e).Pass?
    ensures h != ""
  {
    var c := e.items[0].color;
    (if c.code != "" then c.code else c.name) + ":" + IntText(e.items[1])
  }

  /**
   * The loop of `ColorMix._checkArgs`, entry by entry: it raises on the first
   * malformed entry, turns `brand` to `False` once a truthy brand meets a
   * different one, and appends each entry's handle.
   */
  function MixLoop(entries: seq<Obj>, brand: MixBrand, handles: seq<string>): Result<(MixBrand, seq<string>)>
    decreases |entries|
  {
    if entries == [] then Ok((brand, handles))
    else
      var e := entries[0];
      match EntryCheck(e)
      case Fail(err) => Err(err)
      case Pass =>
        var brand' := if Truthy(brand) && EntryColor(e).brand != brand.brand then Mixed else brand;
        MixLoop(entries[1..], brand', handles + [Handle(e)])
  }

  /** `ColorMix._checkArgs(colors)`: the brand (or `False`) and the joined code. */
  function CheckMixArgs(colors: Obj): Result<(MixBrand, string)> {
    match AsSequence(colors)
    case None => Err(TypeError)
    case Some(entries) =>
      match First(colors)
      case Err(err) => Err(err)
      case Ok(first) =>
        match First(first)
        case Err(err) => Err(err)
        case Ok(firstColor) =>
          match BrandOf(firstColor)
          case Err(err) => Err(err)
          case Ok(b) =>
            match MixLoop(entries, Shared(b), [])
            case Err(err) => Err(err)
            case Ok((brand, handles)) => Ok((brand, Join(" + ", handles)))
  }

  /** `ColorMix(colors, name)`: a Color whose brand is the shared brand (or 'Mixture') and whose code is the joined handles. */
  function NewColorMix(colors: Obj, name: Obj): Result<Color> {
    match CheckMixArgs(colors)
    case Err(err) => Err(err)
    case Ok((brand, code)) =>
      var b := if brand.Mixed? then "Mixture" else brand.brand;
      NewColor(StrObj(b), StrObj(code), name)
  }

  // ---------------------------------------------------------------- ColorMix properties

  /** Every entry passes its checks. */
  predicate AllEntriesOk(entries: seq<Obj>) {
    forall i :: 0 <= i < |entries| ==> EntryCheck(entries[i]).Pass?
  }

  /** The handles of well-formed entries, in input order. */
  function Handles(entries: seq<Obj>): (hs: seq<string>)
    requires AllEntriesOk(entries)
    ensures |hs| == |entries|
    ensures forall i :: 0 <= i < |entries| ==> hs[i] == Handle(entries[i])
  {
    seq(|entries|, i requires 0 <= i < |entries| => Handle(entries[i]))
  }

  /** Some well-formed entry's color has a brand other than `b`. */
  predicate SomeBrandDiffers(entries: seq<Obj>, b: string)
    requires AllEntriesOk(entries)
  {
    exists i :: 0 <= i < |entries| && EntryColor(entries[i]).brand != b
  }

  /** The index of the first malformed entry. */
  function FirstBad(entries: seq<Obj>): (k: nat)
    requires !AllEntriesOk(entries)
    ensures k < |entries| && EntryCheck(entries[k]).Fail?
    ensures AllEntriesOk(entries[..k])
  {
    if EntryCheck(entries[0]).Fail? then 0
    else
      var k := FirstBad(entries[1..]);
      assert forall i :: 0 <= i < k + 1 ==> entries[..k + 1][i] == entries[i];
      assert forall i :: 1 <= i < k + 1 ==> entries[i] == entries[1..][..k][i - 1];
      k + 1
  }

  /** Removing the first entry: the rest are all well formed exactly when all were, given the first is. */
  lemma AllEntriesOkTail(entries: seq<Obj>)
    requires |entries| > 0 && EntryCheck(entries[0]).Pass?
    ensures AllEntriesOk(entries) <==> AllEntriesOk(entries[1..])
  {
    assert forall i :: 0 < i < |entries| ==> entries[i] == entries[1..][i - 1];
  }

  /** The loop succeeds exactly when every entry is well formed. */
  lemma {:induction false} MixLoopOk(entries: seq<Obj>, brand: MixBrand, handles: seq<string>)
    ensures MixLoop(entries, brand, handles).Ok? <==> AllEntriesOk(entries)
    decreases |entries|
  {
    if entries != [] {
      var e := entries[0];
      if EntryCheck(e).Pass? {
        var brand' := if Truthy(brand) && EntryColor(e).brand != brand.brand then Mixed else brand;
        MixLoopOk(entries[1..], brand', handles + [Handle(e)]);
        AllEntriesOkTail(entries);
      } else {
        assert !AllEntriesOk(entries) by { assert EntryCheck(entries[0]).Fail?; }
      }
    }
  }

  /** The handles of a non-empty list: the first entry's, then the rest's. */
  lemma HandlesCons(entries: seq<Obj>)
    requires |entries| > 0 && AllEntriesOk(entries)
    ensures AllEntriesOk(entries[1..])
    ensures Handles(entries) == [Handle(entries[0])] + Handles(entries[1..])
  {
    AllEntriesOkTail(entries);
    var hs := Handles(entries);
    var tail := Handles(entries[1..]);
    forall i | 0 < i < |hs|
      ensures hs[i] == tail[i - 1]
    {
      assert entries[1..][i - 1] == entries[i];
    }
    Uncons(hs, tail);
  }

  /** A non-empty sequence is its first item followed by any sequence that matches the rest item by item. */
  lemma Uncons<T>(s: seq<T>, t: seq<T>)
    requires |s| > 0 && |t| == |s| - 1
    requires forall i :: 0 < i < |s| ==> s[i] == t[i - 1]
    ensures s == [s[0]] + t
  {
  }

  /** On well-formed entries the loop appends their handles in input order. */
  lemma {:induction false} MixLoopHandles(entries: seq<Obj>, brand: MixBrand, handles: seq<string>)
    requires AllEntriesOk(entries)
    ensures MixLoop(entries, brand, handles).Ok?
    ensures MixLoop(entries, brand, handles).value.1 == handles + Handles(entries)
    decreases |entries|
  {
    if entries == [] {
      assert handles + Handles(entries) == handles;
    } else {
      var e := entries[0];
      var rest := entries[1..];
      assert EntryCheck(e).Pass?;
      HandlesCons(entries);
      var brand' := if Truthy(brand) && EntryColor(e).brand != brand.brand then Mixed else brand;
      var handles' := handles + [Handle(e)];
      assert MixLoop(entries, brand, handles) == MixLoop(rest, brand', handles');
      MixLoopHandles(rest, brand', handles');
      Regroup(handles, Handle(e), Handles(rest));
    }
  }

  /** Appending one item and then a list is appending the list with that item in front. */
  lemma Regroup<T>(a: seq<T>, x: T, b: seq<T>)
    ensures (a + [x]) + b == a + ([x] + b)
  {
  }

  /** On well-formed entries the brand ends as `False` exactly when it was truthy and some entry's brand differs from it. */
  lemma {:induction false} MixLoopBrand(entries: seq<Obj>, brand: MixBrand, handles: seq<string>)
    requires AllEntriesOk(entries)
    ensures MixLoop(entries, brand, handles).Ok?
    ensures MixLoop(entries, brand, handles).value.0 ==
              if Truthy(brand) && SomeBrandDiffers(entries, brand.brand) then Mixed else brand
    decreases |entries|
  {
    if entries != [] {
      var e := entries[0];
      var rest := entries[1..];
      AllEntriesOkTail(entries);
      var brand' := if Truthy(brand) && EntryColor(e).brand != brand.brand then Mixed else brand;
      MixLoopBrand(rest, brand', handles + [Handle(e)]);
      if Truthy(brand) {
        if SomeBrandDiffers(rest, brand.brand) {
          var i :| 0 <= i < |rest| && EntryColor(rest[i]).brand != brand.brand;
          assert entries[i + 1] == rest[i];
        }
        if SomeBrandDiffers(entries, brand.brand) && EntryColor(e).brand == brand.brand {
          var i :| 0 <= i < |entries| && EntryColor(entries[i]).brand != brand.brand;
          assert i > 0 && rest[i - 1] == entries[i];
        }
      }
    }
  }

  /** On a malformed list the loop raises the error of the first malformed entry. */
  lemma {:induction false} MixLoopError(entries: seq<Obj>, brand: MixBrand, handles: seq<string>)
    requires !AllEntriesOk(entries)
    ensures MixLoop(entries, brand, handles) == Err(EntryCheck(entries[FirstBad(entries)]).error)
    decreases |entries|
  {
    var e := entries[0];
    if EntryCheck(e).Pass? {
      AllEntriesOkTail(entries);
      var brand' := if Truthy(brand) && EntryColor(e).brand != brand.brand then Mixed else brand;
      MixLoopError(entries[1..], brand', handles + [Handle(e)]);
      assert FirstBad(entries) == FirstBad(entries[1..]) + 1;
    }
  }

  /**
   * The ColorMix promise: the code is the ' + '-joined handles in input order;
   * the brand is the first entry's brand unless that brand is non-empty and
   * some entry has another, in which case it is 'Mixture'; the only further
   * requirement is that `name` be a str (the joined code is never empty).
   */
  lemma ColorMixSpec(colors: Obj, name: Obj)
    requires AsSequence(colors).Some?
    requires |AsSequence(colors).value| > 0
    requires AllEntriesOk(AsSequence(colors).value)
    ensures var entries := AsSequence(colors).value;
            var first := EntryColor(entries[0]).brand;
            NewColorMix(colors, name) ==
              if !name.StrObj? then Err(TypeError)
              else Ok(Color(if first != "" && SomeBrandDiffers(entries, first) then "Mixture" else first,
                            Join(" + ", Handles(entries)),
                            name.s))
  {
    var entries := AsSequence(colors).value;
    assert EntryCheck(entries[0]).Pass?;
    var first := EntryColor(entries[0]).brand;
    assert First(colors) == Ok(entries[0]);
    assert First(entries[0]) == Ok(entries[0].items[0]);
    assert BrandOf(entries[0].items[0]) == Ok(first);
    MixLoopHandles(entries, Shared(first), []);
    MixLoopBrand(entries, Shared(first), []);
    var hs := Handles(entries);
    JoinNonEmpty(" + ", hs);
    var brand := if first != "" && SomeBrandDiffers(entries, first) then Mixed else Shared(first);
    var res := MixLoop(entries, Shared(first), []);
    assert [] + hs == hs;
    assert res.value.0 == brand && res.value.1 == hs;
    assert res == Ok((brand, hs));
    assert CheckMixArgs(colors) == Ok((brand, Join(" + ", hs)));
  }

  /**
   * The errors of `ColorMix(colors, name)`, in the order they arise: a
   * non-sequence is a TypeError; `colors[0][0].brand` fails with IndexError
   * on an empty sequence or first entry, with TypeError when the first entry
   * cannot be indexed, and with AttributeError when what it holds first is
   * no Color; once that brand is read, the first malformed entry raises its
   * own error.
   */
  lemma ColorMixErrors(colors: Obj, name: Obj)
    ensures AsSequence(colors).None? ==> NewColorMix(colors, name) == Err(TypeError)
    ensures AsSequence(colors) == Some([]) ==> NewColorMix(colors, name) == Err(IndexError)
    ensures First(colors).Err? ==> NewColorMix(colors, name) == Err(First(colors).error)
    ensures First(colors).Ok? && First(First(colors).value).Err? ==>
              NewColorMix(colors, name) == Err(First(First(colors).value).error)
    ensures First(colors).Ok? && First(First(colors).value).Ok?
            && !First(First(colors).value).value.ColorObj? ==>
              NewColorMix(colors, name) == Err(AttributeError)
    ensures First(colors).Ok? && First(First(colors).value).Ok?
            && First(First(colors).value).value.ColorObj?
            && !AllEntriesOk(AsSequence(colors).value)
            ==> var entries := AsSequence(colors).value;
                NewColorMix(colors, name) == Err(EntryCheck(entries[FirstBad(entries)]).error)
  {
    if First(colors).Ok? && First(First(colors).value).Ok? {
      var entries := AsSequence(colors).value;
      var c := First(First(colors).value).value;
      if c.ColorObj? && !AllEntriesOk(entries) {
        MixLoopError(entries, Shared(c.color.brand), []);
      }
    }
  }
}
