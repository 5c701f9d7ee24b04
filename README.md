# model-track in Dafny

A Dafny model of the core of model-track, a small Python library for planning the build of a
scale kit. The core is a graph of build entities with ownership, custom equality and
registries. It has these pieces:

- **Values**: `Color`, `ColorMix`, `Paint`, `PaintType` and `Decal` (`src/model-track/detail.py`).
  They are modelled as datatypes. Every constructor's type and value checks become a
  `Result`.
- **Status maps**: `HashMap` and `PaintMap` (`src/model-track/container.py`). These are the
  paint and decal maps a Part keeps, from each paint or decal to its done status (True,
  False or None). One map object is shared between an Assembly and its shallow copies, so it
  is a class, `HashMaps.HashMap`, whose `items` field is reassigned. The flag `guarded` marks
  a `PaintMap`, whose `__setitem__` refuses a bare `Color` key and a non-status value.
- **The graph**: `Part`, `Assembly` and `Step`, modelled as one class `Parts.Part` with a
  `kind` tag. A Step's `previous` link and every object's `id`, `paints` and `decals` are set
  once. The `master` back-reference (the Step that owns the object), the member list `parts`
  and the sub-assembly list `assemblies` are updated in place by the `master` setter and by
  `attach`.
- **Graph-walking queries** (module `Queries`): `isPainted`, `isDecaled`, `isComplete`, `get`,
  `getUnpainted`, `getUndecaled`, `__contains__` and the structural hash/equality. These are
  functions over the heap.
- **Steps and the Model** (modules `Steps` and `Models`). Building a Step stamps its owner on
  everything it receives and shallow-copies the Assemblies. The `Model` class appends Steps and
  folds their parts, assemblies, paints and decals into four registries.

Python's dynamic arguments are modelled explicitly:

- `Detail.Obj` stands for any value argument: None, bool, int, str, tuple, list, the value
  classes, or some other object.
- `Parts.Arg` additionally holds graph objects and lists of them.

This way every `TypeError` the source raises for a wrongly typed argument is a reachable
`Err(TypeError)`.

Methods that walk the graph take a ghost `rank: map<Part, nat>`. `Parts.Ranked(rank)` says
that every member of an object has a smaller rank than the object. It makes recursion over
the graph well-founded and gives each method its frame (`modifies rank.Keys`master`). Python
walks any graph it is given; the model covers the acyclic ones (see "Left out").

The registries of the Model are *last wins*: the later of two parts with the same id replaces
the earlier one. Each guard in `Model.nextStep` compares an object with the registry's keys,
and those keys are strings or tuples of another type. The guard never matches, so the
assignment after it always happens. The model follows the code here, not the "first seen
wins" reading of the registries. Likewise, `getStep` with an int is Python indexing at
`number - 1`, including negative positions (see "Findings").

## Model

| member | source | states |
|---|---|---|
| Base.Join | src/model-track/detail.py:126 | joining no handles gives the empty string; joining one handle gives that handle unchanged |
| Base.JoinNonEmpty | src/model-track/detail.py:126 | a mix code whose first handle is non-empty is itself non-empty |
| Detail.AsSequence | src/model-track/detail.py:100-101 | exactly tuples, lists and strings count as sequences; a string iterates as its one-character strings |
| Detail.AsInt | src/model-track/detail.py:113-114 | exactly ints and bools pass an `int` check |
| Detail.NewColor | src/model-track/detail.py:28-41 | a Color is made exactly when brand, code and name are all strings and code or name is non-empty; a non-string is a TypeError and two empty handles a ValueError |
| Detail.SprayAndBrush | src/model-track/detail.py:43-45 | a color's spray and brush paints carry that color with the right type; they never equal each other, and each is equal exactly when the colors are |
| Detail.NewPaint | src/model-track/detail.py:139-146 | a Paint is made exactly from a Color and a PaintType and keeps both; anything else is a TypeError |
| Detail.NewDecal | src/model-track/detail.py:177-181 | a Decal is made exactly from a string id and keeps it; anything else is a TypeError |
| Detail.ValueEqualsByFields | src/model-track/detail.py:73-79 | Colors, Paints and Decals (lines 162-168 and 187-193 as well) are equal exactly when their fields are; values of different classes are never equal; equality is symmetric |
| Detail.First | src/model-track/detail.py:104 | `colors[0]` succeeds exactly on a non-empty sequence and gives its first element |
| Detail.EntryCheck | src/model-track/detail.py:105-123 | an entry that passes is a pair of a Color and an int |
| Detail.Handle | src/model-track/detail.py:118-123 | a checked entry's handle is never empty |
| Detail.Handles | src/model-track/detail.py:118-124 | there is one handle per entry, in order |
| Detail.FirstBad | src/model-track/detail.py:105-123 | when some entry fails its checks, this is the first one that does: every entry before it passes |
| Detail.MixLoopOk | src/model-track/detail.py:105-124 | the loop over the entries succeeds exactly when every entry passes its checks |
| Detail.MixLoopHandles | src/model-track/detail.py:118-124 | a successful loop appends exactly the entries' handles, in order |
| Detail.MixLoopBrand | src/model-track/detail.py:116-117 | the loop ends with the starting brand unless that brand is truthy and some entry's brand differs, and then with "mixed" |
| Detail.MixLoopError | src/model-track/detail.py:105-123 | a failing loop raises the error of the first entry that fails |
| Detail.ColorMixSpec | src/model-track/detail.py:91-128 | for well-formed entries, the mix is the shared brand (or "Mixture" when a non-empty first brand differs from some entry's brand), its code is the handles joined by " + ", and its name is the name given; a non-string name is a TypeError |
| Detail.ColorMixErrors | src/model-track/detail.py:99-123 | a non-sequence is a TypeError; reading `colors[0][0].brand` raises IndexError for an empty sequence or empty first entry, TypeError for a first entry that cannot be indexed, AttributeError when its first item is no Color; once that brand is read, the first malformed entry raises its own error |
| HashMaps.SetItemCheck | src/model-track/container.py:31-39 | an assignment is refused exactly when the map is a PaintMap and the key is a bare Color or the value is not a status (True, False, None or the equal ints 1 and 0); a refusal is a TypeError |
| HashMaps.Lookup | src/model-track/container.py:117 | `get` gives None exactly for a missing key or a None value, and False exactly for a key stored as False |
| HashMaps.Seeded | src/model-track/container.py:59-64 | a fresh status map holds exactly the given keys, each not done |
| HashMaps.AddMissing | src/model-track/container.py:316-321 | adding keys keeps every existing key's status and adds only the new keys, as not done |
| HashMaps.HashMap.constructor | src/model-track/container.py:13-14 | the map holds the given items |
| HashMaps.HashMap.SetItem | src/model-track/container.py:31-41 | the map changes exactly when the check passes, and then at that key only; overwriting a present key leaves the identity unchanged |
| HashMaps.IdentityIsKeySet | src/model-track/container.py:16-20 | two maps hash alike exactly when they are of the same class and have the same keys, whatever the insertion order and the values |
| Parts.Part.Init | src/model-track/container.py:52-82 | a new object owns two fresh, distinct maps seeded with its keys, not done; it has no master yet |
| Parts.Part.Make | src/model-track/container.py:159-161 | a deep copy holds the given fields and has no master |
| Parts.Part.Copy | src/model-track/container.py:418 | a shallow copy shares every field of the original, including its status maps and its master |
| Parts.Part.Fill | src/model-track/container.py:206-207 | an Assembly's members are the given list, and its sub-assemblies are the Assemblies among them |
| Parts.Part.SetMaster | src/model-track/container.py:100-108 | a non-Step value is a TypeError; a Part takes a Step only while its master is unset, else ValueError; an Assembly or Step takes it when itself or some direct member was unset; exactly this object (if unset) and the objects reached from it through chains of members that were unset take the Step, and no other master changes; every object it sets ends with all its direct members owned |
| Parts.Part.HandDown | src/model-track/container.py:332-350 | "something changed" holds exactly when some direct member had no master; afterwards every member has one; exactly the objects reached from the direct members through chains of unset members take the value, and no other master changes |
| Parts.Part.TakeOver | src/model-track/container.py:341-345 | a member's setter runs exactly when it has no master; it then gives the value to that member and whatever its own setter reaches, and changes no other master |
| Parts.GivenBelow | src/model-track/container.py:325-350 | the setter gives a master only to objects that had none and that lie below the object it starts from |
| Parts.Part.Attach | src/model-track/container.py:300-323 | the master is cleared; malformed members are a TypeError and leave members and maps as they were; otherwise the new members and their sub-assemblies are appended, and their paint and decal keys are added to the maps as not done without touching existing keys; well-founded members keep the graph acyclic |
| Parts.Part.Extend | src/model-track/container.py:313-314 | the members and sub-assemblies grow by the given ones and the graph stays acyclic |
| Parts.Part.AddKeys | src/model-track/container.py:316-321 | every paint and decal key the maps lack is added as not done; a key already present keeps its status |
| Parts.AssembliesOf | src/model-track/container.py:221-229 | the sub-assemblies are Assemblies and no more than the members |
| Parts.AssembliesOfMembers | src/model-track/container.py:221-229 | the sub-assemblies are exactly the members that are Assemblies |
| Parts.AssembliesOfAppend | src/model-track/container.py:314 | the sub-assemblies of appended members are appended to the sub-assemblies |
| Parts.BelowAreMembers | src/model-track/container.py:222-231 | everything below an Assembly is a Part or an Assembly, never a Step |
| Parts.AsItems | src/model-track/container.py:200-203 | a list is taken as it is; a single object is not a sequence |
| Parts.ParseMembers | src/model-track/container.py:200-236 | members parse exactly when the argument is a Part or Assembly, or a sequence of them only; they keep their order; anything else is a TypeError |
| Parts.PaintKeysOf | src/model-track/container.py:233 | the union of the members' paint keys |
| Parts.DecalKeysOf | src/model-track/container.py:234 | the union of the members' decal keys |
| Parts.KeysArg | src/model-track/container.py:56-80 | None gives no keys, a single Paint or Decal gives itself, and a sequence gives its elements if all are of the right class; anything else is a TypeError |
| Parts.PartFields | src/model-track/container.py:52-80 | a Part's arguments are accepted exactly when the id is a string and both key arguments are accepted |
| Parts.NewPart | src/model-track/container.py:52-82 | `Part(id, paints, decals)` fails exactly on bad arguments, with TypeError; otherwise it is a fresh Part with fresh maps holding its keys as not done, and no master and no members |
| Parts.NewAssembly | src/model-track/container.py:195-211 | `Assembly(id, parts)` fails with TypeError exactly on bad members, a non-string id or a bad key; otherwise it is a fresh Assembly holding the members in order, with the union of their keys as not done |
| Parts.CopyCount | src/model-track/container.py:154-157 | a count is accepted exactly when it is a positive int; a non-int is a TypeError and a non-positive int a ValueError |
| Parts.CopyPart | src/model-track/container.py:149-161 | a valid count gives that many fresh Parts, pairwise distinct with distinct maps, each equal in id, keys and statuses to the original and without a master |
| Queries.FinishedLeaves | src/model-track/container.py:246-251 | an object is painted (decaled) exactly when no plain Part anywhere below it has a paint (decal) marked False |
| Queries.CompleteMembers | src/model-track/container.py:144-147 | an Assembly is complete exactly when each of its members is |
| Queries.CheckStatus | src/model-track/container.py:110-126 | a non-Paint (non-Decal) is a TypeError; otherwise the result is the stored status, or None when the key is missing |
| Queries.PartContains | src/model-track/container.py:183-189 | a Paint or Decal is contained exactly when it is a key of the matching map; anything else is a TypeError |
| Queries.EqualByValue | src/model-track/container.py:379-385 | two objects are equal exactly when they have the same class, id, paint keys and decal keys, and pairwise equal members; statuses and masters play no part |
| Queries.AsQuery | src/model-track/container.py:267-298 | `get` accepts exactly a string or a Part, Assembly or Step; anything else is a TypeError |
| Queries.Filter | src/model-track/container.py:268 | the direct members selected are exactly the selected ones among the members |
| Queries.CollectSound | src/model-track/container.py:270-274 | a search reports only objects below the Assembly that match |
| Queries.CollectExhaustive | src/model-track/container.py:270-274 | a recursive search reports exactly the matching objects below the Assembly |
| Queries.Get | src/model-track/container.py:260-298 | `get` raises exactly on a bad query, with TypeError |
| Queries.GetSound | src/model-track/container.py:260-298 | every object `get` returns lies below the Assembly and has the id asked for, or equals the object asked for |
| Queries.GetRecursive | src/model-track/container.py:270-274 | `get(part, True)` returns exactly the objects below the Assembly with that id, or equal to that object |
| Queries.CollectScoped | src/model-track/container.py:267-298 | a search that enters only sub-assemblies with the same master finds exactly the selected objects among the direct members and, recursively, those sub-assemblies |
| Queries.GetScoped | src/model-track/container.py:267-298 | `get(part, recursive)` with `recursive` not True returns exactly the matching objects among the direct members and in the sub-assemblies that share the master, recursively |
| Queries.GetRecursiveFindsMore | src/model-track/container.py:270-274 | whatever `get` returns, the recursive `get` returns as well |
| Queries.Contains | src/model-track/container.py:395-402 | `in` raises a TypeError exactly when the item is not a Part or Assembly |
| Queries.ContainsExact | src/model-track/container.py:395-402 | an Assembly contains a Part or an Assembly exactly when an equal object is among its direct members or, recursively, in a sub-assembly with the same master |
| Queries.ContainsMembers | src/model-track/container.py:399-402 | an Assembly contains everything equal to one of its direct members |
| Queries.ContainsByValue | src/model-track/container.py:395-402 | membership depends only on the item's value, not on which equal object is asked |
| Queries.GetUnpainted | src/model-track/container.py:352-356 | the call raises exactly when the paint is neither None nor a Paint or the flag is not a bool, with TypeError |
| Queries.GetUnpaintedExact | src/model-track/container.py:358-364 | the result is exactly the objects below the Assembly with that paint marked False, whatever the flag |
| Queries.PaintedLeavesOnlyAssemblies | src/model-track/container.py:359-361 | below a painted Assembly, only Assemblies can be reported as unpainted |
| Queries.GetUndecaled | src/model-track/container.py:368-370 | the call raises exactly when the flag is not a bool, with TypeError |
| Queries.GetUndecaledListsDecaled | src/model-track/container.py:373-375 | with the flag set, a fully decaled sub-assembly is reported as undecaled (see Findings) |
| Queries.UndecaledBelow | src/model-track/container.py:368-377 | the corrected query raises exactly when the flag is not a bool |
| Queries.UndecaledBelowExact | src/model-track/container.py:368-377 | the corrected query reports exactly the members (with the flag, the objects at any depth) that are not fully decaled |
| Steps.PreviousArg | src/model-track/container.py:409-411 | the previous step is accepted exactly when it is None or a Step; anything else is a TypeError |
| Steps.SameKeys | src/model-track/container.py:425 | copies sharing their originals' maps contribute the same keys |
| Steps.Take | src/model-track/container.py:421-428 | a Part stands for itself and an Assembly for a fresh copy holding its old master; the element is taken exactly when it or (for an Assembly) one of its direct members had no master, and ValueError is raised otherwise; masters change only from unset to this Step |
| Steps.StampEach | src/model-track/container.py:420-429 | every element ends up owned and is stood for by itself (a Part) or by a copy made before the stamp (an Assembly); a master once set never changes, and only the elements and the objects below them gain the Step, even when the loop raises; independent, unowned members always succeed |
| Steps.StampNext | src/model-track/container.py:420-427 | one element: a failure is a TypeError or ValueError; on success the element is stamped like the earlier ones, which stay as they were; a master once set never changes, and an object that had no master either keeps none or gains the Step and lies below the elements; for independent, unowned members the turn succeeds and the later elements stay unowned |
| Steps.ReachFirstMember | src/model-track/container.py:420-427 | an object is below the first elements of the list exactly when it is, or lies below, one of them |
| Steps.ReachFirstHas | src/model-track/container.py:420-427 | what lies below an element lies below every longer prefix of the list |
| Steps.UnderParsed | src/model-track/container.py:413-427 | for members that parse, lying under the argument means lying in the `Reach` of one of the parsed members |
| Steps.Gather | src/model-track/container.py:413-429 | the members are owned and in order; only the members and the objects below them gain the Step; a single Part that already has a master is refused with ValueError; a single Assembly's copy holds the new master, and copies made from a list hold the old one |
| Steps.Populate | src/model-track/container.py:413-431 | as for `Steps.Gather`, and the Step holds exactly the gathered members and their sub-assemblies |
| Steps.NewStep | src/model-track/container.py:408-431 | a bad previous step raises before anything changes; success requires a valid name, members and keys, and gives a fresh Step with no master, with its name and previous step, holding the members (Parts themselves, Assemblies as fresh copies), with their key union as not done; masters only go from unset to the new Step, and only for the members and the objects below them, even when building fails; a single Part that already has a master is refused with ValueError; independent, unowned members with valid arguments always succeed |
| Models.PaintKey | src/model-track/container.py:479-482 | a paint is keyed by its color's code, or its name when the code is empty, together with its type |
| Models.Register | src/model-track/container.py:471-476 | the registry gains exactly the ids of the new objects, and every entry is either an old one or a new object under its own id |
| Models.RegisterLastWins | src/model-track/container.py:471-473 | the last object with an id is the one registered; ids not among the new objects keep their entry |
| Models.DecalsById | src/model-track/container.py:484-486 | the decals are registered exactly under their ids |
| Models.DecalsByIdAdd | src/model-track/container.py:484-486 | registering one more key adds its decal under its id, and ignores a non-decal |
| Models.PyIndex | src/model-track/container.py:532-533 | Python list indexing: valid from `-len` to `len - 1`, negative positions counted from the end, otherwise an IndexError |
| Models.NumberedStep | src/model-track/container.py:493 | numbers 1 to `len` give that step, and larger ones an IndexError |
| Models.NumberedStepZero | src/model-track/container.py:493 | as written, number 0 gives the last step and -1 the one before it (see Findings) |
| Models.AbsoluteStep | src/model-track/container.py:489-491 | the corrected lookup succeeds exactly for numbers 1 to `len` and otherwise raises IndexError |
| Models.AbsoluteStepAgrees | src/model-track/container.py:489-493 | the corrected lookup agrees with the code on 1 to `len` and refuses every number below 1 |
| Models.RegisterById | src/model-track/container.py:471-476 | registering keeps every entry under its own id, and the assemblies registry holds only Assemblies |
| Models.PaintsAddedByKey | src/model-track/container.py:477-483 | adding paints keeps every paint under its own key |
| Models.Model.Make | src/model-track/container.py:456-464 | a new Model has its name, no steps and empty registries |
| Models.Model.Len | src/model-track/container.py:529-530 | the length is zero exactly when there are no steps; indexing at the length fails and just below it succeeds |
| Models.Model.GetItem | src/model-track/container.py:532-533 | `model[i]` is Python indexing into the steps; an index that is not an int is a TypeError |
| Models.Model.GetStep | src/model-track/container.py:488-500 | an int gives the step at `number - 1` as Python indexes; a string gives the first step with that name, or a ValueError; anything else is a TypeError |
| Models.Model.NextStep | src/model-track/container.py:466-486 | a failure is a TypeError or ValueError and leaves the steps and registries unchanged; success appends one fresh Step, named as given and linked to the previous last step, and folds it into the registries; owned masters are never replaced, and only the members and the objects below them gain the Step; a single Part that already has a master is refused with ValueError; the Model stays valid |
| Models.Model.Append | src/model-track/container.py:469-486 | the Step is appended and its parts, assemblies, paints and decals are registered, keeping the chain and the registries valid |
| Models.Model.RegisterParts | src/model-track/container.py:471-476 | the parts (or assemblies) registry becomes the registration of the given objects; the other registry is unchanged |
| Models.Model.RegisterPaints | src/model-track/container.py:477-483 | every Paint key is registered under its key, holding one of the paints with that key (the set's iteration order decides which); other entries are kept and non-Paint keys ignored |
| Models.Model.RegisterDecals | src/model-track/container.py:484-486 | every Decal key is registered under its id |
| Models.NewModel | src/model-track/container.py:456-464 | `Model(name)` fails exactly on a non-string name, with TypeError; otherwise it is a fresh, valid, empty Model |

## Left out

- `save` and `loadModel` (pickle to and from a file) are I/O and are not modelled.
- `__str__` and `__repr__` of every class are formatting for display and are not modelled.
- Python's `hash` integers are not modelled. Equality is modelled on the structure the hash
  is computed from (`Queries.Fingerprint`, `HashMaps.MapIdentity`). Two different values
  whose hash integers collide compare equal in Python but not in the model.
- `src/modeltrack/detail.py` is the same text as `src/model-track/detail.py` and is modelled
  once.
- Graphs with a cycle are not modelled. `attach` can put an Assembly below itself. Python's
  recursive walks (`isPainted`, `get(..., True)`, `__hash__`) then raise RecursionError. The
  `master` setter still ends, because it sets each object before descending into it. Every
  graph-walking member requires `Parts.Ranked(rank)`.
- Parts.CopyPart: models `copy` only for a plain Part without a master. Copying an Assembly or
  a Step, or a Part that has a master, deep-copies the owning Step graph as well, and that
  clone is not modelled. `copy(1)` returns a single Part, while the model returns a
  one-element sequence. With a count above one, Python returns a generator that deep-copies
  lazily, one copy per iteration; the model returns all the copies it would yield at once.
- Parts.Part.Make: stands for the result of `deepcopy` and is given the copy's fields directly.
- Steps.StampEach: states the error kinds (TypeError or ValueError) but not which element
  raises. Success is guaranteed only for independent members that have no master yet.
- Steps.Gather: the same weakening as `Steps.StampEach`.
- Steps.Populate: the same weakening as `Steps.StampEach`.
- Steps.NewStep: the same weakening as `Steps.StampEach`. It also requires every graph object
  in the arguments to be ranked, so a `Step` argument is taken from the modelled graph.
- Models.Model.NextStep: states the new Step's length, name, link and registration. It leaves
  which objects the Step holds to `Steps.NewStep`, which builds it.
- Models.Model.GetItem: a slice index (`model[1:3]`) is not modelled; only int and bool
  indices are.
- Steps.NewStep: Python accepts any iterable as the member list of a Step. The model accepts
  lists and tuples only (`Parts.Arg`).
- Map keys compare by structure (`Detail.Obj` equality). Python's dict also merges keys that are
  equal across types: `True` and `1` are one key there, and so are a Color and an equal
  instance of a Color subclass. The model keeps such keys apart.
- Floats, which could pass the status check as `1.0` and `0.0`, are not part of `Detail.Obj`.
- The paint and decal maps keep Python's insertion order. The model keeps maps, so that order
  (visible only through `__str__` and the order of `nextStep`'s folding) is not modelled.

## Findings

| source | as written | input that shows it | evidently intended | confidence | as-written member | corrected member |
|---|---|---|---|---|---|---|
| src/model-track/container.py:373-375 | `getUndecaled(True)` appends every sub-assembly itself, whether it is decaled or not | an Assembly holding one fully decaled sub-assembly: `getUndecaled(True)` lists that sub-assembly | list the objects below that are not fully decaled, at any depth | not executed | Queries.GetUndecaledListsDecaled | Queries.UndecaledBelowExact |
| src/model-track/container.py:493 | `getStep(number)` indexes at `number - 1`, so 0 and negative numbers reach steps from the end | a Model with two steps: `getStep(0)` returns the second step, not an IndexError | an absolute step number from 1 to `len`, anything else an IndexError | not executed | Models.NumberedStepZero | Models.AbsoluteStepAgrees |

The operations themselves (`Queries.GetUndecaled`, `Models.Model.GetStep`) keep the code's
behaviour, because that is what the library does. The corrected definitions,
`Queries.UndecaledBelow` and `Models.AbsoluteStep`, are stated beside them with their
intended properties proved.
