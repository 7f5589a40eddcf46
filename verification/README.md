# Fast accessors compiler — a verified model

`FastAccessorsCompiler` (EXSyst ORM accelerator bundle) turns the Doctrine
mapping of an entity into a PHP class of precompiled closures: for every
mapped field a getter and a setter that follow the field's *property chain*
(through embeddables), plus one *batch getter* that reads any subset of fields
and one *batch setter* that assigns any subset, each walking every embedded
object at most once. The compiler shares generated closures through a memo
table (`$scope`), so a chain prefix or an embeddable is compiled once.

This project models the compilation core as pure Dafny functions and proves
that the closures it would generate do what the accessors promise.

| file | module | models |
|---|---|---|
| `chains.dfy` | `Chains` | property descriptions, `getPropertyChain(s)`, `serializeChain` and its injectivity |
| `objects.dfy` | `Objects` | the heap the generated code runs on: records, embedded objects, reference read and assign along a chain |
| `memo.dfy` | `Memo` | the memo table keys, the table of generated functions, its bookkeeping invariant |
| `runtime.dfy` | `Runtime` | interpreters for the four kinds of generated closures |
| `scalar_emitter.dfy` | `ScalarEmitter` | `emitGetter`, `emitSetter` |
| `planner.dfy` | `Planner` | `markParentChains`, `extractCompoundChains` and the resulting plan |
| `batch_getter.dfy` | `BatchGetter` | `emitBatchGetter` and what a batch getter must return |
| `batch_setter.dfy` | `BatchSetter` | `emitBatchSetter` and what a batch setter must do |
| `compiler.dfy` | `Compiler` | `emitBody`: the full pass and the published tables |
| `wrappers.dfy` | `Wrappers` | `Option` |

Modelling choices:

- A generated closure is a `Code` value, and its name is its position in a
  code table. The compiler names each closure after `count($scope)`. Every
  emission adds exactly one memo entry, so that count is the closure's
  position.
- Memo keys are structured (`GetKey`, `SetKey`, `BatchGetKey`, `BatchSetKey`).
  `Memo.KeyStringInjective` shows that the compiler's string keys keep them
  apart whenever no class or property name contains NUL.
- A record and its embedded objects form a tree of values. An embedded object
  changed in place is modelled as the changed object written back at its
  path. Reading an unset property, or reading through `null`, gives `Null`.
- `is_a` is a parameter `isA`. It is assumed to be transitive and free of
  cycles: two distinct classes are never each a subclass of the other
  (`Planner.HierarchyOrder`). Reflexivity is not assumed.
- The generated closures are given meaning by interpreters: `RunGet`,
  `RunSet`, `RunBatchGet` and `RunBatchSet`.
- Each closure has a reference specification:
  - a scalar getter must equal `Objects.GetPath`;
  - a scalar setter must equal `Objects.SetPath`;
  - a batch getter must satisfy `BatchGetter.GetterOk`: exactly the
    requested fields, each at the end of its chain;
  - a batch setter must satisfy `BatchSetter.Assigns`: every defined field
    reads back as its value, every hop towards it holds an object (of its
    old class when one was already there), and nothing off the assigned
    paths changes. This is promised whenever no two defined fields are in
    a prefix relation (`BatchSetter.PrefixFreeOn`), whatever fields the
    entity maps.

## Model

| member | source | states |
|---|---|---|
| Chains.PropertyChain | src/Compiler/FastAccessorsCompiler.php:57-66 | the chain of a property has one step per plain property it is built from, begins with the left-most (outermost) one and contains exactly those steps |
| Chains.PropertyChains | src/Compiler/FastAccessorsCompiler.php:110-113 | one chain per mapped field, in order, each non-empty and starting at the field's outermost property |
| Chains.PropertyChainsWellFormed | src/Compiler/FastAccessorsCompiler.php:110-113 | distinct field names and property names other than `*` yield a well-formed field set (unique fields, non-empty chains, no `*` step) |
| Chains.SerializeChainInjective | src/Compiler/FastAccessorsCompiler.php:115-118 | two NUL-free chains with the same serialisation are the same chain |
| Memo.KeyStringInjective | src/Compiler/FastAccessorsCompiler.php:245 | the four memo key forms (`get\0…`, `set\0…`, `bget[\0…]`, `bset[\0…]`) never collide for NUL-free chains |
| Memo.Record | src/Compiler/FastAccessorsCompiler.php:153-155 | recording a closure adds exactly its key, names it after the number of closures emitted so far, and keeps all earlier entries |
| Memo.RecordKeepsConsistent | src/Compiler/FastAccessorsCompiler.php:153 | recording a new key keeps the memo table and the code table in step (one key per closure, kinds matching) |
| Objects.GetAfterSet | src/Compiler/FastAccessorsCompiler.php:174-186 | assigning along a chain and then reading along it returns the assigned value |
| Objects.SetPathFrame | src/Compiler/FastAccessorsCompiler.php:174-186 | assigning along a chain leaves every path that neither leads to nor passes its slot unchanged |
| Objects.SetAllocatesIntermediates | src/Compiler/FastAccessorsCompiler.php:177-181 | after assigning along a chain, every intermediate hop holds an object (absent ones were instantiated) |
| Objects.SetKeepsClasses | src/Compiler/FastAccessorsCompiler.php:174-186 | assigning along a chain reuses every intermediate object already present, so its class is kept |
| Objects.NullPropagates | src/Compiler/FastAccessorsCompiler.php:135-143 | once an intermediate hop is null, reading the whole chain gives null |
| Runtime.RunGetExtend | src/Compiler/FastAccessorsCompiler.php:120-156 | emitting further closures never changes what an already emitted getter returns |
| Runtime.RunBatchSetExtend | src/Compiler/FastAccessorsCompiler.php:340-434 | emitting further closures never changes what an already emitted batch setter does |
| ScalarEmitter.EmitGetter | src/Compiler/FastAccessorsCompiler.php:120-156 | a memo hit returns the recorded closure unchanged; otherwise the key ends up recorded, earlier entries stay, and only getters of prefixes of the chain are added |
| ScalarEmitter.EmitGetterSound | src/Compiler/FastAccessorsCompiler.php:120-156 | the returned getter reads the chain's value, null when a hop is null, and every closure in the table still does what its key says |
| ScalarEmitter.EmitGetterPrefixClosed | src/Compiler/FastAccessorsCompiler.php:126-127 | after emitting a getter, the getter of every shorter prefix of a recorded chain is recorded too |
| ScalarEmitter.EmitSetter | src/Compiler/FastAccessorsCompiler.php:158-196 | a memo hit returns the recorded closure; otherwise it adds setters for prefixes of the chain and getters only for strict prefixes |
| ScalarEmitter.EmitSetterSound | src/Compiler/FastAccessorsCompiler.php:158-196 | the returned setter assigns along the chain, instantiating absent intermediate objects with the next step's owner class |
| ScalarEmitter.EmitSetterPrefixClosed | src/Compiler/FastAccessorsCompiler.php:164-166 | after emitting a setter, the getter and setter of every strict prefix of a recorded setter's chain are recorded |
| Planner.Owners | src/Compiler/FastAccessorsCompiler.php:200-204 | the list of root classes has no duplicates and holds exactly the classes the chains start at |
| Planner.EliminateKeepsMinimal | src/Compiler/FastAccessorsCompiler.php:209-216 | the elimination loop keeps exactly the classes of which no other root class is a subclass |
| Planner.Childmost | src/Compiler/FastAccessorsCompiler.php:209-217 | the chosen class is a root class with no proper subclass among the root classes, the first such in order |
| Planner.ChildmostIsMostDerived | src/Compiler/FastAccessorsCompiler.php:209-217 | when one root class is a subclass of all others, it is the one chosen |
| Planner.MarkParentChains | src/Compiler/FastAccessorsCompiler.php:198-223 | with one root class nothing changes; otherwise every chain not rooted at the childmost class gets the step `(childmost, *)` in front and the others are kept |
| Planner.MarkKeepsFields | src/Compiler/FastAccessorsCompiler.php:218-222 | marking keeps the set of field names and their uniqueness |
| Planner.MarkMembers | src/Compiler/FastAccessorsCompiler.php:218-222 | every marked entry is an original one or a wildcard-prefixed original, and every original appears in exactly one of those forms |
| Planner.ExtractSpec | src/Compiler/FastAccessorsCompiler.php:225-241 | splitting keeps single-step chains as direct fields and groups the others by their first step with that step removed, without losing or inventing any field, and with distinct group keys |
| Planner.PlanComplete | src/Compiler/FastAccessorsCompiler.php:264-266 | every field of the set is a direct field, a member of the wildcard group, or a member of its first step's group |
| Planner.PlanGroupsSmaller | src/Compiler/FastAccessorsCompiler.php:268-272 | every group passed to the recursive call is a non-empty, well-formed field set that is smaller than its parent (shorter chains, or fewer fields for the wildcard group), so compilation terminates |
| BatchGetter.DirectSlotsOk | src/Compiler/FastAccessorsCompiler.php:286-295 | every slot the plan reads or writes directly belongs to a field of the set whose whole chain is that one property, so reading the slot reads the field |
| Planner.FieldList | src/Compiler/FastAccessorsCompiler.php:299-301 | the fields checked by a group's `isset` disjunction are exactly the group's fields |
| BatchGetter.GetterOkIsReference | src/Compiler/FastAccessorsCompiler.php:243-338 | a result that is sound and complete is exactly the reference map: each requested field of the set, paired with its chain's value |
| BatchGetter.ReadDirectOk | src/Compiler/FastAccessorsCompiler.php:286-295 | reading the direct fields adds every requested one with its own property's value and keeps what was there |
| BatchGetter.NullFillOk | src/Compiler/FastAccessorsCompiler.php:311-319 | for an absent embedded object every requested field of its group gets null, which is its chain's value |
| BatchGetter.GetGroupOk | src/Compiler/FastAccessorsCompiler.php:296-326 | a compound group either leaves the result alone (nothing requested), fills nulls (object absent) or merges the sub-getter's result, each correct for the group's fields |
| BatchGetter.SeedOk | src/Compiler/FastAccessorsCompiler.php:280-285 | the wildcard group's getter, run on the same object, seeds correct values for its requested fields, and `[]` otherwise |
| BatchGetter.PlanReachesAll | src/Compiler/FastAccessorsCompiler.php:264-326 | every field is served by the seed, a direct read, or a compound group |
| BatchGetter.NewBatchGetterOk | src/Compiler/FastAccessorsCompiler.php:264-333 | a batch getter assembled from correct sub-getters returns exactly the requested fields with their chains' values |
| BatchGetter.EmitBatchGetter | src/Compiler/FastAccessorsCompiler.php:243-338 | a memo hit returns the recorded getter; otherwise the key is recorded, earlier entries stay, and only batch getters at or below the prefix are added |
| BatchGetter.EmitBatchGetterSound | src/Compiler/FastAccessorsCompiler.php:243-338 | emitted into a table with no batch getter at or below the prefix, the getter returns exactly the requested fields of the set, and the table stays consistent |
| BatchGetter.EmptyGetterOk | src/Compiler/FastAccessorsCompiler.php:249-263 | the getter for no fields returns the empty map |
| BatchSetter.ScalarSetAssigns | src/Compiler/FastAccessorsCompiler.php:174-186 | a scalar setter meets the batch setter's specification for its one field (read-back, objects on every hop, untouched paths unchanged); the class of an instantiated hop is not fixed by that specification |
| BatchSetter.Compose | src/Compiler/FastAccessorsCompiler.php:387-424 | two setter steps run one after the other assign the union of their fields, when no field of one is in a prefix relation with a field of the other |
| BatchSetter.WriteDirectAssigns | src/Compiler/FastAccessorsCompiler.php:394-403 | the direct writes assign exactly the defined direct fields |
| BatchSetter.GroupAssigns | src/Compiler/FastAccessorsCompiler.php:404-424 | fetching the embedded object (instantiating an empty one if absent), running the group's setter on it and storing it back assigns the group's defined fields in the record |
| BatchSetter.SetGroupOk | src/Compiler/FastAccessorsCompiler.php:404-424 | a compound group with no defined field changes nothing, and otherwise assigns its defined fields |
| BatchSetter.AllocClass | src/Compiler/FastAccessorsCompiler.php:405-416 | the class instantiated for an absent embedded object is the childmost root class of the group's members |
| BatchSetter.SetSeedOk | src/Compiler/FastAccessorsCompiler.php:387-393 | the wildcard group's setter, run on the same object, assigns the defined wildcard fields |
| BatchSetter.BelowPrefixFree | src/Compiler/FastAccessorsCompiler.php:421 | a group's setter receives the same defined fields, and on them its members (one property further in) are prefix-free whenever the defined fields of the whole set are |
| BatchSetter.NewBatchSetterOk | src/Compiler/FastAccessorsCompiler.php:357-434 | a batch setter assembled from correct sub-setters assigns exactly the defined fields, when they are prefix-free |
| BatchSetter.EmitBatchSetter | src/Compiler/FastAccessorsCompiler.php:340-434 | a memo hit returns the recorded setter; otherwise the key is recorded, earlier entries stay, and only batch setters at or below the prefix are added |
| BatchSetter.EmitBatchSetterSound | src/Compiler/FastAccessorsCompiler.php:340-434 | for any well-formed field set, emitted into a table with no batch setter at or below the prefix, the setter assigns exactly the defined fields whenever they are prefix-free and the record is prepared, and the table stays consistent |
| BatchSetter.EmptySetsNothing | src/Compiler/FastAccessorsCompiler.php:346-356 | the setter for no fields leaves the object unchanged |
| Compiler.EmitScalars | src/Compiler/FastAccessorsCompiler.php:475-479 | after the scalar loop every field's getter and setter are recorded, and no batch accessor has been |
| Compiler.EmitBody | src/Compiler/FastAccessorsCompiler.php:482-505 | the published getter and setter tables have exactly the entity's fields as keys |
| Compiler.BatchGetterSound | src/Compiler/FastAccessorsCompiler.php:503 | for any well-formed field set, the batch getter the pass publishes returns exactly the requested fields with their chains' values |
| Compiler.BatchSetterSound | src/Compiler/FastAccessorsCompiler.php:505 | for any well-formed field set, the batch setter the pass publishes assigns exactly the defined fields, on every prepared record whose defined fields are prefix-free |
| Compiler.GetterSound | src/Compiler/FastAccessorsCompiler.php:486-488 | the closure the getter table names for a field reads the value at the end of that field's chain |
| Compiler.SetterSound | src/Compiler/FastAccessorsCompiler.php:496-498 | the closure the setter table names for a field assigns along that field's chain |
| Compiler.EmitBodySound | src/Compiler/FastAccessorsCompiler.php:475-505 | for any well-formed field set, every published getter and setter follows its field's chain and the batch getter returns exactly the requested fields; the batch setter assigns exactly the defined fields whenever they are prefix-free |
| Compiler.BatchGetIsReference | src/Compiler/FastAccessorsCompiler.php:503 | the published batch getter returns, for each requested field of the entity, the value at the end of its chain and nothing else |
| Compiler.GetAfterBatchSet | src/Compiler/FastAccessorsCompiler.php:376-386 | with or without `$definedFields` (defaulting to the keys of `$fields`), the batch setter assigns the defined fields, and each one then reads back through its own getter as its supplied value |
| Compiler.BatchGetAfterBatchSet | src/Compiler/FastAccessorsCompiler.php:503-505 | reading through the batch getter after the batch setter returns the supplied value for every requested field that was defined |
| Compiler.GetAfterScalarSet | src/Compiler/FastAccessorsCompiler.php:486-498 | a field's published getter reads back what its published setter assigned |

## Left out

- File output in `generate` (lines 68-108) is not modelled: opening the file, the namespace and class header, and the Doctrine manager lookup. The field descriptions are a parameter.
- The reflection used to unwrap embedded properties (lines 37-55) is not modelled. A property description is a datatype instead.
- The PHP text of each closure is not modelled. Each closure is given its meaning by an interpreter instead, so closure names and indentation do not appear.
- `bindTo` scope binding is not modelled, and neither are the parameter type declarations. A property redeclared privately in a subclass is therefore not distinguished from its parent's: slots are identified by name.
- PHP errors are not modelled: assigning a property on a scalar, or passing a non-object where a class is declared. In the model, writing onto a non-object changes nothing, and reading off one gives null.
- The `$initialized` guard, the static properties and the public static getters of the generated class are not modelled. Neither is the `$instantiator` line, which only decides whether an `Instantiator` is created. Instantiation is modelled as an empty object of the named class. Doctrine's `Instantiator` keeps the class's declared property defaults, but the model's empty object has no properties. So for a freshly instantiated embedded object, a sibling property that no defined field assigns reads as `Null` in the model (in `Objects.SetPathFrame` and in the frame of `BatchSetter.Assigns`), where PHP reads the declared default.
- Embedded objects shared between two records or two properties are not modelled. Each embedded object is owned by one slot.
- `isset` on a `null` value is not modelled. The requested fields and the defined fields are sets, so a field requested with a null marker counts as requested.
- BatchSetter.EmitBatchSetterSound: the field set may be any well-formed one, including an embedded property mapped next to its own leaves. But a call is covered only when no two defined fields are in a prefix relation (`BatchSetter.PrefixFreeOn` of the defined fields). The reason: when both `address` and `address.street` are defined, the direct write (lines 394-403) stores the supplied `address` value, and the group (lines 404-424) then assigns `street` inside that object. So `address` no longer reads back as supplied, and `Assigns` does not hold for it.
- BatchSetter.EmitBatchSetterSound: proved only for records where assignment can proceed. Every intermediate hop of a defined field must be null or an object, never a scalar. The source fails with a PHP error in that case, and that error path is not modelled.
- Compiler.EmitBodySound: the batch-setter half covers only calls whose defined fields are prefix-free and whose records are prepared, for the same two reasons. The other halves hold without restriction for every well-formed field set.
- Compiler.BatchSetterSound: covers only calls whose defined fields are prefix-free and whose records are prepared, for the reasons given for `BatchSetter.EmitBatchSetterSound`.
- Compiler.GetAfterBatchSet: requires the defined fields to be prefix-free and the record to be prepared, because it rests on the batch setter's guarantee.
- Compiler.BatchGetAfterBatchSet: requires the defined fields to be prefix-free and the record to be prepared, because it rests on the batch setter's guarantee.
- A NUL character in a class or property name would make the compiler's string keys ambiguous. The model keys the memo table by structured chains, and `Memo.KeyStringInjective` states the NUL-free condition under which the two agree.
- A scalar setter instantiates a missing intermediate object with the owner class of the next step. A batch setter uses the childmost class of the group. The model follows each as written; it does not claim the two setters allocate the same class.
