# typelist and the typestate-gated annotation store

This project models two parts of the `oil` repository that work together.

- **The `typelist` procedural macro** (`typelist/src/lib.rs`). It takes a depth `D` and an ordered list of marker names. It emits the traits `Includes<T>` and `Excludes<T>`, the list types `Nil` and `Cons<H, T>`, and three base facts about `Nil`. Then, for every depth `1..=D`, every marker `K` and every length-`d` list `L` drawn from the names, it emits `impl Includes<K> for L` when `K` occurs in `L` and `impl Excludes<K> for L` otherwise. The `typelist_with_structs!` variant also emits one unit struct per name.
- **The annotation store `Node<T, S>`** (`orphan-instance-lang/src/node.rs`). It wraps a syntax-tree payload with a map from annotation type to value. A phantom state `S` records, as a type-level list, the annotation types added through the checked `add_annotation`. Each operation is gated on the relation that `typelist!(1, Type)` generates.

Files:

- `wrappers.dfy`: `Option` and `Result`.
- `typelist.dfy` (module `Typelist`): the generator as pure functions over `seq<Decl>`. It also holds Rust's trait resolution over those declarations (`Implements`: some emitted impl matches) and the relation stated directly (`Includes` and `Excludes`: containment in the history). The lemmas cover membership, count, order and uniqueness of the generated facts. They also prove that the output and the direct relation agree.
- `typelist_examples.dfy` (module `TypelistExamples`): the crate's exact-output tests for `Foo, Bar`, and the calls of its demo program that are accepted and rejected.
- `node.dfy` (module `AnnotationStore`): `class Node<T>` has a `map<Name, Annotation>` field and a ghost `history: seq<Name>`. The Rust bounds `S: Includes<U>` and `S: Excludes<U>` become `requires` clauses over `Typelist.Includes` and `Typelist.Excludes`, with depth 1 and the markers `["Type"]`. `Valid()` states two things. Every entry is stored under its own value's type. Every kind in the history has an entry. That second part is what makes the `expect` in `get_annotation` unreachable.

A type-level list `Cons<A, Cons<B, Nil>>` is the sequence `["A", "B"]`, with the outermost `Cons` first. A checked add therefore prepends: `history == [U] + old history`.

Three behaviours of the code that the model keeps:

- The code rejects neither duplicate names nor negative depths. A negative depth cannot be written as an integer literal (`-1` is a unary expression), so it hits the "Expected a literal integer" panic (`Typelist.Convert`). A depth of 0 gives no impls. Duplicate names give duplicate impls (`Typelist.DistinctImplsIff`).
- A checked add prepends (`Cons<U, S>`). Only membership matters to the relation.
- Unchecked adds can put kinds in the map that the history lacks. So the invariant proved is inclusion: every kind in the history has an entry.

## Model

| member | source | states |
|---|---|---|
| `Typelist.Convert` | typelist/src/lib.rs:129-145 | Conversion succeeds exactly for an integer literal that fits in an `i32`, and it keeps the names. Any other expression fails with "Expected a literal integer". An out-of-range literal fails with "Invalid integer literal". The converted depth is never negative. |
| `Typelist.TypelistMacro` | typelist/src/lib.rs:229-241 | `typelist!` succeeds exactly when conversion does, and its output contains no marker structs. |
| `Typelist.TypelistWithStructs` | typelist/src/lib.rs:243-255 | `typelist_with_structs!` succeeds exactly when conversion does. It places `Struct(names[i])` at position `i` right after the prelude and base facts. Every struct it emits is one of the names. |
| `Typelist.Tuples` | typelist/src/lib.rs:165 | `multi_cartesian_product` of `d` copies of the names: every length-`d` sequence over the names, rightmost position varying fastest. Its properties are proved in `TuplesMember`, `TuplesCount` and `TuplesInOrder`. |
| `Typelist.Verdict` | typelist/src/lib.rs:167-176 | The trait is `Includes` when the marker occurs in the list and `Excludes` otherwise. `GeneratedShape` and `GeneratedImplements` state it for every generated fact. |
| `Typelist.GenerateImpls` | typelist/src/lib.rs:158-193 | `generate_impls`: depths `1..=D` ascending, then one block per marker in input order, then tuples in product order. `GeneratedMember`, `ImplCount`, `ImplAt` and `DepthAscending` prove the contents, count and order. |
| `Typelist.GenerateStructs` | typelist/src/lib.rs:147-156 | `generate_structs`: one unit struct per name, in input order, and nothing else. |
| `Typelist.GenerateOutput` | typelist/src/lib.rs:199-227 | `generate_output`: the traits, `Nil` and `Cons`, the three base facts, the structs when asked for, then the impls. `IncludesAgreesWithOutput` and `ExcludesAgreesWithOutput` prove that it implements exactly the direct relation. |
| `Typelist.TuplesMember` | typelist/src/lib.rs:165 | The product of `d` copies of the names holds exactly the sequences of length `d` whose elements are all names. |
| `Typelist.TuplesCount` | typelist/src/lib.rs:165 | The product of `d` copies of `N` names has `N^d` tuples. |
| `Typelist.TuplesInOrder` | typelist/src/lib.rs:165 | With distinct names, the tuple at index `i` reads as the base-`N` numeral of `i`. So the rightmost position varies fastest (FF, FB, BF, BB). |
| `Typelist.GeneratedMember` | typelist/src/lib.rs:158-193 | A declaration is among the generated impls exactly when it is the fact `Fact(k, L)` for a marker `k` among the names and a list `L` of length `1..=depth` over the names. |
| `Typelist.GeneratedImplements` | typelist/src/lib.rs:163-176 | Among the generated impls, `L: bound<K>` holds exactly when `K` is a name, `L` is a tracked list, and `bound` is `Includes` if `K` occurs in `L` and `Excludes` otherwise. |
| `Typelist.GeneratedShape` | typelist/src/lib.rs:159-182 | Every generated impl is for one named marker and a list of length `1..=depth` over the names. It is `Includes` exactly when the marker occurs in the list. |
| `Typelist.NoImplsWithoutDepth` | typelist/src/lib.rs:159 | A depth of zero or less generates no impl. |
| `Typelist.IncludesAgreesWithOutput` | typelist/src/lib.rs:199-227 | For every history and marker, the output implies `h: Includes<k>` exactly when the direct relation `Includes` holds. `Nil` is included everywhere, and a name is included in the tracked histories that contain it. |
| `Typelist.ExcludesAgreesWithOutput` | typelist/src/lib.rs:199-227 | For every history and marker, the output implies `h: Excludes<k>` exactly when the direct relation `Excludes` holds. The empty history excludes everything, and a tracked history excludes the names it lacks. |
| `Typelist.NamedVerdictsExclusive` | typelist/src/lib.rs:167-176 | Whatever the names, a named marker never gets both `Includes` and `Excludes` for the same history. |
| `Typelist.NilVerdicts` | typelist/src/lib.rs:220-222 | Every history includes `Nil`. Only the empty history also excludes `Nil`, so the empty history has both verdicts for `Nil`. |
| `Typelist.UntrackedHistories` | typelist/src/lib.rs:159 | The empty history and histories longer than the depth get no `Includes` for a named marker. The long ones get no `Excludes` either, so operations gated on them are rejected. |
| `Typelist.ImplCount` | typelist/src/lib.rs:158-165 | `generate_impls` emits `N * (N^1 + ... + N^D)` facts. |
| `Typelist.ImplAt` | typelist/src/lib.rs:159-191 | The fact for depth `d`, marker `m` and tuple `t` sits after every shallower fact and after the blocks of markers `0..m`. So facts are ordered by depth, then marker in input order, then tuple order. |
| `Typelist.ImplsPrefix` | typelist/src/lib.rs:159-160 | The expansion for a smaller depth is a prefix of the expansion for a larger one. |
| `Typelist.ImplIndexValue` | typelist/src/lib.rs:159-165 | That position is `N * (N^1 + ... + N^(d-1)) + m * N^d + t`. |
| `Typelist.DepthAscending` | typelist/src/lib.rs:159-160 | Generated facts appear in ascending order of list length. |
| `Typelist.DistinctImplsIff` | typelist/src/lib.rs:158-193 | For depth at least 1, the generated impls are pairwise distinct exactly when the names are. |
| `Typelist.ExactlyOneVerdict` | typelist/src/lib.rs:163-176 | With distinct names, each tracked history and named marker get exactly one generated fact, and it carries the verdict of the rule. |
| `TypelistExamples.PairDepth2` | typelist/src/lib.rs:273-292 | For any two distinct markers `a, b`, `generate_impls(2, [a, b])` is the four depth-1 facts followed by the eight depth-2 facts, each with the verdict the rule gives. |
| `TypelistExamples.PairLength3` | typelist/src/lib.rs:330-365 | For any two distinct markers `a, b`, the facts depth 3 adds are the eight lists for `a`, then the eight for `b`, with `Excludes` only for `a` on `[b, b, b]` and `b` on `[a, a, a]`. |
| `TypelistExamples.FooBarTuples` | typelist/src/lib.rs:334-362 | The products of `Foo, Bar` of lengths 1, 2 and 3, in the order the expected output lists them. |
| `TypelistExamples.StructsFooBar` | typelist/src/lib.rs:262-271 | `generate_structs([Foo, Bar])` is `struct Foo; struct Bar;`. |
| `TypelistExamples.ImplsFooBarDepth2` | typelist/src/lib.rs:273-292 | `generate_impls(2, [Foo, Bar])` is exactly the twelve expected facts, in order. |
| `TypelistExamples.ImplsFooBarDepth3` | typelist/src/lib.rs:330-365 | `generate_impls(3, [Foo, Bar])` is exactly the twenty-eight expected facts, in order. |
| `TypelistExamples.FullOutputFooBar` | typelist/src/lib.rs:294-328 | The full expansion with structs is the prelude, the base facts, `Foo` and `Bar`, then the twelve facts. `typelist_with_structs!(2, Foo, Bar)` produces it. |
| `TypelistExamples.FooBarCounts` | typelist/src/lib.rs:277-290 | The count formula gives 12 facts for depth 2 and 28 for depth 3. |
| `TypelistExamples.DemoAgrees` | typelist/tests/trybuild/example.rs:8-66 | In the demo, which expands `typelist!(3, Foo, Bar)`, a method gated on `S: Includes<K>` is available at history `h` exactly when the direct relation includes `K` in `h`. |
| `TypelistExamples.DemoCalls` | typelist/tests/trybuild/example.rs:68-91 | For each call in the demo, the relation holds for the calls the demo marks good and fails for the calls it marks bad. That includes the history of length 4, which is past the depth. |
| `TypelistExamples.DepthMustBeI32Literal` | typelist/src/lib.rs:131-137 | A non-literal depth and a literal above `i32::MAX` stop the expansion, and depth 3 does not. |
| `AnnotationStore.KindOf` | orphan-instance-lang/src/node.rs:56-57 | An annotation is stored under its own type, which implements `Annotation` and is one of the markers of `typelist!(1, Type)`. |
| `AnnotationStore.Node.constructor` | orphan-instance-lang/src/node.rs:27-31 | `From`: the node holds the payload, has no annotations and the empty history, and satisfies the store invariant. |
| `AnnotationStore.Node.WithState` | orphan-instance-lang/src/node.rs:39-46 | `new` as written: the payload with no annotations, at whatever history the caller's state type names. |
| `AnnotationStore.Node.Lookup` | orphan-instance-lang/src/node.rs:89-92 | The map lookup with downcast returns a value only if the map holds it under its own type. Under the invariant, it finds a value exactly when the kind has an entry, so the downcast never fails. |
| `AnnotationStore.Node.AddAnnotation` | orphan-instance-lang/src/node.rs:48-63 | Requires `Excludes`. The new node has the same payload and the map with `U := v`, and all other entries are unchanged. Its history has `U` in front. It keeps the invariant. |
| `AnnotationStore.Node.AddAnnotationUnchecked` | orphan-instance-lang/src/node.rs:65-72 | Requires `Excludes`. It inserts or overwrites the entry for `U` in place, and all other entries are unchanged. History and payload are untouched, and the invariant is kept. |
| `AnnotationStore.Node.ChangeAnnotation` | orphan-instance-lang/src/node.rs:74-81 | Requires `Includes`. It overwrites the entry for `U` in place, and all other entries are unchanged. History and payload are untouched, and the invariant is kept. |
| `AnnotationStore.Node.GetAnnotation` | orphan-instance-lang/src/node.rs:83-95 | Requires `Includes`. It returns the stored value of type `U`. Under the invariant, the `expect` branch is unreachable. |
| `AnnotationStore.Node.GetAnnotationUnchecked` | orphan-instance-lang/src/node.rs:97-105 | Requires `Excludes`. It returns `Some` only with the value stored under `U`. Under the invariant, it returns `Some` exactly when the map has an entry for `U`. It changes nothing. |
| `AnnotationStore.AddEnablesGet` | orphan-instance-lang/src/node.rs:51-63 | After a checked add allowed on a history shorter than the depth, the new history `[U] + h` includes `U`, so `get_annotation` and `change_annotation` become available. |
| `AnnotationStore.CheckedAddAtMostOnce` | orphan-instance-lang/src/node.rs:51-55 | A kind already in the history is never excluded, so it can be checked-added at most once. |
| `AnnotationStore.NodeGates` | orphan-instance-lang/tests/compile-fail/node-annotation.rs:6-22 | Under `typelist!(1, Type)`, a fresh node rejects get and change and accepts the first add. After that add, get and change are allowed. A second add is rejected, and so are unchecked add and get on the resulting history. |
| `AnnotationStore.ExcludedOnlyWhenEmpty` | orphan-instance-lang/src/node.rs:16 | Under `typelist!(1, Type)`, only the empty history `Nil` excludes the one annotation kind. So the checked add is available only on a node with nothing added through it. |
| `AnnotationStore.CheckedRoundTrip` | orphan-instance-lang/src/node.rs:51-95 | On any node that keeps the invariant and whose history allows the add: get after a checked add of `a` returns `a`, and get after a change to `b` returns `b`. The resulting node keeps the invariant, has the history `[U] + h`, and its map is the old one with `U := b`. |
| `AnnotationStore.AddGetChange` | orphan-instance-lang/src/node.rs:112-118 | Add `I32`, then get returns `I32`. Change to `F32`, then get returns `F32`. |
| `AnnotationStore.UncheckedRoundTrip` | orphan-instance-lang/src/node.rs:65-72 | On a fresh node, the unchecked get misses before an unchecked add and finds the added value after it. The history stays empty. |
| `AnnotationStore.NewAtIncludedState` | orphan-instance-lang/src/node.rs:39-46 | `new` at the state `Cons<Type, Nil>` allows `get_annotation::<Type>`, but the lookup misses and the invariant fails. |

## Findings

| source | as written | input that shows it | evidently intended | confidence | as-written member | corrected member |
|---|---|---|---|---|---|---|
| orphan-instance-lang/src/node.rs:39-46 | `new` is declared in `impl<T, S>`, so a caller can build a node at any state `S` with an empty map. | `Node::<i32, Cons<Type, Nil>>::new(0).get_annotation::<Type>()`: the bound `Includes<Type>` holds, the lookup misses, and the `expect` at node.rs:93-94 panics. | The only annotation-free state is `Nil`, as `From` gives, so the `expect` can never fire ("should have been guaranteed by type system"). | high; not executed | `AnnotationStore.NewAtIncludedState` (with `AnnotationStore.Node.WithState`) | `AnnotationStore.Node.constructor` (and `AnnotationStore.Node.GetAnnotation`, whose `expect` branch is proved unreachable) |

## Left out

- Token streams, `MacroInput::parse`, `syn`/`quote` handling and identifier validation with `parse_str` are not modelled. The input is `(depth, names)` and the output is a sequence of abstract declarations. Names that are not identifiers, and names that clash with `Nil` or `Cons`, are not modelled either.
- Rust trait resolution is modelled only as "some emitted impl matches" (`Typelist.Implements`). Coherence checking is not modelled. With duplicate names the generator emits duplicate impls, which `rustc` refuses; `Typelist.DistinctImplsIff` states when that happens.
- `TypeId`, `Box<dyn Any>` and `downcast_ref` are replaced by a closed tagged union (`Annotation`), keyed by the name of its type (`KindOf`). The downcast is kept as the kind check in `Lookup`.
- `PhantomData` becomes the ghost field `history`, and the trait bounds become `requires` clauses.
- AnnotationStore.Node.AddAnnotation: the move of `self` into the new node is not modelled. The old object stays usable in the model, while Rust forbids any further use of it.
- AnnotationStore.Node.GetAnnotation: it requires `Valid()`, which Rust does not state. `Valid()` holds for every node built by `From` and is kept by every operation. The `new` path that breaks it is the finding above.
- `From<T> for Box<Node<T>>` is the same construction behind a box and is not modelled separately.
- The `Type` payload keeps only the parameter types of `Function`, not the parameter names. Its `Ident` case holds one string: the `Simple` / `Qualified` split of `ast::Ident` is flattened. The store treats the payload as opaque.
- The grammar and parser (`parser.rs`), the plain AST definitions (`ast.rs`), the demo `mark_macro.rs` and the test harnesses are not part of this model. The demo programs appear only as the scenarios in `TypelistExamples.DemoCalls` and `AnnotationStore.NodeGates`.
