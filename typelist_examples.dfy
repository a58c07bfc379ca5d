/**
  The expansions the `typelist` crate pins down exactly, for the markers
  `Foo, Bar`, and the accepted and rejected calls of its demo program.

  The exact expansions are first proved for any two distinct markers `a, b`
  (the facts do not depend on how the markers are spelled) and then
  instantiated with `Foo, Bar`.
*/
module TypelistExamples {
  import opened Wrappers
  import opened Typelist

  const FooBar: seq<Name> := ["Foo", "Bar"]

  function Inc(k: Name, l: seq<Name>): Decl
  {
    Impl(IncludesTrait, Only(Named(k)), List(l))
  }

  function Exc(k: Name, l: seq<Name>): Decl
  {
    Impl(ExcludesTrait, Only(Named(k)), List(l))
  }

  /** The facts for two markers `a, b` at depth 1, in the order the macro emits them. */
  function Depth1Facts(a: Name, b: Name): seq<Decl>
  {
    [Inc(a, [a]), Exc(a, [b])] + [Exc(b, [a]), Inc(b, [b])]
  }

  /** The facts for two markers `a, b` that depth 2 adds, in the order the macro emits them. */
  function Depth2OnlyFacts(a: Name, b: Name): seq<Decl>
  {
    [Inc(a, [a, a]), Inc(a, [a, b]), Inc(a, [b, a]), Exc(a, [b, b])] +
    [Exc(b, [a, a]), Inc(b, [a, b]), Inc(b, [b, a]), Inc(b, [b, b])]
  }

  /** The facts for two markers `a, b` up to depth 2. */
  function Depth2Facts(a: Name, b: Name): seq<Decl>
  {
    Depth1Facts(a, b) + Depth2OnlyFacts(a, b)
  }

  /** The facts for two markers `a, b` that depth 3 adds, in the order the macro emits them. */
  function Depth3OnlyFacts(a: Name, b: Name): seq<Decl>
  {
    ([Inc(a, [a, a, a]), Inc(a, [a, a, b]), Inc(a, [a, b, a]), Inc(a, [a, b, b])] +
     [Inc(a, [b, a, a]), Inc(a, [b, a, b]), Inc(a, [b, b, a]), Exc(a, [b, b, b])]) +
    ([Exc(b, [a, a, a]), Inc(b, [a, a, b]), Inc(b, [a, b, a]), Inc(b, [a, b, b])] +
     [Inc(b, [b, a, a]), Inc(b, [b, a, b]), Inc(b, [b, b, a]), Inc(b, [b, b, b])])
  }

  /** The twelve facts the crate expects for `Foo, Bar` at depth 2. */
  const FooBarDepth2: seq<Decl> := Depth2Facts("Foo", "Bar")

  /** The sixteen facts the crate expects depth 3 to add for `Foo, Bar`. */
  const FooBarDepth3Only: seq<Decl> := Depth3OnlyFacts("Foo", "Bar")

  lemma NamesDiffer()
    ensures "Foo" != "Bar"
  {
    assert "Foo"[0] != "Bar"[0];
  }

  // ---------------------------------------------------------------------------
  // Two distinct markers
  // ---------------------------------------------------------------------------

  lemma ExtendPair(a: Name, b: Name, tails: seq<seq<Name>>)
    ensures Extend([a, b], tails) == Prepend(a, tails) + Prepend(b, tails)
  {
    assert [a, b][1..] == [b];
    assert Extend([b], tails) == Prepend(b, tails) + Extend([], tails);
  }

  lemma PrependAll(h: Name, tails: seq<seq<Name>>, expected: seq<seq<Name>>)
    requires |expected| == |tails|
    requires forall i :: 0 <= i < |tails| ==> expected[i] == [h] + tails[i]
    ensures Prepend(h, tails) == expected
  {
  }

  lemma PairTuples1(a: Name, b: Name)
    ensures Tuples([a, b], 1) == [[a]] + [[b]]
  {
    var t0: seq<seq<Name>> := [[]];
    assert Tuples([a, b], 1) == Extend([a, b], t0);
    ExtendPair(a, b, t0);
    PrependAll(a, t0, [[a]]);
    PrependAll(b, t0, [[b]]);
  }

  lemma PairTuples2(a: Name, b: Name)
    ensures Tuples([a, b], 2) == [[a, a], [a, b]] + [[b, a], [b, b]]
  {
    var t1 := [[a]] + [[b]];
    PairTuples1(a, b);
    assert Tuples([a, b], 2) == Extend([a, b], t1);
    ExtendPair(a, b, t1);
    PrependAll(a, t1, [[a, a], [a, b]]);
    PrependAll(b, t1, [[b, a], [b, b]]);
  }

  /** One marker put in front of each depth-2 tuple of `a, b`. */
  lemma PrependPairs(h: Name, a: Name, b: Name)
    ensures Prepend(h, [[a, a], [a, b]] + [[b, a], [b, b]]) == [[h, a, a], [h, a, b], [h, b, a], [h, b, b]]
  {
    var t2 := [[a, a], [a, b]] + [[b, a], [b, b]];
    assert t2 == [[a, a], [a, b], [b, a], [b, b]];
    PrependAll(h, t2, [[h, a, a], [h, a, b], [h, b, a], [h, b, b]]);
  }

  lemma PairTuples3(a: Name, b: Name)
    ensures Tuples([a, b], 3) ==
      [[a, a, a], [a, a, b], [a, b, a], [a, b, b]] + [[b, a, a], [b, a, b], [b, b, a], [b, b, b]]
  {
    var t2 := [[a, a], [a, b]] + [[b, a], [b, b]];
    PairTuples2(a, b);
    assert Tuples([a, b], 3) == Extend([a, b], t2);
    ExtendPair(a, b, t2);
    PrependPairs(a, a, b);
    PrependPairs(b, a, b);
  }

  lemma MarkerBlocksPair(a: Name, b: Name, tuples: seq<seq<Name>>)
    ensures MarkerBlocks([a, b], tuples) == FactsFor(a, tuples) + FactsFor(b, tuples)
  {
    assert [a, b][1..] == [b];
    assert MarkerBlocks([b], tuples) == FactsFor(b, tuples) + MarkerBlocks([], tuples);
  }

  lemma FactsForAll(k: Name, tuples: seq<seq<Name>>, expected: seq<Decl>)
    requires |expected| == |tuples|
    requires forall i :: 0 <= i < |tuples| ==> expected[i] == Fact(k, tuples[i])
    ensures FactsFor(k, tuples) == expected
  {
  }

  lemma FactsForConcat(k: Name, t1: seq<seq<Name>>, t2: seq<seq<Name>>)
    ensures FactsFor(k, t1 + t2) == FactsFor(k, t1) + FactsFor(k, t2)
  {
  }

  lemma PairLength1(a: Name, b: Name)
    requires a != b
    ensures ImplsAtDepth([a, b], 1) == Depth1Facts(a, b)
  {
    var t := Tuples([a, b], 1);
    PairTuples1(a, b);
    MarkerBlocksPair(a, b, t);
    FactsForAll(a, t, [Inc(a, [a]), Exc(a, [b])]);
    FactsForAll(b, t, [Exc(b, [a]), Inc(b, [b])]);
  }

  lemma PairLength2(a: Name, b: Name)
    requires a != b
    ensures ImplsAtDepth([a, b], 2) == Depth2OnlyFacts(a, b)
  {
    var t := Tuples([a, b], 2);
    PairTuples2(a, b);
    MarkerBlocksPair(a, b, t);
    FactsForAll(a, t, [Inc(a, [a, a]), Inc(a, [a, b]), Inc(a, [b, a]), Exc(a, [b, b])]);
    FactsForAll(b, t, [Exc(b, [a, a]), Inc(b, [a, b]), Inc(b, [b, a]), Inc(b, [b, b])]);
  }

  /** The facts of one marker `k` over the depth-3 tuples of `a, b`, half by half. */
  lemma PairFacts3(k: Name, a: Name, b: Name, first: seq<Decl>, second: seq<Decl>)
    requires |first| == 4 && |second| == 4
    requires first == [Fact(k, [a, a, a]), Fact(k, [a, a, b]), Fact(k, [a, b, a]), Fact(k, [a, b, b])]
    requires second == [Fact(k, [b, a, a]), Fact(k, [b, a, b]), Fact(k, [b, b, a]), Fact(k, [b, b, b])]
    ensures FactsFor(k, Tuples([a, b], 3)) == first + second
  {
    var h1 := [[a, a, a], [a, a, b], [a, b, a], [a, b, b]];
    var h2 := [[b, a, a], [b, a, b], [b, b, a], [b, b, b]];
    PairTuples3(a, b);
    FactsForConcat(k, h1, h2);
    FactsForAll(k, h1, first);
    FactsForAll(k, h2, second);
  }

  lemma PairLength3(a: Name, b: Name)
    requires a != b
    ensures ImplsAtDepth([a, b], 3) == Depth3OnlyFacts(a, b)
  {
    MarkerBlocksPair(a, b, Tuples([a, b], 3));
    PairFacts3(a, a, b,
      [Inc(a, [a, a, a]), Inc(a, [a, a, b]), Inc(a, [a, b, a]), Inc(a, [a, b, b])],
      [Inc(a, [b, a, a]), Inc(a, [b, a, b]), Inc(a, [b, b, a]), Exc(a, [b, b, b])]);
    PairFacts3(b, a, b,
      [Exc(b, [a, a, a]), Inc(b, [a, a, b]), Inc(b, [a, b, a]), Inc(b, [a, b, b])],
      [Inc(b, [b, a, a]), Inc(b, [b, a, b]), Inc(b, [b, b, a]), Inc(b, [b, b, b])]);
  }

  lemma PairDepth2(a: Name, b: Name)
    requires a != b
    ensures GenerateImpls(2, [a, b]) == Depth2Facts(a, b)
  {
    assert GenerateImpls(1, [a, b]) == [] + ImplsAtDepth([a, b], 1);
    PairLength1(a, b);
    assert [] + Depth1Facts(a, b) == Depth1Facts(a, b);
    PairLength2(a, b);
  }

  // ---------------------------------------------------------------------------
  // Foo, Bar
  // ---------------------------------------------------------------------------

  /** The products of `Foo, Bar` of lengths 1, 2 and 3, the rightmost position varying fastest. */
  lemma FooBarTuples()
    ensures Tuples(FooBar, 1) == [["Foo"]] + [["Bar"]]
    ensures Tuples(FooBar, 2) == [["Foo", "Foo"], ["Foo", "Bar"]] + [["Bar", "Foo"], ["Bar", "Bar"]]
    ensures Tuples(FooBar, 3) ==
      [["Foo", "Foo", "Foo"], ["Foo", "Foo", "Bar"], ["Foo", "Bar", "Foo"], ["Foo", "Bar", "Bar"]] +
      [["Bar", "Foo", "Foo"], ["Bar", "Foo", "Bar"], ["Bar", "Bar", "Foo"], ["Bar", "Bar", "Bar"]]
  {
    PairTuples1("Foo", "Bar");
    PairTuples2("Foo", "Bar");
    PairTuples3("Foo", "Bar");
  }

  /** `generate_structs` for `Foo, Bar`. */
  lemma StructsFooBar()
    ensures GenerateStructs(FooBar) == [Struct("Foo"), Struct("Bar")]
  {
  }

  /** `generate_impls(2, [Foo, Bar])` is exactly the twelve expected facts. */
  lemma ImplsFooBarDepth2()
    ensures GenerateImpls(2, FooBar) == FooBarDepth2
  {
    NamesDiffer();
    PairDepth2("Foo", "Bar");
  }

  /** `generate_impls(3, [Foo, Bar])` extends the depth-2 facts with the sixteen of depth 3. */
  lemma ImplsFooBarDepth3()
    ensures GenerateImpls(3, FooBar) == FooBarDepth2 + FooBarDepth3Only
  {
    NamesDiffer();
    PairDepth2("Foo", "Bar");
    PairLength3("Foo", "Bar");
  }

  /** The full expansion of `typelist_with_structs!(2, Foo, Bar)`. */
  lemma FullOutputFooBar()
    ensures GenerateOutput(Input(2, FooBar), Options(true))
         == Definitions + BaseFacts + [Struct("Foo"), Struct("Bar")] + FooBarDepth2
    ensures TypelistWithStructs(IntLiteral(2), FooBar) == Success(GenerateOutput(Input(2, FooBar), Options(true)))
  {
    ImplsFooBarDepth2();
    StructsFooBar();
  }

  /** The formula `N * (N^1 + ... + N^D)` on the two pinned-down expansions. */
  lemma FooBarCounts()
    ensures |GenerateImpls(2, FooBar)| == 12
    ensures |GenerateImpls(3, FooBar)| == 28
  {
    ImplCount(2, FooBar);
    ImplCount(3, FooBar);
  }

  // ---------------------------------------------------------------------------
  // The demo program
  // ---------------------------------------------------------------------------

  /** `h: bound<k>` in the demo program, which expands `typelist!(3, Foo, Bar)`. */
  ghost predicate Demo(bound: Trait, h: seq<Name>, k: Marker)
  {
    Implements(GenerateOutput(Input(3, FooBar), Options(false)), bound, h, k)
  }

  /** In the demo, a call gated on `Includes<k>` compiles for `h` exactly when the direct relation includes `k` in `h`. */
  lemma DemoAgrees(h: seq<Name>, k: Marker)
    ensures Demo(IncludesTrait, h, k) <==> Includes(3, FooBar, h, k)
  {
    IncludesAgreesWithOutput(Input(3, FooBar), Options(false), h, k);
  }

  /**
    The demo's calls, with `Foo, Bar` at depth 3: `only_on_nil` on any node;
    `only_on_food_and_bard` only with both markers; `only_on_food` only with
    `Foo` in a history of at most three entries. `node.bar().foo()` has the
    history `[Foo, Bar]`.
  */
  lemma DemoCalls()
    ensures Includes(3, FooBar, [], Nil) && Includes(3, FooBar, ["Foo"], Nil)
    ensures Includes(3, FooBar, ["Foo", "Foo"], Nil) && Includes(3, FooBar, ["Bar", "Foo"], Nil)
    ensures Includes(3, FooBar, ["Foo", "Bar"], Named("Foo")) && Includes(3, FooBar, ["Foo", "Bar"], Named("Bar"))
    ensures !Includes(3, FooBar, ["Bar"], Named("Foo"))
    ensures !Includes(3, FooBar, ["Foo"], Named("Bar"))
    ensures Includes(3, FooBar, ["Foo"], Named("Foo")) && Includes(3, FooBar, ["Bar", "Foo"], Named("Foo"))
    ensures Includes(3, FooBar, ["Bar", "Foo", "Bar"], Named("Foo")) && Includes(3, FooBar, ["Foo", "Foo"], Named("Foo"))
    ensures !Includes(3, FooBar, ["Bar", "Bar", "Foo", "Bar"], Named("Foo"))
    ensures !Includes(3, FooBar, ["Bar", "Bar"], Named("Foo"))
    ensures !Includes(3, FooBar, [], Named("Foo"))
  {
    NamesDiffer();
  }

  /** A depth that is not an integer literal, or does not fit in an `i32`, stops the expansion. */
  lemma DepthMustBeI32Literal(names: seq<Name>)
    ensures TypelistMacro(OtherExpr, names) == Failure(ExpectedLiteralInteger)
    ensures TypelistMacro(IntLiteral(I32Max + 1), names) == Failure(InvalidIntegerLiteral)
    ensures TypelistMacro(IntLiteral(3), names).Success?
  {
  }
}
