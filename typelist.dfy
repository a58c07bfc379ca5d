/**
  The `typelist` procedural macro: from a depth D and an ordered list of
  marker names it emits the facts `impl Includes<K> for L {}` and
  `impl Excludes<K> for L {}` for every type-level list L of length 1..D over
  the names and every marker K, plus a fixed prelude of definitions and base
  facts about the empty list `Nil`.

  Token streams are modelled as sequences of abstract declarations; a
  type-level list `Cons<A, Cons<B, Nil>>` is the sequence `["A", "B"]`
  (outermost `Cons` first, so a typestate transition prepends).
*/
module Typelist {
  import opened Wrappers

  type Name = string

  /** The type argument of `Includes<_>` / `Excludes<_>`: the empty list or a marker struct. */
  datatype Marker = Nil | Named(name: Name)

  datatype Trait = IncludesTrait | ExcludesTrait

  /** The marker an impl is for: one marker, or every type (`impl<T> Excludes<T>`). */
  datatype MarkerPattern = Only(marker: Marker) | AnyMarker

  /** The type an impl is for: one concrete list, or every non-empty list (`impl<H, T> .. for Cons<H, T>`). */
  datatype ListPattern = List(items: seq<Name>) | AnyCons

  datatype Decl =
    | TraitDecl(bound: Trait)        // pub trait Includes<T> {} / pub trait Excludes<T> {}
    | NilStruct                      // pub struct Nil;
    | ConsStruct                     // pub struct Cons<H, T>(PhantomData<(H, T)>);
    | Struct(name: Name)             // pub struct Foo;
    | Impl(bound: Trait, marker: MarkerPattern, target: ListPattern)

  /** The largest value of Rust's `i32`. */
  const I32Max: int := 0x7fff_ffff

  /** The macro's first argument: an integer literal (never negative in Rust's syntax) or any other expression. */
  datatype DepthExpr = IntLiteral(value: nat) | OtherExpr

  /** The two panics of the conversion of the macro input. */
  datatype ConvertError = InvalidIntegerLiteral | ExpectedLiteralInteger

  datatype Input = Input(depth: int, names: seq<Name>)

  datatype Options = Options(generateStructs: bool)

  /** Converts the parsed macro input; the depth must be a literal that fits in an `i32`. */
  function Convert(depth: DepthExpr, names: seq<Name>): (r: Result<Input, ConvertError>)
    ensures r.Success? <==> depth.IntLiteral? && depth.value <= I32Max
    ensures r.Success? ==> r.value.names == names && 0 <= r.value.depth == depth.value <= I32Max
    ensures depth.OtherExpr? ==> r == Failure(ExpectedLiteralInteger)
    ensures depth.IntLiteral? && I32Max < depth.value ==> r == Failure(InvalidIntegerLiteral)
  {
    match depth
    case IntLiteral(v) => if v <= I32Max then Success(Input(v, names)) else Failure(InvalidIntegerLiteral)
    case OtherExpr => Failure(ExpectedLiteralInteger)
  }

  // ---------------------------------------------------------------------------
  // Generation
  // ---------------------------------------------------------------------------

  /** Every tuple of `tails`, with `h` in front, in the order of `tails`. */
  function Prepend(h: Name, tails: seq<seq<Name>>): (r: seq<seq<Name>>)
    ensures |r| == |tails|
    ensures forall i :: 0 <= i < |r| ==> r[i] == [h] + tails[i]
  {
    seq(|tails|, i requires 0 <= i < |tails| => [h] + tails[i])
  }

  /** The cartesian product of `heads` with `tails`, the head varying slowest. */
  function Extend(heads: seq<Name>, tails: seq<seq<Name>>): seq<seq<Name>>
  {
    if heads == [] then [] else Prepend(heads[0], tails) + Extend(heads[1..], tails)
  }

  /** The cartesian product of `d` copies of `names`, the rightmost position varying fastest. */
  function Tuples(names: seq<Name>, d: nat): seq<seq<Name>>
  {
    if d == 0 then [[]] else Extend(names, Tuples(names, d - 1))
  }

  /** `Includes` when the marker occurs in the tuple, `Excludes` otherwise. */
  function Verdict(k: Name, tuple: seq<Name>): Trait
  {
    if k in tuple then IncludesTrait else ExcludesTrait
  }

  /** The one fact the generator emits for marker `k` and list `tuple`. */
  function Fact(k: Name, tuple: seq<Name>): Decl
  {
    Impl(Verdict(k, tuple), Only(Named(k)), List(tuple))
  }

  /** The facts for one marker over every tuple, in tuple order. */
  function FactsFor(k: Name, tuples: seq<seq<Name>>): (r: seq<Decl>)
    ensures |r| == |tuples|
    ensures forall i :: 0 <= i < |r| ==> r[i] == Fact(k, tuples[i])
  {
    seq(|tuples|, i requires 0 <= i < |tuples| => Fact(k, tuples[i]))
  }

  /** One block of facts per marker, in marker order. */
  function MarkerBlocks(markers: seq<Name>, tuples: seq<seq<Name>>): seq<Decl>
  {
    if markers == [] then [] else FactsFor(markers[0], tuples) + MarkerBlocks(markers[1..], tuples)
  }

  /** The facts for lists of exactly length `d`. */
  function ImplsAtDepth(names: seq<Name>, d: nat): seq<Decl>
  {
    MarkerBlocks(names, Tuples(names, d))
  }

  /** `generate_impls`: the facts for every depth `1..=depth`, depth ascending. */
  function GenerateImpls(depth: int, names: seq<Name>): seq<Decl>
    decreases depth
  {
    if depth <= 0 then [] else GenerateImpls(depth - 1, names) + ImplsAtDepth(names, depth)
  }

  /** `generate_structs`: one unit struct per name, in input order. */
  function GenerateStructs(names: seq<Name>): (r: seq<Decl>)
    ensures |r| == |names|
    ensures forall i :: 0 <= i < |r| ==> r[i] == Struct(names[i])
  {
    seq(|names|, i requires 0 <= i < |names| => Struct(names[i]))
  }

  /** The traits and list types every expansion defines. */
  const Definitions: seq<Decl> := [TraitDecl(IncludesTrait), TraitDecl(ExcludesTrait), NilStruct, ConsStruct]

  /** `Nil` includes `Nil`, every `Cons` includes `Nil`, and `Nil` excludes everything. */
  const BaseFacts: seq<Decl> :=
    [Impl(IncludesTrait, Only(Nil), List([])),
     Impl(IncludesTrait, Only(Nil), AnyCons),
     Impl(ExcludesTrait, AnyMarker, List([]))]

  /** `generate_output`: the prelude, the structs when asked for, then the generated facts. */
  function GenerateOutput(input: Input, options: Options): seq<Decl>
  {
    Definitions + BaseFacts
    + (if options.generateStructs then GenerateStructs(input.names) else [])
    + GenerateImpls(input.depth, input.names)
  }

  /** The `typelist!` macro: no structs. */
  function TypelistMacro(depth: DepthExpr, names: seq<Name>): (r: Result<seq<Decl>, ConvertError>)
    ensures r.Success? <==> Convert(depth, names).Success?
    ensures r.Success? ==> forall d :: d in r.value ==> !d.Struct?
  {
    match Convert(depth, names)
    case Success(input) =>
      var out := GenerateOutput(input, Options(false));
      assert forall d :: d in out ==> !d.Struct? by {
        forall d | d in GenerateImpls(input.depth, input.names) ensures !d.Struct? {
          GeneratedMember(input.depth, input.names, d);
        }
      }
      Success(out)
    case Failure(e) => Failure(e)
  }

  /** The `typelist_with_structs!` macro: one struct per name between the base facts and the impls. */
  function TypelistWithStructs(depth: DepthExpr, names: seq<Name>): (r: Result<seq<Decl>, ConvertError>)
    ensures r.Success? <==> Convert(depth, names).Success?
    ensures r.Success? ==> |Definitions + BaseFacts| + |names| <= |r.value|
    ensures r.Success? ==> forall i :: 0 <= i < |names| ==> r.value[|Definitions + BaseFacts| + i] == Struct(names[i])
    ensures r.Success? ==> forall d :: d in r.value && d.Struct? ==> d.name in names
  {
    match Convert(depth, names)
    case Success(input) =>
      var out := GenerateOutput(input, Options(true));
      assert forall d :: d in out && d.Struct? ==> d.name in names by {
        forall d | d in GenerateImpls(input.depth, input.names) ensures !d.Struct? {
          GeneratedMember(input.depth, input.names, d);
        }
      }
      Success(out)
    case Failure(e) => Failure(e)
  }

  // ---------------------------------------------------------------------------
  // What the facts mean: trait resolution and the relation they define
  // ---------------------------------------------------------------------------

  predicate MarkerMatches(p: MarkerPattern, k: Marker)
  {
    p.AnyMarker? || p.marker == k
  }

  predicate TargetMatches(p: ListPattern, h: seq<Name>)
  {
    if p.AnyCons? then |h| > 0 else p.items == h
  }

  /** Declaration `d` is an impl of `bound<k>` for the list `h`. */
  predicate Provides(d: Decl, bound: Trait, h: seq<Name>, k: Marker)
  {
    d.Impl? && d.bound == bound && MarkerMatches(d.marker, k) && TargetMatches(d.target, h)
  }

  /** `h: bound<k>` holds: some declaration provides it. */
  ghost predicate Implements(decls: seq<Decl>, bound: Trait, h: seq<Name>, k: Marker)
  {
    exists d :: d in decls && Provides(d, bound, h, k)
  }

  /** Every element of `t` is one of `names`. */
  predicate Over(names: seq<Name>, t: seq<Name>)
  {
    forall x :: x in t ==> x in names
  }

  /** The histories the generator enumerates: length `1..=depth`, drawn from `names`. */
  predicate Tracked(depth: int, names: seq<Name>, h: seq<Name>)
  {
    1 <= |h| <= depth && Over(names, h)
  }

  /** The `Includes` relation, stated directly: `Nil` is in every history; a name is in the tracked histories that contain it. */
  predicate Includes(depth: int, names: seq<Name>, h: seq<Name>, k: Marker)
  {
    match k
    case Nil => true
    case Named(n) => n in names && Tracked(depth, names, h) && n in h
  }

  /** The `Excludes` relation, stated directly: the empty history excludes everything; a tracked history excludes the names it lacks. */
  predicate Excludes(depth: int, names: seq<Name>, h: seq<Name>, k: Marker)
  {
    h == [] || (k.Named? && k.name in names && Tracked(depth, names, h) && k.name !in h)
  }

  /** No two elements of `s` are equal. */
  predicate Distinct<T(==)>(s: seq<T>)
  {
    forall i, j :: 0 <= i < j < |s| ==> s[i] != s[j]
  }

  /** The fact `d` is about marker `k` and list `h`, whatever its verdict. */
  predicate About(d: Decl, h: seq<Name>, k: Name)
  {
    d.Impl? && d.marker == Only(Named(k)) && d.target == List(h)
  }

  /** `d` is one of the facts the generator emits for `depth` and `names`. */
  predicate GeneratedFact(depth: int, names: seq<Name>, d: Decl)
  {
    && d.Impl? && d.marker.Only? && d.marker.marker.Named? && d.target.List?
    && d.marker.marker.name in names
    && Tracked(depth, names, d.target.items)
    && d == Fact(d.marker.marker.name, d.target.items)
  }

  function Pow(n: nat, d: nat): nat
  {
    if d == 0 then 1 else n * Pow(n, d - 1)
  }

  /** `n^1 + ... + n^depth`. */
  function SumPow(n: nat, depth: int): nat
    decreases depth
  {
    if depth <= 0 then 0 else SumPow(n, depth - 1) + Pow(n, depth)
  }

  /** The index of the first occurrence of `x` in `names`. */
  function Position(names: seq<Name>, x: Name): (p: nat)
    requires x in names
    ensures p < |names| && names[p] == x
    ensures forall q :: 0 <= q < p ==> names[q] != x
  {
    if names[0] == x then 0 else 1 + Position(names[1..], x)
  }

  /** A tuple read as a number in base `|names|`, most significant position first. */
  function Rank(names: seq<Name>, t: seq<Name>): nat
    requires Over(names, t)
  {
    if t == [] then 0
    else
      var rest := t[1..];
      assert forall x :: x in rest ==> x in t;
      var digit: nat := Position(names, t[0]);
      var weight: nat := Pow(|names|, |rest|);
      digit * weight + Rank(names, rest)
  }

  // ---------------------------------------------------------------------------
  // Membership: which facts are generated
  // ---------------------------------------------------------------------------

  lemma {:induction false} ExtendMember(heads: seq<Name>, tails: seq<seq<Name>>, t: seq<Name>)
    ensures t in Extend(heads, tails) <==> |t| > 0 && t[0] in heads && t[1..] in tails
  {
    if heads != [] {
      ExtendMember(heads[1..], tails, t);
      var p := Prepend(heads[0], tails);
      if |t| > 0 && t[0] == heads[0] && t[1..] in tails {
        var i :| 0 <= i < |tails| && tails[i] == t[1..];
        assert p[i] == [t[0]] + t[1..] == t;
      }
      if t in p {
        var i :| 0 <= i < |p| && p[i] == t;
        assert t[1..] == tails[i];
      }
      assert heads == [heads[0]] + heads[1..];
    }
  }

  /** The tuples of length `d` are exactly the sequences of length `d` over `names`. */
  lemma {:induction false} TuplesMember(names: seq<Name>, d: nat, t: seq<Name>)
    ensures t in Tuples(names, d) <==> |t| == d && Over(names, t)
  {
    if d > 0 {
      ExtendMember(names, Tuples(names, d - 1), t);
      if |t| > 0 {
        TuplesMember(names, d - 1, t[1..]);
        assert t == [t[0]] + t[1..];
        assert Over(names, t) <==> t[0] in names && Over(names, t[1..]);
      }
    }
  }

  lemma {:induction false} FactsForMember(k: Name, tuples: seq<seq<Name>>, d: Decl)
    ensures d in FactsFor(k, tuples) <==> d.Impl? && d.target.List? && d.target.items in tuples && d == Fact(k, d.target.items)
  {
    var r := FactsFor(k, tuples);
    if d.Impl? && d.target.List? && d.target.items in tuples && d == Fact(k, d.target.items) {
      var i :| 0 <= i < |tuples| && tuples[i] == d.target.items;
      assert r[i] == d;
    }
  }

  lemma {:induction false} MarkerBlocksMember(markers: seq<Name>, tuples: seq<seq<Name>>, d: Decl)
    ensures d in MarkerBlocks(markers, tuples) <==>
      && d.Impl? && d.marker.Only? && d.marker.marker.Named? && d.target.List?
      && d.marker.marker.name in markers && d.target.items in tuples
      && d == Fact(d.marker.marker.name, d.target.items)
  {
    if markers != [] {
      FactsForMember(markers[0], tuples, d);
      MarkerBlocksMember(markers[1..], tuples, d);
      assert markers == [markers[0]] + markers[1..];
    }
  }

  /** The generated facts are exactly one fact per marker in `names` and per tracked list. */
  lemma {:induction false} GeneratedMember(depth: int, names: seq<Name>, d: Decl)
    ensures d in GenerateImpls(depth, names) <==> GeneratedFact(depth, names, d)
    decreases depth
  {
    if depth > 0 {
      GeneratedMember(depth - 1, names, d);
      MarkerBlocksMember(names, Tuples(names, depth), d);
      if d.Impl? && d.target.List? {
        TuplesMember(names, depth, d.target.items);
      }
    }
  }

  /** `h: bound<k>` holds among the generated facts exactly for a tracked `h`, a marker in `names`, and the verdict of the rule. */
  lemma GeneratedImplements(depth: int, names: seq<Name>, bound: Trait, h: seq<Name>, k: Marker)
    ensures Implements(GenerateImpls(depth, names), bound, h, k) <==>
      k.Named? && k.name in names && Tracked(depth, names, h) && bound == Verdict(k.name, h)
  {
    var impls := GenerateImpls(depth, names);
    if Implements(impls, bound, h, k) {
      var d :| d in impls && Provides(d, bound, h, k);
      GeneratedMember(depth, names, d);
    }
    if k.Named? && k.name in names && Tracked(depth, names, h) && bound == Verdict(k.name, h) {
      GeneratedMember(depth, names, Fact(k.name, h));
      assert Provides(Fact(k.name, h), bound, h, k);
    }
  }

  // ---------------------------------------------------------------------------
  // The relation the whole output defines
  // ---------------------------------------------------------------------------

  lemma ImplementsConcat(a: seq<Decl>, b: seq<Decl>, bound: Trait, h: seq<Name>, k: Marker)
    ensures Implements(a + b, bound, h, k) <==> Implements(a, bound, h, k) || Implements(b, bound, h, k)
  {
    if Implements(a + b, bound, h, k) {
      var d :| d in a + b && Provides(d, bound, h, k);
    }
    if Implements(a, bound, h, k) {
      var d :| d in a && Provides(d, bound, h, k);
      assert d in a + b;
    }
    if Implements(b, bound, h, k) {
      var d :| d in b && Provides(d, bound, h, k);
      assert d in a + b;
    }
  }

  /** The output's facts split into the base facts and the generated ones; the rest provide nothing. */
  lemma OutputImplements(input: Input, options: Options, bound: Trait, h: seq<Name>, k: Marker)
    ensures Implements(GenerateOutput(input, options), bound, h, k) <==>
      Implements(BaseFacts, bound, h, k) || Implements(GenerateImpls(input.depth, input.names), bound, h, k)
  {
    var structs := if options.generateStructs then GenerateStructs(input.names) else [];
    var impls := GenerateImpls(input.depth, input.names);
    ImplementsConcat(Definitions + BaseFacts + structs, impls, bound, h, k);
    ImplementsConcat(Definitions + BaseFacts, structs, bound, h, k);
    ImplementsConcat(Definitions, BaseFacts, bound, h, k);
    assert !Implements(Definitions, bound, h, k);
    assert !Implements(structs, bound, h, k);
  }

  /** `h: Includes<k>` follows from the macro's output exactly when the direct relation says so. */
  lemma IncludesAgreesWithOutput(input: Input, options: Options, h: seq<Name>, k: Marker)
    ensures Implements(GenerateOutput(input, options), IncludesTrait, h, k) <==> Includes(input.depth, input.names, h, k)
  {
    OutputImplements(input, options, IncludesTrait, h, k);
    GeneratedImplements(input.depth, input.names, IncludesTrait, h, k);
    if k == Nil {
      if h == [] {
        assert Provides(BaseFacts[0], IncludesTrait, h, k);
      } else {
        assert Provides(BaseFacts[1], IncludesTrait, h, k);
      }
    }
  }

  /** `h: Excludes<k>` follows from the macro's output exactly when the direct relation says so. */
  lemma ExcludesAgreesWithOutput(input: Input, options: Options, h: seq<Name>, k: Marker)
    ensures Implements(GenerateOutput(input, options), ExcludesTrait, h, k) <==> Excludes(input.depth, input.names, h, k)
  {
    OutputImplements(input, options, ExcludesTrait, h, k);
    GeneratedImplements(input.depth, input.names, ExcludesTrait, h, k);
    if h == [] {
      assert Provides(BaseFacts[2], ExcludesTrait, h, k);
    }
  }

  /** A named marker never gets both verdicts for one history, whatever the names. */
  lemma NamedVerdictsExclusive(input: Input, options: Options, h: seq<Name>, k: Name)
    ensures !(Implements(GenerateOutput(input, options), IncludesTrait, h, Named(k))
              && Implements(GenerateOutput(input, options), ExcludesTrait, h, Named(k)))
  {
    IncludesAgreesWithOutput(input, options, h, Named(k));
    ExcludesAgreesWithOutput(input, options, h, Named(k));
  }

  /** The base facts give `Nil` both verdicts on the empty history, and `Includes<Nil>` on every history. */
  lemma NilVerdicts(input: Input, options: Options, h: seq<Name>)
    ensures Implements(GenerateOutput(input, options), IncludesTrait, h, Nil)
    ensures Implements(GenerateOutput(input, options), ExcludesTrait, h, Nil) <==> h == []
  {
    IncludesAgreesWithOutput(input, options, h, Nil);
    ExcludesAgreesWithOutput(input, options, h, Nil);
  }

  /** A history longer than the depth, or the empty one, gets no `Includes` fact for a named marker; the long one no `Excludes` either. */
  lemma UntrackedHistories(input: Input, options: Options, h: seq<Name>, k: Name)
    requires h == [] || input.depth < |h|
    ensures !Implements(GenerateOutput(input, options), IncludesTrait, h, Named(k))
    ensures Implements(GenerateOutput(input, options), ExcludesTrait, h, Named(k)) <==> h == []
  {
    IncludesAgreesWithOutput(input, options, h, Named(k));
    ExcludesAgreesWithOutput(input, options, h, Named(k));
  }

  /** A depth of zero or less generates no impls at all. */
  lemma NoImplsWithoutDepth(depth: int, names: seq<Name>, d: Decl)
    requires depth <= 0
    ensures d !in GenerateImpls(depth, names)
  {
    GeneratedMember(depth, names, d);
  }

  /** Every generated list has length `1..=depth` and is drawn from the names; its verdict follows the rule. */
  lemma GeneratedShape(depth: int, names: seq<Name>, i: nat)
    requires i < |GenerateImpls(depth, names)|
    ensures var d := GenerateImpls(depth, names)[i];
      d.Impl? && d.target.List? && 1 <= |d.target.items| <= depth && Over(names, d.target.items)
      && d.marker.Only? && d.marker.marker.Named? && d.marker.marker.name in names
      && (d.bound == IncludesTrait <==> d.marker.marker.name in d.target.items)
  {
    GeneratedMember(depth, names, GenerateImpls(depth, names)[i]);
  }

  // ---------------------------------------------------------------------------
  // Counting
  // ---------------------------------------------------------------------------

  lemma {:induction false} ExtendCount(heads: seq<Name>, tails: seq<seq<Name>>)
    ensures |Extend(heads, tails)| == |heads| * |tails|
  {
    if heads != [] {
      ExtendCount(heads[1..], tails);
      assert |heads| * |tails| == |tails| + (|heads| - 1) * |tails|;
    }
  }

  /** There are `|names|^d` tuples of length `d`. */
  lemma {:induction false} TuplesCount(names: seq<Name>, d: nat)
    ensures |Tuples(names, d)| == Pow(|names|, d)
  {
    if d > 0 {
      TuplesCount(names, d - 1);
      ExtendCount(names, Tuples(names, d - 1));
    }
  }

  lemma {:induction false} MarkerBlocksCount(markers: seq<Name>, tuples: seq<seq<Name>>)
    ensures |MarkerBlocks(markers, tuples)| == BlockOffset(|markers|, |tuples|)
  {
    if markers != [] {
      MarkerBlocksCount(markers[1..], tuples);
    }
  }

  /** The number of facts for depths `1..=depth`, summed block by block. */
  function ImplTotal(n: nat, depth: int): nat
    decreases depth
  {
    if depth <= 0 then 0 else ImplTotal(n, depth - 1) + BlockOffset(n, Pow(n, depth))
  }

  lemma {:induction false} ImplCountSteps(depth: int, names: seq<Name>)
    ensures |GenerateImpls(depth, names)| == ImplTotal(|names|, depth)
    decreases depth
  {
    if depth > 0 {
      var prev := GenerateImpls(depth - 1, names);
      var tuples := Tuples(names, depth);
      var block := MarkerBlocks(names, tuples);
      assert |GenerateImpls(depth, names)| == |prev| + |block|;
      ImplCountSteps(depth - 1, names);
      TuplesCount(names, depth);
      MarkerBlocksCount(names, tuples);
    }
  }

  lemma {:induction false} ImplTotalValue(n: nat, depth: int)
    ensures ImplTotal(n, depth) == n * SumPow(n, depth)
    decreases depth
  {
    if depth > 0 {
      var s, p := SumPow(n, depth - 1), Pow(n, depth);
      ImplTotalValue(n, depth - 1);
      BlockOffsetValue(n, p);
      Distribute(n, s, p);
    }
  }

  /** `generate_impls` emits `N * (N^1 + ... + N^depth)` facts for `N` names. */
  lemma ImplCount(depth: int, names: seq<Name>)
    ensures |GenerateImpls(depth, names)| == |names| * SumPow(|names|, depth)
  {
    ImplCountSteps(depth, names);
    ImplTotalValue(|names|, depth);
  }

  lemma Distribute(a: int, b: int, c: int)
    ensures a * (b + c) == a * b + a * c
  {
  }

  // ---------------------------------------------------------------------------
  // Order
  // ---------------------------------------------------------------------------

  lemma MulMono(a: nat, b: nat, c: nat)
    requires a <= b
    ensures a * c <= b * c
  {
  }

  /** Block `h` of size `p` holds the indices `h * p .. h * p + p`. */
  lemma BlockBound(h: nat, r: nat, p: nat, n: nat)
    requires h < n && r < p
    ensures h * p + r < n * p
  {
    assert h * p + r < (h + 1) * p;
    MulMono(h + 1, n, p);
  }

  lemma Split(i: nat, p: nat, n: nat) returns (h: nat, r: nat)
    requires 0 < p && i < n * p
    ensures h < n && r < p && i == h * p + r
  {
    h, r := i / p, i % p;
    if h >= n {
      MulMono(n, h, p);
    }
  }

  lemma {:induction false} ExtendAt(heads: seq<Name>, tails: seq<seq<Name>>, h: nat, r: nat)
    requires h < |heads| && r < |tails|
    ensures h * |tails| + r < |Extend(heads, tails)|
    ensures Extend(heads, tails)[h * |tails| + r] == [heads[h]] + tails[r]
  {
    ExtendCount(heads, tails);
    var t := |tails|;
    BlockBound(h, r, t, |heads|);
    if h > 0 {
      ExtendAt(heads[1..], tails, h - 1, r);
      assert h * t + r - t == (h - 1) * t + r;
    }
  }

  lemma {:induction false} PositionOf(names: seq<Name>, j: nat)
    requires Distinct(names) && j < |names|
    ensures Position(names, names[j]) == j
  {
  }

  lemma RankCons(names: seq<Name>, x: Name, t: seq<Name>)
    requires x in names && Over(names, t)
    ensures Over(names, [x] + t)
    ensures Rank(names, [x] + t) == Position(names, x) * Pow(|names|, |t|) + Rank(names, t)
  {
    assert ([x] + t)[1..] == t;
  }

  /**
    The tuple at index `i` of the product is the base-`N` numeral of `i`:
    the rightmost position varies fastest (for Foo, Bar: FF, FB, BF, BB).
  */
  lemma {:induction false} TuplesInOrder(names: seq<Name>, d: nat, i: nat)
    requires Distinct(names) && i < |Tuples(names, d)|
    ensures |Tuples(names, d)[i]| == d && Over(names, Tuples(names, d)[i])
    ensures Rank(names, Tuples(names, d)[i]) == i
  {
    TuplesMember(names, d, Tuples(names, d)[i]);
    if d > 0 {
      var tails := Tuples(names, d - 1);
      ExtendCount(names, tails);
      TuplesCount(names, d - 1);
      var h, r := Split(i, |tails|, |names|);
      ExtendAt(names, tails, h, r);
      TuplesInOrder(names, d - 1, r);
      PositionOf(names, h);
      RankCons(names, names[h], tails[r]);
    }
  }

  /** The start of block `m` when every block holds `p` facts, counted block by block. */
  function BlockOffset(m: nat, p: nat): nat
  {
    if m == 0 then 0 else BlockOffset(m - 1, p) + p
  }

  lemma {:induction false} BlockOffsetBound(m: nat, t: nat, p: nat, n: nat)
    requires m < n && t < p
    ensures BlockOffset(m, p) + t < BlockOffset(n, p)
    decreases n
  {
    if m < n - 1 {
      BlockOffsetBound(m, t, p, n - 1);
    }
  }

  lemma {:induction false} BlockOffsetValue(m: nat, p: nat)
    ensures BlockOffset(m, p) == m * p
  {
    if m > 0 {
      BlockOffsetValue(m - 1, p);
    }
  }

  lemma {:induction false} MarkerBlocksAt(markers: seq<Name>, tuples: seq<seq<Name>>, m: nat, t: nat)
    requires m < |markers| && t < |tuples|
    ensures BlockOffset(m, |tuples|) + t < |MarkerBlocks(markers, tuples)|
    ensures MarkerBlocks(markers, tuples)[BlockOffset(m, |tuples|) + t] == Fact(markers[m], tuples[t])
  {
    var first := FactsFor(markers[0], tuples);
    var rest := MarkerBlocks(markers[1..], tuples);
    assert MarkerBlocks(markers, tuples) == first + rest;
    assert |first| == |tuples|;
    if m > 0 {
      MarkerBlocksAt(markers[1..], tuples, m - 1, t);
      ConcatAt(first, rest, BlockOffset(m, |tuples|) + t);
    } else {
      ConcatAt(first, rest, t);
    }
  }

  /**
    Where the fact for depth `d`, marker `m` and tuple `t` sits: after every
    shallower fact and after the blocks of the markers before `m`.
  */
  function ImplIndex(names: seq<Name>, d: nat, m: nat, t: nat): nat
    requires d >= 1
  {
    |GenerateImpls(d - 1, names)| + BlockOffset(m, |Tuples(names, d)|) + t
  }

  lemma ConcatAt<T>(a: seq<T>, b: seq<T>, i: nat)
    requires i < |a| + |b|
    ensures (a + b)[i] == if i < |a| then a[i] else b[i - |a|]
  {
  }

  /** The facts of the longest lists come last, marker block by marker block. */
  lemma ImplAtTop(depth: nat, names: seq<Name>, m: nat, t: nat)
    requires 1 <= depth && m < |names| && t < |Tuples(names, depth)|
    ensures ImplIndex(names, depth, m, t) < |GenerateImpls(depth, names)|
    ensures GenerateImpls(depth, names)[ImplIndex(names, depth, m, t)] == Fact(names[m], Tuples(names, depth)[t])
  {
    var prev := GenerateImpls(depth - 1, names);
    var tuples := Tuples(names, depth);
    var block := MarkerBlocks(names, tuples);
    assert GenerateImpls(depth, names) == prev + block;
    MarkerBlocksAt(names, tuples, m, t);
    ConcatAt(prev, block, |prev| + BlockOffset(m, |tuples|) + t);
  }

  /** Raising the depth keeps the facts already generated in place: a shallower expansion is a prefix of a deeper one. */
  lemma {:induction false} ImplsPrefix(lower: nat, depth: nat, names: seq<Name>)
    requires lower <= depth
    ensures GenerateImpls(lower, names) <= GenerateImpls(depth, names)
    decreases depth - lower
  {
    if lower < depth {
      ImplsPrefix(lower, depth - 1, names);
      assert GenerateImpls(depth, names) == GenerateImpls(depth - 1, names) + ImplsAtDepth(names, depth);
    }
  }

  /**
    Facts come depth by depth, then marker by marker in input order, then
    tuple by tuple.
  */
  lemma ImplAt(depth: nat, names: seq<Name>, d: nat, m: nat, t: nat)
    requires 1 <= d <= depth && m < |names| && t < |Tuples(names, d)|
    ensures ImplIndex(names, d, m, t) < |GenerateImpls(depth, names)|
    ensures GenerateImpls(depth, names)[ImplIndex(names, d, m, t)] == Fact(names[m], Tuples(names, d)[t])
  {
    ImplAtTop(d, names, m, t);
    ImplsPrefix(d, depth, names);
  }

  /** The index of the fact for depth `d`, marker `m` and tuple `t` is `N * (N^1 + ... + N^(d-1)) + m * N^d + t`. */
  lemma ImplIndexValue(names: seq<Name>, d: nat, m: nat, t: nat)
    requires d >= 1
    ensures ImplIndex(names, d, m, t) == |names| * SumPow(|names|, d - 1) + m * Pow(|names|, d) + t
  {
    ImplCount(d - 1, names);
    TuplesCount(names, d);
    BlockOffsetValue(m, |Tuples(names, d)|);
  }

  /** Every fact of the block for depth `d` is about a list of length `d`. */
  lemma BlockLength(names: seq<Name>, d: nat, x: Decl)
    requires x in ImplsAtDepth(names, d)
    ensures x.Impl? && x.target.List? && |x.target.items| == d
  {
    MarkerBlocksMember(names, Tuples(names, d), x);
    TuplesMember(names, d, x.target.items);
  }

  /** Facts appear in ascending order of list length. */
  lemma {:induction false} DepthAscending(depth: nat, names: seq<Name>, i: nat, j: nat)
    requires i <= j < |GenerateImpls(depth, names)|
    ensures GenerateImpls(depth, names)[i].Impl? && GenerateImpls(depth, names)[i].target.List?
    ensures GenerateImpls(depth, names)[j].Impl? && GenerateImpls(depth, names)[j].target.List?
    ensures |GenerateImpls(depth, names)[i].target.items| <= |GenerateImpls(depth, names)[j].target.items|
    decreases depth
  {
    GeneratedShape(depth, names, i);
    GeneratedShape(depth, names, j);
    var prev := GenerateImpls(depth - 1, names);
    if j < |prev| {
      DepthAscending(depth - 1, names, i, j);
      ImplsPrefix(depth - 1, depth, names);
    } else {
      var block := ImplsAtDepth(names, depth);
      ConcatAt(prev, block, j);
      BlockLength(names, depth, block[j - |prev|]);
    }
  }

  // ---------------------------------------------------------------------------
  // Uniqueness
  // ---------------------------------------------------------------------------

  lemma DistinctConcat<T>(a: seq<T>, b: seq<T>)
    requires Distinct(a) && Distinct(b)
    requires forall x :: x in a ==> x !in b
    ensures Distinct(a + b)
  {
    forall i, j | 0 <= i < j < |a + b| ensures (a + b)[i] != (a + b)[j] {
      if i < |a| && |a| <= j {
        assert (a + b)[i] in a && (a + b)[j] in b;
      }
    }
  }

  lemma TuplesDistinct(names: seq<Name>, d: nat)
    requires Distinct(names)
    ensures Distinct(Tuples(names, d))
  {
    var ts := Tuples(names, d);
    forall i, j | 0 <= i < j < |ts| ensures ts[i] != ts[j] {
      TuplesInOrder(names, d, i);
      TuplesInOrder(names, d, j);
    }
  }

  lemma {:induction false} MarkerBlocksDistinct(markers: seq<Name>, tuples: seq<seq<Name>>)
    requires Distinct(markers) && Distinct(tuples)
    ensures Distinct(MarkerBlocks(markers, tuples))
  {
    if markers != [] {
      var first := FactsFor(markers[0], tuples);
      var rest := MarkerBlocks(markers[1..], tuples);
      MarkerBlocksDistinct(markers[1..], tuples);
      forall x | x in first ensures x !in rest {
        MarkerBlocksMember(markers[1..], tuples, x);
        FactsForMember(markers[0], tuples, x);
      }
      DistinctConcat(first, rest);
    }
  }

  lemma {:induction false} ImplsDistinct(depth: int, names: seq<Name>)
    requires Distinct(names)
    ensures Distinct(GenerateImpls(depth, names))
    decreases depth
  {
    if depth > 0 {
      var prev := GenerateImpls(depth - 1, names);
      var block := ImplsAtDepth(names, depth);
      ImplsDistinct(depth - 1, names);
      TuplesDistinct(names, depth);
      MarkerBlocksDistinct(names, Tuples(names, depth));
      forall x | x in prev ensures x !in block {
        GeneratedMember(depth - 1, names, x);
        MarkerBlocksMember(names, Tuples(names, depth), x);
        TuplesMember(names, depth, x.target.items);
      }
      DistinctConcat(prev, block);
    }
  }

  /** With a depth of at least one, the generated facts are pairwise distinct exactly when the names are. */
  lemma DistinctImplsIff(depth: nat, names: seq<Name>)
    requires depth >= 1
    ensures Distinct(GenerateImpls(depth, names)) <==> Distinct(names)
  {
    if Distinct(names) {
      ImplsDistinct(depth, names);
    } else {
      var a, b :| 0 <= a < b < |names| && names[a] == names[b];
      var impls := GenerateImpls(depth, names);
      var p := |Tuples(names, 1)|;
      assert p == |names| by {
        TuplesCount(names, 1);
      }
      ImplAt(depth, names, 1, a, 0);
      ImplAt(depth, names, 1, b, 0);
      var ia, ib := ImplIndex(names, 1, a, 0), ImplIndex(names, 1, b, 0);
      assert ia < ib by {
        BlockOffsetBound(a, 0, p, b);
      }
      assert impls[ia] == impls[ib];
    }
  }

  /**
    With distinct names, every tracked history and marker receive exactly one
    generated fact, and its verdict follows the rule.
  */
  lemma ExactlyOneVerdict(depth: int, names: seq<Name>, h: seq<Name>, k: Name)
    requires Distinct(names) && Tracked(depth, names, h) && k in names
    ensures Fact(k, h) in GenerateImpls(depth, names)
    ensures forall i, j ::
      (0 <= i < |GenerateImpls(depth, names)| && 0 <= j < |GenerateImpls(depth, names)|
       && About(GenerateImpls(depth, names)[i], h, k) && About(GenerateImpls(depth, names)[j], h, k)) ==> i == j
  {
    var impls := GenerateImpls(depth, names);
    GeneratedMember(depth, names, Fact(k, h));
    ImplsDistinct(depth, names);
    forall i | 0 <= i < |impls| && About(impls[i], h, k) ensures impls[i] == Fact(k, h) {
      GeneratedMember(depth, names, impls[i]);
    }
  }
}
