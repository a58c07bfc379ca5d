/**
  The annotation store wrapped around every syntax-tree node of the toy
  language: an opaque payload, a map from annotation kind to annotation
  value, and a typestate history (Rust's phantom `S`) listing the kinds added
  through the checked `add_annotation`. The store's operations are gated on
  the relation `typelist!(1, Type)` generates; Rust's trait bounds
  `S: Includes<U>` and `S: Excludes<U>` become preconditions over the ghost
  history.
*/
module AnnotationStore {
  import opened Wrappers
  import opened Typelist

  /** The language's types; a payload of annotations, opaque to the store. */
  datatype Type = Unit | I32 | F32 | Function(parameters: seq<Type>, result: Type) | Ident(name: string)

  /** The `Annotation` implementors as one tagged union: only `Type` implements it. */
  datatype Annotation = TypeAnnotation(ty: Type)

  /** `typelist!(1, Type)`: the depth and markers of the relation the store is gated on. */
  const Depth: int := 1
  const Markers: seq<Name> := ["Type"]

  /** The declarations `typelist!(1, Type)` expands to. */
  function NodeRelation(): seq<Decl>
  {
    GenerateOutput(Input(Depth, Markers), Options(false))
  }

  /** `U: Annotation`. */
  predicate IsAnnotation(u: Name)
  {
    u == "Type"
  }

  /** The type of an annotation value: the key `TypeId::of::<U>()` it is stored under. */
  function KindOf(a: Annotation): (u: Name)
    ensures IsAnnotation(u) && u in Markers
  {
    match a
    case TypeAnnotation(_) => "Type"
  }

  class Node<T> {
    var node: T
    var annotations: map<Name, Annotation>
    ghost var history: seq<Name>

    /** Every entry sits under its own value's type, and every kind the history records has an entry. */
    ghost predicate Valid()
      reads this
    {
      && (forall u :: u in annotations ==> KindOf(annotations[u]) == u)
      && (forall u :: u in history ==> u in annotations)
    }

    /** `From<T> for Node<T>`: the bare payload, no annotations, the empty history `Nil`. */
    constructor (value: T)
      ensures Valid()
      ensures node == value && annotations == map[] && history == []
    {
      node := value;
      annotations := map[];
      history := [];
    }

    /** `Node::new` as written: it is generic in the state, so the caller picks any history. */
    constructor WithState(value: T, ghost state: seq<Name>)
      ensures node == value && annotations == map[] && history == state
    {
      node := value;
      annotations := map[];
      history := state;
    }

    /** The map lookup followed by the downcast to the requested type. */
    function Lookup(u: Name): (r: Option<Annotation>)
      reads this
      ensures r.Some? ==> u in annotations && r.value == annotations[u] && KindOf(r.value) == u
      ensures Valid() ==> (r.Some? <==> u in annotations)
    {
      if u in annotations && KindOf(annotations[u]) == u then Some(annotations[u]) else None
    }

    /**
      `add_annotation`: the kind must be excluded from the history. The node is
      moved into a new one whose history has the kind in front.
    */
    method AddAnnotation(a: Annotation) returns (n: Node<T>)
      requires Excludes(Depth, Markers, history, Named(KindOf(a)))
      ensures fresh(n)
      ensures n.node == node && n.annotations == annotations[KindOf(a) := a]
      ensures n.history == [KindOf(a)] + history
      ensures Valid() ==> n.Valid()
    {
      var u := KindOf(a);
      n := new Node(node);
      n.annotations := annotations[u := a];
      n.history := [u] + history;
    }

    /** `add_annotation_unchecked`: inserts or overwrites in place and leaves the history alone. */
    method AddAnnotationUnchecked(a: Annotation)
      requires Excludes(Depth, Markers, history, Named(KindOf(a)))
      modifies this`annotations
      ensures annotations == old(annotations)[KindOf(a) := a]
      ensures old(Valid()) ==> Valid()
    {
      annotations := annotations[KindOf(a) := a];
    }

    /** `change_annotation`: the kind must be included; its entry is overwritten in place. */
    method ChangeAnnotation(a: Annotation)
      requires Includes(Depth, Markers, history, Named(KindOf(a)))
      modifies this`annotations
      ensures annotations == old(annotations)[KindOf(a) := a]
      ensures old(Valid()) ==> Valid()
    {
      annotations := annotations[KindOf(a) := a];
    }

    /** `get_annotation`: the kind must be included; the value is always there. */
    method GetAnnotation(u: Name) returns (a: Annotation)
      requires Valid() && Includes(Depth, Markers, history, Named(u))
      ensures u in annotations && a == annotations[u] && KindOf(a) == u
    {
      var found := Lookup(u);
      if found.None? {
        // the `expect`: unreachable, since the history records `u` and every recorded kind has an entry
        assert false;
      }
      a := found.value;
    }

    /** `get_annotation_unchecked`: the kind must be excluded; the value is there only if an unchecked add put it there. */
    method GetAnnotationUnchecked(u: Name) returns (r: Option<Annotation>)
      requires IsAnnotation(u) && Excludes(Depth, Markers, history, Named(u))
      ensures r.Some? ==> u in annotations && r.value == annotations[u] && KindOf(r.value) == u
      ensures Valid() ==> (r.Some? <==> u in annotations)
    {
      r := Lookup(u);
    }
  }

  /**
    A checked add makes its kind readable: when `h` excludes `u` and is short
    enough for the relation, `[u] + h` includes it.
  */
  lemma AddEnablesGet(input: Input, options: Options, h: seq<Name>, u: Name)
    requires Implements(GenerateOutput(input, options), ExcludesTrait, h, Named(u))
    requires u in input.names && |h| < input.depth
    ensures Implements(GenerateOutput(input, options), IncludesTrait, [u] + h, Named(u))
  {
    ExcludesAgreesWithOutput(input, options, h, Named(u));
    IncludesAgreesWithOutput(input, options, [u] + h, Named(u));
    assert forall x :: x in [u] + h ==> x == u || x in h;
  }

  /** A kind already in the history is never excluded, so it can be added through the checked path at most once. */
  lemma CheckedAddAtMostOnce(input: Input, options: Options, h: seq<Name>, u: Name)
    requires u in h
    ensures !Implements(GenerateOutput(input, options), ExcludesTrait, h, Named(u))
  {
    ExcludesAgreesWithOutput(input, options, h, Named(u));
  }

  /**
    What the expansion of `typelist!(1, Type)` accepts and rejects: no get or
    change on a fresh node, one checked add, then no second add and no
    unchecked operation.
  */
  lemma NodeGates()
    ensures !Implements(NodeRelation(), IncludesTrait, [], Named("Type"))
    ensures Implements(NodeRelation(), ExcludesTrait, [], Named("Type"))
    ensures Implements(NodeRelation(), IncludesTrait, ["Type"], Named("Type"))
    ensures !Implements(NodeRelation(), ExcludesTrait, ["Type"], Named("Type"))
    ensures !Implements(NodeRelation(), ExcludesTrait, ["Type", "Type"], Named("Type"))
  {
    var input, options := Input(Depth, Markers), Options(false);
    IncludesAgreesWithOutput(input, options, [], Named("Type"));
    ExcludesAgreesWithOutput(input, options, [], Named("Type"));
    IncludesAgreesWithOutput(input, options, ["Type"], Named("Type"));
    ExcludesAgreesWithOutput(input, options, ["Type"], Named("Type"));
    ExcludesAgreesWithOutput(input, options, ["Type", "Type"], Named("Type"));
  }

  /** With `Type` the only marker, every non-empty history over the markers records `Type`. */
  lemma NonEmptyHistoryHasType(h: seq<Name>)
    ensures Over(Markers, h) && h != [] ==> "Type" in h
  {
    if Over(Markers, h) && h != [] {
      assert h[0] in h;
    }
  }

  /** Under `typelist!(1, Type)` a kind is excluded only by the empty history. */
  lemma ExcludedOnlyWhenEmpty(h: seq<Name>, u: Name)
    requires IsAnnotation(u) && Excludes(Depth, Markers, h, Named(u))
    ensures h == []
  {
    NonEmptyHistoryHasType(h);
  }

  /**
    On any node that keeps the store invariant and whose history allows the
    add: a checked add of `a` followed by a get returns `a`, and a change to
    `b` followed by a get returns `b`.
  */
  method CheckedRoundTrip<T>(n: Node<T>, a: Annotation, b: Annotation)
    returns (m: Node<T>, added: Annotation, changed: Annotation)
    requires n.Valid() && Excludes(Depth, Markers, n.history, Named(KindOf(a)))
    ensures added == a && changed == b
    ensures m.Valid() && m.node == n.node && m.history == [KindOf(a)] + n.history
    ensures m.annotations == n.annotations[KindOf(b) := b]
  {
    ExcludedOnlyWhenEmpty(n.history, KindOf(a));
    m := n.AddAnnotation(a);
    added := m.GetAnnotation(KindOf(a));
    m.ChangeAnnotation(b);
    changed := m.GetAnnotation(KindOf(b));
  }

  /** The store's unit test: add `I32`, read it back, change it to `F32`, read that back. */
  method AddGetChange() returns (added: Annotation, changed: Annotation)
    ensures added == TypeAnnotation(I32) && changed == TypeAnnotation(F32)
  {
    var bare := new Node<int>(0);
    var node := bare.AddAnnotation(TypeAnnotation(I32));
    added := node.GetAnnotation("Type");
    node.ChangeAnnotation(TypeAnnotation(F32));
    changed := node.GetAnnotation("Type");
  }

  /**
    An unchecked add on a fresh node: the unchecked read misses before and
    finds the value after, while the history stays empty, so the checked read
    stays unavailable.
  */
  method UncheckedRoundTrip() returns (before: Option<Annotation>, after: Option<Annotation>)
    ensures before == None && after == Some(TypeAnnotation(I32))
  {
    var node := new Node<int>(0);
    before := node.GetAnnotationUnchecked("Type");
    node.AddAnnotationUnchecked(TypeAnnotation(I32));
    after := node.GetAnnotationUnchecked("Type");
    assert !Includes(Depth, Markers, node.history, Named("Type"));
  }

  /**
    `Node::<T, Cons<Type, Nil>>::new(v)`: the history claims `Type`, so
    `get_annotation::<Type>` is allowed, but the map is empty and the lookup
    misses: the `expect` fires.
  */
  method NewAtIncludedState() returns (node: Node<int>, found: Option<Annotation>)
    ensures Includes(Depth, Markers, node.history, Named("Type"))
    ensures found == node.Lookup("Type") && found == None
    ensures !node.Valid()
  {
    node := new Node<int>.WithState(0, ["Type"]);
    found := node.Lookup("Type");
  }
}
