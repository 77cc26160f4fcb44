// Label compression (include/flipsta/label.hpp): a tag turns an external label
// into its compressed form and back.  NoTag leaves a label as it is;
// AlphabetTag replaces every symbol of a sequence by its dense id in an
// alphabet, adding symbols it has not seen; CompositeTag converts the
// components of a product or lexicographical label with their own tags.
module Label {
  import opened Wrappers
  import opened ExplicitAutomaton

  /**
   * An alphabet (the math library's math::alphabet): the symbols in the order
   * they were added; the dense id of a symbol is its position.
   */
  class Alphabet<T(==)> {
    var symbols: seq<T>

    ghost predicate Valid()
      reads this
    {
      Distinct(symbols)
    }

    constructor ()
      ensures Valid() && symbols == []
    {
      symbols := [];
    }

    /** The id of s, adding s at the end if it is not in the alphabet yet. */
    method AddSymbol(s: T) returns (id: nat)
      requires Valid()
      modifies this
      ensures Valid()
      ensures symbols == if s in old(symbols) then old(symbols) else old(symbols) + [s]
      ensures id < |symbols| && symbols[id] == s
    {
      if s in symbols {
        id := IndexOf(symbols, s);
      } else {
        id := |symbols|;
        symbols := symbols + [s];
      }
    }

    function GetSymbol(id: nat): (s: T)
      reads this
      requires id < |symbols|
      ensures s == symbols[id]
    {
      symbols[id]
    }
  }

  /**
   * The alphabet `symbols` after adding each of `added` in turn: symbols not
   * yet present are appended in the order they are first seen.
   */
  function Interned<T(==)>(symbols: seq<T>, added: seq<T>): seq<T>
  {
    if added == [] then symbols
    else
      var before := Interned(symbols, added[..|added| - 1]);
      var s := added[|added| - 1];
      if s in before then before else before + [s]
  }

  /**
   * Interning keeps the symbols already there in place, adds every added
   * symbol, adds nothing else, and adds no symbol twice.
   */
  lemma {:induction false} InternedProperties<T>(symbols: seq<T>, added: seq<T>)
    ensures symbols <= Interned(symbols, added)
    ensures forall i :: 0 <= i < |added| ==> added[i] in Interned(symbols, added)
    ensures forall x :: x in Interned(symbols, added) ==> x in symbols || x in added
    ensures Distinct(symbols) ==> Distinct(Interned(symbols, added))
  {
    if added != [] {
      var n := |added| - 1;
      InternedProperties(symbols, added[..n]);
      assert forall i :: 0 <= i < n ==> added[i] == added[..n][i];
      assert forall x :: x in added[..n] ==> x in added;
    }
  }

  /** The ids of the symbols xs in an alphabet that holds all of them. */
  function IdsOf<T(==)>(symbols: seq<T>, xs: seq<T>): (ids: seq<nat>)
    requires forall i :: 0 <= i < |xs| ==> xs[i] in symbols
    ensures |ids| == |xs|
    ensures forall i :: 0 <= i < |xs| ==> ids[i] < |symbols| && symbols[ids[i]] == xs[i]
  {
    if xs == [] then [] else [IndexOf(symbols, xs[0])] + IdsOf(symbols, xs[1..])
  }

  /** The symbols with the ids `ids` (the alphabet's get_symbol on each). */
  function SymbolsAt<T>(symbols: seq<T>, ids: seq<nat>): (xs: seq<T>)
    requires forall i :: 0 <= i < |ids| ==> ids[i] < |symbols|
    ensures |xs| == |ids|
    ensures forall i :: 0 <= i < |ids| ==> xs[i] == symbols[ids[i]]
  {
    if ids == [] then [] else [symbols[ids[0]]] + SymbolsAt(symbols, ids[1..])
  }

  /** Expanding the ids of symbols gives the symbols back. */
  lemma SymbolsRoundTrip<T>(symbols: seq<T>, xs: seq<T>)
    requires forall i :: 0 <= i < |xs| ==> xs[i] in symbols
    ensures SymbolsAt(symbols, IdsOf(symbols, xs)) == xs
  {
  }

  /** Ids are not disturbed by adding symbols to the end of a distinct alphabet. */
  lemma IdsOfGrown<T>(symbols: seq<T>, grown: seq<T>, xs: seq<T>)
    requires symbols <= grown && Distinct(grown)
    requires forall i :: 0 <= i < |xs| ==> xs[i] in symbols
    ensures IdsOf(grown, xs) == IdsOf(symbols, xs)
  {
    forall i | 0 <= i < |xs| ensures IdsOf(grown, xs)[i] == IdsOf(symbols, xs)[i] {
      var j := IdsOf(symbols, xs)[i];
      assert grown[j] == symbols[j] == xs[i];
    }
  }

  /**
   * A sequence label of the math library: a general sequence (which may hold
   * the annihilator), a sequence of exactly one symbol, of at most one symbol,
   * the empty sequence and the annihilator, each a type of its own.
   */
  datatype SequenceLabel<T> =
    | Sequence(symbols: seq<T>)
    | SequenceZero
    | SingleSequence(symbol: T)
    | OptionalSequence(optional: Option<T>)
    | EmptySequence
    | SequenceAnnihilator
  {
    function Symbols(): (xs: seq<T>)
    {
      match this
      case Sequence(symbols) => symbols
      case SingleSequence(symbol) => [symbol]
      case OptionalSequence(optional) => if optional.Some? then [optional.value] else []
      case _ => []
    }
  }

  /** Whether every symbol of a label is in the alphabet. */
  predicate SymbolsIn<T(==)>(symbols: seq<T>, l: SequenceLabel<T>)
  {
    match l
    case Sequence(xs) => forall i :: 0 <= i < |xs| ==> xs[i] in symbols
    case SingleSequence(x) => x in symbols
    case OptionalSequence(o) => o.Some? ==> o.value in symbols
    case _ => true
  }

  /** ConvertSequence with get-id as the symbol conversion: the same kind of label over ids. */
  function CompressedSequence<T(==)>(symbols: seq<T>, l: SequenceLabel<T>): (c: SequenceLabel<nat>)
    requires SymbolsIn(symbols, l)
  {
    match l
    case Sequence(xs) => Sequence(IdsOf(symbols, xs))
    case SequenceZero => SequenceZero
    case SingleSequence(x) => SingleSequence(IndexOf(symbols, x))
    case OptionalSequence(o) => OptionalSequence(if o.Some? then Some(IndexOf(symbols, o.value)) else None)
    case EmptySequence => EmptySequence
    case SequenceAnnihilator => SequenceAnnihilator
  }

  /** Whether every id of a compressed label is in the alphabet. */
  predicate IdsIn(n: nat, c: SequenceLabel<nat>)
  {
    match c
    case Sequence(ids) => forall i :: 0 <= i < |ids| ==> ids[i] < n
    case SingleSequence(id) => id < n
    case OptionalSequence(o) => o.Some? ==> o.value < n
    case _ => true
  }

  /** ConvertSequence with get-symbol as the symbol conversion. */
  function ExpandedSequence<T>(symbols: seq<T>, c: SequenceLabel<nat>): (l: SequenceLabel<T>)
    requires IdsIn(|symbols|, c)
  {
    match c
    case Sequence(ids) => Sequence(SymbolsAt(symbols, ids))
    case SequenceZero => SequenceZero
    case SingleSequence(id) => SingleSequence(symbols[id])
    case OptionalSequence(o) => OptionalSequence(if o.Some? then Some(symbols[o.value]) else None)
    case EmptySequence => EmptySequence
    case SequenceAnnihilator => SequenceAnnihilator
  }

  /**
   * Round trip: expanding a compressed sequence label gives the label back;
   * in particular the annihilator and the empty sequence map to themselves.
   */
  lemma SequenceRoundTrip<T>(symbols: seq<T>, l: SequenceLabel<T>)
    requires SymbolsIn(symbols, l)
    ensures IdsIn(|symbols|, CompressedSequence(symbols, l))
    ensures ExpandedSequence(symbols, CompressedSequence(symbols, l)) == l
  {
    match l
    case Sequence(xs) =>
      SymbolsRoundTrip(symbols, xs);
    case _ =>
  }

  /** In a distinct alphabet a symbol has one id, so ids that name xs are IdsOf(xs). */
  lemma IdsOfUnique<T>(symbols: seq<T>, xs: seq<T>, ids: seq<nat>)
    requires Distinct(symbols) && |ids| == |xs|
    requires forall j :: 0 <= j < |xs| ==> ids[j] < |symbols| && symbols[ids[j]] == xs[j]
    ensures forall j :: 0 <= j < |xs| ==> xs[j] in symbols
    ensures ids == IdsOf(symbols, xs)
  {
    forall j | 0 <= j < |xs| ensures xs[j] in symbols && ids[j] == IdsOf(symbols, xs)[j] {
      assert symbols[ids[j]] == xs[j];
    }
  }

  /** Ids found before the alphabet grew, and the id of the next symbol, name the first i + 1 symbols. */
  lemma IdsPushed<T>(before: seq<T>, after: seq<T>, xs: seq<T>, ids: seq<nat>, id: nat)
    requires before <= after && |ids| < |xs|
    requires forall j :: 0 <= j < |ids| ==> ids[j] < |before| && before[ids[j]] == xs[j]
    requires id < |after| && after[id] == xs[|ids|]
    ensures forall j :: 0 <= j < |ids| + 1 ==> (ids + [id])[j] < |after| && after[(ids + [id])[j]] == xs[j]
  {
    forall j | 0 <= j < |ids| + 1 ensures (ids + [id])[j] < |after| && after[(ids + [id])[j]] == xs[j] {
      if j < |ids| {
        assert (ids + [id])[j] == ids[j];
      }
    }
  }

  lemma InternedStep<T>(symbols: seq<T>, xs: seq<T>, i: nat)
    requires i < |xs|
    ensures Interned(symbols, xs[..i + 1]) ==
      var before := Interned(symbols, xs[..i]);
      if xs[i] in before then before else before + [xs[i]]
  {
    assert xs[..i + 1][..i] == xs[..i];
  }

  /**
   * Add the symbols of xs to the alphabet one by one, collecting their ids
   * (the transform over add_symbol in AlphabetTag's compress).
   */
  method AddSymbols<T(==)>(alphabet: Alphabet<T>, xs: seq<T>) returns (ids: seq<nat>)
    requires alphabet.Valid()
    modifies alphabet
    ensures alphabet.Valid()
    ensures alphabet.symbols == Interned(old(alphabet.symbols), xs)
    ensures forall j :: 0 <= j < |xs| ==> xs[j] in alphabet.symbols
    ensures ids == IdsOf(alphabet.symbols, xs)
  {
    ids := [];
    var i := 0;
    while i < |xs|
      invariant 0 <= i <= |xs| && alphabet.Valid()
      invariant alphabet.symbols == Interned(old(alphabet.symbols), xs[..i])
      invariant |ids| == i
      invariant forall j :: 0 <= j < i ==> ids[j] < |alphabet.symbols| && alphabet.symbols[ids[j]] == xs[j]
    {
      InternedStep(old(alphabet.symbols), xs, i);
      ghost var before := alphabet.symbols;
      var id := alphabet.AddSymbol(xs[i]);
      IdsPushed(before, alphabet.symbols, xs, ids, id);
      ids := ids + [id];
      i := i + 1;
    }
    assert xs[..i] == xs;
    IdsOfUnique(alphabet.symbols, xs, ids);
  }

  /** AlphabetTag's compress: every symbol becomes its id, unseen symbols are added in first-seen order. */
  method CompressSequence<T(==)>(alphabet: Alphabet<T>, l: SequenceLabel<T>) returns (c: SequenceLabel<nat>)
    requires alphabet.Valid()
    modifies alphabet
    ensures alphabet.Valid()
    ensures alphabet.symbols == Interned(old(alphabet.symbols), l.Symbols())
    ensures old(alphabet.symbols) <= alphabet.symbols
    ensures SymbolsIn(alphabet.symbols, l)
    ensures c == CompressedSequence(alphabet.symbols, l)
  {
    InternedProperties(alphabet.symbols, l.Symbols());
    match l
    case Sequence(xs) =>
      var ids := AddSymbols(alphabet, xs);
      c := Sequence(ids);
    case SequenceZero =>
      c := SequenceZero;
    case SingleSequence(x) =>
      var ids := AddSymbols(alphabet, [x]);
      c := SingleSequence(ids[0]);
    case OptionalSequence(o) =>
      var ids := AddSymbols(alphabet, l.Symbols());
      c := OptionalSequence(if o.Some? then Some(ids[0]) else None);
    case EmptySequence =>
      c := EmptySequence;
    case SequenceAnnihilator =>
      c := SequenceAnnihilator;
  }

  /** The two kinds of composite label. */
  datatype CompositeKind = Product | Lexicographical

  /**
   * A label: a sequence label, a value that no tag compresses (V), or a
   * composite label with components.  Compressed labels have ids (nat) for
   * symbols.
   */
  datatype Label<T, V> =
    | Seq(sequence: SequenceLabel<T>)
    | Plain(value: V)
    | Composite(kind: CompositeKind, components: seq<Label<T, V>>)

  /** A tag.  Two alphabet tags are equal exactly when they share their alphabet object. */
  datatype Tag<T(==)> =
    | NoTag
    | AlphabetTag(alphabet: Alphabet<T>)
    | CompositeTag(tags: seq<Tag<T>>)

  /** Whether a tag is the one for the label's type. */
  predicate Matches<T(==), V>(tag: Tag<T>, l: Label<T, V>)
  {
    match l
    case Seq(_) => tag.AlphabetTag?
    case Plain(_) => tag.NoTag?
    case Composite(_, cs) =>
      tag.CompositeTag? && |tag.tags| == |cs| && forall i :: 0 <= i < |cs| ==> Matches(tag.tags[i], cs[i])
  }

  /** The alphabets a tag uses, in any of its components. */
  function Alphabets<T(==)>(tag: Tag<T>): set<Alphabet<T>>
  {
    match tag
    case NoTag => {}
    case AlphabetTag(a) => {a}
    case CompositeTag(tags) => set i, a | 0 <= i < |tags| && a in Alphabets(tags[i]) :: a
  }

  ghost predicate AlphabetsValid<T>(tag: Tag<T>)
    reads Alphabets(tag)
  {
    forall a :: a in Alphabets(tag) ==> a.Valid()
  }

  /** What the alphabets of a tag hold. */
  function Contents<T(==)>(tag: Tag<T>): map<Alphabet<T>, seq<T>>
    reads Alphabets(tag)
  {
    map a | a in Alphabets(tag) :: a.symbols
  }

  /** Every alphabet of m is still in m' and has only grown at its end. */
  ghost predicate Grown<T>(m: map<Alphabet<T>, seq<T>>, m': map<Alphabet<T>, seq<T>>)
  {
    forall a :: a in m ==> a in m' && m[a] <= m'[a]
  }

  /** Whether a compressed label can be expanded with the tag, given what its alphabets hold. */
  ghost predicate Expandable<T, V>(m: map<Alphabet<T>, seq<T>>, tag: Tag<T>, c: Label<nat, V>)
  {
    match c
    case Seq(s) => tag.AlphabetTag? && tag.alphabet in m && IdsIn(|m[tag.alphabet]|, s)
    case Plain(_) => tag.NoTag?
    case Composite(_, cs) =>
      tag.CompositeTag? && |tag.tags| == |cs| && forall i :: 0 <= i < |cs| ==> Expandable(m, tag.tags[i], cs[i])
  }

  /** The tag's expand, given what its alphabets hold. */
  ghost function Expanded<T, V>(m: map<Alphabet<T>, seq<T>>, tag: Tag<T>, c: Label<nat, V>): Label<T, V>
    requires Expandable(m, tag, c)
  {
    match c
    case Seq(s) => Seq(ExpandedSequence(m[tag.alphabet], s))
    case Plain(v) => Plain(v)
    case Composite(kind, cs) =>
      Composite(kind, seq(|cs|, i requires 0 <= i < |cs| => Expanded(m, tag.tags[i], cs[i])))
  }

  /** Expansion only reads ids that were already there, so growing the alphabets changes nothing. */
  lemma {:induction false} ExpandedGrown<T, V>(m: map<Alphabet<T>, seq<T>>, m': map<Alphabet<T>, seq<T>>, tag: Tag<T>, c: Label<nat, V>)
    requires Grown(m, m') && Expandable(m, tag, c)
    ensures Expandable(m', tag, c) && Expanded(m', tag, c) == Expanded(m, tag, c)
  {
    match c
    case Seq(s) =>
      var xs := m[tag.alphabet];
      var ys := m'[tag.alphabet];
      assert ExpandedSequence(ys, s) == ExpandedSequence(xs, s) by {
        if s.Sequence? {
          assert SymbolsAt(ys, s.symbols) == SymbolsAt(xs, s.symbols);
        }
      }
    case Plain(_) =>
    case Composite(kind, cs) =>
      forall i | 0 <= i < |cs| ensures Expandable(m', tag.tags[i], cs[i]) && Expanded(m', tag.tags[i], cs[i]) == Expanded(m, tag.tags[i], cs[i]) {
        ExpandedGrown(m, m', tag.tags[i], cs[i]);
      }
  }

  lemma {:induction false} AlphabetsAllocated<T>(tag: Tag<T>)
    ensures forall a :: a in Alphabets(tag) ==> allocated(a)
  {
    if tag.CompositeTag? {
      forall i | 0 <= i < |tag.tags| ensures forall a :: a in Alphabets(tag.tags[i]) ==> allocated(a) {
        AlphabetsAllocated(tag.tags[i]);
      }
    }
  }

  lemma AlphabetsOfComponent<T>(tag: Tag<T>, i: nat)
    requires tag.CompositeTag? && i < |tag.tags|
    ensures Alphabets(tag.tags[i]) <= Alphabets(tag)
  {
  }

  /**
   * Compress a label with its tag.  Alphabets only grow, and expanding the
   * result with the grown alphabets gives the label back.
   */
  method Compress<T(==), V>(tag: Tag<T>, l: Label<T, V>) returns (c: Label<nat, V>)
    requires Matches(tag, l) && AlphabetsValid(tag)
    modifies Alphabets(tag)
    ensures AlphabetsValid(tag)
    ensures Grown(old(Contents(tag)), Contents(tag))
    ensures Expandable(Contents(tag), tag, c) && Expanded(Contents(tag), tag, c) == l
    decreases l, 1
  {
    match l
    case Plain(v) =>
      c := Plain(v);
    case Seq(s) =>
      var a := tag.alphabet;
      assert Alphabets(tag) == {a};
      var cs := CompressSequence(a, s);
      SequenceRoundTrip(a.symbols, s);
      c := Seq(cs);
    case Composite(kind, components) =>
      var cs := CompressComponents(tag, l);
      c := Composite(kind, cs);
  }

  /** CompositeTag's compress: each component with its own tag, in order. */
  method CompressComponents<T(==), V>(tag: Tag<T>, l: Label<T, V>) returns (cs: seq<Label<nat, V>>)
    requires l.Composite? && Matches(tag, l) && AlphabetsValid(tag)
    modifies Alphabets(tag)
    ensures AlphabetsValid(tag)
    ensures Grown(old(Contents(tag)), Contents(tag))
    ensures |cs| == |l.components|
    ensures forall j :: 0 <= j < |cs| ==>
      Expandable(Contents(tag), tag.tags[j], cs[j]) && Expanded(Contents(tag), tag.tags[j], cs[j]) == l.components[j]
    decreases l, 0
  {
    var components := l.components;
    cs := [];
    var i := 0;
    while i < |components|
      invariant 0 <= i <= |components| && |cs| == i
      invariant AlphabetsValid(tag)
      invariant Grown(old(Contents(tag)), Contents(tag))
      invariant forall j :: 0 <= j < i ==>
        Expandable(Contents(tag), tag.tags[j], cs[j]) && Expanded(Contents(tag), tag.tags[j], cs[j]) == components[j]
    {
      ghost var before := Contents(tag);
      var ci := CompressComponent(tag, i, components[i]);
      ComponentsGrown(before, Contents(tag), tag.tags, components, cs, ci);
      cs := cs + [ci];
      i := i + 1;
    }
  }

  /** Components compressed before the alphabets grew still expand to the same labels. */
  lemma ComponentsGrown<T, V>(m: map<Alphabet<T>, seq<T>>, m': map<Alphabet<T>, seq<T>>, tags: seq<Tag<T>>,
                              components: seq<Label<T, V>>, cs: seq<Label<nat, V>>, c: Label<nat, V>)
    requires Grown(m, m') && |cs| < |tags| && |cs| < |components|
    requires forall j :: 0 <= j < |cs| ==> Expandable(m, tags[j], cs[j]) && Expanded(m, tags[j], cs[j]) == components[j]
    requires Expandable(m', tags[|cs|], c) && Expanded(m', tags[|cs|], c) == components[|cs|]
    ensures forall j :: 0 <= j < |cs| + 1 ==>
      Expandable(m', tags[j], (cs + [c])[j]) && Expanded(m', tags[j], (cs + [c])[j]) == components[j]
  {
    forall j | 0 <= j < |cs| + 1
      ensures Expandable(m', tags[j], (cs + [c])[j]) && Expanded(m', tags[j], (cs + [c])[j]) == components[j]
    {
      if j < |cs| {
        assert (cs + [c])[j] == cs[j];
        ExpandedGrown(m, m', tags[j], cs[j]);
      }
    }
  }

  /** Compress component i of a composite label; the whole tag's alphabets only grow. */
  method CompressComponent<T(==), V>(tag: Tag<T>, i: nat, component: Label<T, V>) returns (c: Label<nat, V>)
    requires tag.CompositeTag? && i < |tag.tags| && Matches(tag.tags[i], component) && AlphabetsValid(tag)
    modifies Alphabets(tag)
    ensures AlphabetsValid(tag)
    ensures Grown(old(Contents(tag)), Contents(tag))
    ensures Expandable(Contents(tag), tag.tags[i], c) && Expanded(Contents(tag), tag.tags[i], c) == component
    decreases component, 2
  {
    AlphabetsOfComponent(tag, i);
    var sub := tag.tags[i];
    ghost var before := Contents(tag);
    ghost var subBefore := Contents(sub);
    assert forall a :: a in Alphabets(tag) ==> Distinct(before[a]);
    AlphabetsAllocated(tag);
    c := Compress(sub, component);
    forall a | a in Alphabets(tag) ensures a.Valid() && before[a] <= a.symbols {
      if a in Alphabets(sub) {
        assert subBefore[a] == before[a];
      } else {
        assert a.symbols == before[a];
      }
    }
    ExpandedGrown(Contents(sub), Contents(tag), sub, c);
  }

  /** The type of a label, which decides its default tag. */
  datatype LabelType =
    | SequenceType
    | PlainType
    | CompositeType(componentTypes: seq<LabelType>)

  function TypeOf<T, V>(l: Label<T, V>): LabelType
  {
    match l
    case Seq(_) => SequenceType
    case Plain(_) => PlainType
    case Composite(_, cs) => CompositeType(seq(|cs|, i requires 0 <= i < |cs| => TypeOf(cs[i])))
  }

  /** The kinds of tag, without their alphabets. */
  datatype TagType = NoTagType | AlphabetTagType | CompositeTagType(componentTags: seq<TagType>)

  function TypeOfTag<T(==)>(tag: Tag<T>): TagType
  {
    match tag
    case NoTag => NoTagType
    case AlphabetTag(_) => AlphabetTagType
    case CompositeTag(tags) => CompositeTagType(seq(|tags|, i requires 0 <= i < |tags| => TypeOfTag(tags[i])))
  }

  /**
   * DefaultTagFor: an alphabet tag for every kind of sequence, a composite tag
   * of the components' default tags for products and lexicographical labels,
   * and no tag for anything else.
   */
  function DefaultTagFor(t: LabelType): TagType
  {
    match t
    case SequenceType => AlphabetTagType
    case PlainType => NoTagType
    case CompositeType(ts) => CompositeTagType(seq(|ts|, i requires 0 <= i < |ts| => DefaultTagFor(ts[i])))
  }

  /** A tag of the default type for a label's type is one that can compress the label. */
  lemma {:induction false} DefaultTagMatches<T, V>(tag: Tag<T>, l: Label<T, V>)
    requires TypeOfTag(tag) == DefaultTagFor(TypeOf(l))
    ensures Matches(tag, l)
  {
    match l
    case Seq(_) =>
    case Plain(_) =>
    case Composite(_, cs) =>
      var ts := TypeOf(l).componentTypes;
      assert |tag.tags| == |cs| by {
        assert |TypeOfTag(tag).componentTags| == |DefaultTagFor(TypeOf(l)).componentTags|;
      }
      forall i | 0 <= i < |cs| ensures Matches(tag.tags[i], cs[i]) {
        assert TypeOfTag(tag.tags[i]) == TypeOfTag(tag).componentTags[i];
        assert DefaultTagFor(TypeOf(cs[i])) == DefaultTagFor(TypeOf(l)).componentTags[i];
        DefaultTagMatches(tag.tags[i], cs[i]);
      }
  }

  /** A fresh alphabet numbers a, b, c as 0, 1, 2 in the order they are first seen. */
  lemma FreshAlphabetExample()
    ensures Interned([], "abc") == "abc"
    ensures IdsOf("abc", "abc") == [0, 1, 2]
  {
    assert "abc"[..2] == "ab" && "abc"[..2][..1] == "a" && "abc"[..2][..1][..0] == [];
    assert "abc"[1..] == "bc" && "bc"[1..] == "c" && "c"[1..] == [];
  }

  /** An alphabet pre-filled with q, b, 1, c, a does not grow when a, b and c are added. */
  lemma FilledAlphabetKept()
    ensures Interned("qb1ca", "abc") == "qb1ca"
  {
    assert "abc"[..2] == "ab" && "ab"[..1] == "a" && "a"[..0] == [];
    assert 'a' in "qb1ca" && 'b' in "qb1ca" && 'c' in "qb1ca";
  }

  /** An alphabet pre-filled with q, b, 1, c, a gives a, b and c the ids 4, 1 and 3. */
  lemma FilledAlphabetIds()
    ensures IdsOf("qb1ca", "abc") == [4, 1, 3]
  {
    var s := "qb1ca";
    var ids := IdsOf(s, "abc");
    assert s[ids[0]] == 'a' && s[ids[1]] == 'b' && s[ids[2]] == 'c';
  }
}
