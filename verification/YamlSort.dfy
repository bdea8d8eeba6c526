/** Recursive mapping-key sorting of a YAML tree (internal/canonicalize/canonicalize.go). */
module YamlSort {
  import opened Sorting

  /** `tag` is what else the parser knows of a scalar; a document is a sequence of one item. */
  datatype Node =
    | Scalar(value: string, tag: string)
    | Alias(value: string)
    | Sequence(items: seq<Node>)
    | Mapping(entries: seq<Entry>)

  datatype Entry = Entry(key: Node, val: Node)

  /** yaml.Node.Value: empty for anything but scalars and aliases. */
  function KeyText(k: Node): string {
    if k.Scalar? || k.Alias? then k.value else ""
  }

  // ---- Stable sort by key ----

  predicate KeyLess(a: Entry, b: Entry) { Before(KeyText(a.key), KeyText(b.key)) }

  lemma KeyLessIsOrder()
    ensures WeakOrder(KeyLess)
  {
    forall a: Entry, b: Entry, c: Entry | !KeyLess(b, a) && !KeyLess(c, b) ensures !KeyLess(c, a) {
      BeforeTransitive(KeyText(a.key), KeyText(b.key), KeyText(c.key));
    }
    forall a: Entry, b: Entry | KeyLess(a, b) ensures !KeyLess(b, a) {
      BeforeOneWay(KeyText(a.key), KeyText(b.key));
    }
  }

  // ---- Trees ----

  /** Sorting is by key alone, so it may be done before or after the values are sorted. */
  function SortNode(n: Node): Node {
    match n
    case Scalar(_, _) => n
    case Alias(_) => n
    case Sequence(items) => Sequence(seq(|items|, i requires 0 <= i < |items| => SortNode(items[i])))
    case Mapping(es) =>
      Mapping(Sort(KeyLess, seq(|es|, i requires 0 <= i < |es| => Entry(es[i].key, SortNode(es[i].val)))))
  }

  function SortVals(es: seq<Entry>): seq<Entry> {
    seq(|es|, i requires 0 <= i < |es| => Entry(es[i].key, SortNode(es[i].val)))
  }

  lemma SortMapping(es: seq<Entry>)
    ensures SortNode(Mapping(es)) == Mapping(Sort(KeyLess, SortVals(es)))
  {
    assert SortVals(es) == seq(|es|, i requires 0 <= i < |es| => Entry(es[i].key, SortNode(es[i].val)));
  }

  lemma SortValsTail(es: seq<Entry>)
    requires es != []
    ensures SortVals(es) == [Entry(es[0].key, SortNode(es[0].val))] + SortVals(es[1..])
  {
  }

  lemma {:induction false} InsertVals(e: Entry, s: seq<Entry>)
    ensures SortVals(Insert(KeyLess, e, s)) == Insert(KeyLess, Entry(e.key, SortNode(e.val)), SortVals(s))
  {
    if s == [] {
      assert SortVals([e] + s) == [Entry(e.key, SortNode(e.val))];
    } else {
      SortValsTail(s);
      if !KeyLess(s[0], e) {
        SortValsTail([e] + s);
        assert ([e] + s)[1..] == s;
      } else {
        InsertVals(e, s[1..]);
        var out := [s[0]] + Insert(KeyLess, e, s[1..]);
        SortValsTail(out);
        assert out[1..] == Insert(KeyLess, e, s[1..]);
        assert SortVals(s)[1..] == SortVals(s[1..]);
      }
    }
  }

  /** The code sorts a mapping's pairs first and recurses into the values after. */
  lemma {:induction false} SortThenRecurse(es: seq<Entry>)
    ensures SortVals(Sort(KeyLess, es)) == Sort(KeyLess, SortVals(es))
  {
    if es != [] {
      SortThenRecurse(es[1..]);
      SortValsTail(es);
      InsertVals(es[0], Sort(KeyLess, es[1..]));
      assert SortVals(es)[1..] == SortVals(es[1..]);
    }
  }

  /** Sorting twice is sorting once, on every tree. */
  lemma {:induction false} SortIdempotent(n: Node)
    ensures SortNode(SortNode(n)) == SortNode(n)
  {
    match n {
      case Scalar(_, _) =>
      case Alias(_) =>
      case Sequence(items) =>
        forall i | 0 <= i < |items| ensures SortNode(SortNode(items[i])) == SortNode(items[i]) {
          SortIdempotent(items[i]);
        }
      case Mapping(es) =>
        forall i | 0 <= i < |es| ensures SortNode(SortNode(es[i].val)) == SortNode(es[i].val) {
          SortIdempotent(es[i].val);
        }
        assert SortVals(SortVals(es)) == SortVals(es);
        SortMapping(es);
        SortMapping(Sort(KeyLess, SortVals(es)));
        SortThenRecurse(SortVals(es));
        KeyLessIsOrder();
        SortOrders(KeyLess, SortVals(es));
        OrderedIsFixed(KeyLess, Sort(KeyLess, SortVals(es)));
    }
  }

  /** One level keeps its pairs, each key with its own value: only their order changes. */
  lemma SortKeepsEntries(es: seq<Entry>)
    ensures multiset(SortNode(Mapping(es)).entries) == multiset(SortVals(es))
    ensures Ordered(KeyLess, SortNode(Mapping(es)).entries)
  {
    SortMapping(es);
    SortKeeps(KeyLess, SortVals(es));
    KeyLessIsOrder();
    SortOrders(KeyLess, SortVals(es));
  }

  /** The key is a text of its own: a scalar or an alias. */
  predicate Named(e: Entry) { e.key.Scalar? || e.key.Alias? }

  /** In a sorted mapping the keys that have a text are in its order, after the keys that have none. */
  lemma KeysInOrder(es: seq<Entry>, i: nat, j: nat)
    requires i < j < |SortNode(Mapping(es)).entries|
    ensures var a, b := SortNode(Mapping(es)).entries[i], SortNode(Mapping(es)).entries[j];
            && (Named(a) && Named(b) ==> !Before(b.key.value, a.key.value))
            && (Named(a) && !Named(b) ==> a.key.value == "")
  {
    SortKeepsEntries(es);
    var a, b := SortNode(Mapping(es)).entries[i], SortNode(Mapping(es)).entries[j];
    assert !KeyLess(b, a);
  }

  // ---- A canonical form ----

  /** Equal up to the order of mapping entries, at any depth. */
  ghost predicate SameTree(a: Node, b: Node)
    decreases a, 2
  {
    match a
    case Scalar(_, _) => a == b
    case Alias(_) => a == b
    case Sequence(items) =>
      b.Sequence? && |items| == |b.items| && forall i :: 0 <= i < |items| ==> SameTree(items[i], b.items[i])
    case Mapping(es) =>
      && b.Mapping? && |es| == |b.entries|
      && (forall i {:trigger FoundIn(es[i], b.entries)} :: 0 <= i < |es| ==> FoundIn(es[i], b.entries))
      && (forall j :: 0 <= j < |b.entries| ==> exists i :: 0 <= i < |es| && SameEntry(es[i], b.entries[j]))
  }

  ghost predicate FoundIn(e: Entry, fs: seq<Entry>)
    decreases e, 1
  {
    exists j :: 0 <= j < |fs| && SameEntry(e, fs[j])
  }

  ghost predicate SameEntry(e: Entry, f: Entry)
    decreases e, 0
  {
    e.key == f.key && SameTree(e.val, f.val)
  }

  /** No two keys of a mapping have the same text, at any depth the sort reaches. */
  ghost predicate DistinctKeys(n: Node) {
    match n
    case Scalar(_, _) => true
    case Alias(_) => true
    case Sequence(items) => forall i :: 0 <= i < |items| ==> DistinctKeys(items[i])
    case Mapping(es) =>
      && (forall i :: 0 <= i < |es| ==> DistinctKeys(es[i].val))
      && DistinctTexts(es)
  }

  ghost predicate DistinctTexts(es: seq<Entry>) {
    forall i, j :: 0 <= i < j < |es| ==> KeyText(es[i].key) != KeyText(es[j].key)
  }

  lemma SortUnique(a: seq<Entry>, b: seq<Entry>)
    requires DistinctTexts(a) && DistinctTexts(b) && forall e :: e in a <==> e in b
    ensures Sort(KeyLess, a) == Sort(KeyLess, b)
  {
    KeyLessIsOrder();
    TextsApart(a);
    TextsApart(b);
    SortStrict(KeyLess, a);
    SortStrict(KeyLess, b);
    SortMembers(KeyLess, a);
    SortMembers(KeyLess, b);
    StrictUnique(KeyLess, Sort(KeyLess, a), Sort(KeyLess, b));
  }

  lemma TextsApart(es: seq<Entry>)
    requires DistinctTexts(es)
    ensures Apart(KeyLess, es)
  {
    forall i, j | 0 <= i < j < |es| ensures KeyLess(es[i], es[j]) || KeyLess(es[j], es[i]) {
      BeforeOneWay(KeyText(es[i].key), KeyText(es[j].key));
    }
  }

  /** Every entry of es has a counterpart in fs whose value sorts to the same tree. */
  ghost predicate Mated(es: seq<Entry>, fs: seq<Entry>) {
    forall i {:trigger HasMate(es[i], fs)} :: 0 <= i < |es| ==> HasMate(es[i], fs)
  }

  ghost predicate HasMate(e: Entry, fs: seq<Entry>) {
    exists j :: 0 <= j < |fs| && Mates(e, fs[j])
  }

  predicate Mates(e: Entry, f: Entry) { e.key == f.key && SortNode(e.val) == SortNode(f.val) }

  lemma MatedMembers(es: seq<Entry>, fs: seq<Entry>, e: Entry)
    requires Mated(es, fs) && e in SortVals(es)
    ensures e in SortVals(fs)
  {
    var i :| 0 <= i < |es| && SortVals(es)[i] == e;
    assert HasMate(es[i], fs);
    var j :| 0 <= j < |fs| && Mates(es[i], fs[j]);
    assert SortVals(fs)[j] == e;
  }

  lemma MatedSortSame(es: seq<Entry>, fs: seq<Entry>)
    requires DistinctTexts(es) && DistinctTexts(fs) && |es| == |fs| && Mated(es, fs) && Mated(fs, es)
    ensures SortNode(Mapping(es)) == SortNode(Mapping(fs))
  {
    forall e ensures e in SortVals(es) <==> e in SortVals(fs) {
      if e in SortVals(es) { MatedMembers(es, fs, e); }
      if e in SortVals(fs) { MatedMembers(fs, es, e); }
    }
    SortUnique(SortVals(es), SortVals(fs));
    SortMapping(es);
    SortMapping(fs);
  }

  lemma SortSameMated(es: seq<Entry>, fs: seq<Entry>)
    requires SortNode(Mapping(es)) == SortNode(Mapping(fs))
    ensures |es| == |fs| && Mated(es, fs) && Mated(fs, es)
  {
    SortMapping(es);
    SortMapping(fs);
    SortMembers(KeyLess, SortVals(es));
    SortMembers(KeyLess, SortVals(fs));
    forall i | 0 <= i < |es| ensures HasMate(es[i], fs) {
      assert SortVals(es)[i] in SortVals(fs);
      var j :| 0 <= j < |fs| && SortVals(fs)[j] == SortVals(es)[i];
      assert Mates(es[i], fs[j]);
    }
    forall j | 0 <= j < |fs| ensures HasMate(fs[j], es) {
      assert SortVals(fs)[j] in SortVals(es);
      var i :| 0 <= i < |es| && SortVals(es)[i] == SortVals(fs)[j];
      assert Mates(fs[j], es[i]);
    }
  }

  /** Trees that differ only in the order of mapping entries sort to the identical tree. */
  lemma {:induction false} SameTreeSortsSame(a: Node, b: Node)
    requires DistinctKeys(a) && DistinctKeys(b) && SameTree(a, b)
    ensures SortNode(a) == SortNode(b)
    decreases a
  {
    match a {
      case Scalar(_, _) =>
      case Alias(_) =>
      case Sequence(items) =>
        forall i | 0 <= i < |items| ensures SortNode(items[i]) == SortNode(b.items[i]) {
          SameTreeSortsSame(items[i], b.items[i]);
        }
      case Mapping(es) =>
        var fs := b.entries;
        forall i | 0 <= i < |es| ensures HasMate(es[i], fs) {
          assert FoundIn(es[i], fs);
          var j :| 0 <= j < |fs| && SameEntry(es[i], fs[j]);
          SameTreeSortsSame(es[i].val, fs[j].val);
          assert Mates(es[i], fs[j]);
        }
        forall j | 0 <= j < |fs| ensures HasMate(fs[j], es) {
          var i :| 0 <= i < |es| && SameEntry(es[i], fs[j]);
          SameTreeSortsSame(es[i].val, fs[j].val);
          assert Mates(fs[j], es[i]);
        }
        MatedSortSame(es, fs);
    }
  }

  /** And only such trees do: nothing is lost by sorting. */
  lemma {:induction false} SortsSameIsSameTree(a: Node, b: Node)
    requires SortNode(a) == SortNode(b)
    ensures SameTree(a, b)
    decreases a
  {
    match a {
      case Scalar(_, _) =>
      case Alias(_) =>
      case Sequence(items) =>
        forall i | 0 <= i < |items| ensures SameTree(items[i], b.items[i]) {
          assert SortNode(a).items[i] == SortNode(b).items[i];
          SortsSameIsSameTree(items[i], b.items[i]);
        }
      case Mapping(es) =>
        var fs := b.entries;
        SortSameMated(es, fs);
        forall i | 0 <= i < |es| ensures FoundIn(es[i], fs) {
          assert HasMate(es[i], fs);
          var j :| 0 <= j < |fs| && Mates(es[i], fs[j]);
          SortsSameIsSameTree(es[i].val, fs[j].val);
          assert SameEntry(es[i], fs[j]);
        }
        forall j | 0 <= j < |fs| ensures exists i :: 0 <= i < |es| && SameEntry(es[i], fs[j]) {
          assert HasMate(fs[j], es);
          var i :| 0 <= i < |es| && Mates(fs[j], es[i]);
          SortsSameIsSameTree(es[i].val, fs[j].val);
          assert SameEntry(es[i], fs[j]);
        }
    }
  }

  /** With distinct key texts, key sorting is a canonical form for trees up to reordering. */
  lemma CanonicalForm(a: Node, b: Node)
    requires DistinctKeys(a) && DistinctKeys(b)
    ensures SortNode(a) == SortNode(b) <==> SameTree(a, b)
  {
    if SortNode(a) == SortNode(b) { SortsSameIsSameTree(a, b); }
    if SameTree(a, b) { SameTreeSortsSame(a, b); }
  }

  /** Without distinct texts it is not: the integer and the string 1 keep whatever order they came in. */
  lemma EqualTextsKeepTheirOrder(u: Node, v: Node)
    ensures var i, s := Entry(Scalar("1", "!!int"), u), Entry(Scalar("1", "!!str"), v);
            SameTree(Mapping([i, s]), Mapping([s, i])) && SortNode(Mapping([i, s])) != SortNode(Mapping([s, i]))
  {
    var i, s := Entry(Scalar("1", "!!int"), u), Entry(Scalar("1", "!!str"), v);
    var a, b := [i, s], [s, i];
    assert SameTree(Mapping(a), Mapping(b)) by {
      SameTreeReflexive(u);
      SameTreeReflexive(v);
      assert SameEntry(a[0], b[1]) && SameEntry(a[1], b[0]);
      assert FoundIn(a[0], b) && FoundIn(a[1], b);
    }
    PairIsOrdered(i, s);
    PairIsOrdered(s, i);
  }

  lemma PairIsOrdered(e: Entry, f: Entry)
    requires KeyText(e.key) == KeyText(f.key)
    ensures |SortNode(Mapping([e, f])).entries| == 2
    ensures SortNode(Mapping([e, f])).entries[0].key == e.key
  {
    var vals := SortVals([e, f]);
    BeforeOneWay(KeyText(e.key), KeyText(f.key));
    assert Ordered(KeyLess, vals);
    OrderedIsFixed(KeyLess, vals);
    SortMapping([e, f]);
  }

  lemma {:induction false} SameTreeReflexive(n: Node)
    ensures SameTree(n, n)
  {
    SortsSameIsSameTree(n, n);
  }
}
