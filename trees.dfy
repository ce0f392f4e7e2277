/** A uniform view of an AST as a tree of spanned nodes.

    Every node of the tree carries the event its visitor callback records,
    its span, the rule by which that span was obtained, and its structural
    children in field order.  The rules are the span algebra of the AST:

      - `Stored`: the span was given at construction;
      - `Wrap`: the span of the one child (a variant of a sum type);
      - `Cover(fallback)`: first child's start to last child's end, or
        `fallback` when there are no children (`None`: there always are);
      - `Anchored(anchor, fallbackEnd)`: from a stored start to the last
        child's end, or to `fallbackEnd` when there are no children
        (`None`: there always are); the leaves are the nodes with no
        children and a fixed end;
      - `Union`: from the smaller of the first and last child's starts to
        the larger of the last two children's ends.

    `Coherent` says a tree's spans follow its rules; ast_tree.dfy proves it
    of the tree of every AST node.  `Built` asks that siblings follow one
    another in source order, that a stored span contains its children and
    that an anchored start precedes the first child; an empty pattern's
    dummy span can break it (`AstTrees.EmptyQuotedPatternNotBuilt`).  From
    the two, `Soundness` derives that every span is well ordered and contains
    its children's spans, and `PreOrderInSourceOrder` that a pre-order walk
    meets the nodes in source order. */
module Trees {
  import opened Wrappers
  import opened Locations

  datatype Rule =
    | Stored
    | Wrap
    | Cover(fallback: Option<Span>)
    | Anchored(anchor: Location, fallbackEnd: Option<Location>)
    | Union

  datatype Node<K> = Node(kind: K, span: Span, rule: Rule, children: seq<Node<K>>)

  /** The kinds of the nodes of a fully recursing pre-order walk. */
  function Events<K>(t: Node<K>): seq<K>
    decreases t, 1
  {
    [t.kind] + EventsAll(t.children)
  }

  function EventsAll<K>(ts: seq<Node<K>>): seq<K>
    decreases ts
  {
    if ts == [] then [] else EventsAll(ts[..|ts| - 1]) + Events(ts[|ts| - 1])
  }

  /** Every subtree, parents before children, children left to right. */
  function PreOrder<K>(t: Node<K>): seq<Node<K>>
    decreases t, 1
  {
    [t] + PreOrderAll(t.children)
  }

  function PreOrderAll<K>(ts: seq<Node<K>>): seq<Node<K>>
    decreases ts
  {
    if ts == [] then [] else PreOrderAll(ts[..|ts| - 1]) + PreOrder(ts[|ts| - 1])
  }

  function Kinds<K>(ns: seq<Node<K>>): (r: seq<K>)
    ensures |r| == |ns| && forall i :: 0 <= i < |ns| ==> r[i] == ns[i].kind
  {
    seq(|ns|, i requires 0 <= i < |ns| => ns[i].kind)
  }

  /** The number of nodes of a tree. */
  function Size<K>(t: Node<K>): nat
    decreases t, 1
  {
    1 + SizeAll(t.children)
  }

  function SizeAll<K>(ts: seq<Node<K>>): nat
    decreases ts
  {
    if ts == [] then 0 else SizeAll(ts[..|ts| - 1]) + Size(ts[|ts| - 1])
  }

  /** Consecutive siblings do not overlap and appear in source order. */
  ghost predicate Adjacent<K>(ts: seq<Node<K>>)
  {
    forall i :: 0 <= i && i + 1 < |ts| ==> ts[i].span.end <= ts[i + 1].span.start
  }

  /** Every span of `ts` lies within `outer`. */
  ghost predicate Within<K>(ts: seq<Node<K>>, outer: Span)
  {
    forall i :: 0 <= i < |ts| ==> outer.start <= ts[i].span.start && ts[i].span.end <= outer.end
  }

  /** The span of `t` is the one its rule gives for its children. */
  ghost predicate LocallyCoherent<K>(t: Node<K>)
  {
    var cs := t.children;
    match t.rule
    case Stored => true
    case Wrap => |cs| == 1 && t.span == cs[0].span
    case Cover(fb) =>
      if cs == [] then fb.Some? && t.span == fb.value && fb.value.start <= fb.value.end
      else t.span == Span(cs[0].span.start, cs[|cs| - 1].span.end)
    case Anchored(a, fe) =>
      if cs == [] then fe.Some? && t.span == Span(a, fe.value) && a <= fe.value
      else t.span == Span(a, cs[|cs| - 1].span.end)
    case Union =>
      cs != [] &&
      var prev := if |cs| >= 2 then |cs| - 2 else 0;
      t.span == Span(Min(cs[0].span.start, cs[|cs| - 1].span.start),
                     Max(cs[prev].span.end, cs[|cs| - 1].span.end))
  }

  ghost predicate Coherent<K>(t: Node<K>)
    decreases t
  {
    LocallyCoherent(t) && forall i :: 0 <= i < |t.children| ==> Coherent(t.children[i])
  }

  /** Every tree of `ts` follows the span rules. */
  ghost predicate AllCoherent<K>(ts: seq<Node<K>>)
  {
    forall i :: 0 <= i < |ts| ==> Coherent(ts[i])
  }

  lemma AllCoherentAppend<K>(a: seq<Node<K>>, b: seq<Node<K>>)
    requires AllCoherent(a) && AllCoherent(b)
    ensures AllCoherent(a + b)
  {
    forall i | 0 <= i < |a + b| ensures Coherent((a + b)[i]) {
      if i < |a| { assert (a + b)[i] == a[i]; } else { assert (a + b)[i] == b[i - |a|]; }
    }
  }

  lemma AllCoherentTriple<K>(a: seq<Node<K>>, b: seq<Node<K>>, c: seq<Node<K>>)
    requires AllCoherent(a) && AllCoherent(b) && AllCoherent(c)
    ensures AllCoherent(a + b + c)
  {
    AllCoherentAppend(a, b);
    AllCoherentAppend(a + b, c);
  }

  /** Containment and order of one node: its children follow one another in
      source order, a stored span is well ordered and contains the
      children, and an anchored start precedes the first child.  A node
      whose children's spans are derived with a fallback (an empty pattern's
      span is the dummy location) need not satisfy it. */
  ghost predicate LocallyBuilt<K>(t: Node<K>)
  {
    Adjacent(t.children) &&
    match t.rule
    case Stored => t.span.start <= t.span.end && Within(t.children, t.span)
    case Anchored(a, _) => t.children != [] ==> a <= t.children[0].span.start
    case _ => true
  }

  ghost predicate Built<K>(t: Node<K>)
    decreases t
  {
    LocallyBuilt(t) && forall i :: 0 <= i < |t.children| ==> Built(t.children[i])
  }

  /** Every span is well ordered, siblings are in source order and every
      child lies within its parent. */
  ghost predicate Sound<K>(t: Node<K>)
    decreases t
  {
    t.span.start <= t.span.end && Adjacent(t.children) && Within(t.children, t.span) &&
    forall i :: 0 <= i < |t.children| ==> Sound(t.children[i])
  }

  lemma {:induction false} ChainAt<K>(ts: seq<Node<K>>, i: nat, j: nat)
    requires Adjacent(ts)
    requires forall k :: 0 <= k < |ts| ==> ts[k].span.start <= ts[k].span.end
    requires i < j < |ts|
    ensures ts[i].span.end <= ts[j].span.start
    decreases j - i
  {
    if i + 1 < j {
      ChainAt(ts, i + 1, j);
    }
  }

  /** Adjacent well-ordered siblings lie between the first start and the
      last end. */
  lemma Chain<K>(ts: seq<Node<K>>)
    requires Adjacent(ts)
    requires forall k :: 0 <= k < |ts| ==> ts[k].span.start <= ts[k].span.end
    ensures forall i, j :: 0 <= i < j < |ts| ==> ts[i].span.end <= ts[j].span.start
    ensures ts != [] ==> Within(ts, Span(ts[0].span.start, ts[|ts| - 1].span.end))
  {
    forall i, j | 0 <= i < j < |ts| ensures ts[i].span.end <= ts[j].span.start {
      ChainAt(ts, i, j);
    }
  }

  /** A coherent tree that satisfies `Built` is sound. */
  lemma {:induction false} Soundness<K>(t: Node<K>)
    requires Coherent(t) && Built(t)
    ensures Sound(t)
    decreases t
  {
    var cs := t.children;
    forall i | 0 <= i < |cs| ensures Sound(cs[i]) {
      Soundness(cs[i]);
    }
    Chain(cs);
    if cs != [] {
      var last := |cs| - 1;
      var prev := if |cs| >= 2 then |cs| - 2 else 0;
      assert cs[0].span.start <= cs[last].span.start;
      assert cs[prev].span.end <= cs[last].span.end;
    }
  }

  lemma {:induction false} EventsAllAppend<K>(a: seq<Node<K>>, b: seq<Node<K>>)
    ensures EventsAll(a + b) == EventsAll(a) + EventsAll(b)
    decreases |b|
  {
    if b == [] {
      assert a + b == a;
    } else {
      var b', last := b[..|b| - 1], b[|b| - 1];
      var ab := a + b;
      assert ab[..|ab| - 1] == a + b';
      assert ab[|ab| - 1] == last;
      assert EventsAll(ab) == EventsAll(a + b') + Events(last);
      EventsAllAppend(a, b');
      assert EventsAll(b) == EventsAll(b') + Events(last);
      assert EventsAll(a) + EventsAll(b') + Events(last) == EventsAll(a) + (EventsAll(b') + Events(last));
    }
  }

  lemma EventsAllSingle<K>(t: Node<K>)
    ensures EventsAll([t]) == Events(t)
  {
    assert [t][..0] == [];
  }

  lemma EventsAllPair<K>(a: Node<K>, b: Node<K>)
    ensures EventsAll([a, b]) == Events(a) + Events(b)
  {
    assert [a, b][..1] == [a];
    EventsAllSingle(a);
  }

  lemma EventsAllTriple<K>(a: seq<Node<K>>, b: seq<Node<K>>, c: seq<Node<K>>)
    ensures EventsAll(a + b + c) == EventsAll(a) + EventsAll(b) + EventsAll(c)
  {
    EventsAllAppend(a, b);
    EventsAllAppend(a + b, c);
  }

  lemma {:induction false} KindsAppend<K>(a: seq<Node<K>>, b: seq<Node<K>>)
    ensures Kinds(a + b) == Kinds(a) + Kinds(b)
  {
  }

  /** The event sequence of a tree is the kinds of its nodes in pre-order. */
  lemma {:induction false} EventsArePreOrder<K>(t: Node<K>)
    ensures Events(t) == Kinds(PreOrder(t))
    decreases t, 1
  {
    EventsAllArePreOrderAll(t.children);
    KindsAppend([t], PreOrderAll(t.children));
  }

  lemma {:induction false} EventsAllArePreOrderAll<K>(ts: seq<Node<K>>)
    ensures EventsAll(ts) == Kinds(PreOrderAll(ts))
    decreases ts
  {
    if ts != [] {
      EventsAllArePreOrderAll(ts[..|ts| - 1]);
      EventsArePreOrder(ts[|ts| - 1]);
      KindsAppend(PreOrderAll(ts[..|ts| - 1]), PreOrder(ts[|ts| - 1]));
    }
  }

  /** One event per node. */
  lemma {:induction false} EventCount<K>(t: Node<K>)
    ensures |Events(t)| == Size(t)
    decreases t, 1
  {
    EventCountAll(t.children);
  }

  lemma {:induction false} EventCountAll<K>(ts: seq<Node<K>>)
    ensures |EventsAll(ts)| == SizeAll(ts)
    decreases ts
  {
    if ts != [] {
      EventCountAll(ts[..|ts| - 1]);
      EventCount(ts[|ts| - 1]);
    }
  }

  /** In a sound tree, a pre-order walk starts at the root, meets every
      node inside the root's span, and meets the nodes in the order their
      spans start in the source. */
  lemma {:induction false} PreOrderInSourceOrder<K>(t: Node<K>)
    requires Sound(t)
    ensures PreOrder(t)[0] == t
    ensures forall i :: 0 <= i < |PreOrder(t)| ==>
      t.span.start <= PreOrder(t)[i].span.start <= PreOrder(t)[i].span.end <= t.span.end
    ensures forall i, j :: 0 <= i < j < |PreOrder(t)| ==>
      PreOrder(t)[i].span.start <= PreOrder(t)[j].span.start
    decreases t, 1
  {
    var cs := t.children;
    var q := PreOrderAll(cs);
    PreOrderAllInSourceOrder(cs);
    assert PreOrder(t) == [t] + q;
    if cs != [] {
      assert t.span.start <= cs[0].span.start && cs[|cs| - 1].span.end <= t.span.end;
    }
  }

  lemma {:induction false} PreOrderAllInSourceOrder<K>(ts: seq<Node<K>>)
    requires Adjacent(ts)
    requires forall k :: 0 <= k < |ts| ==> Sound(ts[k])
    ensures ts == [] ==> PreOrderAll(ts) == []
    ensures ts != [] ==> forall i :: 0 <= i < |PreOrderAll(ts)| ==>
      ts[0].span.start <= PreOrderAll(ts)[i].span.start <= PreOrderAll(ts)[i].span.end <= ts[|ts| - 1].span.end
    ensures forall i, j :: 0 <= i < j < |PreOrderAll(ts)| ==>
      PreOrderAll(ts)[i].span.start <= PreOrderAll(ts)[j].span.start
    decreases ts
  {
    if ts != [] {
      var n := |ts|;
      var init := ts[..n - 1];
      var p := PreOrderAll(init);
      var r := PreOrder(ts[n - 1]);
      assert PreOrderAll(ts) == p + r;
      assert Adjacent(init);
      PreOrderAllInSourceOrder(init);
      PreOrderInSourceOrder(ts[n - 1]);
      Chain(ts);
      if n >= 2 {
        assert ts[n - 2].span.end <= ts[n - 1].span.start;
        assert forall i :: 0 <= i < |p| ==> p[i].span.end <= ts[n - 1].span.start;
        assert forall i :: 0 <= i < |p| ==> ts[0].span.start <= p[i].span.start;
      }
      assert forall i :: 0 <= i < |r| ==> ts[0].span.start <= r[i].span.start;
      forall i, j | 0 <= i < j < |p + r|
        ensures (p + r)[i].span.start <= (p + r)[j].span.start
      {
        if j < |p| {
        } else if i >= |p| {
          assert (p + r)[i] == r[i - |p|] && (p + r)[j] == r[j - |p|];
        } else {
          assert (p + r)[i] == p[i] && (p + r)[j] == r[j - |p|];
        }
      }
    }
  }
}
