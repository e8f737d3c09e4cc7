/**
 * The pre-order directory walk every walker in src/commands/walkers/ and
 * src/commands/walker.rs drives: the `walkdir` crate's `IntoIter` over an
 * abstract filesystem tree, and the walk a walker performs over it once each
 * entry has been classified.
 *
 * A path is the sequence of its components; the root component is the root
 * text exactly as the walker was given it, and the text of a path is its
 * components joined with "/".
 */
module WalkDir {
  import opened Wrappers
  import opened Text

  // ---------------------------------------------------------------- the filesystem

  /**
   * A filesystem entry: a file, or a directory with its entries in the order the
   * operating system lists them and the error, if any, that opening it gives.
   */
  datatype Node =
    | File(name: string)
    | Dir(name: string, children: seq<Node>, readError: Option<string>)

  /** What a walk yields: an entry at a path, or the error from opening the directory at a path. */
  datatype Item =
    | Visit(node: Node, path: seq<string>, parent: string)
    | Broken(path: seq<string>, error: string)

  function PathText(path: seq<string>): string
  {
    Join(path, "/")
  }

  predicate IsDirVisit(it: Item)
  {
    it.Visit? && it.node.Dir?
  }

  /** A real directory never lists two entries under one name. */
  predicate DistinctNames(cs: seq<Node>)
  {
    forall i, j :: 0 <= i < j < |cs| ==> cs[i].name != cs[j].name
  }

  predicate WellFormed(n: Node)
  {
    match n
    case File(_) => true
    case Dir(_, cs, _) => DistinctNames(cs) && forall k :: 0 <= k < |cs| ==> WellFormed(cs[k])
  }

  function NodeSize(n: Node): (r: nat)
    ensures r >= 1
  {
    match n
    case File(_) => 1
    case Dir(_, cs, _) => 2 + NodesSize(cs)
  }

  function NodesSize(ns: seq<Node>): nat
  {
    if ns == [] then 0 else NodeSize(ns[0]) + NodesSize(ns[1..])
  }

  function ItemSize(it: Item): (r: nat)
    ensures r >= 1
  {
    match it
    case Visit(n, _, _) => NodeSize(n)
    case Broken(_, _) => 1
  }

  function ItemsSize(items: seq<Item>): nat
  {
    if items == [] then 0 else ItemSize(items[0]) + ItemsSize(items[1..])
  }

  lemma {:induction false} ItemsSizeAppend(a: seq<Item>, b: seq<Item>)
    ensures ItemsSize(a + b) == ItemsSize(a) + ItemsSize(b)
  {
    if a != [] {
      assert (a + b)[0] == a[0] && (a + b)[1..] == a[1..] + b;
      ItemsSizeAppend(a[1..], b);
    } else {
      assert a + b == b;
    }
  }

  /** The entries of a directory at `path`, each one at its own path under it. */
  function ChildItems(cs: seq<Node>, path: seq<string>): (r: seq<Item>)
    ensures |r| == |cs|
    ensures forall k :: 0 <= k < |cs| ==> r[k] == Visit(cs[k], path + [cs[k].name], PathText(path))
    ensures ItemsSize(r) == NodesSize(cs)
  {
    if cs == [] then []
    else [Visit(cs[0], path + [cs[0].name], PathText(path))] + ChildItems(cs[1..], path)
  }

  /**
   * What walkdir lists after yielding an entry: the entries of a readable directory,
   * the opening error of an unreadable one, and nothing after a file or an error.
   */
  function Expand(it: Item): (r: seq<Item>)
    ensures ItemsSize(r) < ItemSize(it)
    ensures !IsDirVisit(it) ==> r == []
  {
    match it
    case Visit(Dir(_, cs, err), path, _) =>
      if err.Some? then [Broken(path, err.value)] else ChildItems(cs, path)
    case _ => []
  }

  // ---------------------------------------------------------------- the iterator

  /** The work still ahead of an iterator whose stack of open listings is `stack`, top first. */
  function Flatten(stack: seq<seq<Item>>): seq<Item>
  {
    if stack == [] then [] else stack[0] + Flatten(stack[1..])
  }

  /**
   * walkdir's `IntoIter`: a stack of directory listings still being read, the one
   * opened last on top. A directory's listing is pushed when the directory is
   * yielded, so `skip_current_dir` straight after a directory drops exactly its contents.
   */
  class WalkDirIter {
    var stack: seq<seq<Item>>

    /** `WalkDir::new(root).into_iter()`: only the start entry is pending. */
    constructor(start: Item)
      ensures stack == [[start]]
    {
      stack := [[start]];
    }

    /** `Iterator::next`: the first pending item; a directory also opens its listing on top. */
    method Next() returns (r: Option<Item>)
      modifies this
      ensures r.None? <==> old(Flatten(stack)) == []
      ensures r.None? ==> Flatten(stack) == []
      ensures r.Some? ==> r.value == old(Flatten(stack))[0]
      ensures r.Some? ==> Flatten(stack) == Expand(r.value) + old(Flatten(stack))[1..]
      ensures r.Some? && IsDirVisit(r.value) ==>
        stack != [] && stack[0] == Expand(r.value) && Flatten(stack[1..]) == old(Flatten(stack))[1..]
      ensures r.Some? ==> ItemsSize(Flatten(stack)) < old(ItemsSize(Flatten(stack)))
    {
      while stack != [] && stack[0] == []
        invariant Flatten(stack) == old(Flatten(stack))
        decreases |stack|
      {
        stack := stack[1..];
      }
      if stack == [] {
        return None;
      }
      var x := stack[0][0];
      assert Flatten(stack) == [x] + Flatten([stack[0][1..]] + stack[1..]);
      stack := [stack[0][1..]] + stack[1..];
      ghost var rest := Flatten(stack);
      if IsDirVisit(x) {
        stack := [Expand(x)] + stack;
      }
      ItemsSizeAppend(Expand(x), rest);
      r := Some(x);
    }

    /** `skip_current_dir`: drops the listing on top of the stack, if there is one. */
    method SkipCurrentDir()
      modifies this
      ensures stack == if old(stack) == [] then [] else old(stack)[1..]
    {
      if stack != [] {
        stack := stack[1..];
      }
    }
  }

  // ---------------------------------------------------------------- classified walks

  /**
   * A walker's verdict on one item: yield a value, or yield nothing; either way
   * possibly skipping what lies below; or end the process with a message.
   */
  datatype Decision<T> = Emit(value: T, skip: bool) | Pass(skip: bool) | Abort(message: string)

  predicate Skips<T>(d: Decision<T>)
  {
    (d.Emit? || d.Pass?) && d.skip
  }

  datatype Hit<T> = Hit(entry: Item, value: T)

  /** The values a walk yields, in order, and the message it ends on if it is cut short. */
  datatype Walk<T> = Walk(hits: seq<Hit<T>>, stop: Option<string>)

  /** One walk followed by another, unless the first was cut short. */
  function Then<T>(a: Walk<T>, b: Walk<T>): (r: Walk<T>)
    ensures a.stop.Some? ==> r == a
    ensures a.stop.None? ==> r.hits == a.hits + b.hits && r.stop == b.stop
  {
    if a.stop.Some? then a else Walk(a.hits + b.hits, b.stop)
  }

  function Prepend<T>(h: Hit<T>, w: Walk<T>): Walk<T>
  {
    Walk([h] + w.hits, w.stop)
  }

  /** The walk below an item: nothing when it is skipped, its listing otherwise. */
  function Below<T>(it: Item, skip: bool, decide: Item -> Decision<T>): Walk<T>
    decreases ItemSize(it), 0
  {
    if skip then Walk([], None) else ScanList(Expand(it), decide)
  }

  /** The walk from one item: its own verdict first, then what lies below it. */
  function ScanItem<T>(it: Item, decide: Item -> Decision<T>): Walk<T>
    decreases ItemSize(it), 1
  {
    match decide(it)
    case Abort(m) => Walk([], Some(m))
    case Emit(v, skip) => Prepend(Hit(it, v), Below(it, skip, decide))
    case Pass(skip) => Below(it, skip, decide)
  }

  /** The walk over pending items in order, cut short by the first abort. */
  function ScanList<T>(items: seq<Item>, decide: Item -> Decision<T>): Walk<T>
    decreases ItemsSize(items), 2
  {
    if items == [] then Walk([], None)
    else Then(ScanItem(items[0], decide), ScanList(items[1..], decide))
  }

  lemma ThenAssoc<T>(a: Walk<T>, b: Walk<T>, c: Walk<T>)
    ensures Then(Then(a, b), c) == Then(a, Then(b, c))
  {
  }

  /** Scanning two pending lists one after the other is scanning their concatenation. */
  lemma {:induction false} ScanListAppend<T>(a: seq<Item>, b: seq<Item>, decide: Item -> Decision<T>)
    ensures ScanList(a + b, decide) == Then(ScanList(a, decide), ScanList(b, decide))
    decreases |a|
  {
    if a == [] {
      assert a + b == b;
    } else {
      assert (a + b)[0] == a[0];
      assert (a + b)[1..] == a[1..] + b;
      ScanListAppend(a[1..], b, decide);
      ThenAssoc(ScanItem(a[0], decide), ScanList(a[1..], decide), ScanList(b, decide));
    }
  }

  /**
   * One step of a walker's loop: the walk still ahead once `x` has been taken,
   * its verdict acted on and, where it says so, its directory skipped.
   */
  lemma {:induction false} LoopStep<T>(x: Item, rest: seq<Item>, decide: Item -> Decision<T>)
    ensures decide(x).Abort? ==> Then(ScanItem(x, decide), ScanList(rest, decide)) == Walk([], Some(decide(x).message))
    ensures Skips(decide(x)) && decide(x).Emit? ==>
      Then(ScanItem(x, decide), ScanList(rest, decide)) == Prepend(Hit(x, decide(x).value), ScanList(rest, decide))
    ensures Skips(decide(x)) && decide(x).Pass? ==>
      Then(ScanItem(x, decide), ScanList(rest, decide)) == ScanList(rest, decide)
    ensures decide(x) == Pass(false) ==>
      Then(ScanItem(x, decide), ScanList(rest, decide)) == ScanList(Expand(x) + rest, decide)
    ensures decide(x).Emit? && !decide(x).skip ==>
      Then(ScanItem(x, decide), ScanList(rest, decide)) == Prepend(Hit(x, decide(x).value), ScanList(Expand(x) + rest, decide))
  {
    var w := ScanList(rest, decide);
    match decide(x)
    case Abort(m) =>
      assert ScanItem(x, decide) == Walk([], Some(m));
    case Emit(v, skip) =>
      var below := Below(x, skip, decide);
      assert ScanItem(x, decide) == Prepend(Hit(x, v), below);
      ThenPrepend(Hit(x, v), below, w);
      if skip {
        ThenEmpty(w);
      } else {
        ScanListAppend(Expand(x), rest, decide);
      }
    case Pass(skip) =>
      assert ScanItem(x, decide) == Below(x, skip, decide);
      if skip {
        ThenEmpty(w);
      } else {
        ScanListAppend(Expand(x), rest, decide);
      }
  }

  /** An empty, uninterrupted walk followed by another is the other. */
  lemma ThenEmpty<T>(b: Walk<T>)
    ensures Then(Walk([], None), b) == b
  {
    assert [] + b.hits == b.hits;
  }

  /** A hit in front of a walk stays in front of what follows it. */
  lemma ThenPrepend<T>(h: Hit<T>, a: Walk<T>, b: Walk<T>)
    ensures Then(Prepend(h, a), b) == Prepend(h, Then(a, b))
  {
    if a.stop.None? {
      assert [h] + a.hits + b.hits == [h] + (a.hits + b.hits);
    }
  }

  /** An item whose listing is one child: its own verdict, then the child's walk. */
  lemma ScanItemOneChild<T>(it: Item, child: Item, decide: Item -> Decision<T>)
    requires Expand(it) == [child] && ScanItem(child, decide).stop.None?
    ensures decide(it) == Pass(false) ==> ScanItem(it, decide) == ScanItem(child, decide)
    ensures decide(it).Emit? && !decide(it).skip ==>
      ScanItem(it, decide) == Prepend(Hit(it, decide(it).value), ScanItem(child, decide))
  {
    var c := ScanItem(child, decide);
    calc {
      ScanList([child], decide);
      { ScanListCons([child], decide); }
      Then(c, ScanList([], decide));
      { assert c.hits + [] == c.hits; }
      c;
    }
  }

  /** The walk over a non-empty pending list starts with its first item. */
  lemma ScanListCons<T>(items: seq<Item>, decide: Item -> Decision<T>)
    requires items != []
    ensures ScanList(items, decide) == Then(ScanItem(items[0], decide), ScanList(items[1..], decide))
  {
  }

  /**
   * How a walker's `next` moves through its walk: it yields the next value and
   * leaves the rest ahead, or ends the iteration when nothing is left, or ends the
   * process with the message the walk stops on.
   */
  datatype Step<T> = Yield(value: T) | Done | Exit(message: string)

  ghost predicate Advanced<T>(before: Walk<T>, after: Walk<T>, r: Step<T>)
  {
    match r
    case Yield(v) => before.hits != [] && before.hits[0].value == v && after == Walk(before.hits[1..], before.stop)
    case Done => before == Walk([], None)
    case Exit(m) => before == Walk([], Some(m))
  }

  // ---------------------------------------------------------------- what every walk guarantees

  /** Every yielded value is what the walker's verdict on that very entry emitted. */
  lemma {:induction false} ScanItemHits<T>(it: Item, decide: Item -> Decision<T>)
    ensures forall h :: h in ScanItem(it, decide).hits ==> decide(h.entry).Emit? && decide(h.entry).value == h.value
    decreases ItemSize(it), 1
  {
    match decide(it)
    case Abort(_) =>
    case Emit(_, skip) =>
      if !skip {
        ScanListHits(Expand(it), decide);
      }
    case Pass(skip) =>
      if !skip {
        ScanListHits(Expand(it), decide);
      }
  }

  lemma {:induction false} ScanListHits<T>(items: seq<Item>, decide: Item -> Decision<T>)
    ensures forall h :: h in ScanList(items, decide).hits ==> decide(h.entry).Emit? && decide(h.entry).value == h.value
    decreases ItemsSize(items), 2
  {
    if items != [] {
      ScanItemHits(items[0], decide);
      ScanListHits(items[1..], decide);
    }
  }

  predicate IsPrefix(p: seq<string>, q: seq<string>)
  {
    |p| <= |q| && q[..|p|] == p
  }

  /** Every hit lies at or below `p`. */
  predicate Under<T>(hits: seq<Hit<T>>, p: seq<string>)
  {
    forall i :: 0 <= i < |hits| ==> IsPrefix(p, hits[i].entry.path)
  }

  lemma IsPrefixTrans(p: seq<string>, q: seq<string>, r: seq<string>)
    requires IsPrefix(p, q) && IsPrefix(q, r)
    ensures IsPrefix(p, r)
  {
    assert r[..|p|] == r[..|q|][..|p|];
  }

  /** Everything a walk from an entry yields lies at or below that entry's path. */
  lemma {:induction false} ScanItemUnder<T>(it: Item, decide: Item -> Decision<T>)
    ensures Under(ScanItem(it, decide).hits, it.path)
    decreases ItemSize(it), 1
  {
    var d := decide(it);
    if !d.Abort? && !d.skip {
      var below := Expand(it);
      if IsDirVisit(it) && it.node.readError.None? {
        forall k | 0 <= k < |below| ensures IsPrefix(it.path, below[k].path) {
          assert (it.path + [it.node.children[k].name])[..|it.path|] == it.path;
        }
      }
      ScanListUnder(below, it.path, decide);
    }
  }

  lemma {:induction false} ScanListUnder<T>(items: seq<Item>, p: seq<string>, decide: Item -> Decision<T>)
    requires forall k :: 0 <= k < |items| ==> IsPrefix(p, items[k].path)
    ensures Under(ScanList(items, decide).hits, p)
    decreases ItemsSize(items), 2
  {
    if items != [] {
      var a := ScanItem(items[0], decide);
      ScanItemUnder(items[0], decide);
      ScanListUnder(items[1..], p, decide);
      forall i | 0 <= i < |a.hits| ensures IsPrefix(p, a.hits[i].entry.path) {
        IsPrefixTrans(p, items[0].path, a.hits[i].entry.path);
      }
    }
  }

  /** No yielded entry lies at or below another yielded entry. */
  predicate Unnested<T>(hits: seq<Hit<T>>)
  {
    forall i, j :: 0 <= i < |hits| && 0 <= j < |hits| && i != j ==> !IsPrefix(hits[i].entry.path, hits[j].entry.path)
  }

  /** Every emission skips the emitting directory, and an opening error is never emitted. */
  ghost predicate PrunesHits<T>(decide: Item -> Decision<T>)
  {
    forall it :: (decide(it).Emit? ==> decide(it).skip && it.Visit?)
  }

  /** Every hit under a directory's children lies below one of the children, at its own name. */
  predicate UnderChildren<T>(hits: seq<Hit<T>>, p: seq<string>, cs: seq<Node>)
  {
    forall i :: 0 <= i < |hits| ==>
      IsPrefix(p, hits[i].entry.path) && |hits[i].entry.path| > |p| &&
      exists k :: 0 <= k < |cs| && hits[i].entry.path[|p|] == cs[k].name
  }

  lemma {:induction false} UnnestedAppend<T>(a: seq<Hit<T>>, b: seq<Hit<T>>, p: seq<string>, n0: string)
    requires Unnested(a) && Unnested(b)
    requires forall i :: 0 <= i < |a| ==> IsPrefix(p, a[i].entry.path) && |a[i].entry.path| > |p| && a[i].entry.path[|p|] == n0
    requires forall j :: 0 <= j < |b| ==> IsPrefix(p, b[j].entry.path) && |b[j].entry.path| > |p| && b[j].entry.path[|p|] != n0
    ensures Unnested(a + b)
  {
    var c := a + b;
    forall i, j | 0 <= i < |c| && 0 <= j < |c| && i != j ensures !IsPrefix(c[i].entry.path, c[j].entry.path) {
      if i < |a| && j >= |a| {
        var x := c[i].entry.path;
        var y := c[j].entry.path;
        assert x[|p|] == n0 && y[|p|] != n0;
      } else if i >= |a| && j < |a| {
        var x := c[i].entry.path;
        var y := c[j].entry.path;
        assert y[|p|] == n0 && x[|p|] != n0;
      } else if i < |a| {
        assert c[i] == a[i] && c[j] == a[j];
      } else {
        assert c[i] == b[i - |a|] && c[j] == b[j - |a|];
      }
    }
  }

  /** A walker that prunes after every hit never yields one entry inside another. */
  lemma {:induction false} ScanNodeUnnested<T>(n: Node, p: seq<string>, parent: string, decide: Item -> Decision<T>)
    requires WellFormed(n) && PrunesHits(decide)
    ensures Unnested(ScanItem(Visit(n, p, parent), decide).hits)
    decreases n, 1
  {
    var it := Visit(n, p, parent);
    var d := decide(it);
    if d.Pass? && !d.skip {
      match n
      case File(_) =>
        assert ScanItem(it, decide) == Below(it, false, decide) == ScanList([], decide);
      case Dir(_, cs, err) =>
        if err.Some? {
          var b := Broken(p, err.value);
          assert Expand(it) == [b];
          assert !decide(b).Emit?;
          ScanListCons([b], decide);
        } else {
          ScanChildrenUnnested(cs, p, decide);
        }
    }
  }

  lemma {:induction false} ScanChildrenUnnested<T>(cs: seq<Node>, p: seq<string>, decide: Item -> Decision<T>)
    requires DistinctNames(cs) && (forall k :: 0 <= k < |cs| ==> WellFormed(cs[k])) && PrunesHits(decide)
    ensures Unnested(ScanList(ChildItems(cs, p), decide).hits)
    ensures UnderChildren(ScanList(ChildItems(cs, p), decide).hits, p, cs)
    decreases cs, 0
  {
    if cs != [] {
      var items := ChildItems(cs, p);
      var q := p + [cs[0].name];
      var a := ScanItem(items[0], decide);
      var b := ScanList(items[1..], decide);
      assert items[1..] == ChildItems(cs[1..], p);
      ScanNodeUnnested(cs[0], q, PathText(p), decide);
      ScanChildrenUnnested(cs[1..], p, decide);
      ScanItemUnder(items[0], decide);
      ThenUnnested(a, b, p, cs);
    }
  }

  /** The first child's walk followed by the later children's keeps hits unnested and under the children. */
  lemma ThenUnnested<T>(a: Walk<T>, b: Walk<T>, p: seq<string>, cs: seq<Node>)
    requires cs != [] && DistinctNames(cs)
    requires Unnested(a.hits) && Under(a.hits, p + [cs[0].name])
    requires Unnested(b.hits) && UnderChildren(b.hits, p, cs[1..])
    ensures Unnested(Then(a, b).hits) && UnderChildren(Then(a, b).hits, p, cs)
  {
    HitsAtName(a.hits, p, cs[0].name);
    HitsAside(b.hits, p, cs);
    UnderChildrenCons(a.hits, b.hits, p, cs);
    if a.stop.None? {
      UnnestedAppend(a.hits, b.hits, p, cs[0].name);
    }
  }

  /** Hits below `p + [name]` lie below `p`, at `name`. */
  lemma HitsAtName<T>(hits: seq<Hit<T>>, p: seq<string>, name: string)
    requires Under(hits, p + [name])
    ensures forall i :: 0 <= i < |hits| ==> IsPrefix(p, hits[i].entry.path) && |hits[i].entry.path| > |p| && hits[i].entry.path[|p|] == name
  {
    var q := p + [name];
    forall i | 0 <= i < |hits|
      ensures IsPrefix(p, hits[i].entry.path) && |hits[i].entry.path| > |p| && hits[i].entry.path[|p|] == name
    {
      var x := hits[i].entry.path;
      assert x[..|q|] == q;
      assert x[..|p|] == x[..|q|][..|p|];
      assert x[|p|] == x[..|q|][|p|];
    }
  }

  /** Hits below the later children of a directory with distinct names are not at the first child's name. */
  lemma HitsAside<T>(hits: seq<Hit<T>>, p: seq<string>, cs: seq<Node>)
    requires cs != [] && DistinctNames(cs) && UnderChildren(hits, p, cs[1..])
    ensures forall j :: 0 <= j < |hits| ==> IsPrefix(p, hits[j].entry.path) && |hits[j].entry.path| > |p| && hits[j].entry.path[|p|] != cs[0].name
  {
    forall j | 0 <= j < |hits|
      ensures IsPrefix(p, hits[j].entry.path) && |hits[j].entry.path| > |p| && hits[j].entry.path[|p|] != cs[0].name
    {
      var k :| 0 <= k < |cs[1..]| && hits[j].entry.path[|p|] == cs[1..][k].name;
      assert cs[1..][k] == cs[k + 1];
    }
  }

  /** Hits at the first child's name, then hits under the later children, lie under the children. */
  lemma UnderChildrenCons<T>(a: seq<Hit<T>>, b: seq<Hit<T>>, p: seq<string>, cs: seq<Node>)
    requires cs != []
    requires forall i :: 0 <= i < |a| ==> IsPrefix(p, a[i].entry.path) && |a[i].entry.path| > |p| && a[i].entry.path[|p|] == cs[0].name
    requires UnderChildren(b, p, cs[1..])
    ensures UnderChildren(a, p, cs) && UnderChildren(a + b, p, cs)
  {
    forall j | 0 <= j < |b|
      ensures exists k :: 0 <= k < |cs| && b[j].entry.path[|p|] == cs[k].name
    {
      var k :| 0 <= k < |cs[1..]| && b[j].entry.path[|p|] == cs[1..][k].name;
      assert cs[k + 1] == cs[1..][k];
    }
    forall i | 0 <= i < |a|
      ensures IsPrefix(p, a[i].entry.path) && |a[i].entry.path| > |p| && exists k :: 0 <= k < |cs| && a[i].entry.path[|p|] == cs[k].name
    {
      assert 0 < |cs| && a[i].entry.path[|p|] == cs[0].name;
    }
    assert UnderChildren(a, p, cs);
    var c := a + b;
    forall i | 0 <= i < |c|
      ensures IsPrefix(p, c[i].entry.path) && |c[i].entry.path| > |p| && exists k :: 0 <= k < |cs| && c[i].entry.path[|p|] == cs[k].name
    {
      if i < |a| {
        assert c[i] == a[i];
        assert cs[0].name == a[i].entry.path[|p|];
      } else {
        assert c[i] == b[i - |a|];
      }
    }
  }
}
