/** An abstract directory tree and the three traversal disciplines the variants
    use: the full pre-order walk, walkdir's `filter_entry` (a rejected entry is
    neither yielded nor descended) and the ignore crate's walk (its own filter
    rejects entries as `filter_entry` does, except the start directory, and
    `WalkState::Skip` visits an entry without descending). Child order is taken
    as given. */
module Tree {
  import opened Recency

  /** A node of the tree. `Broken` stands where the walker yields an error instead
      of an entry (an unreadable directory listing, a link loop). */
  datatype Node =
    | Dir(name: string, stamps: Stamps, children: seq<Node>)
    | File(name: string, stamps: Stamps)
    | Other(name: string, stamps: Stamps)
    | Broken(msg: string)

  /** One item a walker yields: the node, its path, and the base names of the
      directories above it, outermost first. */
  datatype Visit = Visit(node: Node, path: string, above: seq<string>)

  /** `Path::join` of a directory path and a base name. */
  function Join(dir: string, name: string): string
  {
    dir + "/" + name
  }

  /** The path reported for a child; an error carries its parent's path. */
  function ChildPath(dir: string, n: Node): string
  {
    if n.Broken? then dir else Join(dir, n.name)
  }

  /** Every node of the tree in pre-order. */
  function All(n: Node, path: string, above: seq<string>): seq<Visit>
    decreases n, 1
  {
    [Visit(n, path, above)] + (if n.Dir? then AllOf(n.children, path, above + [n.name]) else [])
  }

  function AllOf(ns: seq<Node>, dir: string, above: seq<string>): seq<Visit>
    decreases ns, 0
  {
    if |ns| == 0 then []
    else All(ns[0], ChildPath(dir, ns[0]), above) + AllOf(ns[1..], dir, above)
  }

  /** walkdir's `filter_entry(keep)`: errors pass through; an entry whose base name
      fails `keep` is not yielded, and a directory so rejected is not entered. */
  function Walk(n: Node, path: string, above: seq<string>, keep: string -> bool): (r: seq<Visit>)
    ensures (n.Broken? || keep(n.name)) <==> r != []
    ensures r != [] ==> r[0] == Visit(n, path, above)
    decreases n, 1
  {
    if n.Broken? then [Visit(n, path, above)]
    else if !keep(n.name) then []
    else [Visit(n, path, above)] + (if n.Dir? then WalkOf(n.children, path, above + [n.name], keep) else [])
  }

  function WalkOf(ns: seq<Node>, dir: string, above: seq<string>, keep: string -> bool): seq<Visit>
    decreases ns, 0
  {
    if |ns| == 0 then []
    else Walk(ns[0], ChildPath(dir, ns[0]), above, keep) + WalkOf(ns[1..], dir, above, keep)
  }

  /** The ignore crate's parallel walk below the start directory, flattened: an
      entry whose base name fails the crate's own filter `keep` (hidden entries,
      with `hidden(true)`) is neither handed to the callback nor entered; every
      other entry is handed to the callback, and a directory for which `skip` holds
      is not entered. Errors pass through. */
  function Descend(n: Node, path: string, above: seq<string>, keep: string -> bool, skip: Visit -> bool): (r: seq<Visit>)
    ensures (n.Broken? || keep(n.name)) <==> r != []
    ensures r != [] ==> r[0] == Visit(n, path, above)
    decreases n, 1
  {
    if n.Broken? then [Visit(n, path, above)]
    else if !keep(n.name) then []
    else
      [Visit(n, path, above)] +
      (if n.Dir? && !skip(Visit(n, path, above)) then DescendOf(n.children, path, above + [n.name], keep, skip) else [])
  }

  function DescendOf(ns: seq<Node>, dir: string, above: seq<string>, keep: string -> bool, skip: Visit -> bool): seq<Visit>
    decreases ns, 0
  {
    if |ns| == 0 then []
    else Descend(ns[0], ChildPath(dir, ns[0]), above, keep, skip) + DescendOf(ns[1..], dir, above, keep, skip)
  }

  /** The whole parallel walk: the start directory itself is never filtered, its
      descendants are walked as in `Descend`. */
  function Crawl(n: Node, path: string, keep: string -> bool, skip: Visit -> bool): (r: seq<Visit>)
    ensures r != [] && r[0] == Visit(n, path, [])
  {
    [Visit(n, path, [])] +
    (if n.Dir? && !skip(Visit(n, path, [])) then DescendOf(n.children, path, [n.name], keep, skip) else [])
  }

  /** A visit survives `filter_entry(keep)` when its own name and every directory
      above it pass `keep`. */
  predicate Visible(v: Visit, keep: string -> bool)
  {
    (forall i :: 0 <= i < |v.above| ==> keep(v.above[i])) &&
    (v.node.Broken? || keep(v.node.name))
  }

  /** The visits of `vs` that are visible, in their original order. */
  function Filter(vs: seq<Visit>, keep: string -> bool): (r: seq<Visit>)
    ensures forall v :: v in r <==> v in vs && Visible(v, keep)
    ensures |r| <= |vs|
  {
    if |vs| == 0 then []
    else (if Visible(vs[0], keep) then [vs[0]] else []) + Filter(vs[1..], keep)
  }

  lemma {:induction false} FilterAppend(a: seq<Visit>, b: seq<Visit>, keep: string -> bool)
    ensures Filter(a + b, keep) == Filter(a, keep) + Filter(b, keep)
    decreases |a|
  {
    if |a| == 0 {
      assert a + b == b;
    } else {
      assert (a + b)[1..] == a[1..] + b;
      FilterAppend(a[1..], b, keep);
    }
  }

  lemma FilterNone(vs: seq<Visit>, keep: string -> bool)
    requires forall v :: v in vs ==> !Visible(v, keep)
    ensures Filter(vs, keep) == []
  {
  }

  /** Every visit below `above` inherits `above` as the start of its ancestry. */
  lemma {:induction false} AllOfAbove(ns: seq<Node>, dir: string, above: seq<string>)
    ensures forall v :: v in AllOf(ns, dir, above) ==> above <= v.above
    decreases ns, 0
  {
    if |ns| > 0 {
      AllAbove(ns[0], ChildPath(dir, ns[0]), above);
      AllOfAbove(ns[1..], dir, above);
    }
  }

  lemma {:induction false} AllAbove(n: Node, path: string, above: seq<string>)
    ensures forall v :: v in All(n, path, above) ==> above <= v.above
    ensures n.Dir? ==> forall v :: v in All(n, path, above)[1..] ==> above + [n.name] <= v.above
    decreases n, 1
  {
    if n.Dir? {
      AllOfAbove(n.children, path, above + [n.name]);
      assert All(n, path, above)[1..] == AllOf(n.children, path, above + [n.name]);
    }
  }

  /** Pruning during descent is the same as filtering the full pre-order walk by
      "the entry and every directory above it pass `keep`": a rejected directory
      contributes none of its descendants, everything else keeps its order. */
  lemma {:induction false} WalkIsFilteredAll(n: Node, path: string, above: seq<string>, keep: string -> bool)
    requires forall i :: 0 <= i < |above| ==> keep(above[i])
    ensures Walk(n, path, above, keep) == Filter(All(n, path, above), keep)
    decreases n, 1
  {
    var v := Visit(n, path, above);
    var rest := if n.Dir? then AllOf(n.children, path, above + [n.name]) else [];
    assert All(n, path, above) == [v] + rest;
    FilterAppend([v], rest, keep);
    if n.Broken? {
      assert Visible(v, keep);
    } else if !keep(n.name) {
      assert !Visible(v, keep);
      if n.Dir? {
        AllAbove(n, path, above);
        assert rest == All(n, path, above)[1..];
        forall u | u in rest
          ensures !Visible(u, keep)
        {
          assert above + [n.name] <= u.above;
          assert u.above[|above|] == n.name;
        }
        FilterNone(rest, keep);
      }
    } else {
      assert Visible(v, keep);
      if n.Dir? {
        var above' := above + [n.name];
        assert forall i :: 0 <= i < |above'| ==> keep(above'[i]);
        WalkOfIsFilteredAllOf(n.children, path, above', keep);
      }
    }
  }

  lemma {:induction false} WalkOfIsFilteredAllOf(ns: seq<Node>, dir: string, above: seq<string>, keep: string -> bool)
    requires forall i :: 0 <= i < |above| ==> keep(above[i])
    ensures WalkOf(ns, dir, above, keep) == Filter(AllOf(ns, dir, above), keep)
    decreases ns, 0
  {
    if |ns| > 0 {
      WalkIsFilteredAll(ns[0], ChildPath(dir, ns[0]), above, keep);
      WalkOfIsFilteredAllOf(ns[1..], dir, above, keep);
      FilterAppend(All(ns[0], ChildPath(dir, ns[0]), above), AllOf(ns[1..], dir, above), keep);
    }
  }

  /** From the root: the filtered walk yields exactly the visible visits of the full
      walk, so nothing beneath a rejected directory is ever yielded. */
  lemma PruneExactly(root: Node, path: string, keep: string -> bool)
    ensures forall v :: v in Walk(root, path, [], keep) <==> v in All(root, path, []) && Visible(v, keep)
    ensures forall v, i :: v in Walk(root, path, [], keep) && 0 <= i < |v.above| ==> keep(v.above[i])
  {
    WalkIsFilteredAll(root, path, [], keep);
  }

  /** With a skip decision that never fires, the ignore-style walk prunes exactly as
      walkdir's `filter_entry` does with the same filter. */
  lemma {:induction false} DescendWithoutSkipIsWalk(n: Node, path: string, above: seq<string>,
                                                    keep: string -> bool, skip: Visit -> bool)
    requires forall v :: !skip(v)
    ensures Descend(n, path, above, keep, skip) == Walk(n, path, above, keep)
    decreases n, 1
  {
    if n.Dir? && keep(n.name) {
      DescendOfWithoutSkipIsWalkOf(n.children, path, above + [n.name], keep, skip);
    }
  }

  lemma {:induction false} DescendOfWithoutSkipIsWalkOf(ns: seq<Node>, dir: string, above: seq<string>,
                                                        keep: string -> bool, skip: Visit -> bool)
    requires forall v :: !skip(v)
    ensures DescendOf(ns, dir, above, keep, skip) == WalkOf(ns, dir, above, keep)
    decreases ns, 0
  {
    if |ns| > 0 {
      DescendWithoutSkipIsWalk(ns[0], ChildPath(dir, ns[0]), above, keep, skip);
      DescendOfWithoutSkipIsWalkOf(ns[1..], dir, above, keep, skip);
    }
  }

  /** Without `Skip`, the parallel walk is walkdir's filtered walk except that the
      start directory is always yielded; when the start directory passes the filter
      the two are the same. */
  lemma CrawlWithoutSkipIsWalk(n: Node, path: string, keep: string -> bool, skip: Visit -> bool)
    requires forall v :: !skip(v)
    requires n.Broken? || keep(n.name)
    ensures Crawl(n, path, keep, skip) == Walk(n, path, [], keep)
  {
    if n.Dir? {
      assert !skip(Visit(n, path, []));
      assert [] + [n.name] == [n.name];
      DescendOfWithoutSkipIsWalkOf(n.children, path, [n.name], keep, skip);
    }
  }

  /** Without `Skip` and without a filter, the parallel walk reaches every node in
      pre-order. */
  lemma CrawlKeepingAllIsAll(n: Node, path: string, keep: string -> bool, skip: Visit -> bool)
    requires forall v :: !skip(v)
    requires forall name :: keep(name)
    ensures Crawl(n, path, keep, skip) == All(n, path, [])
  {
    CrawlWithoutSkipIsWalk(n, path, keep, skip);
    WalkKeepingAllIsAll(n, path, keep);
  }

  /** Every entry the ignore-style walk yields below `above` passes the filter, and
      so does every directory between `above` and it. */
  lemma {:induction false} DescendKeeps(n: Node, path: string, above: seq<string>, keep: string -> bool, skip: Visit -> bool)
    ensures forall v :: v in Descend(n, path, above, keep, skip) ==>
              above <= v.above && (v.node.Broken? || keep(v.node.name)) &&
              forall i :: |above| <= i < |v.above| ==> keep(v.above[i])
    decreases n, 1
  {
    if n.Dir? && keep(n.name) && !skip(Visit(n, path, above)) {
      DescendOfKeeps(n.children, path, above + [n.name], keep, skip);
    }
  }

  lemma {:induction false} DescendOfKeeps(ns: seq<Node>, dir: string, above: seq<string>, keep: string -> bool, skip: Visit -> bool)
    ensures forall v :: v in DescendOf(ns, dir, above, keep, skip) ==>
              above <= v.above && (v.node.Broken? || keep(v.node.name)) &&
              forall i :: |above| <= i < |v.above| ==> keep(v.above[i])
    decreases ns, 0
  {
    if |ns| > 0 {
      DescendKeeps(ns[0], ChildPath(dir, ns[0]), above, keep, skip);
      DescendOfKeeps(ns[1..], dir, above, keep, skip);
    }
  }

  /** Below the start directory the parallel walk yields no entry that fails the
      filter, and nothing beneath a directory that fails it. */
  lemma CrawlKeeps(n: Node, path: string, keep: string -> bool, skip: Visit -> bool)
    ensures forall v :: v in Crawl(n, path, keep, skip) && |v.above| > 0 ==>
              (v.node.Broken? || keep(v.node.name)) &&
              forall i :: 1 <= i < |v.above| ==> keep(v.above[i])
  {
    if n.Dir? && !skip(Visit(n, path, [])) {
      DescendOfKeeps(n.children, path, [n.name], keep, skip);
    }
  }

  /** The filtered walk depends only on which names the filter accepts. */
  lemma {:induction false} WalkSameKeep(n: Node, path: string, above: seq<string>, k1: string -> bool, k2: string -> bool)
    requires forall name :: k1(name) == k2(name)
    ensures Walk(n, path, above, k1) == Walk(n, path, above, k2)
    decreases n, 1
  {
    if n.Dir? && k1(n.name) {
      WalkOfSameKeep(n.children, path, above + [n.name], k1, k2);
    }
  }

  lemma {:induction false} WalkOfSameKeep(ns: seq<Node>, dir: string, above: seq<string>, k1: string -> bool, k2: string -> bool)
    requires forall name :: k1(name) == k2(name)
    ensures WalkOf(ns, dir, above, k1) == WalkOf(ns, dir, above, k2)
    decreases ns, 0
  {
    if |ns| > 0 {
      WalkSameKeep(ns[0], ChildPath(dir, ns[0]), above, k1, k2);
      WalkOfSameKeep(ns[1..], dir, above, k1, k2);
    }
  }

  /** A keep predicate that accepts every name leaves the walk unpruned. */
  lemma WalkKeepingAllIsAll(n: Node, path: string, keep: string -> bool)
    requires forall name :: keep(name)
    ensures Walk(n, path, [], keep) == All(n, path, [])
  {
    WalkIsFilteredAll(n, path, [], keep);
    FilterAll(All(n, path, []), keep);
  }

  lemma FilterAll(vs: seq<Visit>, keep: string -> bool)
    requires forall name :: keep(name)
    ensures Filter(vs, keep) == vs
  {
  }
}
