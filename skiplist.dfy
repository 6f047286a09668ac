/** The skip list itself (`Skiplist` in src/skiplist.rs): 21 level heads, the
    highest level in use, and the node arena.  The ghost fields `chains` (one ordered
    chain per level) and `contents` (the stored map) describe what the links encode. */
module Skiplists {
  import opened Links
  import opened Levels

  /** `Result<(), ()>` of `insert`. */
  datatype Result = Ok | Err

  class Skiplist<V> {
    const heads: array<Option<nat>>
    var topLevel: Option<nat>
    var nodes: seq<Node<V>>
    ghost var chains: seq<seq<nat>>
    ghost var contents: map<int, V>

    ghost predicate Valid()
      reads this, heads
    {
      heads.Length == Height &&
      Shape(nodes, heads[..], topLevel, chains) && Abstracts(nodes, contents)
    }

    /** `Skiplist::new`: 21 absent heads, no top level, nothing stored. */
    constructor()
      ensures Valid() && fresh(heads)
      ensures heads[..] == seq(Height, _ => None) && topLevel == None
      ensures nodes == [] && contents == map[]
    {
      heads := new Option<nat>[Height](_ => None);
      topLevel := None;
      nodes := [];
      chains := seq(Height, _ => []);
      contents := map[];
    }

    /** `find_no_greater_than`: walk down from the top level, moving right while the
        next key is not above `key` and keeping the position when dropping a level.
        The result is the stored node with the greatest key not above `key`.  With a
        frame, each level up to the top level records the last node of that level's
        chain not above `key` (absent: before the head); other entries are kept. */
    method FindNoGreaterThan(key: int, frame: Option<seq<Option<nat>>>)
      returns (found: Option<nat>, frameOut: Option<seq<Option<nat>>>)
      requires Valid()
      requires frame.Some? && topLevel.Some? ==> topLevel.value < |frame.value|
      ensures IsFloor(nodes, key, found)
      ensures frameOut.Some? == frame.Some?
      ensures frame.Some? && topLevel.None? ==> frameOut == frame
      ensures frame.Some? && topLevel.Some? ==>
                Recorded(nodes, chains, key, frame.value, frameOut.value, 0, topLevel.value)
    {
      if topLevel.None? {
        found, frameOut := None, frame;
        return;
      }
      var level: nat := topLevel.value;
      var cur: Option<nat> := None;
      ghost var pos: nat := 0;
      var f := frame;
      ghost var orig := if frame.Some? then frame.value else [];
      assert LevelsLinked(nodes, heads[..], chains) && LevelsAscending(nodes, chains) && Nested(chains);
      assert Ascending(nodes, chains[level]);
      while true
        invariant level <= topLevel.value < Height
        invariant ScanAt(nodes, chains[level], key, pos, cur)
        invariant f.Some? == frame.Some?
        invariant f.Some? ==> Recorded(nodes, chains, key, orig, f.value, level + 1, topLevel.value)
        decreases level, |chains[level]| - pos
      {
        assert Linked(nodes, heads[level], chains[level], level);
        NextOfScan(nodes, heads[level], chains[level], level, key, pos, cur);
        var next := if cur.None? then heads[level] else nodes[cur.value].nexts[level];
        if next.Some? && nodes[next.value].elem.key <= key {
          StepRight(nodes, chains[level], key, pos, cur, next);
          cur := next;
          pos := pos + 1;
        } else {
          assert Ascending(nodes, chains[level]);
          StopAtFloor(nodes, chains[level], key, pos, cur, next);
          if f.Some? {
            RecordLevel(nodes, chains, key, orig, f.value, level, topLevel.value, cur);
            f := Some(f.value[level := cur]);
          }
          if level > 0 {
            ghost var above := level;
            level := level - 1;
            assert level + 1 == above;
            assert Ascending(nodes, chains[level]);
            pos := DropLevel(nodes, chains, key, level, pos, cur);
          } else {
            break;
          }
        }
      }
      FloorOfCoveringChain(nodes, chains[0], key, cur);
      found, frameOut := cur, f;
    }

    /** `get`: the value stored under `key`, if any; nothing is changed. */
    method Get(key: int) returns (r: Option<V>)
      requires Valid()
      ensures r == if key in contents then Some(contents[key]) else None
    {
      var found, _ := FindNoGreaterThan(key, None);
      FloorDecides(nodes, contents, key, found);
      if found.Some? && nodes[found.value].elem.key == key {
        r := Some(nodes[found.value].elem.value);
      } else {
        r := None;
      }
    }

    /** `_insert_internal`: a key already stored is refused and nothing changes.
        Otherwise a node of `level + 1` links is built, with `level` drawn from
        `draws`.  When every stored key is above the new one it is prepended at levels
        `0..=level`; otherwise it is linked after its floor at level 0 only.  Either
        way the top level is raised to `level` when absent or lower. */
    method InsertInternal(elem: KVPair<V>, draws: seq<bool>) returns (r: Result)
      requires Valid()
      modifies this, heads
      ensures Valid()
      ensures r == Err <==> elem.key in old(contents)
      ensures r == Err ==> unchanged(this) && unchanged(heads)
      ensures r == Ok ==> contents == old(contents)[elem.key := elem.value]
      ensures r == Ok ==> topLevel == Some(Raise(old(topLevel), DrawnLevel(draws)))
      ensures r == Ok && IsFloor(old(nodes), elem.key, None) ==>
                nodes == old(nodes) + [Node(elem, old(heads[..DrawnLevel(draws) + 1]))] &&
                heads[..] == Redirected(old(heads[..]), old(|nodes|), DrawnLevel(draws))
      ensures r == Ok && !IsFloor(old(nodes), elem.key, None) ==>
                heads[..] == old(heads[..]) &&
                exists p: nat :: IsFloor(old(nodes), elem.key, Some(p)) && p < old(|nodes|) &&
                  0 < |old(nodes)[p].nexts| && nodes == SpliceAfter(old(nodes), p, elem, DrawnLevel(draws))
    {
      ghost var oldNodes, oldHeads, oldTop, oldChains, oldContents := nodes, heads[..], topLevel, chains, contents;
      var found, frame := FindNoGreaterThan(elem.key, Some(seq(Height, _ => None)));
      var level := GenerateLevel(draws);
      assert nodes == oldNodes && heads[..] == oldHeads && topLevel == oldTop;
      assert chains == oldChains && contents == oldContents;
      FloorDecides(oldNodes, oldContents, elem.key, found);
      var n := |nodes|;
      if found.Some? {
        var p := found.value;
        if nodes[p].elem.key == elem.key {
          return Err;
        }
        assert Linked(nodes, heads[0], chains[0], 0) && p in chains[0];
        ghost var j :| 0 <= j < |chains[0]| && chains[0][j] == p;
        MidSplicePreserves(oldNodes, oldHeads, oldTop, oldChains, oldContents, p, j, elem, level);
        assert !IsFloor(oldNodes, elem.key, None);
        LinkAfter(p, elem, level);
        assert heads[..] == oldHeads && nodes == SpliceAfter(oldNodes, p, elem, level);
        chains := Relinked0(oldChains, j, n);
      } else {
        HeadSplicePreserves(oldNodes, oldHeads, oldTop, oldChains, oldContents, elem, level);
        PrependAtHeads(elem, level);
        chains := Prepended(oldChains, n, level);
      }
      if topLevel.None? || level > topLevel.value {
        topLevel := Some(level);
      }
      assert topLevel == Some(Raise(oldTop, level));
      contents := oldContents[elem.key := elem.value];
      r := Ok;
    }

    /** The mid-list splice: a node of `level + 1` absent links takes over `p`'s
        level-0 link, and `p`'s level-0 link points to it; no other link changes. */
    method LinkAfter(p: nat, elem: KVPair<V>, level: nat)
      requires p < |nodes| && 0 < |nodes[p].nexts|
      modifies this
      ensures nodes == SpliceAfter(old(nodes), p, elem, level)
      ensures topLevel == old(topLevel) && chains == old(chains) && contents == old(contents)
    {
      var n := |nodes|;
      var newNode := NewNode(elem, level + 1);
      newNode := newNode.(nexts := newNode.nexts[0 := nodes[p].nexts[0]]);
      nodes := nodes + [newNode];
      nodes := SetNext(nodes, p, 0, Some(n));
    }

    /** The head splice: for every level `i <= level` the new node's link `i` takes
        the old head and head `i` points to the new node. */
    method PrependAtHeads(elem: KVPair<V>, level: nat)
      requires heads.Length == Height && level < Height
      modifies this, heads
      ensures nodes == old(nodes) + [Node(elem, old(heads[..level + 1]))]
      ensures heads[..] == Redirected(old(heads[..]), old(|nodes|), level)
      ensures topLevel == old(topLevel) && chains == old(chains) && contents == old(contents)
    {
      var n := |nodes|;
      var newNode := NewNode(elem, level + 1);
      var i := 0;
      while i <= level
        modifies heads
        invariant i <= level + 1
        invariant newNode.elem == elem && |newNode.nexts| == level + 1
        invariant forall l :: 0 <= l <= level ==> newNode.nexts[l] == if l < i then old(heads[l]) else None
        invariant forall l :: 0 <= l < Height ==> heads[l] == if l < i then Some(n) else old(heads[l])
      {
        newNode := newNode.(nexts := newNode.nexts[i := heads[i]]);
        heads[i] := Some(n);
        i := i + 1;
      }
      assert newNode.nexts == old(heads[..level + 1]);
      nodes := nodes + [newNode];
    }

    /** `insert`: pairs `key` with `value` and inserts the pair. */
    method Insert(key: int, value: V, draws: seq<bool>) returns (r: Result)
      requires Valid()
      modifies this, heads
      ensures Valid()
      ensures r == Err <==> key in old(contents)
      ensures r == Err ==> unchanged(this) && unchanged(heads)
      ensures r == Ok ==> contents == old(contents)[key := value]
      ensures r == Ok ==> topLevel == Some(Raise(old(topLevel), DrawnLevel(draws)))
      ensures r == Ok && IsFloor(old(nodes), key, None) ==>
                nodes == old(nodes) + [Node(KVPair(key, value), old(heads[..DrawnLevel(draws) + 1]))] &&
                heads[..] == Redirected(old(heads[..]), old(|nodes|), DrawnLevel(draws))
      ensures r == Ok && !IsFloor(old(nodes), key, None) ==>
                heads[..] == old(heads[..]) &&
                exists p: nat :: IsFloor(old(nodes), key, Some(p)) && p < old(|nodes|) &&
                  0 < |old(nodes)[p].nexts| && nodes == SpliceAfter(old(nodes), p, KVPair(key, value), DrawnLevel(draws))
    {
      r := InsertInternal(KVPair(key, value), draws);
    }
  }
}
