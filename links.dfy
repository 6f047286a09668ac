/** The node records of the skip list and the shape of its per-level chains.

    The source links nodes through reference-counted cells.  Here every node lives
    in an arena `nodes: seq<Node<V>>` and a link is the optional arena index of the
    next node.  For each level the ghost sequence `chains[level]` lists, in order, the
    nodes reached by following that level's links from `heads[level]`. */
module Links {

  /** Number of level heads: the `heads` vector is built with 21 slots. */
  const Height: nat := 21

  datatype Option<T> = None | Some(value: T)

  /** A key with its value; the key is never changed once the node exists. */
  datatype KVPair<V> = KVPair(key: int, value: V)

  /** A node: its pair and one forward link per level it was built with. */
  datatype Node<V> = Node(elem: KVPair<V>, nexts: seq<Option<nat>>)

  /** `Node::new(elem, height)`: a node whose `height` links are all absent. */
  function NewNode<V>(elem: KVPair<V>, height: nat): (r: Node<V>)
    ensures r.elem == elem && |r.nexts| == height
    ensures forall i :: 0 <= i < height ==> r.nexts[i] == None
  {
    Node(elem, seq(height, _ => None))
  }

  /** The arena after node `n`'s link at `level` is overwritten with `link`. */
  function SetNext<V>(nodes: seq<Node<V>>, n: nat, level: nat, link: Option<nat>): seq<Node<V>>
    requires n < |nodes| && level < |nodes[n].nexts|
  {
    nodes[n := nodes[n].(nexts := nodes[n].nexts[level := link])]
  }

  /** The link to position `i` of a chain: absent past its end. */
  function At(c: seq<nat>, i: nat): Option<nat>
  {
    if i < |c| then Some(c[i]) else None
  }

  function Key<V>(nodes: seq<Node<V>>, n: nat): int
    requires n < |nodes|
  {
    nodes[n].elem.key
  }

  ghost predicate InArena<V>(nodes: seq<Node<V>>, c: seq<nat>)
  {
    forall k :: 0 <= k < |c| ==> c[k] < |nodes|
  }

  /** Chain `c` is exactly what following the links at `level` from `head` visits;
      every node on it has more than `level` links. */
  ghost predicate Linked<V>(nodes: seq<Node<V>>, head: Option<nat>, c: seq<nat>, level: nat)
  {
    head == At(c, 0) &&
    (forall k :: 0 <= k < |c| ==> c[k] < |nodes| && level < |nodes[c[k]].nexts|) &&
    forall i, j :: 0 <= i < |c| && j == i + 1 ==> nodes[c[i]].nexts[level] == At(c, j)
  }

  /** Following the links of chain `c` visits strictly increasing keys. */
  ghost predicate Ascending<V>(nodes: seq<Node<V>>, c: seq<nat>)
  {
    InArena(nodes, c) &&
    forall i, j :: 0 <= i && j == i + 1 && j < |c| ==> Key(nodes, c[i]) < Key(nodes, c[j])
  }

  ghost predicate Within(a: seq<nat>, b: seq<nat>)
  {
    forall n :: n in a ==> n in b
  }

  /** `top` is the highest level index of any node (its height minus one), or absent
      when there are no nodes. */
  ghost predicate TopLevelIs<V>(nodes: seq<Node<V>>, top: Option<nat>)
  {
    match top
    case None => nodes == []
    case Some(t) =>
      t < Height &&
      (forall n :: 0 <= n < |nodes| ==> |nodes[n].nexts| <= t + 1) &&
      exists n :: 0 <= n < |nodes| && |nodes[n].nexts| == t + 1
  }

  ghost predicate Heights<V>(nodes: seq<Node<V>>)
  {
    forall n :: 0 <= n < |nodes| ==> 0 < |nodes[n].nexts| <= Height
  }

  ghost predicate LevelsLinked<V>(nodes: seq<Node<V>>, heads: seq<Option<nat>>, chains: seq<seq<nat>>)
  {
    |heads| == Height && |chains| == Height &&
    forall level {:trigger Linked(nodes, heads[level], chains[level], level)} ::
      0 <= level < Height ==> Linked(nodes, heads[level], chains[level], level)
  }

  ghost predicate LevelsAscending<V>(nodes: seq<Node<V>>, chains: seq<seq<nat>>)
  {
    |chains| == Height &&
    forall level {:trigger Ascending(nodes, chains[level])} ::
      0 <= level < Height ==> Ascending(nodes, chains[level])
  }

  /** Every level's chain only holds nodes of the levels below it. */
  ghost predicate Nested(chains: seq<seq<nat>>)
  {
    |chains| == Height &&
    forall lo, hi {:trigger Within(chains[hi], chains[lo])} ::
      0 <= lo < hi < Height ==> Within(chains[hi], chains[lo])
  }

  /** Level 0 holds the nodes `0..count`. */
  ghost predicate Covered(count: nat, chains: seq<seq<nat>>)
  {
    0 < |chains| && forall n :: 0 <= n < count ==> n in chains[0]
  }

  /** The link structure the code maintains.  Level 0 holds every node; a level's
      chain only holds nodes of the levels below; every chain ascends.  (A node is NOT
      required to sit on every level below its height: insertion after an existing
      node links it at level 0 only.) */
  ghost predicate Shape<V>(nodes: seq<Node<V>>, heads: seq<Option<nat>>, top: Option<nat>, chains: seq<seq<nat>>)
  {
    LevelsLinked(nodes, heads, chains) && LevelsAscending(nodes, chains) &&
    Heights(nodes) && Nested(chains) && Covered(|nodes|, chains) && TopLevelIs(nodes, top)
  }

  /** `contents` is the map the arena stores: each node's pair, and nothing else. */
  ghost predicate Abstracts<V>(nodes: seq<Node<V>>, contents: map<int, V>)
  {
    (forall n :: 0 <= n < |nodes| ==>
       nodes[n].elem.key in contents && contents[nodes[n].elem.key] == nodes[n].elem.value) &&
    (forall k :: k in contents ==> exists n :: 0 <= n < |nodes| && nodes[n].elem.key == k)
  }

  /** `x` is the stored node with the greatest key not above `key`; absent when every
      stored key is above `key`. */
  ghost predicate IsFloor<V>(nodes: seq<Node<V>>, key: int, x: Option<nat>)
  {
    match x
    case None => forall n :: 0 <= n < |nodes| ==> Key(nodes, n) > key
    case Some(m) =>
      m < |nodes| && Key(nodes, m) <= key &&
      forall n :: 0 <= n < |nodes| && Key(nodes, n) <= key ==> Key(nodes, n) <= Key(nodes, m)
  }

  /** `x` is the last node of chain `c` whose key is not above `key`; absent when the
      chain has no such node ("before the head"). */
  ghost predicate IsFloorIn<V>(nodes: seq<Node<V>>, c: seq<nat>, key: int, x: Option<nat>)
    requires InArena(nodes, c)
  {
    match x
    case None => forall k :: 0 <= k < |c| ==> Key(nodes, c[k]) > key
    case Some(m) =>
      m < |nodes| && m in c && Key(nodes, m) <= key &&
      forall k :: 0 <= k < |c| && Key(nodes, c[k]) <= key ==> Key(nodes, c[k]) <= Key(nodes, m)
  }

  /** The new top level after a node of level `level` is added: `top_level` is
      replaced when absent or lower. */
  function Raise(top: Option<nat>, level: nat): (r: nat)
    ensures level <= r
    ensures top.Some? ==> top.value <= r
    ensures r == level || top == Some(r)
  {
    if top.None? || level > top.value then level else top.value
  }

  /** The heads after a new node `n` is prepended at levels `0..=level`. */
  function Redirected(heads: seq<Option<nat>>, n: nat, level: nat): seq<Option<nat>>
  {
    seq(|heads|, i requires 0 <= i < |heads| => if i <= level then Some(n) else heads[i])
  }

  /** The chains after a new node `n` is prepended at levels `0..=level`. */
  function Prepended(chains: seq<seq<nat>>, n: nat, level: nat): seq<seq<nat>>
  {
    seq(|chains|, i requires 0 <= i < |chains| => if i <= level then [n] + chains[i] else chains[i])
  }

  /** Chain `c` with `n` placed right after its position `j`. */
  function InsertAfter(c: seq<nat>, j: nat, n: nat): seq<nat>
    requires j < |c|
  {
    c[..j + 1] + [n] + c[j + 1..]
  }

  /** The chains after `n` is inserted into level 0 right after its position `j`. */
  function Relinked0(chains: seq<seq<nat>>, j: nat, n: nat): seq<seq<nat>>
    requires 0 < |chains| && j < |chains[0]|
  {
    chains[0 := InsertAfter(chains[0], j, n)]
  }

  /** The arena after the mid-list branch: the new node is built with `level + 1`
      links, takes over `p`'s level-0 link, and `p`'s level-0 link points to it. */
  function SpliceAfter<V>(nodes: seq<Node<V>>, p: nat, elem: KVPair<V>, level: nat): seq<Node<V>>
    requires p < |nodes| && 0 < |nodes[p].nexts|
  {
    var n := |nodes|;
    var added := nodes + [NewNode(elem, level + 1)];
    SetNext(SetNext(added, n, 0, nodes[p].nexts[0]), p, 0, Some(n))
  }

  /** Keys along an ascending chain increase between any two positions, so no key
      appears twice on a chain. */
  lemma {:induction false} AscendingPairwise<V>(nodes: seq<Node<V>>, c: seq<nat>, i: nat, j: nat)
    requires Ascending(nodes, c)
    requires i < j < |c|
    ensures Key(nodes, c[i]) < Key(nodes, c[j])
    decreases j - i
  {
    if i + 1 < j {
      AscendingPairwise(nodes, c, i, j - 1);
    }
  }

  lemma AscendingAll<V>(nodes: seq<Node<V>>, c: seq<nat>)
    requires Ascending(nodes, c)
    ensures forall i, j :: 0 <= i < j < |c| ==> Key(nodes, c[i]) < Key(nodes, c[j])
  {
    forall i, j | 0 <= i < j < |c|
      ensures Key(nodes, c[i]) < Key(nodes, c[j])
    {
      AscendingPairwise(nodes, c, i, j);
    }
  }

  /** Where a scan of an ascending chain stops: every key before position `pos` is
      not above `key` and the key at `pos` is.  Then the node before `pos` is the
      chain's floor of `key` (absent when `pos` is 0). */
  lemma FloorAtStop<V>(nodes: seq<Node<V>>, c: seq<nat>, key: int, pos: nat)
    requires Ascending(nodes, c)
    requires pos <= |c|
    requires 0 < pos ==> Key(nodes, c[pos - 1]) <= key
    requires pos < |c| ==> Key(nodes, c[pos]) > key
    ensures IsFloorIn(nodes, c, key, if pos == 0 then None else Some(c[pos - 1]))
  {
    AscendingAll(nodes, c);
    if pos == 0 {
      forall k | 0 <= k < |c|
        ensures Key(nodes, c[k]) > key
      {
        if 0 < k { assert Key(nodes, c[0]) < Key(nodes, c[k]); }
      }
    } else {
      forall k | 0 <= k < |c| && Key(nodes, c[k]) <= key
        ensures Key(nodes, c[k]) <= Key(nodes, c[pos - 1])
      {
        assert k < pos;
      }
    }
  }

  /** A chain that holds every node of the arena has the arena's floor as its floor. */
  lemma FloorOfCoveringChain<V>(nodes: seq<Node<V>>, c: seq<nat>, key: int, x: Option<nat>)
    requires InArena(nodes, c)
    requires forall n :: 0 <= n < |nodes| ==> n in c
    requires IsFloorIn(nodes, c, key, x)
    ensures IsFloor(nodes, key, x)
  {
    match x
    case None =>
      forall n | 0 <= n < |nodes|
        ensures Key(nodes, n) > key
      {
        assert n in c;
        var k :| 0 <= k < |c| && c[k] == n;
      }
    case Some(m) =>
      forall n | 0 <= n < |nodes| && Key(nodes, n) <= key
        ensures Key(nodes, n) <= Key(nodes, m)
      {
        assert n in c;
        var k :| 0 <= k < |c| && c[k] == n;
      }
  }

  /** A scan of chain `c` stands after its first `pos` nodes: `cur` is the last node
      passed (absent at the head) and its key is not above `key`. */
  ghost predicate ScanAt<V>(nodes: seq<Node<V>>, c: seq<nat>, key: int, pos: nat, cur: Option<nat>)
  {
    pos <= |c| && InArena(nodes, c) &&
    cur == (if pos == 0 then None else Some(c[pos - 1])) &&
    (0 < pos ==> Key(nodes, c[pos - 1]) <= key)
  }

  /** The link a scan standing at `pos` follows next is the chain's `pos`-th node. */
  lemma NextOfScan<V>(nodes: seq<Node<V>>, head: Option<nat>, c: seq<nat>, level: nat, key: int,
                      pos: nat, cur: Option<nat>)
    requires Linked(nodes, head, c, level) && ScanAt(nodes, c, key, pos, cur)
    ensures cur.Some? ==> cur.value < |nodes| && level < |nodes[cur.value].nexts|
    ensures (if cur.None? then head else nodes[cur.value].nexts[level]) == At(c, pos)
  {
    if 0 < pos {
      assert nodes[c[pos - 1]].nexts[level] == At(c, pos);
    }
  }

  /** A scan whose next node is not above `key` moves past it. */
  lemma StepRight<V>(nodes: seq<Node<V>>, c: seq<nat>, key: int, pos: nat, cur: Option<nat>, next: Option<nat>)
    requires ScanAt(nodes, c, key, pos, cur) && next == At(c, pos)
    requires next.Some? && next.value < |nodes| && Key(nodes, next.value) <= key
    ensures pos < |c| && ScanAt(nodes, c, key, pos + 1, next)
  {
  }

  /** A scan of an ascending chain stops at the floor of `key`: its next node is
      absent or above `key`. */
  lemma StopAtFloor<V>(nodes: seq<Node<V>>, c: seq<nat>, key: int, pos: nat, cur: Option<nat>, next: Option<nat>)
    requires Ascending(nodes, c)
    requires ScanAt(nodes, c, key, pos, cur) && next == At(c, pos)
    requires next.Some? ==> next.value < |nodes| && Key(nodes, next.value) > key
    ensures IsFloorIn(nodes, c, key, cur)
  {
    FloorAtStop(nodes, c, key, pos);
  }

  /** Dropping from level `level + 1` to `level` keeps the node reached: it sits on the
      lower chain too, so the scan goes on from its position there. */
  lemma DropLevel<V>(nodes: seq<Node<V>>, chains: seq<seq<nat>>, key: int, level: nat,
                     pos: nat, cur: Option<nat>) returns (pos': nat)
    requires Nested(chains) && level + 1 < Height
    requires Ascending(nodes, chains[level])
    requires ScanAt(nodes, chains[level + 1], key, pos, cur)
    ensures ScanAt(nodes, chains[level], key, pos', cur)
  {
    if cur.None? {
      pos' := 0;
    } else {
      assert Within(chains[level + 1], chains[level]);
      assert cur.value in chains[level + 1];
      var k :| 0 <= k < |chains[level]| && chains[level][k] == cur.value;
      pos' := k + 1;
    }
  }

  /** Frame entries `from..=top` hold the floor of `key` on their level's chain; the
      other entries keep their values in `orig`. */
  ghost predicate Recorded<V>(nodes: seq<Node<V>>, chains: seq<seq<nat>>, key: int,
                              orig: seq<Option<nat>>, f: seq<Option<nat>>, from: nat, top: nat)
  {
    |f| == |orig| &&
    forall l {:trigger f[l]} :: 0 <= l < |orig| ==>
      if from <= l <= top
      then l < |chains| && InArena(nodes, chains[l]) && IsFloorIn(nodes, chains[l], key, f[l])
      else f[l] == orig[l]
  }

  /** Recording the floor of level `level` extends the recorded range down to it. */
  lemma RecordLevel<V>(nodes: seq<Node<V>>, chains: seq<seq<nat>>, key: int, orig: seq<Option<nat>>,
                       f: seq<Option<nat>>, level: nat, top: nat, cur: Option<nat>)
    requires Recorded(nodes, chains, key, orig, f, level + 1, top)
    requires level <= top && level < |orig| && level < |chains| && InArena(nodes, chains[level])
    requires IsFloorIn(nodes, chains[level], key, cur)
    ensures Recorded(nodes, chains, key, orig, f[level := cur], level, top)
  {
    var f' := f[level := cur];
    forall l | 0 <= l < |orig|
      ensures if level <= l <= top
              then l < |chains| && InArena(nodes, chains[l]) && IsFloorIn(nodes, chains[l], key, f'[l])
              else f'[l] == orig[l]
    {
      if l == level {
        assert f'[l] == cur;
      } else {
        assert f'[l] == f[l];
      }
    }
    assert |f'| == |orig|;
  }

  /** The floor of `key` decides membership: `key` is stored exactly when its floor
      exists and carries `key`, and the stored value is the floor's value. */
  lemma FloorDecides<V>(nodes: seq<Node<V>>, contents: map<int, V>, key: int, x: Option<nat>)
    requires Abstracts(nodes, contents)
    requires IsFloor(nodes, key, x)
    ensures (key in contents) == (x.Some? && Key(nodes, x.value) == key)
    ensures key in contents ==> contents[key] == nodes[x.value].elem.value
  {
    if key in contents {
      var n :| 0 <= n < |nodes| && nodes[n].elem.key == key;
      assert Key(nodes, n) <= key;
    }
  }

  /** Level 0, followed from its head, holds every stored key exactly once and in
      strictly ascending order. */
  lemma Level0HoldsEachKeyOnce<V>(nodes: seq<Node<V>>, heads: seq<Option<nat>>, top: Option<nat>,
                                  chains: seq<seq<nat>>, contents: map<int, V>)
    requires Shape(nodes, heads, top, chains) && Abstracts(nodes, contents)
    ensures Linked(nodes, heads[0], chains[0], 0)
    ensures forall k :: k in contents <==> exists i :: 0 <= i < |chains[0]| && Key(nodes, chains[0][i]) == k
    ensures forall i, j :: 0 <= i < j < |chains[0]| ==> Key(nodes, chains[0][i]) < Key(nodes, chains[0][j])
  {
    var c := chains[0];
    assert Ascending(nodes, c);
    AscendingAll(nodes, c);
    forall k | k in contents
      ensures exists i :: 0 <= i < |c| && Key(nodes, c[i]) == k
    {
      var n :| 0 <= n < |nodes| && nodes[n].elem.key == k;
      assert n in c;
      var i :| 0 <= i < |c| && c[i] == n;
      assert Key(nodes, c[i]) == k;
    }
  }

  /** `nodes'` is `nodes` with one node carrying `elem` appended, the pairs and
      heights of the old nodes unchanged. */
  ghost predicate Grows<V>(nodes: seq<Node<V>>, nodes': seq<Node<V>>, elem: KVPair<V>)
  {
    |nodes'| == |nodes| + 1 && nodes'[|nodes|].elem == elem &&
    forall m :: 0 <= m < |nodes| ==>
      nodes'[m].elem == nodes[m].elem && |nodes'[m].nexts| == |nodes[m].nexts|
  }

  /** No old node's link at `level` changed. */
  ghost predicate SameAt<V>(nodes: seq<Node<V>>, nodes': seq<Node<V>>, level: nat)
  {
    |nodes| <= |nodes'| &&
    forall m :: 0 <= m < |nodes| && level < |nodes[m].nexts| ==>
      level < |nodes'[m].nexts| && nodes'[m].nexts[level] == nodes[m].nexts[level]
  }

  /** Adding a pair whose key is new stores exactly that pair besides the old ones. */
  lemma AbstractsGrow<V>(nodes: seq<Node<V>>, nodes': seq<Node<V>>, contents: map<int, V>, elem: KVPair<V>)
    requires Abstracts(nodes, contents) && elem.key !in contents
    requires Grows(nodes, nodes', elem)
    ensures Abstracts(nodes', contents[elem.key := elem.value])
  {
    var n := |nodes|;
    var contents' := contents[elem.key := elem.value];
    forall k | k in contents'
      ensures exists m :: 0 <= m < |nodes'| && nodes'[m].elem.key == k
    {
      if k == elem.key {
        assert nodes'[n].elem.key == k;
      } else {
        var m :| 0 <= m < |nodes| && nodes[m].elem.key == k;
        assert nodes'[m].elem.key == k;
      }
    }
  }

  /** A new node of level `level` makes `Raise(top, level)` the top level. */
  lemma TopLevelGrows<V>(nodes: seq<Node<V>>, nodes': seq<Node<V>>, top: Option<nat>, elem: KVPair<V>, level: nat)
    requires TopLevelIs(nodes, top)
    requires Grows(nodes, nodes', elem) && |nodes'[|nodes|].nexts| == level + 1
    requires level < Height
    ensures TopLevelIs(nodes', Some(Raise(top, level)))
  {
    var t := Raise(top, level);
    if t == level {
      assert |nodes'[|nodes|].nexts| == t + 1;
    } else {
      var w :| 0 <= w < |nodes| && |nodes[w].nexts| == top.value + 1;
      assert |nodes'[w].nexts| == t + 1;
    }
  }

  /** A chain whose links were not touched is still linked in the new arena. */
  lemma LinkedKept<V>(nodes: seq<Node<V>>, nodes': seq<Node<V>>, head: Option<nat>, c: seq<nat>, level: nat)
    requires Linked(nodes, head, c, level)
    requires SameAt(nodes, nodes', level)
    ensures Linked(nodes', head, c, level)
  {
  }

  lemma AscendingKept<V>(nodes: seq<Node<V>>, nodes': seq<Node<V>>, c: seq<nat>, elem: KVPair<V>)
    requires Ascending(nodes, c)
    requires Grows(nodes, nodes', elem)
    ensures Ascending(nodes', c)
  {
    forall k | 0 <= k < |c| - 1
      ensures Key(nodes', c[k]) < Key(nodes', c[k + 1])
    {
      assert Key(nodes, c[k]) < Key(nodes, c[k + 1]);
    }
  }

  /** Prepending `n` whose link at `level` is the old head keeps the chain linked. */
  lemma PrependLinked<V>(nodes: seq<Node<V>>, head: Option<nat>, c: seq<nat>, level: nat, n: nat)
    requires Linked(nodes, head, c, level)
    requires n < |nodes| && level < |nodes[n].nexts| && nodes[n].nexts[level] == head
    ensures Linked(nodes, Some(n), [n] + c, level)
  {
    var c' := [n] + c;
    forall k | 0 <= k < |c'|
      ensures c'[k] < |nodes| && level < |nodes[c'[k]].nexts| && nodes[c'[k]].nexts[level] == At(c', k + 1)
    {
      if k > 0 {
        assert c'[k] == c[k - 1] && At(c', k + 1) == At(c, k);
      }
    }
  }

  /** Prepending a key below the chain's first keeps it ascending. */
  lemma PrependAscending<V>(nodes: seq<Node<V>>, c: seq<nat>, n: nat)
    requires Ascending(nodes, c)
    requires n < |nodes| && (c != [] ==> Key(nodes, n) < Key(nodes, c[0]))
    ensures Ascending(nodes, [n] + c)
  {
    var c' := [n] + c;
    forall k | 0 <= k < |c'| - 1
      ensures Key(nodes, c'[k]) < Key(nodes, c'[k + 1])
    {
      if k > 0 {
        assert c'[k] == c[k - 1] && c'[k + 1] == c[k];
      }
    }
  }

  /** One level of the head branch: at levels `0..=level` the new node, whose key is
      below every stored key, is prepended with the old head as its link; above
      `level` nothing changes. */
  lemma HeadSpliceLevel<V>(nodes: seq<Node<V>>, heads: seq<Option<nat>>, chains: seq<seq<nat>>,
                           elem: KVPair<V>, level: nat, L: nat)
    requires |heads| == Height && |chains| == Height && level < Height && L < Height
    requires Linked(nodes, heads[L], chains[L], L) && Ascending(nodes, chains[L])
    requires IsFloor(nodes, elem.key, None)
    ensures var nodes' := nodes + [Node(elem, heads[..level + 1])];
      Linked(nodes', Redirected(heads, |nodes|, level)[L], Prepended(chains, |nodes|, level)[L], L) &&
      Ascending(nodes', Prepended(chains, |nodes|, level)[L])
  {
    var n := |nodes|;
    var nodes' := nodes + [Node(elem, heads[..level + 1])];
    var c := chains[L];
    assert Grows(nodes, nodes', elem);
    assert SameAt(nodes, nodes', L);
    LinkedKept(nodes, nodes', heads[L], c, L);
    AscendingKept(nodes, nodes', c, elem);
    if L <= level {
      assert Prepended(chains, n, level)[L] == [n] + c;
      if c != [] {
        assert Key(nodes, c[0]) > elem.key;
        assert Key(nodes', c[0]) == Key(nodes, c[0]);
      }
      PrependLinked(nodes', heads[L], c, L, n);
      PrependAscending(nodes', c, n);
    }
  }

  /** Every level of the head branch. */
  lemma HeadSpliceLevels<V>(nodes: seq<Node<V>>, heads: seq<Option<nat>>, chains: seq<seq<nat>>,
                            elem: KVPair<V>, level: nat)
    requires LevelsLinked(nodes, heads, chains) && LevelsAscending(nodes, chains)
    requires IsFloor(nodes, elem.key, None) && level < Height
    ensures LevelsLinked(nodes + [Node(elem, heads[..level + 1])], Redirected(heads, |nodes|, level),
                         Prepended(chains, |nodes|, level))
    ensures LevelsAscending(nodes + [Node(elem, heads[..level + 1])], Prepended(chains, |nodes|, level))
  {
    forall L | 0 <= L < Height
      ensures Linked(nodes + [Node(elem, heads[..level + 1])], Redirected(heads, |nodes|, level)[L],
                     Prepended(chains, |nodes|, level)[L], L)
      ensures Ascending(nodes + [Node(elem, heads[..level + 1])], Prepended(chains, |nodes|, level)[L])
    {
      HeadSpliceLevel(nodes, heads, chains, elem, level, L);
    }
  }

  /** Prepending the new node `n` at levels `0..=level` keeps every level within the
      levels below it and puts `n` on level 0 beside all the old nodes. */
  lemma PrependedNesting(chains: seq<seq<nat>>, n: nat, level: nat)
    requires Nested(chains) && Covered(n, chains)
    ensures Nested(Prepended(chains, n, level)) && Covered(n + 1, Prepended(chains, n, level))
  {
    var chains' := Prepended(chains, n, level);
    forall lo, hi | 0 <= lo < hi < Height
      ensures Within(chains'[hi], chains'[lo])
    {
      assert Within(chains[hi], chains[lo]);
    }
    forall m | 0 <= m <= n
      ensures m in chains'[0]
    {
      if m < n { assert m in chains[0]; } else { assert chains'[0][0] == m; }
    }
  }

  /** Appending a node of height at most Height keeps every height in bounds. */
  lemma HeightsGrow<V>(nodes: seq<Node<V>>, nodes': seq<Node<V>>, elem: KVPair<V>)
    requires Heights(nodes) && Grows(nodes, nodes', elem)
    requires 0 < |nodes'[|nodes|].nexts| <= Height
    ensures Heights(nodes')
  {
  }

  /** Head branch: when every stored key is above the new one, prepending the new
      node at levels `0..=level` keeps the shape, raises the top level, and stores the
      new pair. */
  lemma HeadSplicePreserves<V>(nodes: seq<Node<V>>, heads: seq<Option<nat>>, top: Option<nat>,
                               chains: seq<seq<nat>>, contents: map<int, V>, elem: KVPair<V>, level: nat)
    requires Shape(nodes, heads, top, chains) && Abstracts(nodes, contents)
    requires level < Height
    requires IsFloor(nodes, elem.key, None)
    ensures elem.key !in contents
    ensures Shape(nodes + [Node(elem, heads[..level + 1])], Redirected(heads, |nodes|, level),
                  Some(Raise(top, level)), Prepended(chains, |nodes|, level))
    ensures Abstracts(nodes + [Node(elem, heads[..level + 1])], contents[elem.key := elem.value])
  {
    var nodes' := nodes + [Node(elem, heads[..level + 1])];
    FloorDecides(nodes, contents, elem.key, None);
    HeadSpliceLevels(nodes, heads, chains, elem, level);
    PrependedNesting(chains, |nodes|, level);
    assert Grows(nodes, nodes', elem) && |nodes'[|nodes|].nexts| == level + 1;
    HeightsGrow(nodes, nodes', elem);
    TopLevelGrows(nodes, nodes', top, elem, level);
    AbstractsGrow(nodes, nodes', contents, elem);
  }

  /** What the mid-list branch does to the arena: one node appended, `p`'s level-0
      link redirected to it, every other node untouched. */
  lemma SpliceAfterArena<V>(nodes: seq<Node<V>>, p: nat, elem: KVPair<V>, level: nat)
    requires p < |nodes| && 0 < |nodes[p].nexts|
    ensures |SpliceAfter(nodes, p, elem, level)| == |nodes| + 1
    ensures forall m :: 0 <= m < |nodes| && m != p ==> SpliceAfter(nodes, p, elem, level)[m] == nodes[m]
    ensures SpliceAfter(nodes, p, elem, level)[p] == Node(nodes[p].elem, nodes[p].nexts[0 := Some(|nodes|)])
    ensures SpliceAfter(nodes, p, elem, level)[|nodes|] ==
              Node(elem, seq(level + 1, _ => None)[0 := nodes[p].nexts[0]])
  {
  }

  /** Level 0 of the mid-list branch: with `p` at position `j`, linking the new node
      after `p` keeps level 0 linked from the same head. */
  lemma LinkAfterLinked<V>(nodes: seq<Node<V>>, head: Option<nat>, c: seq<nat>,
                           p: nat, j: nat, elem: KVPair<V>, level: nat)
    requires Linked(nodes, head, c, 0) && Ascending(nodes, c)
    requires j < |c| && c[j] == p
    ensures 0 < |nodes[p].nexts|
    ensures Linked(SpliceAfter(nodes, p, elem, level), head, InsertAfter(c, j, |nodes|), 0)
  {
    var n := |nodes|;
    SpliceAfterArena(nodes, p, elem, level);
    var nodes' := SpliceAfter(nodes, p, elem, level);
    var c' := InsertAfter(c, j, n);
    forall i | 0 <= i < |c'|
      ensures c'[i] < |nodes'| && 0 < |nodes'[c'[i]].nexts|
    {
      if i <= j {
        assert c'[i] == c[i];
      } else if i > j + 1 {
        assert c'[i] == c[i - 1];
      }
    }
    forall i, k | 0 <= i < |c'| && k == i + 1
      ensures nodes'[c'[i]].nexts[0] == At(c', k)
    {
      if i < j {
        AscendingPairwise(nodes, c, i, j);
        assert c'[i] == c[i] && At(c', k) == At(c, k);
      } else if i == j {
        assert c'[i] == p;
      } else if i == j + 1 {
        assert c'[i] == n;
        assert At(c', k) == At(c, j + 1);
      } else {
        AscendingPairwise(nodes, c, j, i - 1);
        assert c'[i] == c[i - 1] && At(c', k) == At(c, i);
      }
    }
  }

  /** Level 0 of the mid-list branch: with `p` at position `j` the floor of the new
      key, the new key falls strictly between `p`'s key and its successor's. */
  lemma LinkAfterAscending<V>(nodes: seq<Node<V>>, c: seq<nat>, p: nat, j: nat, elem: KVPair<V>, level: nat)
    requires Ascending(nodes, c)
    requires IsFloor(nodes, elem.key, Some(p)) && Key(nodes, p) != elem.key
    requires j < |c| && c[j] == p && 0 < |nodes[p].nexts|
    ensures Ascending(SpliceAfter(nodes, p, elem, level), InsertAfter(c, j, |nodes|))
  {
    var n := |nodes|;
    SpliceAfterArena(nodes, p, elem, level);
    var nodes' := SpliceAfter(nodes, p, elem, level);
    var c' := InsertAfter(c, j, n);
    assert forall m :: 0 <= m < n ==> Key(nodes', m) == Key(nodes, m);
    forall i, k | 0 <= i && k == i + 1 && k < |c'|
      ensures Key(nodes', c'[i]) < Key(nodes', c'[k])
    {
      if i < j {
        assert c'[i] == c[i] && c'[k] == c[k];
      } else if i == j {
        assert c'[k] == n;
      } else if i == j + 1 {
        assert c'[i] == n && c'[k] == c[j + 1];
        assert Key(nodes, c[j + 1]) > Key(nodes, p);
      } else {
        assert c'[i] == c[i - 1] && c'[k] == c[i];
      }
    }
  }

  /** Every node of `c` is still on `c` once a node is inserted after position `j`. */
  lemma InsertAfterKeeps(c: seq<nat>, j: nat, n: nat, m: nat)
    requires j < |c| && m in c
    ensures m in InsertAfter(c, j, n)
  {
    var i :| 0 <= i < |c| && c[i] == m;
    var c' := InsertAfter(c, j, n);
    if i <= j { assert c'[i] == m; } else { assert c'[i + 1] == m; }
  }

  /** A level above 0 in the mid-list branch: only `p`'s level-0 link changed, so
      the level's chain is still linked and ascending. */
  lemma MidSpliceKeepsLevel<V>(nodes: seq<Node<V>>, head: Option<nat>, c: seq<nat>,
                               p: nat, elem: KVPair<V>, level: nat, L: nat)
    requires Linked(nodes, head, c, L) && Ascending(nodes, c)
    requires p < |nodes| && 0 < |nodes[p].nexts| && 0 < L
    ensures Linked(SpliceAfter(nodes, p, elem, level), head, c, L)
    ensures Ascending(SpliceAfter(nodes, p, elem, level), c)
  {
    var nodes' := SpliceAfter(nodes, p, elem, level);
    assert forall m :: 0 <= m < |nodes| && m != p ==> nodes'[m] == nodes[m];
    assert nodes'[p].nexts == nodes[p].nexts[0 := Some(|nodes|)];
    assert SameAt(nodes, nodes', L);
    LinkedKept(nodes, nodes', head, c, L);
    assert Grows(nodes, nodes', elem);
    AscendingKept(nodes, nodes', c, elem);
  }

  /** Every level of the mid-list branch. */
  lemma MidSpliceLevels<V>(nodes: seq<Node<V>>, heads: seq<Option<nat>>, chains: seq<seq<nat>>,
                           p: nat, j: nat, elem: KVPair<V>, level: nat)
    requires LevelsLinked(nodes, heads, chains) && LevelsAscending(nodes, chains)
    requires IsFloor(nodes, elem.key, Some(p)) && Key(nodes, p) != elem.key
    requires j < |chains[0]| && chains[0][j] == p
    ensures 0 < |nodes[p].nexts|
    ensures LevelsLinked(SpliceAfter(nodes, p, elem, level), heads, Relinked0(chains, j, |nodes|))
    ensures LevelsAscending(SpliceAfter(nodes, p, elem, level), Relinked0(chains, j, |nodes|))
  {
    assert Linked(nodes, heads[0], chains[0], 0) && Ascending(nodes, chains[0]);
    var nodes' := SpliceAfter(nodes, p, elem, level);
    var chains' := Relinked0(chains, j, |nodes|);
    LinkAfterLinked(nodes, heads[0], chains[0], p, j, elem, level);
    LinkAfterAscending(nodes, chains[0], p, j, elem, level);
    forall L | 1 <= L < Height
      ensures Linked(nodes', heads[L], chains'[L], L) && Ascending(nodes', chains'[L])
    {
      assert Linked(nodes, heads[L], chains[L], L) && Ascending(nodes, chains[L]);
      MidSpliceKeepsLevel(nodes, heads[L], chains[L], p, elem, level, L);
    }
  }

  /** Inserting `n` into level 0 keeps every level within the levels below it and
      puts `n` on level 0 beside all the old nodes. */
  lemma InsertAfterNesting(chains: seq<seq<nat>>, j: nat, n: nat)
    requires Nested(chains) && Covered(n, chains) && j < |chains[0]|
    ensures Nested(Relinked0(chains, j, n)) && Covered(n + 1, Relinked0(chains, j, n))
  {
    var c' := InsertAfter(chains[0], j, n);
    var chains' := chains[0 := c'];
    forall lo, hi | 0 <= lo < hi < Height
      ensures Within(chains'[hi], chains'[lo])
    {
      assert Within(chains[hi], chains[lo]);
      if lo == 0 {
        forall m | m in chains[hi] ensures m in c' {
          InsertAfterKeeps(chains[0], j, n, m);
        }
      }
    }
    forall m | 0 <= m <= n
      ensures m in c'
    {
      if m < n {
        InsertAfterKeeps(chains[0], j, n, m);
      } else {
        assert c'[j + 1] == m;
      }
    }
  }

  /** Mid-list branch: when `p`, at position `j` of level 0, is the floor of a new key
      it does not equal, linking the new node after `p` at level 0 only keeps the
      shape (every higher chain and every head unchanged), raises the top level, and
      stores the new pair. */
  lemma MidSplicePreserves<V>(nodes: seq<Node<V>>, heads: seq<Option<nat>>, top: Option<nat>,
                              chains: seq<seq<nat>>, contents: map<int, V>,
                              p: nat, j: nat, elem: KVPair<V>, level: nat)
    requires Shape(nodes, heads, top, chains) && Abstracts(nodes, contents)
    requires level < Height
    requires IsFloor(nodes, elem.key, Some(p)) && Key(nodes, p) != elem.key
    requires j < |chains[0]| && chains[0][j] == p
    ensures 0 < |nodes[p].nexts|
    ensures elem.key !in contents
    ensures Shape(SpliceAfter(nodes, p, elem, level), heads, Some(Raise(top, level)),
                  Relinked0(chains, j, |nodes|))
    ensures Abstracts(SpliceAfter(nodes, p, elem, level), contents[elem.key := elem.value])
  {
    FloorDecides(nodes, contents, elem.key, Some(p));
    MidSpliceLevels(nodes, heads, chains, p, j, elem, level);
    InsertAfterNesting(chains, j, |nodes|);
    var nodes' := SpliceAfter(nodes, p, elem, level);
    SpliceAfterArena(nodes, p, elem, level);
    assert Grows(nodes, nodes', elem) && |nodes'[|nodes|].nexts| == level + 1;
    HeightsGrow(nodes, nodes', elem);
    TopLevelGrows(nodes, nodes', top, elem, level);
    AbstractsGrow(nodes, nodes', contents, elem);
  }

  /** The mid-list branch as written: the new node is built with `level + 1` links,
      yet every link above level 0 stays absent, and following the links of any level
      above 0 from its (unchanged) head visits the same chain as before, which does not
      hold the new node: it is reachable at level 0 only. */
  lemma MidSpliceOnlyLevel0<V>(nodes: seq<Node<V>>, heads: seq<Option<nat>>, chains: seq<seq<nat>>,
                               p: nat, j: nat, elem: KVPair<V>, level: nat)
    requires LevelsLinked(nodes, heads, chains) && LevelsAscending(nodes, chains)
    requires p < |nodes| && j < |chains[0]| && chains[0][j] == p
    ensures 0 < |nodes[p].nexts|
    ensures |SpliceAfter(nodes, p, elem, level)[|nodes|].nexts| == level + 1
    ensures forall l :: 0 < l <= level ==> SpliceAfter(nodes, p, elem, level)[|nodes|].nexts[l] == None
    ensures forall L :: 0 < L < Height ==>
              Linked(SpliceAfter(nodes, p, elem, level), heads[L], chains[L], L) && |nodes| !in chains[L]
  {
    assert Linked(nodes, heads[0], chains[0], 0);
    var nodes' := SpliceAfter(nodes, p, elem, level);
    assert nodes'[|nodes|].nexts == NewNode(elem, level + 1).nexts[0 := nodes[p].nexts[0]];
    forall L | 0 < L < Height
      ensures Linked(nodes', heads[L], chains[L], L) && |nodes| !in chains[L]
    {
      assert Linked(nodes, heads[L], chains[L], L) && Ascending(nodes, chains[L]);
      MidSpliceKeepsLevel(nodes, heads[L], chains[L], p, elem, level, L);
    }
  }
}
