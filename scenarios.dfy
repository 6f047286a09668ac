/** Client-level consequences of the contracts of `Skiplist`: what a caller sees
    through `get` and `insert`, whatever levels the coin flips produce. */
module Scenarios {
  import opened Links
  import opened Skiplists

  /** A freshly built list stores nothing: `get` finds no key. */
  method FreshListFindsNothing(key: int) returns (r: Option<int>)
    ensures r == None
  {
    var list := new Skiplist<int>();
    r := list.Get(key);
  }

  /** One insertion as a caller sees it: a key already present is refused and keeps
      its value; a new key is found with its value afterwards; any other key reads
      as before. */
  method InsertThenGet<V>(list: Skiplist<V>, key: int, value: V, draws: seq<bool>, other: int)
    returns (r: Result, keyBefore: Option<V>, keyAfter: Option<V>, otherBefore: Option<V>, otherAfter: Option<V>)
    requires list.Valid()
    modifies list, list.heads
    ensures list.Valid()
    ensures r == Err <==> keyBefore.Some?
    ensures r == Ok ==> keyAfter == Some(value)
    ensures r == Err ==> keyAfter == keyBefore
    ensures other != key ==> otherAfter == otherBefore
  {
    keyBefore := list.Get(key);
    otherBefore := list.Get(other);
    r := list.Insert(key, value, draws);
    keyAfter := list.Get(key);
    otherAfter := list.Get(other);
  }

  /** Two insertions of keys not yet stored, each key paired with itself: both are
      accepted and the map gains exactly the two pairs. */
  method InsertTwoNewKeys(list: Skiplist<int>, a: int, b: int, da: seq<bool>, db: seq<bool>)
    requires list.Valid() && a != b && a !in list.contents && b !in list.contents
    modifies list, list.heads
    ensures list.Valid() && list.contents == old(list.contents)[a := a][b := b]
  {
    var ra := list.Insert(a, a, da);
    assert ra == Ok;
    var rb := list.Insert(b, b, db);
    assert rb == Ok;
  }

  /** The insertions of the `basic` test, on an empty list. */
  method InsertBasicKeys(list: Skiplist<int>, d1: seq<bool>, d2: seq<bool>, d3: seq<bool>, d5: seq<bool>)
    requires list.Valid() && list.contents == map[]
    modifies list, list.heads
    ensures list.Valid() && list.contents == map[1 := 1, 2 := 2, 3 := 3, 5 := 5]
  {
    InsertTwoNewKeys(list, 1, 2, d1, d2);
    assert list.contents == map[1 := 1, 2 := 2];
    InsertTwoNewKeys(list, 3, 5, d3, d5);
  }

  /** The `basic` test: on an empty list `get(1)` is absent; after inserting 1, 2, 3
      and 5 each is found with its value, inserting 5 again is refused, and 4 and 6
      are absent.  This holds for every sequence of level draws. */
  method BasicScenario(d1: seq<bool>, d2: seq<bool>, d3: seq<bool>, d5: seq<bool>, dAgain: seq<bool>)
    returns (empty1: Option<int>, g1: Option<int>, g2: Option<int>, g3: Option<int>, g5: Option<int>,
             again: Result, g4: Option<int>, g6: Option<int>)
    ensures empty1 == None
    ensures g1 == Some(1) && g2 == Some(2) && g3 == Some(3) && g5 == Some(5)
    ensures again == Err
    ensures g4 == None && g6 == None
  {
    var list := new Skiplist<int>();
    empty1 := list.Get(1);
    InsertBasicKeys(list, d1, d2, d3, d5);
    g1 := list.Get(1);
    g2 := list.Get(2);
    g3 := list.Get(3);
    g5 := list.Get(5);
    again := list.Insert(5, 1, dAgain);
    g4 := list.Get(4);
    g6 := list.Get(6);
  }
}
