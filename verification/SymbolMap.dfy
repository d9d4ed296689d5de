/**
 cmocka's symbol map in memory: a circular list of entries, each entry with the embedded head of
 a list of its own, down to lists of records. Nodes, entries and records come from malloc and go
 to free. Every list of the map is known by the path of names that leads to it.
 */
module SymbolMap {
  import opened CircularList
  import opened ValueQueue
  import opened Wrappers

  // ---------- Objects ----------

  class SymbolValue {
    var value: int

    constructor (value: int)
      ensures this.value == value
    {
      this.value := value;
    }
  }

  // A name, and the embedded head of the list below it.
  class SymbolMapValue {
    var name: string
    const head: ListNode<Payload>

    constructor (name: string)
      ensures this.name == name && fresh(head) && Ring(head, [])
    {
      this.name := name;
      head := new ListNode<Payload>();
    }
  }

  // What a node's value points to.
  datatype Payload = RecordAt(record: SymbolValue) | EntryAt(entry: SymbolMapValue)

  type Node = ListNode<Payload>

  // free: the object must be live, and nothing is known about its contents afterwards.
  method FreeNode(node: Node, ghost live: set<object>) returns (ghost rest: set<object>)
    requires node in live
    modifies node
    ensures rest == live - {node}
  {
    rest := live - {node};
  }

  method FreeRecord(record: SymbolValue, ghost live: set<object>) returns (ghost rest: set<object>)
    requires record in live
    modifies record
    ensures rest == live - {record}
  {
    rest := live - {record};
  }

  // The embedded list head goes with its entry.
  method FreeEntry(entry: SymbolMapValue, ghost live: set<object>) returns (ghost rest: set<object>)
    requires entry in live && entry.head in live
    modifies entry, entry.head
    ensures rest == live - {entry, entry.head}
  {
    rest := live - {entry, entry.head};
  }

  // ---------- One list ----------

  // A record or an entry together with what it contains.
  datatype Value = Record(record: SymbolValue, value: int) | Named(entry: SymbolMapValue, name: string)

  // A list as the sequence of its nodes, with what they carry and their counts.
  datatype List = List(head: Node, nodes: seq<Node>, values: seq<Value>, counts: seq<int>)

  ghost function Target(v: Value): object {
    match v case Record(r, _) => r case Named(e, _) => e
  }

  ghost function PointerTo(v: Value): Payload {
    match v case Record(r, _) => RecordAt(r) case Named(e, _) => EntryAt(e)
  }

  // The object contains what it is said to contain.
  ghost predicate Stored(v: Value)
    reads Target(v)
  {
    match v case Record(r, value) => r.value == value case Named(e, name) => e.name == name
  }

  // The nodes of the list are in memory as described.
  ghost predicate Holds(list: List)
    reads list.head, list.nodes
  {
    && Ring(list.head, list.nodes)
    && |list.nodes| == |list.values| == |list.counts|
    && (forall i {:trigger list.nodes[i].value} :: 0 <= i < |list.nodes| ==>
          list.nodes[i].value == To(PointerTo(list.values[i])))
    && (forall i {:trigger list.nodes[i].refcount} :: 0 <= i < |list.nodes| ==> list.nodes[i].refcount == list.counts[i])
  }

  ghost function Appended(list: List, node: Node, v: Value, count: int): List {
    List(list.head, list.nodes + [node], list.values + [v], list.counts + [count])
  }

  // list_add_value
  method AddValue(head: Node, value: Payload, count: int, ghost list: List, ghost v: Value) returns (node: Node)
    requires Holds(list) && list.head == head && value == PointerTo(v)
    modifies head, list.nodes
    ensures fresh(node)
    ensures Holds(Appended(list, node, v, count))
  {
    node := new ListNode<Payload>.Unlinked(value, count);
    ListAdd(head, node, list.nodes);
  }

  ghost function Dropped(list: List, i: int): List
    requires 0 <= i < |list.nodes| == |list.values| == |list.counts|
  {
    List(list.head, Without(list.nodes, i), Without(list.values, i), Without(list.counts, i))
  }

  lemma StillIn<T>(s: seq<T>, i: nat, x: T)
    requires i < |s| && Distinct(s)
    ensures x in Without(s, i) <==> x in s && x != s[i]
  {
    if x in s && x != s[i] {
      var j :| 0 <= j < |s| && s[j] == x;
      assert Without(s, i)[if j < i then j else j - 1] == x;
    }
  }

  // list_remove_free; what becomes of the value is up to the caller.
  method RemoveFree(node: Node, ghost live: set<object>, ghost list: List, ghost i: nat)
    returns (ghost rest: set<object>)
    requires Holds(list) && i < |list.nodes| && list.nodes[i] == node && node in live
    modifies list.head, list.nodes
    ensures Holds(Dropped(list, i))
    ensures rest == live - {node}
  {
    StillIn(list.nodes, i, node);
    ghost var others := {list.head} + NodeSet(Without(list.nodes, i));
    ListRemove(node, list.head, list.nodes, i);
    assert Holds(Dropped(list, i)) && node !in others;
    label Unlinked:
    rest := FreeNode(node, live);
    assert unchanged@Unlinked(others);
  }

  method SetCount(node: Node, count: int, ghost list: List, ghost i: nat)
    requires Holds(list) && i < |list.nodes| && list.nodes[i] == node
    modifies node`refcount
    ensures Holds(list.(counts := list.counts[i := count]))
  {
    node.refcount := count;
  }

  // ---------- All lists of a map ----------

  type Path = seq<string>

  // Where a live object belongs: to the list of a path, or to none.
  datatype Place = Loose(held: Value) | In(path: Path)

  // The lists of a map by their paths, and every object that is allocated and not freed.
  datatype Map = Map(lists: map<Path, List>, home: map<object, Place>)

  ghost predicate DistinctTargets(values: seq<Value>) {
    forall i, j :: 0 <= i < j < |values| ==> Target(values[i]) != Target(values[j])
  }

  // The objects of a list are at home in it, and therefore in no other.
  ghost predicate Placed(list: List, p: Path, home: map<object, Place>) {
    && list.head in home && home[list.head] == In(p)
    && (forall n :: n in list.nodes ==> n in home && home[n] == In(p))
    && (forall v :: v in list.values ==> Target(v) in home && home[Target(v)] == In(p))
    && DistinctTargets(list.values)
  }

  ghost predicate AllPlaced(m: Map) {
    forall p :: p in m.lists ==> Placed(m.lists[p], p, m.home)
  }

  ghost predicate Owns(list: List, o: object) {
    || o == list.head
    || (exists i :: 0 <= i < |list.nodes| && list.nodes[i] == o)
    || (exists i :: 0 <= i < |list.values| && Target(list.values[i]) == o)
  }

  // Every object that has a list is in it.
  ghost predicate NoStrays(m: Map) {
    forall o :: o in m.home && m.home[o].In? ==> m.home[o].path in m.lists && Owns(m.lists[m.home[o].path], o)
  }

  ghost predicate IsLoose(m: Map, o: object) {
    o in m.home && m.home[o].Loose?
  }

  // A loose object with these contents.
  ghost predicate Holding(m: Map, v: Value) {
    Target(v) in m.home && m.home[Target(v)] == Loose(v)
  }

  // The live records and entries.
  ghost function Boxes(m: Map): set<object> {
    set o | o in m.home && (o is SymbolValue || o is SymbolMapValue)
  }

  // They contain what they are said to contain, out of the lists and in them.
  ghost predicate LooseOk(m: Map)
    reads Boxes(m)
  {
    forall o :: o in m.home && m.home[o].Loose? ==> o in Boxes(m) && Target(m.home[o].held) == o && Stored(m.home[o].held)
  }

  ghost predicate ListedOk(m: Map)
    reads Boxes(m)
  {
    forall p, v :: p in m.lists && v in m.lists[p].values ==> Target(v) in Boxes(m) && Stored(v)
  }

  ghost predicate ContentsOk(m: Map)
    reads Boxes(m)
  {
    LooseOk(m) && ListedOk(m)
  }

  // The objects outside of one list, and the other lists.
  ghost function Elsewhere(m: Map, p: Path): set<object> {
    set o | o in m.home && m.home[o] != In(p)
  }

  ghost predicate OthersHold(m: Map, p: Path)
    requires AllPlaced(m)
    reads Elsewhere(m, p)
  {
    forall q :: q in m.lists && q != p ==> Placed(m.lists[q], q, m.home) && Holds(m.lists[q])
  }

  ghost predicate InMemory(m: Map)
    reads m.home.Keys
  {
    && AllPlaced(m)
    && ContentsOk(m)
    && forall p :: p in m.lists ==> Placed(m.lists[p], p, m.home) && Holds(m.lists[p])
  }

  // ---------- Changing one list of a map ----------

  ghost function WithCell(m: Map, p: Path, node: Node, v: Value, count: int): Map
    requires p in m.lists
  {
    Map(m.lists[p := Appended(m.lists[p], node, v, count)], m.home[node := In(p)][Target(v) := In(p)])
  }

  lemma AppendedOwns(list: List, node: Node, v: Value, count: int, o: object)
    ensures Owns(Appended(list, node, v, count), o) <==> Owns(list, o) || o == node || o == Target(v)
  {
    var list' := Appended(list, node, v, count);
    assert list'.nodes[|list.nodes|] == node && list'.values[|list.values|] == v;
    assert forall i :: 0 <= i < |list.nodes| ==> list'.nodes[i] == list.nodes[i];
    assert forall i :: 0 <= i < |list.values| ==> list'.values[i] == list.values[i];
  }

  lemma WithCellPlaced(m: Map, p: Path, node: Node, v: Value, count: int)
    requires AllPlaced(m) && p in m.lists && node !in m.home && Holding(m, v)
    ensures AllPlaced(WithCell(m, p, node, v, count))
  {
    var m' := WithCell(m, p, node, v, count);
    forall q | q in m.lists ensures Placed(m'.lists[q], q, m'.home) {
      assert Placed(m.lists[q], q, m.home);
    }
  }

  lemma WithCellNoStrays(m: Map, p: Path, node: Node, v: Value, count: int)
    requires NoStrays(m) && p in m.lists
    ensures NoStrays(WithCell(m, p, node, v, count))
  {
    var m' := WithCell(m, p, node, v, count);
    forall o | o in m'.home && m'.home[o].In? ensures m'.home[o].path in m'.lists && Owns(m'.lists[m'.home[o].path], o) {
      AppendedOwns(m.lists[p], node, v, count, o);
    }
  }

  lemma WithCellContents(m: Map, p: Path, node: Node, v: Value, count: int)
    requires ContentsOk(m) && p in m.lists && node !in m.home && Holding(m, v)
    ensures ContentsOk(WithCell(m, p, node, v, count))
  {
    var m' := WithCell(m, p, node, v, count);
    assert Boxes(m) <= Boxes(m');
    forall q, w | q in m'.lists && w in m'.lists[q].values ensures Target(w) in Boxes(m') && Stored(w) {
      assert w in m.lists[q].values || w == v;
    }
  }

  // list_add_value: another value at the end of a list; the value is not in the map yet.
  method AppendTo(head: Node, value: Payload, count: int, ghost m: Map, ghost p: Path, ghost v: Value)
    returns (node: Node, ghost m': Map)
    requires InMemory(m) && p in m.lists && m.lists[p].head == head && value == PointerTo(v) && Holding(m, v)
    modifies m.home.Keys
    ensures fresh(node)
    ensures m' == WithCell(m, p, node, v, count)
    ensures InMemory(m')
  {
    ghost var others, boxes := Elsewhere(m, p), Boxes(m);
    assert Placed(m.lists[p], p, m.home) && OthersHold(m, p);
    assert head !in others && forall n :: n in m.lists[p].nodes ==> n !in others;
    node := AddValue(head, value, count, m.lists[p], v);
    assert unchanged(others) && unchanged(boxes);
    assert OthersHold(m, p) && ContentsOk(m);
    m' := WithCell(m, p, node, v, count);
    WithCellPlaced(m, p, node, v, count);
    WithCellContents(m, p, node, v, count);
  }

  ghost predicate Even(list: List) {
    |list.nodes| == |list.values| == |list.counts|
  }

  ghost function WithoutCell(m: Map, p: Path, i: int): Map
    requires p in m.lists && 0 <= i < |m.lists[p].nodes| && Even(m.lists[p])
  {
    var list := m.lists[p];
    Map(m.lists[p := Dropped(list, i)], (m.home - {list.nodes[i]})[Target(list.values[i]) := Loose(list.values[i])])
  }

  lemma OtherTarget(values: seq<Value>, i: nat, v: Value)
    requires i < |values| && DistinctTargets(values) && v in Without(values, i)
    ensures v in values && Target(v) != Target(values[i])
  {
    var j :| 0 <= j < |values| - 1 && Without(values, i)[j] == v;
    assert v == values[if j < i then j else j + 1];
  }

  lemma DroppedTargets(values: seq<Value>, i: nat)
    requires i < |values| && DistinctTargets(values)
    ensures DistinctTargets(Without(values, i))
  {
    var values' := Without(values, i);
    assert forall j :: 0 <= j < |values'| ==> values'[j] == values[if j < i then j else j + 1];
  }

  lemma DroppedPlaced(m: Map, p: Path, i: nat)
    requires p in m.lists && Placed(m.lists[p], p, m.home) && i < |m.lists[p].nodes| && Even(m.lists[p])
    requires Distinct(m.lists[p].nodes) && m.lists[p].head !in m.lists[p].nodes
    ensures Placed(Dropped(m.lists[p], i), p, WithoutCell(m, p, i).home)
  {
    var list, home' := m.lists[p], WithoutCell(m, p, i).home;
    DroppedTargets(list.values, i);
    forall n | n in Dropped(list, i).nodes ensures n in home' && home'[n] == In(p) {
      StillIn(list.nodes, i, n);
    }
    forall v | v in Dropped(list, i).values ensures Target(v) in home' && home'[Target(v)] == In(p) {
      OtherTarget(list.values, i, v);
    }
  }

  lemma WithoutCellPlaced(m: Map, p: Path, i: nat)
    requires AllPlaced(m) && p in m.lists && i < |m.lists[p].nodes| && Even(m.lists[p]) && Distinct(m.lists[p].nodes)
    requires m.lists[p].head !in m.lists[p].nodes
    ensures AllPlaced(WithoutCell(m, p, i))
  {
    var m', list := WithoutCell(m, p, i), m.lists[p];
    assert Placed(list, p, m.home);
    assert list.nodes[i] in list.nodes && list.values[i] in list.values;
    DroppedPlaced(m, p, i);
    forall q | q in m.lists && q != p ensures Placed(m'.lists[q], q, m'.home) {
      assert Placed(m.lists[q], q, m.home);
    }
  }

  lemma DroppedOwns(list: List, i: nat, o: object)
    requires i < |list.nodes| && Even(list) && Owns(list, o) && o != list.nodes[i] && o != Target(list.values[i])
    ensures Owns(Dropped(list, i), o)
  {
    if k :| 0 <= k < |list.nodes| && list.nodes[k] == o {
      assert Dropped(list, i).nodes[if k < i then k else k - 1] == o;
    } else if k :| 0 <= k < |list.values| && Target(list.values[k]) == o {
      assert Dropped(list, i).values[if k < i then k else k - 1] == list.values[k];
    }
  }

  lemma WithoutCellNoStrays(m: Map, p: Path, i: nat)
    requires AllPlaced(m) && NoStrays(m) && p in m.lists && i < |m.lists[p].nodes| && Even(m.lists[p])
    ensures NoStrays(WithoutCell(m, p, i))
  {
    var m', list := WithoutCell(m, p, i), m.lists[p];
    forall o | o in m'.home && m'.home[o].In? ensures m'.home[o].path in m'.lists && Owns(m'.lists[m'.home[o].path], o) {
      assert Owns(m.lists[m.home[o].path], o);
      if m.home[o].path == p {
        DroppedOwns(list, i, o);
      }
    }
  }

  lemma WithoutCellContents(m: Map, p: Path, i: nat)
    requires ContentsOk(m) && p in m.lists && i < |m.lists[p].nodes| && Even(m.lists[p])
    ensures ContentsOk(WithoutCell(m, p, i))
  {
    var m', list := WithoutCell(m, p, i), m.lists[p];
    assert list.values[i] in list.values;
    assert Boxes(m') == Boxes(m);
    forall q, w | q in m'.lists && w in m'.lists[q].values ensures Target(w) in Boxes(m') && Stored(w) {
      assert w in m.lists[q].values;
    }
  }

  lemma WithoutCellKeys(m: Map, p: Path, i: nat)
    requires p in m.lists && i < |m.lists[p].nodes| && Even(m.lists[p]) && Placed(m.lists[p], p, m.home)
    ensures WithoutCell(m, p, i).home.Keys == m.home.Keys - {m.lists[p].nodes[i]}
  {
    assert m.lists[p].values[i] in m.lists[p].values;
  }

  // list_remove_free without the cleanup: the value is no longer part of the map.
  method TakeOut(node: Node, ghost m: Map, ghost p: Path, ghost i: nat) returns (ghost m': Map)
    requires InMemory(m) && p in m.lists && i < |m.lists[p].nodes| && m.lists[p].nodes[i] == node
    modifies m.home.Keys
    ensures Even(m.lists[p]) && m' == WithoutCell(m, p, i)
    ensures InMemory(m')
  {
    ghost var others, boxes, list := Elsewhere(m, p), Boxes(m), m.lists[p];
    assert Placed(list, p, m.home) && OthersHold(m, p);
    assert list.head !in others && forall n :: n in list.nodes ==> n !in others;
    assert node in list.nodes && list.values[i] in list.values;
    ghost var live := RemoveFree(node, m.home.Keys, list, i);
    assert unchanged(others) && unchanged(boxes);
    assert OthersHold(m, p) && ContentsOk(m);
    m' := WithoutCell(m, p, i);
    WithoutCellPlaced(m, p, i);
    WithoutCellContents(m, p, i);
    WithoutCellKeys(m, p, i);
    assert live == m'.home.Keys;
  }

  ghost function WithCount(m: Map, p: Path, i: int, count: int): Map
    requires p in m.lists && 0 <= i < |m.lists[p].counts|
  {
    m.(lists := m.lists[p := m.lists[p].(counts := m.lists[p].counts[i := count])])
  }

  lemma WithCountPlaced(m: Map, p: Path, i: nat, count: int)
    requires AllPlaced(m) && p in m.lists && i < |m.lists[p].counts|
    ensures AllPlaced(WithCount(m, p, i, count))
    ensures NoStrays(m) ==> NoStrays(WithCount(m, p, i, count))
  {
    var m' := WithCount(m, p, i, count);
    forall q | q in m.lists ensures Placed(m'.lists[q], q, m'.home) {
      assert Placed(m.lists[q], q, m.home);
    }
  }

  lemma WithCountContents(m: Map, p: Path, i: nat, count: int)
    requires ContentsOk(m) && p in m.lists && i < |m.lists[p].counts|
    ensures ContentsOk(WithCount(m, p, i, count))
  {
    var m' := WithCount(m, p, i, count);
    assert Boxes(m') == Boxes(m);
    forall q, w | q in m'.lists && w in m'.lists[q].values ensures Target(w) in Boxes(m') && Stored(w) {
      assert w in m.lists[q].values;
    }
  }

  method SetCountAt(node: Node, count: int, ghost m: Map, ghost p: Path, ghost i: nat) returns (ghost m': Map)
    requires InMemory(m) && p in m.lists && i < |m.lists[p].nodes| && m.lists[p].nodes[i] == node
    modifies m.home.Keys
    ensures Even(m.lists[p]) && m' == WithCount(m, p, i, count)
    ensures InMemory(m')
  {
    ghost var others, boxes, list := Elsewhere(m, p), Boxes(m), m.lists[p];
    assert Placed(list, p, m.home) && OthersHold(m, p);
    assert node in list.nodes && node !in others;
    SetCount(node, count, list, i);
    assert unchanged(others) && unchanged(boxes);
    assert OthersHold(m, p) && ContentsOk(m);
    m' := WithCount(m, p, i, count);
    WithCountPlaced(m, p, i, count);
    WithCountContents(m, p, i, count);
  }

  ghost function WithList(m: Map, q: Path, e: SymbolMapValue, name: string): Map {
    Map(m.lists[q := List(e.head, [], [], [])], m.home[e := Loose(Named(e, name))][e.head := In(q)])
  }

  lemma WithListPlaced(m: Map, q: Path, e: SymbolMapValue, name: string)
    requires AllPlaced(m) && q !in m.lists && e !in m.home && e.head !in m.home
    ensures AllPlaced(WithList(m, q, e, name))
  {
    var m' := WithList(m, q, e, name);
    forall p | p in m.lists ensures Placed(m'.lists[p], p, m'.home) {
      assert Placed(m.lists[p], p, m.home);
    }
  }

  lemma WithListNoStrays(m: Map, q: Path, e: SymbolMapValue, name: string)
    requires NoStrays(m) && q !in m.lists && e !in m.home && e.head !in m.home
    ensures NoStrays(WithList(m, q, e, name))
  {
  }

  lemma WithListContents(m: Map, q: Path, e: SymbolMapValue, name: string)
    requires ContentsOk(m) && q !in m.lists && e !in m.home && e.head !in m.home && e.name == name
    ensures ContentsOk(WithList(m, q, e, name))
  {
    var m' := WithList(m, q, e, name);
    assert Boxes(m) <= Boxes(m') && e in Boxes(m');
    forall p, w | p in m'.lists && w in m'.lists[p].values ensures Target(w) in Boxes(m') && Stored(w) {
      assert w in m.lists[p].values;
    }
  }

  // A new entry with its empty list, which is linked in later.
  method NewEntry(name: string, ghost m: Map, ghost q: Path) returns (e: SymbolMapValue, ghost m': Map)
    requires InMemory(m) && q !in m.lists
    ensures fresh(e) && fresh(e.head)
    ensures m' == WithList(m, q, e, name)
    ensures InMemory(m')
  {
    ghost var others, boxes := Elsewhere(m, q), Boxes(m);
    assert OthersHold(m, q);
    e := new SymbolMapValue(name);
    assert unchanged(others) && unchanged(boxes);
    assert OthersHold(m, q) && ContentsOk(m);
    assert Holds(List(e.head, [], [], []));
    m' := WithList(m, q, e, name);
    WithListPlaced(m, q, e, name);
    WithListContents(m, q, e, name);
  }

  ghost function WithoutList(m: Map, q: Path, e: SymbolMapValue): Map {
    Map(m.lists - {q}, m.home - {e, e.head})
  }

  lemma WithoutListPlaced(m: Map, q: Path, e: SymbolMapValue)
    requires AllPlaced(m) && q in m.lists && m.lists[q].head == e.head && IsLoose(m, e)
    ensures AllPlaced(WithoutList(m, q, e))
  {
    var m' := WithoutList(m, q, e);
    assert Placed(m.lists[q], q, m.home);
    forall p | p in m'.lists ensures Placed(m'.lists[p], p, m'.home) {
      assert Placed(m.lists[p], p, m.home);
    }
  }

  lemma BoxesLeft(m: Map, q: Path, e: SymbolMapValue)
    ensures forall o :: o in Boxes(m) && o != e ==> o in Boxes(WithoutList(m, q, e))
  {
  }

  lemma OtherValue(m: Map, e: SymbolMapValue, p: Path, w: Value)
    requires AllPlaced(m) && ContentsOk(m) && IsLoose(m, e) && p in m.lists && w in m.lists[p].values
    ensures Target(w) in Boxes(m) && Target(w) != e && Stored(w)
  {
    assert Placed(m.lists[p], p, m.home);
  }

  lemma WithoutListLoose(m: Map, q: Path, e: SymbolMapValue)
    requires LooseOk(m)
    ensures LooseOk(WithoutList(m, q, e))
  {
    BoxesLeft(m, q, e);
  }

  // Nothing that is left refers to the entry.
  lemma WithoutListContents(m: Map, q: Path, e: SymbolMapValue)
    requires AllPlaced(m) && ContentsOk(m) && q in m.lists && IsLoose(m, e)
    ensures ContentsOk(WithoutList(m, q, e))
  {
    var m' := WithoutList(m, q, e);
    WithoutListLoose(m, q, e);
    BoxesLeft(m, q, e);
    forall p, w | p in m'.lists && w in m'.lists[p].values ensures Target(w) in Boxes(m') && Stored(w) {
      OtherValue(m, e, p, w);
    }
  }

  // free on an entry that is out of its list and has nothing below it.
  method DropEntry(e: SymbolMapValue, ghost m: Map, ghost q: Path) returns (ghost m': Map)
    requires InMemory(m) && q in m.lists && m.lists[q].head == e.head && IsLoose(m, e)
    modifies m.home.Keys
    ensures m' == WithoutList(m, q, e)
    ensures InMemory(m')
  {
    m' := WithoutList(m, q, e);
    ghost var others := m'.home.Keys;
    assert Placed(m.lists[q], q, m.home);
    WithoutListPlaced(m, q, e);
    WithoutListContents(m, q, e);
    assert InMemory(m');
    ghost var live := FreeEntry(e, m.home.Keys);
    assert live == m'.home.Keys;
    assert unchanged(others);
  }

  // ---------- The shape of a map ----------

  ghost function Child(p: Path, name: string): Path {
    p + [name]
  }

  ghost function Up(p: Path): Path
    requires p != []
  {
    p[..|p| - 1]
  }

  ghost predicate EntryOk(m: Map, p: Path, v: Value) {
    && v.Named?
    && Child(p, v.name) in m.lists
    && m.lists[Child(p, v.name)].head == v.entry.head
  }

  ghost predicate Lists(list: List, name: string) {
    exists i :: 0 <= i < |list.values| && list.values[i].Named? && list.values[i].name == name
  }

  ghost predicate DistinctNames(values: seq<Value>) {
    forall i, j :: 0 <= i < j < |values| && values[i].Named? && values[j].Named? ==>
      values[i].name != values[j].name
  }

  // Records at the end of a full path, and entries with different names above; a list that is
  // not the root is that of an entry.
  ghost predicate ListOk(m: Map, depth: nat, p: Path)
    requires p in m.lists
  {
    var list := m.lists[p];
    && |p| <= depth
    && Even(list)
    && DistinctNames(list.values)
    && (forall v :: v in list.values ==> if |p| == depth then v.Record? else EntryOk(m, p, v))
    && (p != [] ==> Up(p) in m.lists && Lists(m.lists[Up(p)], p[|p| - 1]))
  }

  ghost predicate Shape(m: Map, depth: nat) {
    && [] in m.lists
    && forall p {:trigger ListOk(m, depth, p)} :: p in m.lists ==> ListOk(m, depth, p)
  }

  // The queue at the end of a full path.
  ghost function Items(list: List): (q: seq<Item>)
    requires Even(list)
    ensures |q| == |list.nodes|
  {
    seq(|list.nodes|, i requires 0 <= i < |list.nodes| =>
      Item(if list.values[i].Record? then list.values[i].value else 0, list.counts[i]))
  }

  ghost function Queue(m: Map, x: Path): seq<Item> {
    if x in m.lists && Even(m.lists[x]) then Items(m.lists[x]) else []
  }

  ghost predicate SameQueues(m: Map, m': Map, depth: nat) {
    forall x: Path :: |x| == depth ==> Queue(m', x) == Queue(m, x)
  }

  // No list is empty, but for the root and perhaps one other.
  ghost predicate NonEmptyBut(m: Map, p: Path) {
    forall q :: q in m.lists && q != [] && q != p ==> m.lists[q].nodes != []
  }

  lemma ChildOfChild(p: Path, name: string)
    ensures Up(Child(p, name)) == p && Child(p, name)[|p|] == name
  {
  }

  ghost function WithEntry(m: Map, p: Path, node: Node, e: SymbolMapValue, name: string): Map
    requires p in m.lists
  {
    WithCell(WithList(m, Child(p, name), e, name), p, node, Named(e, name), 1)
  }

  lemma StillLists(list: List, list': List, name: string)
    requires Lists(list, name) && list.values <= list'.values
    ensures Lists(list', name)
  {
    var i :| 0 <= i < |list.values| && list.values[i].Named? && list.values[i].name == name;
    assert list'.values[i] == list.values[i];
  }

  lemma WithEntryListOk(m: Map, depth: nat, p: Path, node: Node, e: SymbolMapValue, name: string, q: Path)
    requires Shape(m, depth) && p in m.lists && |p| < depth && Child(p, name) !in m.lists
    requires q in m.lists && q != p
    ensures ListOk(WithEntry(m, p, node, e, name), depth, q)
  {
    var m' := WithEntry(m, p, node, e, name);
    assert ListOk(m, depth, q);
    assert m'.lists[q] == m.lists[q];
    if q != [] {
      StillLists(m.lists[Up(q)], m'.lists[Up(q)], q[|q| - 1]);
    }
  }

  lemma WithEntryParentOk(m: Map, depth: nat, p: Path, node: Node, e: SymbolMapValue, name: string)
    requires Shape(m, depth) && p in m.lists && |p| < depth && Child(p, name) !in m.lists
    ensures ListOk(WithEntry(m, p, node, e, name), depth, p)
  {
    var m', values := WithEntry(m, p, node, e, name), m.lists[p].values;
    ChildOfChild(p, name);
    assert ListOk(m, depth, p);
    assert m'.lists[p].values == values + [Named(e, name)];
    assert forall i :: 0 <= i < |values| ==> values[i] in values;
    if p != [] {
      assert Up(p) != p && m'.lists[Up(p)] == m.lists[Up(p)];
    }
  }

  lemma WithEntryShape(m: Map, depth: nat, p: Path, node: Node, e: SymbolMapValue, name: string)
    requires Shape(m, depth) && p in m.lists && |p| < depth && Child(p, name) !in m.lists
    ensures Shape(WithEntry(m, p, node, e, name), depth)
  {
    var m', c := WithEntry(m, p, node, e, name), Child(p, name);
    ChildOfChild(p, name);
    WithEntryParentOk(m, depth, p, node, e, name);
    assert m'.lists[p].values[|m.lists[p].values|] == Named(e, name);
    forall q | q in m'.lists ensures ListOk(m', depth, q) {
      if q == c {
        assert Lists(m'.lists[p], name);
      } else if q != p {
        WithEntryListOk(m, depth, p, node, e, name, q);
      }
    }
  }

  lemma WithEntryQueues(m: Map, depth: nat, p: Path, node: Node, e: SymbolMapValue, name: string)
    requires Shape(m, depth) && p in m.lists && |p| < depth && Child(p, name) !in m.lists
    ensures SameQueues(m, WithEntry(m, p, node, e, name), depth)
  {
  }

  // A queue has changed.
  lemma LeafShape(m: Map, m': Map, depth: nat, x: Path, list: List)
    requires Shape(m, depth) && x in m.lists && |x| == depth
    requires m'.lists == m.lists[x := list] && list.head == m.lists[x].head && Even(list)
    requires forall v :: v in list.values ==> v.Record?
    ensures Shape(m', depth)
  {
    assert ListOk(m, depth, x);
    assert forall i :: 0 <= i < |list.values| ==> list.values[i] in list.values;
    forall q | q in m'.lists ensures ListOk(m', depth, q) {
      assert ListOk(m, depth, q);
      if q != [] {
        assert |Up(q)| < depth && m'.lists[Up(q)] == m.lists[Up(q)];
      }
    }
  }

  ghost function WithoutEntry(m: Map, p: Path, i: int): Map
    requires p in m.lists && 0 <= i < |m.lists[p].nodes| && Even(m.lists[p]) && EntryOk(m, p, m.lists[p].values[i])
  {
    WithoutList(WithoutCell(m, p, i), Child(p, m.lists[p].values[i].name), m.lists[p].values[i].entry)
  }

  ghost predicate CanDrop(m: Map, depth: nat, p: Path, i: int) {
    && Shape(m, depth)
    && p in m.lists && |p| < depth
    && Even(m.lists[p]) && 0 <= i < |m.lists[p].nodes|
    && EntryOk(m, p, m.lists[p].values[i])
    && m.lists[Child(p, m.lists[p].values[i].name)].values == []
  }

  lemma WithoutEntryParentOk(m: Map, depth: nat, p: Path, i: int)
    requires CanDrop(m, depth, p, i)
    ensures ListOk(WithoutEntry(m, p, i), depth, p)
  {
    var m', values := WithoutEntry(m, p, i), m.lists[p].values;
    var c := Child(p, values[i].name);
    assert ListOk(m, depth, p);
    var values' := Without(values, i);
    assert forall j :: 0 <= j < |values'| ==> values'[j] == values[if j < i then j else j + 1];
    assert forall j :: 0 <= j < |values| ==> values[j] in values;
    forall v | v in values' ensures EntryOk(m', p, v) {
      var j :| 0 <= j < |values'| && values'[j] == v;
      assert v in values && EntryOk(m, p, v);
      ChildOfChild(p, v.name);
      ChildOfChild(p, values[i].name);
    }
    if p != [] {
      assert Up(p) != p && Up(p) != c && m'.lists[Up(p)] == m.lists[Up(p)];
    }
  }

  // Another entry of the same list.
  lemma StillListed(m: Map, depth: nat, p: Path, i: int, q: Path)
    requires CanDrop(m, depth, p, i) && q in WithoutEntry(m, p, i).lists && q != [] && Up(q) == p
    requires Lists(m.lists[p], q[|q| - 1])
    ensures Lists(WithoutEntry(m, p, i).lists[p], q[|q| - 1])
  {
    var values := m.lists[p].values;
    var j :| 0 <= j < |values| && values[j].Named? && values[j].name == q[|q| - 1];
    assert q == Child(p, q[|q| - 1]);
    assert j != i;
    assert Without(values, i)[if j < i then j else j - 1] == values[j];
  }

  lemma WithoutEntryListOk(m: Map, depth: nat, p: Path, i: int, q: Path)
    requires CanDrop(m, depth, p, i) && q in WithoutEntry(m, p, i).lists && q != p
    ensures ListOk(WithoutEntry(m, p, i), depth, q)
  {
    var m', values := WithoutEntry(m, p, i), m.lists[p].values;
    var c := Child(p, values[i].name);
    assert ListOk(m, depth, q) && m'.lists[q] == m.lists[q];
    ChildOfChild(p, values[i].name);
    forall v | v in m.lists[q].values && |q| < depth ensures EntryOk(m', q, v) {
      ChildOfChild(q, v.name);
    }
    if q != [] {
      assert Up(q) != c;
      if Up(q) == p {
        StillListed(m, depth, p, i, q);
      }
    }
  }

  lemma WithoutEntryShape(m: Map, depth: nat, p: Path, i: int)
    requires CanDrop(m, depth, p, i)
    ensures Shape(WithoutEntry(m, p, i), depth)
  {
    var m' := WithoutEntry(m, p, i);
    WithoutEntryParentOk(m, depth, p, i);
    forall q | q in m'.lists ensures ListOk(m', depth, q) {
      if q != p {
        WithoutEntryListOk(m, depth, p, i, q);
      }
    }
  }

  lemma WithoutEntryQueues(m: Map, depth: nat, p: Path, i: int)
    requires CanDrop(m, depth, p, i)
    ensures SameQueues(m, WithoutEntry(m, p, i), depth)
  {
    assert ListOk(m, depth, Child(p, m.lists[p].values[i].name));
  }

  // ---------- add_symbol_value ----------

  // The shape of a map between calls; list p may be empty.
  ghost predicate Tidy(m: Map, depth: nat, p: Path) {
    Shape(m, depth) && NoStrays(m) && NonEmptyBut(m, p)
  }

  // What no call changes: where the lists are.
  ghost predicate SameHeads(m: Map, m': Map) {
    forall q :: q in m.lists && q in m'.lists ==> m'.lists[q].head == m.lists[q].head
  }

  lemma ListedChild(m: Map, depth: nat, p: Path, name: string)
    requires Shape(m, depth) && Child(p, name) in m.lists
    ensures p in m.lists && Lists(m.lists[p], name)
  {
    ChildOfChild(p, name);
    assert ListOk(m, depth, Child(p, name));
  }

  // symbol_names_match
  function HasName(name: string): Payload ~> bool {
    (v: Payload) reads (if v.EntryAt? then {v.entry} else {}) => v.EntryAt? && v.entry.name == name
  }

  // The nodes of a list point to entries with the names that they are said to have.
  lemma NamesInMemory(m: Map, depth: nat, p: Path)
    requires InMemory(m) && Shape(m, depth) && p in m.lists && |p| < depth
    ensures forall i {:trigger m.lists[p].nodes[i]} :: 0 <= i < |m.lists[p].nodes| ==>
              && Even(m.lists[p]) && EntryOk(m, p, m.lists[p].values[i])
              && m.lists[p].nodes[i].value == To(EntryAt(m.lists[p].values[i].entry))
              && m.lists[p].values[i].entry.name == m.lists[p].values[i].name
  {
    var list := m.lists[p];
    assert ListOk(m, depth, p);
    forall i | 0 <= i < |list.nodes|
      ensures EntryOk(m, p, list.values[i]) && list.nodes[i].value == To(EntryAt(list.values[i].entry))
      ensures list.values[i].entry.name == list.values[i].name
    {
      assert list.values[i] in list.values && Stored(list.values[i]);
    }
  }

  lemma ChildOfEntry(m: Map, p: Path, i: nat, name: string)
    requires p in m.lists && i < |m.lists[p].values| && EntryOk(m, p, m.lists[p].values[i]) && m.lists[p].values[i].name == name
    ensures Child(p, name) in m.lists
  {
  }

  // list_find: the entry with this name, if there is one.
  method FindEntry(head: Node, name: string, ghost m: Map, ghost depth: nat, ghost p: Path)
    returns (found: bool, node: Node, ghost i: nat)
    requires InMemory(m) && Shape(m, depth) && p in m.lists && |p| < depth && m.lists[p].head == head
    ensures found <==> Child(p, name) in m.lists
    ensures found ==> i < |m.lists[p].nodes| && node == m.lists[p].nodes[i]
    ensures found ==> EntryOk(m, p, m.lists[p].values[i]) && m.lists[p].values[i].name == name
  {
    ghost var list := m.lists[p];
    NamesInMemory(m, depth, p);
    found, node, i := ListFind(head, HasName(name), list.nodes);
    if !found {
      forall j | 0 <= j < |list.values| ensures list.values[j].Named? ==> list.values[j].name != name {
        assert !HasName(name)(list.nodes[j].value.target);
      }
      if Child(p, name) in m.lists {
        ListedChild(m, depth, p, name);
      }
    } else {
      assert HasName(name)(list.nodes[i].value.target);
      ChildOfEntry(m, p, i, name);
    }
  }

  // Nothing has left the map or come loose, and nothing loose has become part of it.
  ghost predicate SameLoose(m: Map, m': Map) {
    && m.home.Keys <= m'.home.Keys
    && forall o :: o in m'.home ==> if IsLoose(m, o) then m'.home[o] == m.home[o] else m'.home[o].In?
  }

  lemma WithEntryTidy(m: Map, depth: nat, p: Path, node: Node, e: SymbolMapValue, name: string)
    requires Tidy(m, depth, p) && AllPlaced(m) && p in m.lists && |p| < depth && Child(p, name) !in m.lists
    requires e !in m.home && e.head !in m.home
    ensures Tidy(WithEntry(m, p, node, e, name), depth, Child(p, name))
    ensures SameQueues(m, WithEntry(m, p, node, e, name), depth) && SameHeads(m, WithEntry(m, p, node, e, name))
  {
    WithEntryShape(m, depth, p, node, e, name);
    WithEntryQueues(m, depth, p, node, e, name);
    WithListPlaced(m, Child(p, name), e, name);
    WithListNoStrays(m, Child(p, name), e, name);
    WithCellNoStrays(WithList(m, Child(p, name), e, name), p, node, Named(e, name), 1);
  }

  lemma WithEntryLoose(m: Map, p: Path, node: Node, e: SymbolMapValue, name: string)
    requires p in m.lists && e !in m.home && e.head !in m.home && node !in m.home
    ensures SameLoose(m, WithEntry(m, p, node, e, name))
    ensures WithEntry(m, p, node, e, name).home.Keys == m.home.Keys + {e, e.head, node}
  {
  }

  // A new entry at the end of list p, with an empty list.
  method AddEntry(head: Node, name: string, ghost m: Map, ghost depth: nat, ghost p: Path)
    returns (node: Node, e: SymbolMapValue, ghost m': Map)
    requires InMemory(m) && Tidy(m, depth, p) && p in m.lists && m.lists[p].head == head
    requires |p| < depth && Child(p, name) !in m.lists
    modifies m.home.Keys
    ensures fresh({e, e.head, node})
    ensures m' == WithEntry(m, p, node, e, name)
    ensures InMemory(m')
  {
    ghost var m1;
    e, m1 := NewEntry(name, m, Child(p, name));
    node, m' := AppendTo(head, EntryAt(e), 1, m1, p, Named(e, name));
  }

  // One more item at the end of one queue.
  ghost predicate Enqueued(m: Map, m': Map, depth: nat, x: Path, item: Item) {
    forall y: Path :: |y| == depth ==> Queue(m', y) == Queue(m, y) + if y == x then [item] else []
  }

  // The record has become part of the map; nothing else has left it or come loose.
  ghost predicate TookIn(m: Map, m': Map, record: SymbolValue) {
    && m.home.Keys <= m'.home.Keys
    && forall o :: o in m'.home ==> if IsLoose(m, o) && o != record then m'.home[o] == m.home[o] else m'.home[o].In?
  }

  lemma WithRecordTidy(m: Map, depth: nat, x: Path, node: Node, record: SymbolValue, value: int, count: int)
    requires Tidy(m, depth, x) && x in m.lists && |x| == depth && node !in m.home && Holding(m, Record(record, value))
    ensures var m' := WithCell(m, x, node, Record(record, value), count);
            && Tidy(m', depth, [])
            && Enqueued(m, m', depth, x, Item(value, count))
            && SameHeads(m, m')
            && TookIn(m, m', record)
  {
    var m' := WithCell(m, x, node, Record(record, value), count);
    assert ListOk(m, depth, x);
    LeafShape(m, m', depth, x, Appended(m.lists[x], node, Record(record, value), count));
    WithCellNoStrays(m, x, node, Record(record, value), count);
    assert Items(m'.lists[x]) == Items(m.lists[x]) + [Item(value, count)];
  }

  method AddMissing(head: Node, name: string, ghost m: Map, ghost depth: nat, ghost p: Path)
    returns (below: Node, ghost m': Map, ghost added: set<object>)
    requires InMemory(m) && Tidy(m, depth, p) && p in m.lists && m.lists[p].head == head && |p| < depth
    requires Child(p, name) !in m.lists
    modifies m.home.Keys
    ensures InMemory(m') && Tidy(m', depth, Child(p, name))
    ensures Child(p, name) in m'.lists && m'.lists[Child(p, name)].head == below
    ensures SameQueues(m, m', depth)
    ensures SameHeads(m, m') && m.lists.Keys <= m'.lists.Keys
    ensures SameLoose(m, m')
    ensures m'.home.Keys == m.home.Keys + added
    ensures fresh(added)
  {
    var node, e;
    node, e, m' := AddEntry(head, name, m, depth, p);
    added := {e, e.head, node};
    assert fresh(added);
    WithEntryTidy(m, depth, p, node, e, name);
    WithEntryLoose(m, p, node, e, name);
    below := e.head;
  }

  // The entry for a name, which is made if there is none.
  method FindOrAdd(head: Node, name: string, ghost m: Map, ghost depth: nat, ghost p: Path)
    returns (below: Node, ghost m': Map, ghost added: set<object>)
    requires InMemory(m) && Tidy(m, depth, p) && p in m.lists && m.lists[p].head == head && |p| < depth
    modifies m.home.Keys
    ensures InMemory(m') && Tidy(m', depth, Child(p, name))
    ensures Child(p, name) in m'.lists && m'.lists[Child(p, name)].head == below
    ensures SameQueues(m, m', depth)
    ensures SameHeads(m, m') && m.lists.Keys <= m'.lists.Keys
    ensures SameLoose(m, m')
    ensures m'.home.Keys == m.home.Keys + added
    ensures fresh(added)
  {
    ghost var i;
    var found, node;
    found, node, i := FindEntry(head, name, m, depth, p);
    if found {
      m', added := m, {};
      below := node.value.target.entry.head;
    } else {
      below, m', added := AddMissing(head, name, m, depth, p);
    }
  }

  lemma AddedInTwoSteps(m: Map, m1: Map, m': Map, depth: nat, x: Path, item: Item, record: SymbolValue)
    requires SameQueues(m, m1, depth) && Enqueued(m1, m', depth, x, item)
    requires SameHeads(m, m1) && SameHeads(m1, m') && m.lists.Keys <= m1.lists.Keys
    requires SameLoose(m, m1) && TookIn(m1, m', record)
    ensures Enqueued(m, m', depth, x, item) && SameHeads(m, m') && TookIn(m, m', record)
  {
  }

  // A record at the end of a queue.
  method AddRecord(head: Node, record: SymbolValue, count: int,
                   ghost m: Map, ghost depth: nat, ghost x: Path, ghost value: int)
    returns (ghost m': Map)
    requires InMemory(m) && Tidy(m, depth, x) && x in m.lists && m.lists[x].head == head
    requires |x| == depth && Holding(m, Record(record, value))
    modifies m.home.Keys
    ensures InMemory(m') && Tidy(m', depth, [])
    ensures Enqueued(m, m', depth, x, Item(value, count))
    ensures SameHeads(m, m')
    ensures TookIn(m, m', record)
  {
    var node;
    node, m' := AppendTo(head, RecordAt(record), count, m, x, Record(record, value));
    WithRecordTidy(m, depth, x, node, record, value, count);
  }

  lemma PathStep(p: Path, names: seq<string>)
    requires names != []
    ensures Child(p, names[0]) + names[1..] == p + names && |Child(p, names[0])| == |p| + 1
    ensures |names| == 1 ==> Child(p, names[0]) == p + names
  {
  }

  // add_symbol_value
  method AddSymbolValue(head: Node, names: seq<string>, record: SymbolValue, count: int,
                        ghost m: Map, ghost depth: nat, ghost p: Path, ghost value: int)
    returns (ghost m': Map)
    requires InMemory(m) && Tidy(m, depth, p) && p in m.lists && m.lists[p].head == head
    requires names != [] && |p| + |names| == depth && Holding(m, Record(record, value))
    modifies m.home.Keys
    ensures InMemory(m') && Tidy(m', depth, [])
    ensures Enqueued(m, m', depth, p + names, Item(value, count))
    ensures SameHeads(m, m')
    ensures TookIn(m, m', record)
    decreases |names|
  {
    ghost var m1, new1;
    var below;
    PathStep(p, names);
    below, m1, new1 := FindOrAdd(head, names[0], m, depth, p);
    if |names| == 1 {
      m' := AddRecord(below, record, count, m1, depth, Child(p, names[0]), value);
    } else {
      m' := AddSymbolValue(below, names[1..], record, count, m1, depth, Child(p, names[0]), value);
    }
    AddedInTwoSteps(m, m1, m', depth, p + names, Item(value, count), record);
  }

  // ---------- get_symbol_value ----------

  // The first item of one queue has been handed out.
  ghost predicate Dequeued(m: Map, m': Map, depth: nat, x: Path) {
    && Queue(m, x) != []
    && forall y: Path :: |y| == depth ==> Queue(m', y) == if y == x then Pop(Queue(m, x)) else Queue(m, y)
  }

  // A record whose count is used up has come loose; nothing else has, and nothing loose is gone.
  ghost predicate GaveOut(m: Map, m': Map, v: Value, rc: int) {
    && m'.home.Keys <= m.home.Keys
    && (rc == 1 ==> Target(v) in m'.home && !IsLoose(m, Target(v)))
    && (forall o :: o in m.home && m.home[o].Loose? ==> o in m'.home)
    && forall o :: o in m'.home ==>
         if IsLoose(m, o) then m'.home[o] == m.home[o]
         else if rc == 1 && o == Target(v) then m'.home[o] == Loose(v)
         else m'.home[o].In?
  }

  // The record handed out is live, with its value: it is loose, or still the first of its queue.
  ghost predicate InHand(m: Map, x: Path, v: Value, rc: int) {
    if rc == 1 then Holding(m, v) else x in m.lists && m.lists[x].values != [] && m.lists[x].values[0] == v
  }

  lemma InHandStored(m: Map, x: Path, v: Value, rc: int)
    requires ContentsOk(m) && InHand(m, x, v, rc)
    ensures Stored(v) && Target(v) in m.home
  {
    if rc != 1 {
      assert v in m.lists[x].values;
    }
  }

  // Lists have changed, or gone, only from p downwards, and none has moved.
  ghost predicate Within(m: Map, m': Map, p: Path) {
    && m'.lists.Keys <= m.lists.Keys
    && SameHeads(m, m')
    && forall q :: q in m.lists && !(p <= q) ==> q in m'.lists && m'.lists[q] == m.lists[q]
  }

  lemma TakenTidy(m: Map, depth: nat, x: Path)
    requires Tidy(m, depth, []) && AllPlaced(m) && x in m.lists && |x| == depth && m.lists[x].nodes != []
    requires Even(m.lists[x]) && m.lists[x].counts[0] == 1
    ensures var m' := WithoutCell(m, x, 0);
            && Tidy(m', depth, x)
            && Within(m, m', x)
  {
    var m', list := WithoutCell(m, x, 0), m.lists[x];
    assert ListOk(m, depth, x);
    LeafShape(m, m', depth, x, Dropped(list, 0));
    WithoutCellNoStrays(m, x, 0);
  }

  lemma TakenQueues(m: Map, depth: nat, x: Path)
    requires x in m.lists && m.lists[x].nodes != [] && Even(m.lists[x]) && m.lists[x].counts[0] == 1
    ensures Dequeued(m, WithoutCell(m, x, 0), depth, x)
  {
    assert Items(WithoutCell(m, x, 0).lists[x]) == Items(m.lists[x])[1..];
  }

  lemma TakenLoose(m: Map, x: Path)
    requires AllPlaced(m) && x in m.lists && m.lists[x].nodes != [] && Even(m.lists[x]) && m.lists[x].values[0].Record?
    ensures GaveOut(m, WithoutCell(m, x, 0), m.lists[x].values[0], 1) && InHand(WithoutCell(m, x, 0), x, m.lists[x].values[0], 1)
  {
    assert Placed(m.lists[x], x, m.home);
    assert m.lists[x].values[0] in m.lists[x].values && m.lists[x].nodes[0] in m.lists[x].nodes;
  }

  lemma CountedTidy(m: Map, depth: nat, x: Path, count: int)
    requires Tidy(m, depth, []) && AllPlaced(m) && x in m.lists && |x| == depth && m.lists[x].nodes != []
    requires Even(m.lists[x])
    ensures var m' := WithCount(m, x, 0, count);
            && Tidy(m', depth, x)
            && Within(m, m', x)
  {
    var list := m.lists[x];
    assert ListOk(m, depth, x);
    LeafShape(m, WithCount(m, x, 0, count), depth, x, list.(counts := list.counts[0 := count]));
    WithCountPlaced(m, x, 0, count);
  }

  lemma CountedQueues(m: Map, depth: nat, x: Path)
    requires x in m.lists && m.lists[x].nodes != [] && Even(m.lists[x])
    requires m.lists[x].counts[0] > -2 && m.lists[x].counts[0] != 1
    ensures var m' := WithCount(m, x, 0, m.lists[x].counts[0] - 1);
            && Dequeued(m, m', depth, x)
            && GaveOut(m, m', m.lists[x].values[0], m.lists[x].counts[0])
            && InHand(m', x, m.lists[x].values[0], m.lists[x].counts[0])
  {
    var list := m.lists[x];
    var m' := WithCount(m, x, 0, list.counts[0] - 1);
    assert Items(m'.lists[x]) == Items(list)[0 := Items(list)[0].(count := list.counts[0] - 1)];
  }

  lemma KeptTidy(m: Map, depth: nat, x: Path)
    requires Tidy(m, depth, []) && x in m.lists && |x| == depth && m.lists[x].nodes != []
    requires Even(m.lists[x]) && m.lists[x].counts[0] <= -2
    ensures Tidy(m, depth, x) && Within(m, m, x) && Dequeued(m, m, depth, x)
    ensures GaveOut(m, m, m.lists[x].values[0], m.lists[x].counts[0]) && InHand(m, x, m.lists[x].values[0], m.lists[x].counts[0])
  {
  }

  // The first item of a queue.
  method TakeFirst(head: Node, ghost m: Map, ghost depth: nat, ghost x: Path)
    returns (rc: int, record: SymbolValue, ghost m': Map)
    requires InMemory(m) && Tidy(m, depth, []) && x in m.lists && m.lists[x].head == head
    requires |x| == depth && m.lists[x].nodes != []
    modifies m.home.Keys
    ensures InMemory(m') && Tidy(m', depth, x)
    ensures Dequeued(m, m', depth, x)
    ensures rc == Queue(m, x)[0].count
    ensures InHand(m', x, Record(record, Queue(m, x)[0].value), rc)
    ensures GaveOut(m, m', Record(record, Queue(m, x)[0].value), rc)
    ensures Within(m, m', x) && x in m'.lists
  {
    ghost var list := m.lists[x];
    assert ListOk(m, depth, x) && list.values[0] in list.values;
    var node := head.next;
    record := node.value.target.record;
    rc := node.refcount;
    assert Queue(m, x)[0] == Item(list.values[0].value, rc) && list.values[0] == Record(record, list.values[0].value);
    if node.refcount - 1 == 0 {
      TakenTidy(m, depth, x);
      TakenQueues(m, depth, x);
      TakenLoose(m, x);
      m' := TakeOut(node, m, x, 0);
    } else if node.refcount > -2 {
      CountedTidy(m, depth, x, list.counts[0] - 1);
      CountedQueues(m, depth, x);
      m' := SetCountAt(node, node.refcount - 1, m, x, 0);
    } else {
      KeptTidy(m, depth, x);
      m' := m;
    }
  }

  // Objects have been freed, and nothing has come loose.
  ghost predicate Shed(m: Map, m': Map) {
    && m'.home.Keys <= m.home.Keys
    && (forall o :: o in m.home && m.home[o].Loose? ==> o in m'.home)
    && forall o :: o in m'.home ==> if IsLoose(m, o) then m'.home[o] == m.home[o] else m'.home[o].In?
  }

  lemma WithoutEntryNoStrays(m: Map, q: Path, e: SymbolMapValue)
    requires NoStrays(m) && q in m.lists && m.lists[q].head == e.head && m.lists[q].nodes == [] && m.lists[q].values == []
    requires IsLoose(m, e)
    ensures NoStrays(WithoutList(m, q, e))
  {
  }

  lemma WithoutEntryTidy(m: Map, depth: nat, p: Path, i: nat)
    requires CanDrop(m, depth, p, i) && AllPlaced(m) && NoStrays(m)
    requires NonEmptyBut(m, Child(p, m.lists[p].values[i].name))
    ensures Tidy(WithoutEntry(m, p, i), depth, p) && SameQueues(m, WithoutEntry(m, p, i), depth)
    ensures Within(m, WithoutEntry(m, p, i), p)
    ensures p in WithoutEntry(m, p, i).lists && WithoutEntry(m, p, i).lists[p] == Dropped(m.lists[p], i)
  {
    var c, e := Child(p, m.lists[p].values[i].name), m.lists[p].values[i].entry;
    WithoutEntryShape(m, depth, p, i);
    WithoutEntryQueues(m, depth, p, i);
    WithoutCellNoStrays(m, p, i);
    assert Placed(m.lists[p], p, m.home) && Placed(m.lists[c], c, m.home);
    assert ListOk(m, depth, c);
    WithoutEntryNoStrays(WithoutCell(m, p, i), c, e);
  }

  lemma WithoutEntryLoose(m: Map, p: Path, i: nat)
    requires AllPlaced(m) && p in m.lists && i < |m.lists[p].nodes| && Even(m.lists[p]) && EntryOk(m, p, m.lists[p].values[i])
    ensures Shed(m, WithoutEntry(m, p, i))
  {
    var list, c := m.lists[p], Child(p, m.lists[p].values[i].name);
    assert Placed(list, p, m.home) && Placed(m.lists[c], c, m.home);
    assert list.values[i] in list.values && list.nodes[i] in list.nodes;
  }

  // An entry with nothing below it is unlinked and freed, with its node.
  method RemoveEntry(node: Node, e: SymbolMapValue, ghost m: Map, ghost depth: nat, ghost p: Path, ghost i: nat)
    returns (ghost m': Map)
    requires InMemory(m) && CanDrop(m, depth, p, i) && m.lists[p].nodes[i] == node && m.lists[p].values[i].entry == e
    modifies m.home.Keys
    ensures InMemory(m')
    ensures m' == WithoutEntry(m, p, i)
  {
    ghost var c := Child(p, m.lists[p].values[i].name);
    ChildOfChild(p, m.lists[p].values[i].name);
    assert Placed(m.lists[p], p, m.home) && Placed(m.lists[c], c, m.home) && m.lists[p].values[i] in m.lists[p].values;
    m' := TakeOut(node, m, p, i);
    m' := DropEntry(e, m', c);
  }

  lemma {:induction false} PrefixListed(m: Map, depth: nat, x: Path, k: nat)
    requires Shape(m, depth) && x in m.lists && k <= |x|
    ensures x[..k] in m.lists
    decreases |x|
  {
    if k == |x| {
      assert x[..k] == x;
    } else {
      assert ListOk(m, depth, x);
      assert Up(x)[..k] == x[..k];
      PrefixListed(m, depth, Up(x), k);
    }
  }

  lemma NothingBelow(m: Map, depth: nat, p: Path, names: seq<string>)
    requires Shape(m, depth) && names != [] && Child(p, names[0]) !in m.lists
    ensures Queue(m, p + names) == []
  {
    assert (p + names)[..|p| + 1] == Child(p, names[0]);
    if p + names in m.lists {
      PrefixListed(m, depth, p + names, |p| + 1);
    }
  }

  // The part of list p that concerns one entry.
  ghost predicate Stands(m: Map, depth: nat, p: Path, i: int, node: Node, e: SymbolMapValue, name: string) {
    && p in m.lists && |p| < depth && Even(m.lists[p]) && 0 <= i < |m.lists[p].nodes|
    && m.lists[p].nodes[i] == node && m.lists[p].values[i] == Named(e, name)
    && Child(p, name) in m.lists && m.lists[Child(p, name)].head == e.head
  }

  lemma CanDropEmpty(m: Map, depth: nat, p: Path, i: nat, node: Node, e: SymbolMapValue, name: string)
    requires Shape(m, depth) && Stands(m, depth, p, i, node, e, name) && m.lists[Child(p, name)].nodes == []
    ensures CanDrop(m, depth, p, i)
  {
    assert ListOk(m, depth, Child(p, name));
  }

  lemma StillFull(m: Map, depth: nat, p: Path, c: Path)
    requires Tidy(m, depth, c) && c in m.lists && m.lists[c].nodes != []
    ensures Tidy(m, depth, p) && Within(m, m, p) && SameQueues(m, m, depth) && Shed(m, m)
  {
  }

  // What follows a change below an entry: if nothing is left there, the entry goes.
  method RemoveIfEmpty(node: Node, e: SymbolMapValue, ghost m: Map, ghost depth: nat, ghost p: Path, ghost i: nat, ghost name: string)
    returns (ghost m': Map)
    requires InMemory(m) && Tidy(m, depth, Child(p, name)) && Stands(m, depth, p, i, node, e, name)
    modifies m.home.Keys
    ensures InMemory(m') && Tidy(m', depth, p)
    ensures Within(m, m', p) && p in m'.lists
    ensures SameQueues(m, m', depth)
    ensures Shed(m, m')
    ensures m.lists[Child(p, name)].nodes != [] ==> m' == m
    ensures m'.lists[p] == m.lists[p] || m'.lists[p] == Dropped(m.lists[p], i)
  {
    ghost var c := Child(p, name);
    if e.head.next == e.head {
      CanDropEmpty(m, depth, p, i, node, e, name);
      WithoutEntryTidy(m, depth, p, i);
      WithoutEntryLoose(m, p, i);
      m' := RemoveEntry(node, e, m, depth, p, i);
    } else {
      m' := m;
      StillFull(m, depth, p, c);
    }
  }

  lemma GotInTwoSteps(m: Map, m1: Map, m': Map, depth: nat, x: Path, v: Value, rc: int)
    requires Dequeued(m, m1, depth, x) && SameQueues(m1, m', depth)
    requires GaveOut(m, m1, v, rc) && Shed(m1, m')
    ensures Dequeued(m, m', depth, x) && GaveOut(m, m', v, rc)
  {
  }

  lemma WithinParent(m: Map, m1: Map, m': Map, p: Path, name: string)
    requires Within(m, m1, Child(p, name)) && Within(m1, m', p)
    ensures Within(m, m', p)
  {
    forall q | q in m.lists && !(p <= q) ensures q in m'.lists && m'.lists[q] == m.lists[q] {
      assert !(Child(p, name) <= q);
    }
  }

  // Removing an emptied entry does not take away the record in hand.
  lemma StillInHand(m: Map, m': Map, depth: nat, c: Path, x: Path, v: Value, rc: int)
    requires Shape(m, depth) && InHand(m, x, v, rc) && c in m.lists && c <= x && Even(m.lists[c])
    requires Shed(m, m') && (m.lists[c].nodes != [] ==> m' == m)
    ensures InHand(m', x, v, rc)
  {
    if rc != 1 && c != x {
      PrefixListed(m, depth, x, |c| + 1);
      assert x[..|c| + 1] == Child(c, x[|c|]);
      ListedChild(m, depth, c, x[|c|]);
    }
  }

  // get_symbol_value: the record and its old count, or 0 if there is none.
  method GetSymbolValue(head: Node, names: seq<string>, ghost m: Map, ghost depth: nat, ghost p: Path)
    returns (rc: int, output: SymbolValue?, ghost m': Map)
    requires InMemory(m) && Tidy(m, depth, []) && p in m.lists && m.lists[p].head == head
    requires names != [] && |p| + |names| == depth
    modifies m.home.Keys
    ensures InMemory(m') && Tidy(m', depth, p)
    ensures Within(m, m', p) && p in m'.lists
    ensures Queue(m, p + names) == [] ==> rc == 0 && output == null && m' == m
    ensures Queue(m, p + names) != [] ==>
              && output != null && rc == Queue(m, p + names)[0].count && Dequeued(m, m', depth, p + names)
              && InHand(m', p + names, Record(output, Queue(m, p + names)[0].value), rc)
              && GaveOut(m, m', Record(output, Queue(m, p + names)[0].value), rc)
    decreases |names|
  {
    ghost var i, c, m1 := 0, Child(p, names[0]), m;
    PathStep(p, names);
    var found, node;
    found, node, i := FindEntry(head, names[0], m, depth, p);
    if !found {
      NothingBelow(m, depth, p, names);
      return 0, null, m;
    }
    var e := node.value.target.entry;
    if |names| == 1 {
      rc, output, m1 := TakeFirst(e.head, m, depth, c);
    } else {
      rc, output, m1 := GetSymbolValue(e.head, names[1..], m, depth, c);
    }
    assert Stands(m1, depth, p, i, node, e, names[0]);
    m' := RemoveIfEmpty(node, e, m1, depth, p, i, names[0]);
    WithinParent(m, m1, m', p, names[0]);
    if Queue(m, p + names) != [] {
      ghost var v := Record(output, Queue(m, p + names)[0].value);
      GotInTwoSteps(m, m1, m', depth, p + names, v, rc);
      StillInHand(m1, m', depth, c, p + names, v, rc);
    }
  }

  // ---------- remove_always_return_values ----------

  ghost predicate TrimmedBelow(m: Map, m': Map, depth: nat, p: Path) {
    forall x: Path :: |x| == depth ==> Queue(m', x) == if p <= x then Trimmed(Queue(m, x)) else Queue(m, x)
  }

  ghost function WithoutLoose(m: Map, o: object): Map {
    m.(home := m.home - {o})
  }

  lemma LooseGone(m: Map, o: object)
    requires AllPlaced(m) && IsLoose(m, o)
    ensures AllPlaced(WithoutLoose(m, o))
    ensures NoStrays(m) ==> NoStrays(WithoutLoose(m, o))
  {
    var m' := WithoutLoose(m, o);
    forall q | q in m'.lists ensures Placed(m'.lists[q], q, m'.home) {
      assert Placed(m.lists[q], q, m.home);
    }
  }

  lemma LooseGoneContents(m: Map, o: object)
    requires AllPlaced(m) && ContentsOk(m) && IsLoose(m, o)
    ensures ContentsOk(WithoutLoose(m, o))
  {
    var m' := WithoutLoose(m, o);
    assert Boxes(m') == Boxes(m) - {o};
    forall p, w | p in m'.lists && w in m'.lists[p].values ensures Target(w) in Boxes(m') && Stored(w) {
      assert Placed(m.lists[p], p, m.home);
    }
  }

  // free_value on a record that is no longer part of the map.
  method FreeLoose(record: SymbolValue, ghost m: Map) returns (ghost m': Map)
    requires InMemory(m) && IsLoose(m, record)
    modifies record
    ensures InMemory(m')
    ensures m' == WithoutLoose(m, record)
  {
    m' := WithoutLoose(m, record);
    ghost var others := m'.home.Keys;
    LooseGone(m, record);
    LooseGoneContents(m, record);
    assert InMemory(m');
    ghost var live := FreeRecord(record, m.home.Keys);
    assert live == m'.home.Keys;
    assert unchanged(others);
  }

  // The first item of a queue, with its record, is gone.
  ghost function WithoutFirst(m: Map, x: Path): Map
    requires x in m.lists && m.lists[x].nodes != [] && Even(m.lists[x])
  {
    WithoutLoose(WithoutCell(m, x, 0), Target(m.lists[x].values[0]))
  }

  lemma WithoutFirstTidy(m: Map, depth: nat, x: Path)
    requires Tidy(m, depth, x) && AllPlaced(m) && x in m.lists && |x| == depth && m.lists[x].nodes != []
    requires Even(m.lists[x])
    ensures Tidy(WithoutFirst(m, x), depth, x) && Within(m, WithoutFirst(m, x), x)
  {
    assert ListOk(m, depth, x);
    LeafShape(m, WithoutFirst(m, x), depth, x, Dropped(m.lists[x], 0));
    WithoutCellNoStrays(m, x, 0);
  }

  lemma TrimmedQueues(m: Map, depth: nat, x: Path)
    requires x in m.lists && |x| == depth && m.lists[x].nodes != [] && Even(m.lists[x]) && m.lists[x].counts[0] < -1
    ensures TrimmedBelow(m, WithoutFirst(m, x), depth, x)
  {
    assert Items(WithoutFirst(m, x).lists[x]) == Items(m.lists[x])[1..];
    assert forall y: Path :: |y| == |x| && x <= y ==> y == x;
  }

  lemma TrimmedLoose(m: Map, x: Path)
    requires AllPlaced(m) && x in m.lists && m.lists[x].nodes != [] && Even(m.lists[x])
    ensures Shed(m, WithoutFirst(m, x)) && Target(m.lists[x].values[0]) in m.home
    ensures IsLoose(WithoutCell(m, x, 0), Target(m.lists[x].values[0]))
  {
    assert Placed(m.lists[x], x, m.home);
    assert m.lists[x].values[0] in m.lists[x].values && m.lists[x].nodes[0] in m.lists[x].nodes;
  }

  lemma Untrimmed(m: Map, depth: nat, x: Path)
    requires Tidy(m, depth, []) && x in m.lists && |x| == depth && m.lists[x].nodes != []
    requires Even(m.lists[x]) && m.lists[x].counts[0] >= -1
    ensures Tidy(m, depth, x) && Within(m, m, x) && Shed(m, m) && TrimmedBelow(m, m, depth, x)
  {
    assert forall y: Path :: |y| == |x| && x <= y ==> y == x;
  }

  // The record of the first item is freed with its node.
  method TrimQueue(head: Node, ghost m: Map, ghost depth: nat, ghost x: Path) returns (ghost m': Map)
    requires InMemory(m) && Tidy(m, depth, []) && x in m.lists && m.lists[x].head == head
    requires |x| == depth && m.lists[x].nodes != []
    modifies m.home.Keys
    ensures InMemory(m') && Tidy(m', depth, x)
    ensures Within(m, m', x) && x in m'.lists
    ensures Shed(m, m')
    ensures TrimmedBelow(m, m', depth, x)
  {
    ghost var list := m.lists[x];
    assert ListOk(m, depth, x) && list.values[0] in list.values;
    var node := head.next;
    if node.refcount < -1 {
      var record := node.value.target.record;
      WithoutFirstTidy(m, depth, x);
      TrimmedQueues(m, depth, x);
      TrimmedLoose(m, x);
      m' := TakeOut(node, m, x, 0);
      m' := FreeLoose(record, m');
    } else {
      m' := m;
      Untrimmed(m, depth, x);
    }
  }

  ghost function NamesOf(values: seq<Value>): set<string> {
    set v | v in values && v.Named? :: v.name
  }

  // The same for the paths that go on with one of these names.
  ghost predicate TrimmedFor(m: Map, m': Map, depth: nat, p: Path, done: set<string>) {
    forall x: Path :: |x| == depth ==>
      Queue(m', x) == if p <= x && |p| < |x| && x[|p|] in done then Trimmed(Queue(m, x)) else Queue(m, x)
  }

  lemma ChildPrefix(p: Path, name: string, x: Path)
    ensures Child(p, name) <= x <==> p <= x && |p| < |x| && x[|p|] == name
  {
  }

  lemma TrimmedOneMore(m: Map, m1: Map, m2: Map, m': Map, depth: nat, p: Path, done: set<string>, name: string)
    requires TrimmedFor(m, m1, depth, p, done) && name !in done
    requires TrimmedBelow(m1, m2, depth, Child(p, name)) && SameQueues(m2, m', depth)
    ensures TrimmedFor(m, m', depth, p, done + {name})
  {
    ChildOfChild(p, name);
    forall x: Path | |x| == depth
      ensures Queue(m', x) == if p <= x && |p| < |x| && x[|p|] in done + {name} then Trimmed(Queue(m, x)) else Queue(m, x)
    {
      ChildPrefix(p, name, x);
    }
  }

  lemma TrimmedAll(m: Map, m': Map, depth: nat, p: Path, done: set<string>)
    requires Shape(m, depth) && p in m.lists && |p| < depth
    requires TrimmedFor(m, m', depth, p, done) && NamesOf(m.lists[p].values) <= done
    ensures TrimmedBelow(m, m', depth, p)
  {
    forall x: Path | |x| == depth && p <= x && x[|p|] !in done ensures Queue(m, x) == [] {
      assert x == p + x[|p|..];
      if Child(p, x[|p|]) in m.lists {
        ListedChild(m, depth, p, x[|p|]);
      }
      NothingBelow(m, depth, p, x[|p|..]);
    }
  }

  lemma ShedTwice(m: Map, m1: Map, m': Map)
    requires Shed(m, m1) && Shed(m1, m')
    ensures Shed(m, m')
  {
  }

  lemma ShedWithinTwice(m: Map, m1: Map, m': Map, p: Path)
    requires Shed(m, m1) && Shed(m1, m') && Within(m, m1, p) && Within(m1, m', p)
    ensures Shed(m, m') && Within(m, m', p)
  {
  }

  // The walk through a list: `now` is what is left of `was`; the walk has passed the first j of
  // `was`, whose names are `done`, and stands at place k of `now`.
  ghost predicate Cursor(was: List, now: List, j: int, k: int, done: set<string>) {
    && Even(was) && Even(now) && now.head == was.head
    && 0 <= j <= |was.values| && 0 <= k <= |now.values|
    && now.values[k..] == was.values[j..]
    && done == NamesOf(was.values[..j])
  }

  lemma CursorStands(m: Map, m': Map, depth: nat, p: Path, j: int, k: int, done: set<string>)
    requires Shape(m, depth) && Tidy(m', depth, p) && p in m.lists && p in m'.lists && |p| < depth
    requires Cursor(m.lists[p], m'.lists[p], j, k, done) && k < |m'.lists[p].nodes|
    ensures j < |m.lists[p].values| && m'.lists[p].values[k] == m.lists[p].values[j]
    ensures m'.lists[p].values[k].Named? && m'.lists[p].values[k].name !in done
    ensures Stands(m', depth, p, k, m'.lists[p].nodes[k], m'.lists[p].values[k].entry, m'.lists[p].values[k].name)
    ensures Tidy(m', depth, [])
  {
    var was, now := m.lists[p], m'.lists[p];
    assert now.values[k] == now.values[k..][0] == was.values[j..][0] == was.values[j];
    assert ListOk(m, depth, p) && ListOk(m', depth, p);
    assert now.values[k] in now.values;
  }

  lemma CursorNext(was: List, now: List, now': List, j: int, k: int, done: set<string>)
    requires Cursor(was, now, j, k, done) && k < |now.values| && now.values[k].Named?
    requires now' == now || now' == Dropped(now, k)
    ensures var k' := if now' == now then k + 1 else k;
            && Cursor(was, now', j + 1, k', done + {now.values[k].name})
            && At(was.head, now'.nodes, k') == At(was.head, now.nodes, k + 1)
  {
    assert now.values[k] == now.values[k..][0] == was.values[j..][0] == was.values[j];
    assert was.values[..j + 1] == was.values[..j] + [was.values[j]];
    assert NamesOf(was.values[..j + 1]) == done + {now.values[k].name};
    assert now.values[k + 1..] == now.values[k..][1..] == was.values[j..][1..] == was.values[j + 1..];
    if now' != now {
      assert now'.values[k..] == now.values[k + 1..];
    }
  }

  ghost predicate Trimming(m: Map, m': Map, depth: nat, p: Path, j: int, k: int, done: set<string>) {
    && Tidy(m', depth, p)
    && Within(m, m', p)
    && Shed(m, m')
    && p in m.lists && p in m'.lists
    && Cursor(m.lists[p], m'.lists[p], j, k, done)
    && TrimmedFor(m, m', depth, p, done)
  }

  lemma TrimmingStart(m: Map, depth: nat, p: Path)
    requires Tidy(m, depth, []) && p in m.lists
    ensures Trimming(m, m, depth, p, 0, 0, {})
  {
    assert ListOk(m, depth, p);
  }

  lemma TrimmingEnd(m: Map, m': Map, depth: nat, p: Path, j: int, k: int, done: set<string>)
    requires Shape(m, depth) && |p| < depth && Trimming(m, m', depth, p, j, k, done) && k == |m'.lists[p].nodes|
    ensures TrimmedBelow(m, m', depth, p)
  {
    assert |m.lists[p].values[j..]| == 0;
    assert m.lists[p].values[..j] == m.lists[p].values;
    TrimmedAll(m, m', depth, p, done);
  }

  // One turn of that loop.
  method TrimTurn(current: Node, n: nat, ghost m: Map, ghost m1: Map, ghost depth: nat, ghost p: Path,
                  ghost j: int, ghost k: int, ghost done: set<string>)
    returns (next: Node, ghost m': Map, ghost k': int, ghost done': set<string>)
    requires InMemory(m1) && Shape(m, depth) && Trimming(m, m1, depth, p, j, k, done)
    requires |p| + n == depth && n > 0 && k < |m1.lists[p].nodes| && current == m1.lists[p].nodes[k]
    modifies m1.home.Keys
    ensures InMemory(m') && Trimming(m, m', depth, p, j + 1, k', done')
    ensures next == At(m.lists[p].head, m'.lists[p].nodes, k')
    decreases n, 1
  {
    CursorStands(m, m1, depth, p, j, k, done);
    ghost var m2, name := m1, m1.lists[p].values[k].name;
    next := current.next;
    var e := current.value.target.entry;
    m2, m' := TrimEntry(current, e, n, m1, depth, p, k, name);
    TrimmedOneMore(m, m1, m2, m', depth, p, done, name);
    ShedWithinTwice(m, m1, m', p);
    CursorNext(m.lists[p], m1.lists[p], m'.lists[p], j, k, done);
    k' := if m'.lists[p] == m1.lists[p] then k + 1 else k;
    done' := done + {name};
  }

  // remove_always_return_values
  method RemoveAlways(head: Node, n: nat, ghost m: Map, ghost depth: nat, ghost p: Path) returns (ghost m': Map)
    requires InMemory(m) && Tidy(m, depth, []) && |p| + n == depth && n > 0 && p in m.lists && m.lists[p].head == head
    modifies m.home.Keys
    ensures InMemory(m') && Tidy(m', depth, p)
    ensures Within(m, m', p) && p in m'.lists
    ensures Shed(m, m')
    ensures TrimmedBelow(m, m', depth, p)
    decreases n, 2
  {
    ghost var j, k, done := 0, 0, {};
    TrimmingStart(m, depth, p);
    var current := head.next;
    m' := m;
    while current != head
      invariant InMemory(m') && Trimming(m, m', depth, p, j, k, done)
      invariant current == At(head, m'.lists[p].nodes, k)
      decreases |m.lists[p].nodes| - j
    {
      current, m', k, done := TrimTurn(current, n, m, m', depth, p, j, k, done);
      j := j + 1;
    }
    TrimmingEnd(m, m', depth, p, j, k, done);
  }

  // One turn of that loop: the entry at place k.
  method TrimEntry(node: Node, e: SymbolMapValue, n: nat,
                   ghost m: Map, ghost depth: nat, ghost p: Path, ghost k: nat, ghost name: string)
    returns (ghost m2: Map, ghost m': Map)
    requires InMemory(m) && Tidy(m, depth, []) && |p| + n == depth && n > 0 && Stands(m, depth, p, k, node, e, name)
    modifies m.home.Keys
    ensures InMemory(m') && Tidy(m', depth, p)
    ensures Within(m, m', p) && p in m'.lists
    ensures Shed(m, m')
    ensures TrimmedBelow(m, m2, depth, Child(p, name)) && SameQueues(m2, m', depth)
    ensures m'.lists[p] == m.lists[p] || m'.lists[p] == Dropped(m.lists[p], k)
    decreases n, 0
  {
    ghost var c := Child(p, name);
    if n == 1 {
      m2 := TrimQueue(e.head, m, depth, c);
    } else {
      m2 := RemoveAlways(e.head, n - 1, m, depth, c);
    }
    assert Stands(m2, depth, p, k, node, e, name);
    m' := RemoveIfEmpty(node, e, m2, depth, p, k, name);
    WithinParent(m, m2, m', p, name);
    ShedTwice(m, m2, m');
  }

  // ---------- check_for_leftover_values ----------

  // How many entries still have something below them. Every list that is left holds something.
  method CountLeftovers(head: Node, ghost m: Map, ghost depth: nat, ghost p: Path) returns (count: nat)
    requires InMemory(m) && Tidy(m, depth, []) && p in m.lists && m.lists[p].head == head && |p| < depth
    ensures count == |m.lists[p].nodes|
  {
    ghost var list := m.lists[p];
    assert ListOk(m, depth, p);
    count := 0;
    var current := head.next;
    while current != head
      invariant count <= |list.nodes| && current == At(head, list.nodes, count)
      decreases |list.nodes| - count
    {
      assert list.values[count] in list.values && EntryOk(m, p, list.values[count]);
      var e := current.value.target.entry;
      if e.head.next != e.head {
        count := count + 1;
      }
      current := current.next;
    }
  }

  // Something is queued below every list that is not empty.
  lemma {:induction false} SomethingBelow(m: Map, depth: nat, p: Path) returns (x: Path)
    requires Tidy(m, depth, []) && p in m.lists && m.lists[p].nodes != []
    ensures |x| == depth && Queue(m, x) != []
    decreases depth - |p|
  {
    assert ListOk(m, depth, p);
    if |p| == depth {
      x := p;
    } else {
      var v := m.lists[p].values[0];
      assert v in m.lists[p].values && EntryOk(m, p, v);
      ChildOfChild(p, v.name);
      assert ListOk(m, depth, Child(p, v.name));
      x := SomethingBelow(m, depth, Child(p, v.name));
    }
  }

  // The root list is empty exactly when no queue holds anything.
  lemma EmptyRoot(m: Map, depth: nat)
    requires Tidy(m, depth, []) && depth > 0
    ensures m.lists[[]].nodes == [] <==> forall x: Path :: |x| == depth ==> Queue(m, x) == []
  {
    if m.lists[[]].nodes == [] {
      assert ListOk(m, depth, []);
      forall x: Path | |x| == depth ensures Queue(m, x) == [] {
        if Child([], x[0]) in m.lists {
          ListedChild(m, depth, [], x[0]);
        }
        NothingBelow(m, depth, [], x);
        assert [] + x == x;
      }
    } else {
      var x := SomethingBelow(m, depth, []);
    }
  }

  // ---------- list_free ----------

  method FreeEntryBelow(node: Node, e: SymbolMapValue, n: nat,
                        ghost m: Map, ghost depth: nat, ghost p: Path, ghost name: string)
    returns (ghost m': Map)
    requires InMemory(m) && Tidy(m, depth, p) && |p| + n == depth && n > 0 && Stands(m, depth, p, 0, node, e, name)
    modifies m.home.Keys
    ensures InMemory(m') && Tidy(m', depth, p)
    ensures Within(m, m', p) && p in m'.lists && m'.lists[p] == Dropped(m.lists[p], 0)
    ensures Shed(m, m')
    decreases n - 1, 2
  {
    ghost var m1 := FreeBelow(e.head, n - 1, m, depth, Child(p, name));
    assert Stands(m1, depth, p, 0, node, e, name);
    CanDropEmpty(m1, depth, p, 0, node, e, name);
    WithoutEntryTidy(m1, depth, p, 0);
    WithoutEntryLoose(m1, p, 0);
    m' := RemoveEntry(node, e, m1, depth, p, 0);
    WithinParent(m, m1, m', p, name);
    ShedTwice(m, m1, m');
  }

  method FreeFirst(head: Node, n: nat, ghost m: Map, ghost depth: nat, ghost p: Path) returns (ghost m': Map)
    requires InMemory(m) && Tidy(m, depth, p) && |p| + n == depth && p in m.lists && m.lists[p].head == head
    requires m.lists[p].nodes != []
    modifies m.home.Keys
    ensures InMemory(m') && Tidy(m', depth, p)
    ensures Within(m, m', p) && p in m'.lists && |m'.lists[p].nodes| < |m.lists[p].nodes|
    ensures Shed(m, m')
    decreases n, 0
  {
    ghost var list := m.lists[p];
    assert ListOk(m, depth, p) && list.values[0] in list.values;
    var node := head.next;
    if n == 0 {
      var record := node.value.target.record;
      WithoutFirstTidy(m, depth, p);
      TrimmedLoose(m, p);
      m' := TakeOut(node, m, p, 0);
      m' := FreeLoose(record, m');
    } else {
      var e := node.value.target.entry;
      m' := FreeEntryBelow(node, e, n, m, depth, p, list.values[0].name);
    }
  }

  // list_free with its cleanup: everything below a list is freed. The lists of an entry go
  // before the entry is unlinked, where the C code unlinks first.
  method FreeBelow(head: Node, n: nat, ghost m: Map, ghost depth: nat, ghost p: Path) returns (ghost m': Map)
    requires InMemory(m) && Tidy(m, depth, p) && |p| + n == depth && p in m.lists && m.lists[p].head == head
    modifies m.home.Keys
    ensures InMemory(m') && Tidy(m', depth, p)
    ensures Within(m, m', p) && p in m'.lists && m'.lists[p].nodes == []
    ensures Shed(m, m')
    decreases n, 1
  {
    m' := m;
    while head.next != head
      invariant InMemory(m') && Tidy(m', depth, p)
      invariant Within(m, m', p) && p in m'.lists
      invariant Shed(m, m')
      decreases |m'.lists[p].nodes|
    {
      ghost var m1 := m';
      m' := FreeFirst(head, n, m1, depth, p);
      ShedWithinTwice(m, m1, m', p);
    }
  }

  // Nothing is left of an empty map but its head.
  lemma OnlyRoot(m: Map, depth: nat)
    requires Tidy(m, depth, []) && m.lists[[]].nodes == []
    ensures forall o :: o in m.home && m.home[o].In? ==> o == m.lists[[]].head
  {
    assert ListOk(m, depth, []);
    forall q | q in m.lists ensures q == [] {
      if q != [] {
        PrefixListed(m, depth, q, 1);
        assert q[..1] == Child([], q[0]);
        ListedChild(m, depth, [], q[0]);
      }
    }
  }

  // ---------- The table that the mocks use ----------

  // On every path, what was handed out is the expansion of what was queued.
  ghost predicate InOrder(m: Map, depth: nat, puts: seq<Put>, answers: seq<Answer>) {
    forall x: Path :: |x| == depth ==> Faithful(PutsOn(puts, x), AnswersOn(answers, x), Queue(m, x))
  }

  lemma PutKeepsOrder(m: Map, m': Map, x: Path, item: Item, puts: seq<Put>, answers: seq<Answer>)
    requires InOrder(m, |x|, puts, answers) && Enqueued(m, m', |x|, x, item) && item.count != 0
    ensures InOrder(m', |x|, puts + [Put(x, item)], answers)
  {
    var puts' := puts + [Put(x, item)];
    assert puts'[..|puts|] == puts;
    forall y: Path | |y| == |x| ensures Faithful(PutsOn(puts', y), AnswersOn(answers, y), Queue(m', y)) {
      if y == x {
        FaithfulAfterPut(PutsOn(puts, y), AnswersOn(answers, y), Queue(m, y), item);
      } else {
        assert PutsOn(puts, y) + [] == PutsOn(puts, y) && Queue(m, y) + [] == Queue(m, y);
      }
    }
  }

  lemma GetKeepsOrder(m: Map, m': Map, x: Path, puts: seq<Put>, answers: seq<Answer>)
    requires InOrder(m, |x|, puts, answers) && Dequeued(m, m', |x|, x)
    ensures InOrder(m', |x|, puts, answers + [Answer(x, Queue(m, x)[0].value)])
  {
    var answers' := answers + [Answer(x, Queue(m, x)[0].value)];
    assert answers'[..|answers|] == answers;
    forall y: Path | |y| == |x| ensures Faithful(PutsOn(puts, y), AnswersOn(answers', y), Queue(m', y)) {
      if y == x {
        FaithfulAfterGet(PutsOn(puts, y), AnswersOn(answers, y), Queue(m, y));
      } else {
        assert AnswersOn(answers, y) + [] == AnswersOn(answers, y);
      }
    }
  }

  // Every queue is one that does not fail the test.
  ghost predicate AllSettled(m: Map, depth: nat) {
    forall x: Path :: |x| == depth ==> Settled(Queue(m, x))
  }

  lemma TrimmedAway(m: Map, m': Map, depth: nat)
    requires TrimmedBelow(m, m', depth, [])
    ensures (forall x: Path :: |x| == depth ==> Queue(m', x) == []) <==> AllSettled(m, depth)
  {
    assert forall x: Path :: |x| == depth ==> [] <= x;
    if AllSettled(m, depth) {
      forall x: Path | |x| == depth ensures Queue(m', x) == [] {
        assert Settled(Queue(m, x));
      }
    }
    if forall x: Path :: |x| == depth ==> Queue(m', x) == [] {
      forall x: Path | |x| == depth ensures Settled(Queue(m, x)) {
        assert Queue(m', x) == [];
      }
    }
  }

  ghost function WithLoose(m: Map, v: Value): Map {
    m.(home := m.home[Target(v) := Loose(v)])
  }

  lemma NewLoose(m: Map, v: Value)
    requires AllPlaced(m) && Target(v) !in m.home
    ensures AllPlaced(WithLoose(m, v))
    ensures NoStrays(m) ==> NoStrays(WithLoose(m, v))
  {
    var m' := WithLoose(m, v);
    forall q | q in m'.lists ensures Placed(m'.lists[q], q, m'.home) {
      assert Placed(m.lists[q], q, m.home);
    }
  }

  lemma NewLooseContents(m: Map, v: Value)
    requires ContentsOk(m) && Target(v) !in m.home && Stored(v)
    ensures ContentsOk(WithLoose(m, v))
  {
    var m' := WithLoose(m, v);
    assert Boxes(m) <= Boxes(m') && Target(v) in Boxes(m');
    forall p, w | p in m'.lists && w in m'.lists[p].values ensures Target(w) in Boxes(m') && Stored(w) {
      assert w in m.lists[p].values;
    }
  }

  // A new record, which is queued later.
  method NewRecord(value: int, ghost m: Map) returns (record: SymbolValue, ghost m': Map)
    requires InMemory(m)
    ensures fresh(record)
    ensures InMemory(m')
    ensures m' == WithLoose(m, Record(record, value))
  {
    ghost var others := m.home.Keys;
    record := new SymbolValue(value);
    assert unchanged(others);
    assert ContentsOk(m);
    m' := WithLoose(m, Record(record, value));
    NewLoose(m, Record(record, value));
    NewLooseContents(m, Record(record, value));
  }

  lemma AddedToOne(m: Map, m1: Map, m': Map, record: SymbolValue, value: int)
    requires record !in m.home && m1 == WithLoose(m, Record(record, value)) && TookIn(m1, m', record)
    ensures SameLoose(m, m')
  {
  }

  // The map whose root list has this head.
  ghost predicate IsMap(m: Map, depth: nat, head: Node)
    reads m.home.Keys
  {
    InMemory(m) && Tidy(m, depth, []) && m.lists[[]].head == head
  }

  lemma RootPath(x: Path)
    ensures [] + x == x
  {
  }

  // A new record goes into the map.
  method Enqueue(head: Node, path: Path, record: SymbolValue, count: int, ghost value: int,
                 ghost m: Map, ghost m1: Map, ghost depth: nat, ghost puts: seq<Put>, ghost answers: seq<Answer>)
    returns (ghost m': Map)
    requires IsMap(m1, depth, head) && depth == |path| > 0 && count != 0
    requires m1 == WithLoose(m, Record(record, value)) && record !in m.home
    requires InOrder(m1, depth, puts, answers)
    modifies m1.home.Keys
    ensures IsMap(m', depth, head)
    ensures InOrder(m', depth, puts + [Put(path, Item(value, count))], answers)
    ensures SameLoose(m, m')
  {
    RootPath(path);
    m' := AddSymbolValue(head, path, record, count, m1, depth, [], value);
    PutKeepsOrder(m1, m', path, Item(value, count), puts, answers);
    AddedToOne(m, m1, m', record, value);
  }

  // What the head of a queue is.
  lemma NextAnswer(m: Map, x: Path, puts: seq<Put>, answers: seq<Answer>)
    requires InOrder(m, |x|, puts, answers)
    ensures Nth(PutsOn(puts, x), |AnswersOn(answers, x)|) == if Queue(m, x) == [] then [] else [Queue(m, x)[0].value]
    ensures Queue(m, x) != [] ==> Queue(m, x)[0].count != 0
  {
    assert Faithful(PutsOn(puts, x), AnswersOn(answers, x), Queue(m, x));
    NthIsHead(PutsOn(puts, x), |AnswersOn(answers, x)|);
    AfterNonZero(PutsOn(puts, x), |AnswersOn(answers, x)|);
  }

  // After a get, with the record freed if it was used up.
  lemma Afterwards(m: Map, m1: Map, depth: nat, x: Path, v: Value, rc: int)
    requires AllPlaced(m1) && Tidy(m1, depth, []) && Dequeued(m, m1, depth, x) && GaveOut(m, m1, v, rc)
    ensures var m' := if rc == 1 then WithoutLoose(m1, Target(v)) else m1;
            Tidy(m', depth, []) && Dequeued(m, m', depth, x) && Shed(m, m')
  {
    if rc == 1 {
      var m' := WithoutLoose(m1, Target(v));
      LooseGone(m1, Target(v));
      forall q | q in m'.lists ensures ListOk(m', depth, q) {
        assert ListOk(m1, depth, q);
      }
      assert forall y: Path :: Queue(m', y) == Queue(m1, y);
    }
  }

  // The next value for a path. It is read before the record is freed, which happens at its
  // last use.
  method Dequeue(head: Node, path: Path, ghost m: Map, ghost depth: nat, ghost puts: seq<Put>, ghost answers: seq<Answer>)
    returns (r: Option<int>, ghost m': Map)
    requires IsMap(m, depth, head) && depth == |path| > 0 && InOrder(m, depth, puts, answers)
    modifies m.home.Keys
    ensures IsMap(m', depth, head)
    ensures r == if Queue(m, path) == [] then None else Some(Queue(m, path)[0].value)
    ensures r.None? ==> m' == m
    ensures r.Some? ==> InOrder(m', depth, puts, answers + [Answer(path, r.value)])
    ensures Shed(m, m')
  {
    NextAnswer(m, path, puts, answers);
    RootPath(path);
    var rc, output;
    rc, output, m' := GetSymbolValue(head, path, m, depth, []);
    if rc == 0 {
      return None, m';
    }
    ghost var v := Record(output, Queue(m, path)[0].value);
    InHandStored(m', path, v, rc);
    r := Some(output.value);
    Afterwards(m, m', depth, path, v, rc);
    GetKeepsOrder(m, if rc == 1 then WithoutLoose(m', output) else m', path, puts, answers);
    if rc == 1 {
      m' := FreeLoose(output, m');
    }
  }

  lemma NewLooseTidy(m: Map, depth: nat, v: Value)
    requires AllPlaced(m) && Tidy(m, depth, []) && Target(v) !in m.home
    ensures Tidy(WithLoose(m, v), depth, [])
  {
    NewLoose(m, v);
    var m' := WithLoose(m, v);
    forall q | q in m'.lists ensures ListOk(m', depth, q) {
      assert ListOk(m, depth, q);
    }
  }

  lemma LooseOrder(m: Map, v: Value, depth: nat, puts: seq<Put>, answers: seq<Answer>)
    requires InOrder(m, depth, puts, answers)
    ensures InOrder(WithLoose(m, v), depth, puts, answers)
  {
    assert forall x: Path :: Queue(WithLoose(m, v), x) == Queue(m, x);
  }

  // A table is not one of the objects of its map.
  lemma TableApart(m: Map, table: MockTable)
    requires NoStrays(m) && !IsLoose(m, table)
    ensures table !in m.home
  {
  }

  lemma StillApart(m: Map, m': Map, table: MockTable)
    requires NoStrays(m') && table !in m.home && Shed(m, m')
    ensures table !in m'.home
  {
    TableApart(m', table);
  }

  // The map of return values (depth 1) or of checked parameters (depth 2), with the histories
  // of what was queued and handed out.
  class MockTable {
    const depth: nat
    const head: Node
    ghost var m: Map
    ghost var puts: seq<Put>
    ghost var answers: seq<Answer>

    ghost predicate Kept()
      reads this, m.home.Keys
    {
      depth > 0 && this !in m.home && IsMap(m, depth, head)
    }

    ghost predicate Valid()
      reads this, m.home.Keys
    {
      Kept() && InOrder(m, depth, puts, answers)
    }

    // initialize_testing
    constructor (depth: nat)
      requires depth > 0
      ensures Valid() && this.depth == depth && fresh(head)
      ensures puts == [] && answers == [] && m.home == map[head := In([])]
    {
      this.depth := depth;
      head := new ListNode<Payload>();
      m := Map(map[[] := List(head, [], [], [])], map[head := In([])]);
      puts := [];
      answers := [];
    }

    ghost method Store(m1: Map, puts1: seq<Put>, answers1: seq<Answer>)
      requires IsMap(m1, depth, head) && depth > 0 && this !in m1.home
      modifies this
      ensures Kept() && m == m1 && puts == puts1 && answers == answers1
    {
      ghost var objects := m1.home.Keys;
      m, puts, answers := m1, puts1, answers1;
      assert unchanged(objects);
    }

    // _will_return: queue a value. A zero count fails the test, and the record that has been
    // made for it is left behind.
    method WillReturn(path: seq<string>, value: int, count: int) returns (ok: bool)
      requires Valid() && |path| == depth
      modifies this, m.home.Keys
      ensures Valid()
      ensures ok <==> count != 0
      ensures puts == if ok then old(puts) + [Put(path, Item(value, count))] else old(puts)
      ensures answers == old(answers)
      ensures ok ==> SameLoose(old(m), m)
      ensures !ok ==> exists record: SymbolValue :: fresh(record) && m == WithLoose(old(m), Record(record, value))
    {
      ghost var m0, m1 := m, m;
      var record;
      record, m1 := NewRecord(value, m0);
      NewLooseTidy(m0, depth, Record(record, value));
      LooseOrder(m0, Record(record, value), depth, puts, answers);
      assert this !in m1.home;
      ok := count != 0;
      ghost var puts' := puts;
      if ok {
        m1 := Enqueue(head, path, record, count, value, m0, m1, depth, puts, answers);
        TableApart(m1, this);
        puts' := puts + [Put(path, Item(value, count))];
      }
      Store(m1, puts', answers);
    }

    // _mock: the next value for a path, or None, which fails the test. The value is read before
    // the record is freed, which happens at its last use.
    method Mock(path: seq<string>) returns (r: Option<int>)
      requires Valid() && |path| == depth
      modifies this, m.home.Keys
      ensures Valid()
      ensures puts == old(puts)
      ensures Nth(PutsOn(puts, path), |AnswersOn(old(answers), path)|) == if r.Some? then [r.value] else []
      ensures answers == if r.Some? then old(answers) + [Answer(path, r.value)] else old(answers)
      ensures r.None? ==> m == old(m)
      ensures Shed(old(m), m)
    {
      ghost var m0, m1 := m, m;
      NextAnswer(m0, path, puts, answers);
      r, m1 := Dequeue(head, path, m0, depth, puts, answers);
      if r.Some? {
        StillApart(m0, m1, this);
        Store(m1, puts, answers + [Answer(path, r.value)]);
      }
    }

    // fail_if_leftover_values, for one map: it passes iff every queue is empty or is a single
    // "always" value that has been returned.
    method LeftoverCheck() returns (ok: bool)
      requires Kept()
      modifies this, m.home.Keys
      ensures Kept() && Shed(old(m), m)
      ensures ok <==> old(AllSettled(m, depth))
    {
      ghost var m0 := m;
      ghost var m1 := RemoveAlways(head, depth, m0, depth, []);
      TrimmedAway(m0, m1, depth);
      EmptyRoot(m1, depth);
      var count := CountLeftovers(head, m1, depth, []);
      StillApart(m0, m1, this);
      Store(m1, puts, answers);
      return count == 0;
    }

    // teardown_testing: what is left is freed; only the head stays, and what was left behind.
    method Teardown()
      requires Kept()
      modifies this, m.home.Keys
      ensures Kept() && Shed(old(m), m)
      ensures forall o :: o in m.home ==> o == head || IsLoose(old(m), o)
    {
      ghost var m0 := m;
      ghost var m1 := FreeBelow(head, depth, m0, depth, []);
      OnlyRoot(m1, depth);
      StillApart(m0, m1, this);
      Store(m1, puts, answers);
    }
  }
}
