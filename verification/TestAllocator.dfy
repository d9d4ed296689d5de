/**
 cmocka's test_malloc, test_free and test_realloc: every block carries a header and a guard on
 either side of the data, and is linked into the list of all allocated blocks, from which leaks
 are reported. Sizes are those of a 64-bit system.
 */
module TestAllocator {
  import opened CircularList

  type Byte = bv8

  const GUARD_SIZE: nat := 16
  const GUARD_PATTERN: Byte := 0xEF
  const ALLOC_PATTERN: Byte := 0xBA
  const FREE_PATTERN: Byte := 0xCD
  const ALIGNMENT: nat := 8
  const HEADER_SIZE: nat := 72          // sizeof(struct MallocBlockInfoData)
  const ADDRESSES: nat := 0x1_0000_0000_0000_0000

  // ---------- Layout ----------

  // The size_t sum, which may wrap around.
  function AllocateSize(size: nat): nat {
    (size + 2 * GUARD_SIZE + HEADER_SIZE + ALIGNMENT) % ADDRESSES
  }

  // The overflow assertion.
  predicate SizeOk(size: nat) {
    AllocateSize(size) > size
  }

  // The address returned for a raw block: rounded down to the alignment.
  function DataAddress(block: nat): nat {
    var x := block + GUARD_SIZE + HEADER_SIZE + ALIGNMENT;
    x - x % ALIGNMENT
  }

  // Offset of the data inside the raw block.
  function Offset(block: nat): (o: nat) {
    DataAddress(block) - block
  }

  // The assertion passes exactly when the sum does not wrap; then the returned address is
  // aligned, and header, front guard, data and rear guard follow each other inside the block.
  lemma Layout(size: nat, block: nat)
    requires size < ADDRESSES
    ensures SizeOk(size) <==> size + 2 * GUARD_SIZE + HEADER_SIZE + ALIGNMENT < ADDRESSES
    ensures DataAddress(block) % ALIGNMENT == 0
    ensures SizeOk(size) ==>
              && HEADER_SIZE + GUARD_SIZE < Offset(block)
              && Offset(block) + size + GUARD_SIZE <= AllocateSize(size)
  {
  }

  // ---------- Blocks ----------

  ghost predicate Filled(a: array<Byte>, from: int, n: nat, v: Byte)
    requires 0 <= from && from + n <= a.Length
    reads a
  {
    forall i :: from <= i < from + n ==> a[i] == v
  }

  class Block {
    const address: nat              // what the underlying malloc returned
    const size: nat                 // requested
    const bytes: array<Byte>        // the raw block
    const node: ListNode<Block>     // its node in the list of allocated blocks

    constructor (address: nat, size: nat, bytes: array<Byte>, node: ListNode<Block>)
      ensures this.address == address && this.size == size && this.bytes == bytes && this.node == node
    {
      this.address, this.size, this.bytes, this.node := address, size, bytes, node;
    }

    ghost predicate Shaped() {
      && size < ADDRESSES
      && SizeOk(size)
      && bytes.Length == AllocateSize(size)
      && GUARD_SIZE <= Offset(address)
      && Offset(address) + size + GUARD_SIZE <= bytes.Length
    }

    ghost function Data(): seq<Byte>
      requires Shaped()
      reads bytes
    {
      bytes[Offset(address)..Offset(address) + size]
    }

    ghost predicate GuardsIntact()
      requires Shaped()
      reads bytes
    {
      var o := Offset(address);
      Filled(bytes, o - GUARD_SIZE, GUARD_SIZE, GUARD_PATTERN) && Filled(bytes, o + size, GUARD_SIZE, GUARD_PATTERN)
    }
  }

  // The guards are the sixteen bytes on either side of the data, and all of them are 0xEF.
  lemma GuardsMeaning(b: Block)
    requires b.Shaped()
    ensures b.GuardsIntact() <==>
              var o := Offset(b.address);
              forall k :: o - 16 <= k < o + b.size + 16 && !(o <= k < o + b.size) ==> b.bytes[k] == 0xEF
  {
  }

  lemma DataFilled(b: Block, v: Byte)
    requires b.Shaped() && Filled(b.bytes, Offset(b.address), b.size, v)
    ensures forall j :: 0 <= j < b.size ==> b.Data()[j] == v
  {
  }

  // All guard bytes but the one at position `at` are known to be intact.
  lemma GuardTouched(b: Block, at: nat)
    requires b.Shaped() && Offset(b.address) - 16 <= at < Offset(b.address) + b.size + 16
    requires var o := Offset(b.address);
             forall k :: o - 16 <= k < o + b.size + 16 && !(o <= k < o + b.size) ==> k == at || b.bytes[k] == 0xEF
    ensures b.GuardsIntact() <==> Offset(b.address) <= at < Offset(b.address) + b.size || b.bytes[at] == 0xEF
  {
    GuardsMeaning(b);
  }

  method MemSet(a: array<Byte>, from: nat, n: nat, v: Byte)
    requires from + n <= a.Length
    modifies a
    ensures forall i :: 0 <= i < a.Length ==> a[i] == if from <= i < from + n then v else old(a[i])
  {
    forall i | from <= i < from + n {
      a[i] := v;
    }
  }

  method GuardOk(a: array<Byte>, from: nat) returns (ok: bool)
    requires from + GUARD_SIZE <= a.Length
    ensures ok <==> Filled(a, from, GUARD_SIZE, GUARD_PATTERN)
  {
    for j := 0 to GUARD_SIZE
      invariant Filled(a, from, j, GUARD_PATTERN)
    {
      if a[from + j] != GUARD_PATTERN {
        return false;
      }
    }
    return true;
  }

  method CheckGuards(b: Block) returns (ok: bool)
    requires b.Shaped()
    ensures ok <==> b.GuardsIntact()
  {
    var o := Offset(b.address);
    ok := GuardOk(b.bytes, o - GUARD_SIZE);
    if ok {
      ok := GuardOk(b.bytes, o + b.size);
    }
  }

  // The raw block of _test_malloc with its patterns, before it is linked.
  method NewBlock(size: nat, address: nat) returns (b: Block)
    requires size < ADDRESSES && SizeOk(size)
    ensures fresh(b) && fresh(b.bytes) && fresh(b.node)
    ensures b.size == size && b.address == address && b.Shaped() && b.node.value == To(b)
    ensures b.GuardsIntact() && Filled(b.bytes, Offset(address), size, ALLOC_PATTERN)
  {
    Layout(size, address);
    var bytes := new Byte[AllocateSize(size)];
    var o := Offset(address);
    MemSet(bytes, o - GUARD_SIZE, GUARD_SIZE, GUARD_PATTERN);
    MemSet(bytes, o + size, GUARD_SIZE, GUARD_PATTERN);
    MemSet(bytes, o, size, ALLOC_PATTERN);
    var node := new ListNode<Block>();
    b := new Block(address, size, bytes, node);
    node.value := To(b);
  }

  // ---------- The list of allocated blocks ----------

  // The raw memory of each block.
  ghost function Memory(blocks: seq<Block>): (m: seq<array<Byte>>)
    ensures |m| == |blocks|
    ensures forall i :: 0 <= i < |blocks| ==> m[i] == blocks[i].bytes
  {
    seq(|blocks|, i requires 0 <= i < |blocks| => blocks[i].bytes)
  }

  // Node number i is the node of block number i.
  ghost predicate Carry(nodes: seq<ListNode<Block>>, blocks: seq<Block>)
    reads nodes
  {
    && |nodes| == |blocks|
    && forall i {:trigger nodes[i].value} {:trigger blocks[i]} :: 0 <= i < |nodes| ==>
         nodes[i].value == To(blocks[i]) && blocks[i].node == nodes[i] && blocks[i].Shaped()
  }

  lemma CarryWithout(nodes: seq<ListNode<Block>>, blocks: seq<Block>, i: nat)
    requires Carry(nodes, blocks) && Distinct(Memory(blocks)) && i < |blocks|
    ensures Carry(Without(nodes, i), Without(blocks, i)) && Distinct(Memory(Without(blocks, i)))
  {
  }

  lemma WithoutAppend<T>(s: seq<T>, i: nat, x: T)
    requires i < |s|
    ensures Without(s + [x], i) == Without(s, i) + [x]
  {
  }

  ghost predicate AllShaped(blocks: seq<Block>) {
    forall b :: b in blocks ==> b.Shaped()
  }

  ghost function MemorySet(blocks: seq<Block>): set<array<Byte>> {
    set b | b in blocks :: b.bytes
  }

  ghost predicate AllIntact(blocks: seq<Block>)
    requires AllShaped(blocks)
    reads MemorySet(blocks)
  {
    forall b :: b in blocks ==> b.GuardsIntact()
  }

  lemma FirstOf(rest: seq<Block>)
    requires rest != [] && AllShaped(rest)
    ensures AllShaped(rest[1..]) && MemorySet(rest[1..]) <= MemorySet(rest)
    ensures rest[0].Shaped() && rest[0].bytes in MemorySet(rest)
  {
    assert rest[0] in rest;
  }

  // How many blocks come before the first with a corrupt guard.
  ghost function IntactRun(blocks: seq<Block>): (k: nat)
    requires AllShaped(blocks)
    reads MemorySet(blocks)
    ensures k <= |blocks|
    decreases |blocks|
  {
    if blocks == [] then 0
    else
      FirstOf(blocks);
      if blocks[0].GuardsIntact() then 1 + IntactRun(blocks[1..]) else 0
  }

  lemma {:induction false} IntactRunAll(blocks: seq<Block>)
    requires AllShaped(blocks)
    ensures IntactRun(blocks) == |blocks| <==> AllIntact(blocks)
    decreases |blocks|
  {
    if blocks != [] {
      FirstOf(blocks);
      assert blocks == [blocks[0]] + blocks[1..];
      IntactRunAll(blocks[1..]);
    }
  }

  lemma WithoutInside<T>(s: seq<T>, i: nat)
    requires i < |s|
    ensures forall x :: x in Without(s, i) ==> x in s
  {
  }

  // No other block shares memory with block number i.
  lemma RestApart(blocks: seq<Block>, i: nat)
    requires Distinct(Memory(blocks)) && i < |blocks|
    ensures forall b :: b in Without(blocks, i) ==> b in blocks && b.bytes != blocks[i].bytes
  {
    forall b | b in Without(blocks, i) ensures b in blocks && b.bytes != blocks[i].bytes {
      var k :| 0 <= k < |Without(blocks, i)| && Without(blocks, i)[k] == b;
      var j := if k < i then k else k + 1;
      assert blocks[j] == b && Memory(blocks)[j] != Memory(blocks)[i];
    }
  }

  lemma AppendIntact(rest: seq<Block>, b: Block)
    requires AllShaped(rest) && AllIntact(rest) && b.Shaped() && b.GuardsIntact()
    ensures AllShaped(rest + [b]) && AllIntact(rest + [b])
  {
  }

  // No later block shares memory with block number c.
  lemma OthersApart(blocks: seq<Block>, c: nat)
    requires Distinct(Memory(blocks)) && c < |blocks|
    ensures forall b :: b in blocks[c..][1..] ==> b.bytes != blocks[c].bytes
  {
  }

  datatype Reallocated = Failed | Released | Moved(block: Block)

  function Min(a: nat, b: nat): nat {
    if a < b then a else b
  }

  // memcpy.
  method MemCpy(a: array<Byte>, at: nat, data: seq<Byte>)
    requires at + |data| <= a.Length
    modifies a
    ensures a[at..at + |data|] == data
    ensures forall i :: 0 <= i < at || at + |data| <= i < a.Length ==> a[i] == old(a[i])
  {
    forall i | 0 <= i < |data| {
      a[at + i] := data[i];
    }
  }

  // The first n data bytes are copied to a new block.
  method CopyData(to: Block, from: Block, n: nat)
    requires to.Shaped() && from.Shaped() && to.bytes != from.bytes && n <= to.size && n <= from.size
    requires to.GuardsIntact()
    modifies to.bytes
    ensures to.GuardsIntact()
    ensures to.Data()[..n] == from.Data()[..n] && to.Data()[n..] == old(to.Data()[n..])
  {
    var x, y := Offset(to.address), Offset(from.address);
    MemCpy(to.bytes, x, from.bytes[y..y + n]);
    assert to.Data()[..n] == to.bytes[x..x + n] && from.Data()[..n] == from.bytes[y..y + n];
  }

  lemma SameFrom<T>(x: seq<T>, y: seq<T>, n: nat)
    requires n <= |x| == |y| && x[n..] == y[n..]
    ensures forall j :: n <= j < |x| ==> y[j] == x[j]
  {
    forall j | n <= j < |x| ensures y[j] == x[j] {
      assert y[j] == y[n..][j - n] && x[j] == x[n..][j - n];
    }
  }

  // ---------- Whole runs between a check point and the leak check ----------

  // What the code under test does with the blocks that are allocated, by their place in the list.
  datatype Use = DoMalloc(size: nat, address: nat) | DoFree(i: nat) | DoRealloc(i: nat, size: nat, address: nat)

  // A block was there before the check point, was made since, or is one of the former in the
  // place to which realloc has moved it.
  datatype Origin = Before | Since | MovedOn

  function Track(o: seq<Origin>, u: Use): (o': seq<Origin>)
    requires !u.DoMalloc? ==> u.i < |o|
    ensures |o'| == |o| + (if u.DoMalloc? then 1 else if u.DoFree? || u.size == 0 then -1 else 0)
  {
    match u
    case DoMalloc(_, _) => o + [Since]
    case DoFree(i) => o[..i] + o[i + 1..]
    case DoRealloc(i, size, _) =>
      o[..i] + o[i + 1..] + if size == 0 then [] else [if o[i].Before? then MovedOn else o[i]]
  }

  // The block exists and is not the check point, the last one from before; the size is possible.
  predicate Legal(o: seq<Origin>, u: Use) {
    && (u.DoMalloc? || (u.i < |o| && (o[u.i].Before? ==> u.i + 1 < |o| && o[u.i + 1].Before?)))
    && (!u.DoFree? ==> u.size < ADDRESSES && SizeOk(u.size))
  }

  predicate AllLegal(o: seq<Origin>, us: seq<Use>)
    decreases |us|
  {
    us == [] || (Legal(o, us[0]) && AllLegal(Track(o, us[0]), us[1..]))
  }

  function TrackAll(o: seq<Origin>, us: seq<Use>): seq<Origin>
    requires AllLegal(o, us)
    decreases |us|
  {
    if us == [] then o else TrackAll(Track(o, us[0]), us[1..])
  }

  // The first k blocks are from before the check point, and the others are not.
  predicate Divided(o: seq<Origin>, k: int) {
    0 <= k <= |o| && forall i :: 0 <= i < |o| ==> (o[i].Before? <==> i < k)
  }

  // The place of the check point after one use.
  function Place(o: seq<Origin>, k: int, u: Use): int {
    if !u.DoMalloc? && u.i < k then k - 1 else k
  }

  lemma DropDivided(o: seq<Origin>, k: int, i: nat)
    requires Divided(o, k) && i < |o|
    ensures Divided(o[..i] + o[i + 1..], if i < k then k - 1 else k)
  {
  }

  lemma TrackDivided(o: seq<Origin>, k: int, u: Use)
    requires Divided(o, k) && Legal(o, u)
    ensures Divided(Track(o, u), Place(o, k, u))
    ensures k > 0 ==> Place(o, k, u) > 0
  {
    if !u.DoMalloc? {
      DropDivided(o, k, u.i);
    }
  }

  // The blocks that were there and are not freed come first, in order.
  ghost predicate Follows<T>(was: seq<T>, now: seq<T>, u: Use) {
    if u.DoMalloc? then was <= now else u.i < |was| && was[..u.i] + was[u.i + 1..] <= now
  }

  // The check point keeps its block.
  lemma SamePlace<T>(was: seq<T>, now: seq<T>, o: seq<Origin>, k: int, u: Use)
    requires |o| == |was| && Divided(o, k) && Legal(o, u) && Follows(was, now, u) && k > 0
    ensures 0 < Place(o, k, u) <= |now| && now[Place(o, k, u) - 1] == was[k - 1]
  {
    if !u.DoMalloc? {
      var rest := was[..u.i] + was[u.i + 1..];
      assert |rest| == |was| - 1;
    }
  }

  function AllBefore(n: nat): (o: seq<Origin>)
    ensures |o| == n && Divided(o, n)
  {
    seq(n, _ => Before)
  }

  function CountOf(o: seq<Origin>, x: Origin): nat {
    if o == [] then 0 else (if o[0] == x then 1 else 0) + CountOf(o[1..], x)
  }

  lemma {:induction false} CountOfConcat(x: seq<Origin>, y: seq<Origin>, v: Origin)
    ensures CountOf(x + y, v) == CountOf(x, v) + CountOf(y, v)
    decreases |x|
  {
    if x == [] {
      assert x + y == y;
    } else {
      assert (x + y)[1..] == x[1..] + y;
      CountOfConcat(x[1..], y, v);
    }
  }

  lemma CountOfOne(v: Origin, x: Origin)
    ensures CountOf([v], x) == if v == x then 1 else 0
  {
    assert [v][1..] == [];
  }

  lemma CountOfDrop(o: seq<Origin>, i: nat, x: Origin)
    requires i < |o|
    ensures CountOf(o[..i] + o[i + 1..], x) == CountOf(o, x) - if o[i] == x then 1 else 0
  {
    assert o == o[..i] + ([o[i]] + o[i + 1..]);
    CountOfConcat(o[..i], [o[i]] + o[i + 1..], x);
    CountOfConcat([o[i]], o[i + 1..], x);
    CountOfConcat(o[..i], o[i + 1..], x);
    CountOfOne(o[i], x);
  }

  // The use frees a block of that origin for good.
  predicate ReleasesOne(o: seq<Origin>, u: Use, x: Origin) {
    (u.DoFree? || (u.DoRealloc? && u.size == 0)) && u.i < |o| && o[u.i] == x
  }

  // The use moves a block that was there before the check point.
  predicate MovesOne(o: seq<Origin>, u: Use) {
    u.DoRealloc? && u.size > 0 && u.i < |o| && o[u.i] == Before
  }

  // What one use does to the number of blocks of each origin.
  lemma TrackCounts(o: seq<Origin>, u: Use)
    requires Legal(o, u)
    ensures CountOf(Track(o, u), Since)
              == CountOf(o, Since) + (if u.DoMalloc? then 1 else 0) - if ReleasesOne(o, u, Since) then 1 else 0
    ensures CountOf(Track(o, u), MovedOn)
              == CountOf(o, MovedOn) + (if MovesOne(o, u) then 1 else 0) - if ReleasesOne(o, u, MovedOn) then 1 else 0
    ensures CountOf(Track(o, u), Before)
              == CountOf(o, Before) - if MovesOne(o, u) || ReleasesOne(o, u, Before) then 1 else 0
  {
    var rest := if u.DoMalloc? then o else o[..u.i] + o[u.i + 1..];
    var made := Track(o, u)[|rest|..];
    assert Track(o, u) == rest + made && |made| <= 1;
    forall x ensures CountOf(Track(o, u), x) == CountOf(rest, x) + if made != [] && made[0] == x then 1 else 0 {
      CountOfConcat(rest, made, x);
      if made != [] {
        assert made == [made[0]];
        CountOfOne(made[0], x);
      }
    }
    if !u.DoMalloc? {
      CountOfDrop(o, u.i, Since);
      CountOfDrop(o, u.i, MovedOn);
      CountOfDrop(o, u.i, Before);
    }
  }

  // The leak check reports what is not from before.
  lemma {:induction false} ReportedDivided(o: seq<Origin>, k: int)
    requires Divided(o, k)
    ensures CountOf(o, Since) + CountOf(o, MovedOn) == |o| - k
    decreases |o|
  {
    if o != [] {
      assert forall i :: 0 <= i < |o| - 1 ==> o[1..][i] == o[i + 1];
      ReportedDivided(o[1..], if k == 0 then 0 else k - 1);
    }
  }

  lemma {:induction false} CountNone(o: seq<Origin>, x: Origin)
    ensures CountOf(o, x) == 0 <==> x !in o
    decreases |o|
  {
    if o != [] {
      assert o == [o[0]] + o[1..];
      CountNone(o[1..], x);
    }
  }

  // How many uses allocate, release a block of that origin, and move a block from before.
  function Mallocs(us: seq<Use>): nat {
    if us == [] then 0 else (if us[0].DoMalloc? then 1 else 0) + Mallocs(us[1..])
  }

  function Releases(o: seq<Origin>, us: seq<Use>, x: Origin): nat
    requires AllLegal(o, us)
    decreases |us|
  {
    if us == [] then 0
    else (if ReleasesOne(o, us[0], x) then 1 else 0) + Releases(Track(o, us[0]), us[1..], x)
  }

  function Moves(o: seq<Origin>, us: seq<Use>): nat
    requires AllLegal(o, us)
    decreases |us|
  {
    if us == [] then 0 else (if MovesOne(o, us[0]) then 1 else 0) + Moves(Track(o, us[0]), us[1..])
  }

  // What is left of each kind after a run: what was made or moved, less what was released.
  lemma {:induction false} TrackAllCounts(o: seq<Origin>, us: seq<Use>)
    requires AllLegal(o, us)
    ensures CountOf(TrackAll(o, us), Since) == CountOf(o, Since) + Mallocs(us) - Releases(o, us, Since)
    ensures CountOf(TrackAll(o, us), MovedOn) == CountOf(o, MovedOn) + Moves(o, us) - Releases(o, us, MovedOn)
    decreases |us|
  {
    if us != [] {
      TrackCounts(o, us[0]);
      TrackAllCounts(Track(o, us[0]), us[1..]);
    }
  }

  // The report is that of the blocks made since if and only if no block from before that realloc
  // has moved is left.
  lemma ReportExact(o: seq<Origin>)
    ensures CountOf(o, Since) + CountOf(o, MovedOn) == CountOf(o, Since) <==> MovedOn !in o
  {
    CountNone(o, MovedOn);
  }

  // For example two blocks from before, and the first is moved: nothing was made since, and one
  // block is reported.
  lemma MovedReported(us: seq<Use>)
    requires us == [DoRealloc(0, 8, 0)]
    ensures AllLegal(AllBefore(2), us)
    ensures CountOf(TrackAll(AllBefore(2), us), Since) == 0 && CountOf(TrackAll(AllBefore(2), us), MovedOn) == 1
  {
    var o := Track(AllBefore(2), us[0]);
    assert us[1..] == [] && o == [Before, MovedOn];
    assert TrackAll(AllBefore(2), us) == TrackAll(o, us[1..]) == o;
    assert o[1..] == [MovedOn] && o[1..][1..] == [];
    assert CountOf(o[1..], Since) == 0 && CountOf(o[1..], MovedOn) == 1;
  }

  lemma Divide<T>(s: seq<T>, c: nat, x: seq<T>, y: seq<T>)
    requires c <= |s| && x == s[..c] && y == s[c..]
    ensures s == x + y[0..] && y[0..] == y && |x| == c
  {
  }

  class TestHeap {
    const head: ListNode<Block>
    ghost var nodes: seq<ListNode<Block>>
    ghost var blocks: seq<Block>     // the blocks that are allocated, oldest first

    ghost predicate Valid()
      reads this, head, nodes
    {
      && Ring(head, nodes)
      && head.value == Null
      && Carry(nodes, blocks)
      && Distinct(Memory(blocks))
    }

    constructor ()
      ensures Valid() && blocks == [] && fresh(head)
    {
      head := new ListNode<Block>();
      nodes, blocks := [], [];
    }

    // Adds a block at the end of the list.
    method Link(b: Block)
      requires Valid() && b.Shaped() && b.node.value == To(b)
      requires b.node != head && b.node !in nodes && b.bytes !in Memory(blocks)
      modifies this, head, NodeSet(nodes), b.node
      ensures Valid() && nodes == old(nodes) + [b.node] && blocks == old(blocks) + [b]
    {
      ListAdd(head, b.node, nodes);
      assert Memory(blocks + [b]) == Memory(blocks) + [b.bytes];
      nodes, blocks := nodes + [b.node], blocks + [b];
    }

    // _test_malloc. The underlying malloc returned the address; null is the failed assertion.
    method Malloc(size: nat, address: nat) returns (b: Block?)
      requires Valid() && size < ADDRESSES
      modifies this, head, NodeSet(nodes)
      ensures Valid()
      ensures b == null <==> !SizeOk(size)
      ensures b == null ==> nodes == old(nodes) && blocks == old(blocks)
      ensures b != null ==>
                && fresh(b) && fresh(b.bytes) && fresh(b.node)
                && b.size == size && b.address == address && b.Shaped()
                && nodes == old(nodes) + [b.node] && blocks == old(blocks) + [b]
                && b.GuardsIntact()
                && forall j :: 0 <= j < size ==> b.Data()[j] == 0xBA
    {
      if !(AllocateSize(size) > size) {
        return null;
      }
      b := NewBlock(size, address);
      DataFilled(b, ALLOC_PATTERN);
      Link(b);
    }

    // Takes block number i out of the list.
    method Unlink(b: Block, ghost i: nat)
      requires Valid() && i < |blocks| && blocks[i] == b
      modifies this, head, NodeSet(nodes)
      ensures Valid() && nodes == old(Without(nodes, i)) && blocks == old(Without(blocks, i))
    {
      ListRemove(b.node, head, nodes, i);
      CarryWithout(nodes, blocks, i);
      nodes, blocks := Without(nodes, i), Without(blocks, i);
    }

    // _test_free on a block of the list: false is the report of a corrupt guard, which ends the test.
    method Free(b: Block, ghost i: nat) returns (ok: bool)
      requires Valid() && i < |blocks| && blocks[i] == b
      modifies this, head, NodeSet(nodes), b.bytes
      ensures Valid()
      ensures ok <==> old(b.GuardsIntact())
      // that is, the sixteen bytes on either side of the data are all 0xEF
      ensures ok <==>
                old(var o := Offset(b.address);
                    forall k :: o - 16 <= k < o + b.size + 16 && !(o <= k < o + b.size) ==> b.bytes[k] == 0xEF)
      ensures ok ==> nodes == old(Without(nodes, i)) && blocks == old(Without(blocks, i))
      ensures ok ==> forall j :: 0 <= j < b.bytes.Length ==> b.bytes[j] == 0xCD
      ensures !ok ==> nodes == old(nodes) && blocks == old(blocks) && b.bytes[..] == old(b.bytes[..])
    {
      GuardsMeaning(b);
      ok := CheckGuards(b);
      if !ok {
        return;
      }
      Unlink(b, i);
      MemSet(b.bytes, 0, b.bytes.Length, FREE_PATTERN);
    }

    // The first half of _test_realloc: a new block with the old data.
    method CopyOf(b: Block, size: nat, address: nat, ghost i: nat) returns (copy: Block?)
      requires Valid() && size < ADDRESSES && i < |blocks| && blocks[i] == b
      modifies this, head, NodeSet(nodes)
      ensures Valid()
      ensures copy == null <==> !SizeOk(size)
      ensures copy == null ==> nodes == old(nodes) && blocks == old(blocks)
      ensures copy != null ==>
                && fresh(copy) && fresh(copy.bytes) && fresh(copy.node) && copy.size == size && copy.Shaped()
                && blocks == old(blocks) + [copy] && nodes == old(nodes) + [copy.node]
                && Without(blocks, i) == old(Without(blocks, i)) + [copy]
                && Without(nodes, i) == old(Without(nodes, i)) + [copy.node]
                && copy.GuardsIntact()
                && copy.Data()[..Min(b.size, size)] == b.Data()[..Min(b.size, size)]
                && forall j :: Min(b.size, size) <= j < size ==> copy.Data()[j] == 0xBA
    {
      ghost var was, wasNodes := blocks, nodes;
      copy := Malloc(size, address);
      if copy == null {
        return;
      }
      ghost var fill := copy.Data();
      CopyData(copy, b, Min(b.size, size));
      SameFrom(fill, copy.Data(), Min(b.size, size));
      WithoutAppend(was, i, copy);
      WithoutAppend(wasNodes, i, copy.node);
    }

    // _test_realloc of a block of the list.
    method Realloc(b: Block, size: nat, address: nat, ghost i: nat) returns (r: Reallocated)
      requires Valid() && size < ADDRESSES && i < |blocks| && blocks[i] == b
      modifies this, head, NodeSet(nodes), b.bytes
      ensures Valid()
      ensures r.Failed? <==> !old(b.GuardsIntact()) || !SizeOk(size)
      ensures r.Failed? <==>
                || !SizeOk(size)
                || !old(var o := Offset(b.address);
                        forall k :: o - 16 <= k < o + b.size + 16 && !(o <= k < o + b.size) ==> b.bytes[k] == 0xEF)
      ensures r.Failed? && (size == 0 || !SizeOk(size)) ==> blocks == old(blocks)
      // a corrupt guard is found only after the new block has been linked, which then stays behind
      ensures r.Failed? && size > 0 && SizeOk(size) ==> |blocks| == old(|blocks|) + 1 && blocks[..old(|blocks|)] == old(blocks)
      ensures r.Released? ==> size == 0 && blocks == old(Without(blocks, i)) && nodes == old(Without(nodes, i))
      ensures r.Moved? ==>
                && size > 0 && fresh(r.block) && fresh(r.block.node) && fresh(r.block.bytes)
                && r.block.size == size && r.block.Shaped() && r.block.GuardsIntact()
                && blocks == old(Without(blocks, i)) + [r.block] && nodes == old(Without(nodes, i)) + [r.block.node]
                && |blocks| == old(|blocks|)
                && r.block.Data()[..Min(b.size, size)] == old(b.Data()[..Min(b.size, size)])
                && forall j :: Min(b.size, size) <= j < size ==> r.block.Data()[j] == 0xBA
      // the old memory is patterned, or untouched
      ensures !r.Failed? ==> forall j :: 0 <= j < b.bytes.Length ==> b.bytes[j] == 0xCD
      ensures r.Failed? ==> b.bytes[..] == old(b.bytes[..])
    {
      GuardsMeaning(b);
      if size == 0 {
        var ok := Free(b, i);
        return if ok then Released else Failed;
      }
      var copy := CopyOf(b, size, address, i);
      if copy == null {
        return Failed;
      }
      ghost var data := copy.Data();
      var ok := Free(b, i);
      if !ok {
        return Failed;
      }
      assert copy.Data() == data;
      return Moved(copy);
    }

    // One byte of a block or its guards is written before the block is freed. The write is found
    // out exactly when it changes a guard.
    method WriteThenFree(b: Block, at: nat, v: Byte, ghost i: nat) returns (ok: bool)
      requires Valid() && i < |blocks| && blocks[i] == b && b.GuardsIntact()
      requires at < 16 + b.size + 16
      modifies this, head, NodeSet(nodes), b.bytes
      ensures ok <==> v == 0xEF || 16 <= at < 16 + b.size
      ensures !ok ==> nodes == old(nodes) && blocks == old(blocks)
    {
      GuardsMeaning(b);
      var k := Offset(b.address) - 16 + at;
      b.bytes[k] := v;
      GuardTouched(b, k);
      ok := Free(b, i);
    }

    // The same before realloc, whatever the new size.
    method WriteThenRealloc(b: Block, at: nat, v: Byte, size: nat, address: nat, ghost i: nat) returns (r: Reallocated)
      requires Valid() && size < ADDRESSES && SizeOk(size) && i < |blocks| && blocks[i] == b && b.GuardsIntact()
      requires at < 16 + b.size + 16
      modifies this, head, NodeSet(nodes), b.bytes
      ensures r.Failed? <==> v != 0xEF && (at < 16 || 16 + b.size <= at)
    {
      GuardsMeaning(b);
      var k := Offset(b.address) - 16 + at;
      b.bytes[k] := v;
      GuardTouched(b, k);
      r := Realloc(b, size, address, i);
    }

    // check_point_allocated_blocks: the last node, or the head of an empty list.
    method CheckPoint() returns (cp: ListNode<Block>)
      requires Valid()
      ensures cp == At(head, nodes, |blocks| - 1)
    {
      cp := head.prev;
    }

    // display_allocated_blocks: how many blocks come after the first c.
    method CountAfter(cp: ListNode<Block>, ghost c: nat) returns (n: nat)
      requires Valid() && c <= |blocks| && cp == At(head, nodes, c - 1)
      ensures n == |blocks| - c
    {
      n := 0;
      var node := cp.next;
      while node != head
        invariant c + n <= |nodes| && node == At(head, nodes, c + n)
        decreases |nodes| - c - n
      {
        node := node.next;
        n := n + 1;
      }
    }

    // One turn of free_allocated_blocks; `rest` are the blocks it has come to.
    method FreeNext(node: ListNode<Block>, ghost c: nat, ghost rest: seq<Block>)
      returns (next: ListNode<Block>, ok: bool)
      requires Valid() && c < |blocks| && node == nodes[c] && rest == blocks[c..] && AllShaped(rest[1..])
      modifies this, head, NodeSet(nodes), rest[0].bytes
      ensures Valid() && NodeSet(nodes) <= old(NodeSet(nodes))
      ensures ok <==> old(blocks[c].GuardsIntact())
      ensures ok ==> blocks == old(blocks[..c]) + rest[1..] && next == At(head, nodes, c)
      ensures !ok ==> blocks == old(blocks)
      ensures IntactRun(rest[1..]) == old(IntactRun(rest[1..]))
    {
      OthersApart(blocks, c);
      ghost var others := MemorySet(rest[1..]);
      assert rest[0].bytes !in others;
      next := node.next;
      ok := Free(node.value.target, c);
      assert unchanged(others);
    }

    // The walk has freed the first d of the blocks `all` that come after `kept`; k of them come
    // before the first corrupt one.
    ghost predicate Freeing(node: ListNode<Block>, kept: seq<Block>, all: seq<Block>, d: int, k: int)
      requires 0 <= d <= |all|
      reads this, head, nodes, MemorySet(all[d..])
    {
      && Valid() && blocks == kept + all[d..] && node == At(head, nodes, |kept|)
      && AllShaped(all[d..]) && d + IntactRun(all[d..]) == k
    }

    method FreeOne(node: ListNode<Block>, ghost kept: seq<Block>, ghost all: seq<Block>, ghost d: nat, ghost k: nat)
      returns (next: ListNode<Block>, ok: bool)
      requires d < |all| && Freeing(node, kept, all, d, k)
      modifies this, head, NodeSet(nodes), MemorySet(all[d..])
      ensures NodeSet(nodes) <= old(NodeSet(nodes)) && MemorySet(all[d + 1..]) <= MemorySet(all[d..])
      ensures ok ==> Freeing(next, kept, all, d + 1, k)
      ensures !ok ==> Valid() && blocks == kept + all[d..] && k == d
    {
      ghost var rest := all[d..];
      FirstOf(rest);
      assert rest[1..] == all[d + 1..] && blocks[|kept|..] == rest && blocks[|kept|] == rest[0] && blocks[..|kept|] == kept;
      next, ok := FreeNext(node, |kept|, rest);
    }

    method FreeAll(first: ListNode<Block>, ghost kept: seq<Block>, ghost all: seq<Block>, ghost k: nat) returns (ok: bool)
      requires Freeing(first, kept, all, 0, k)
      modifies this, head, NodeSet(nodes), MemorySet(all[0..])
      ensures Valid() && k <= |all| && blocks == kept + all[k..]
      ensures ok <==> k == |all|
    {
      ghost var d := 0;
      var node := first;
      ok := true;
      while node != head
        invariant 0 <= d <= |all| && Freeing(node, kept, all, d, k)
        invariant NodeSet(nodes) <= old(NodeSet(nodes)) && MemorySet(all[d..]) <= MemorySet(all[0..])
        decreases |all| - d
      {
        node, ok := FreeOne(node, kept, all, d, k);
        if !ok {
          return;
        }
        d := d + 1;
      }
    }

    // free_allocated_blocks: frees what comes after the first c, up to the first corrupt guard.
    method FreeAfter(cp: ListNode<Block>, ghost c: nat) returns (ok: bool)
      requires Valid() && c <= |blocks| && cp == At(head, nodes, c - 1)
      modifies this, head, NodeSet(nodes), MemorySet(blocks[c..])
      ensures Valid()
      ensures ok <==> old(AllIntact(blocks[c..]))
      ensures blocks == old(blocks[..c] + blocks[c..][IntactRun(blocks[c..])..])
    {
      ghost var kept, all := blocks[..c], blocks[c..];
      Divide(blocks, c, kept, all);
      assert AllShaped(all);
      ghost var k := IntactRun(all);
      IntactRunAll(all);
      ok := FreeAll(cp.next, kept, all, k);
    }

    // Block number i of the list.
    method BlockAt(i: nat) returns (b: Block)
      requires Valid() && i < |blocks|
      ensures b == blocks[i]
    {
      var node := head.next;
      var j := 0;
      while j < i
        invariant 0 <= j <= i && node == At(head, nodes, j)
      {
        node := node.next;
        j := j + 1;
      }
      return node.value.target;
    }

    ghost predicate Intact()
      reads this, MemorySet(blocks)
    {
      AllShaped(blocks) && AllIntact(blocks)
    }

    // Every object of the list was part of it before, or is new.
    twostate predicate OldOrNew(nodes0: seq<ListNode<Block>>, blocks0: seq<Block>)
      reads this
    {
      && (forall n :: n in nodes ==> n in nodes0 || fresh(n))
      && (forall b :: b in blocks ==> b in blocks0 || fresh(b.bytes))
    }

    method UseMalloc(size: nat, address: nat)
      requires Valid() && Intact() && size < ADDRESSES && SizeOk(size)
      modifies this, head, NodeSet(nodes)
      ensures Valid() && Intact()
      ensures |blocks| == old(|blocks|) + 1 && Follows(old(blocks), blocks, DoMalloc(size, address))
      ensures OldOrNew(old(nodes), old(blocks))
    {
      var b := Malloc(size, address);
    }

    method UseFree(i: nat)
      requires Valid() && Intact() && i < |blocks|
      modifies this, head, NodeSet(nodes), MemorySet(blocks)
      ensures Valid() && Intact()
      ensures |blocks| == old(|blocks|) - 1 && Follows(old(blocks), blocks, DoFree(i))
      ensures OldOrNew(old(nodes), old(blocks))
    {
      var b := BlockAt(i);
      var ok := Free(b, i);
    }

    // Realloc leaves the blocks other than b as they are.
    method ReallocOne(b: Block, size: nat, address: nat, ghost i: nat, ghost rest: seq<Block>) returns (r: Reallocated)
      requires Valid() && size < ADDRESSES && SizeOk(size) && i < |blocks| && blocks[i] == b && rest == Without(blocks, i)
      requires b.GuardsIntact() && AllShaped(rest) && AllIntact(rest) && b.bytes !in MemorySet(rest)
      modifies this, head, NodeSet(nodes), b.bytes
      ensures Valid() && AllIntact(rest)
      ensures size == 0 ==> r.Released? && blocks == rest
      ensures size > 0 ==> r.Moved? && r.block.Shaped() && r.block.GuardsIntact() && blocks == rest + [r.block]
      ensures OldOrNew(old(nodes), old(blocks))
    {
      ghost var others := MemorySet(rest);
      WithoutInside(blocks, i);
      WithoutInside(nodes, i);
      r := Realloc(b, size, address, i);
      assert unchanged(others);
    }

    method UseRealloc(i: nat, size: nat, address: nat)
      requires Valid() && Intact() && i < |blocks| && size < ADDRESSES && SizeOk(size)
      modifies this, head, NodeSet(nodes), MemorySet(blocks)
      ensures Valid() && Intact()
      ensures |blocks| == old(|blocks|) - if size == 0 then 1 else 0
      ensures Follows(old(blocks), blocks, DoRealloc(i, size, address))
      ensures OldOrNew(old(nodes), old(blocks))
    {
      ghost var rest := Without(blocks, i);
      RestApart(blocks, i);
      assert blocks[i] in blocks && AllShaped(rest) && AllIntact(rest);
      var b := BlockAt(i);
      var r := ReallocOne(b, size, address, i, rest);
      if r.Moved? {
        AppendIntact(rest, r.block);
      }
      assert rest <= blocks;
    }

    // fail_if_blocks_allocated: reports the blocks after the check point and frees them. The test
    // fails if there are any; false means that a corrupt guard cut the cleaning up short.
    method FailIfLeaked(cp: ListNode<Block>, ghost c: nat) returns (leaked: nat, cleaned: bool)
      requires Valid() && c <= |blocks| && cp == At(head, nodes, c - 1)
      modifies this, head, NodeSet(nodes), MemorySet(blocks[c..])
      ensures Valid()
      ensures leaked == old(|blocks|) - c
      ensures cleaned <==> old(AllIntact(blocks[c..]))
      ensures blocks == old(blocks[..c] + blocks[c..][IntactRun(blocks[c..])..])
    {
      leaked := CountAfter(cp, c);
      cleaned := true;
      IntactRunAll(blocks[c..]);
      if leaked > 0 {
        cleaned := FreeAfter(cp, c);
      }
    }

    // `k` of the blocks are from before the check point `cp`, which is the last of them.
    ghost predicate Checked(cp: ListNode<Block>, o: seq<Origin>, k: int)
      reads this, head, nodes, MemorySet(blocks)
    {
      Valid() && Intact() && |o| == |blocks| && Divided(o, k) && cp == At(head, nodes, k - 1)
    }

    method Perform(u: Use, ghost o: seq<Origin>)
      requires Valid() && Intact() && |o| == |blocks| && Legal(o, u)
      modifies this, head, NodeSet(nodes), MemorySet(blocks)
      ensures Valid() && Intact()
      ensures |blocks| == |Track(o, u)| && Follows(old(blocks), blocks, u)
      ensures OldOrNew(old(nodes), old(blocks))
    {
      match u {
        case DoMalloc(size, address) => UseMalloc(size, address);
        case DoFree(i) => UseFree(i);
        case DoRealloc(i, size, address) => UseRealloc(i, size, address);
      }
    }

    // One use of the allocator.
    method Apply(u: Use, ghost cp: ListNode<Block>, ghost o: seq<Origin>, ghost k: int)
      requires Checked(cp, o, k) && Legal(o, u)
      modifies this, head, NodeSet(nodes), MemorySet(blocks)
      ensures Checked(cp, Track(o, u), Place(o, k, u))
      ensures OldOrNew(old(nodes), old(blocks))
    {
      TrackDivided(o, k, u);
      ghost var was := blocks;
      assert k > 0 ==> nodes[k - 1] == was[k - 1].node;
      Perform(u, o);
      if k > 0 {
        SamePlace(was, blocks, o, k, u);
      }
    }

    // The uses, one by one; the check point stays where it is linked.
    method RunUses(us: seq<Use>, ghost cp: ListNode<Block>, ghost o: seq<Origin>, ghost k: int)
      returns (ghost k': int)
      requires Checked(cp, o, k) && AllLegal(o, us)
      modifies this, head, NodeSet(nodes), MemorySet(blocks)
      ensures Checked(cp, TrackAll(o, us), k')
      ensures OldOrNew(old(nodes), old(blocks))
      decreases |us|
    {
      if us == [] {
        return k;
      }
      Apply(us[0], cp, o, k);
      ghost var nodes1, blocks1 := nodes, blocks;
      assert forall n :: n in nodes1 ==> n in old(nodes) || fresh(n);
      assert forall b :: b in blocks1 ==> b in old(blocks) || fresh(b.bytes);
      k' := RunUses(us[1..], cp, Track(o, us[0]), Place(o, k, us[0]));
      assert forall n :: n in nodes ==> n in nodes1 || fresh(n);
      assert forall b :: b in blocks ==> b in blocks1 || fresh(b.bytes);
    }

    // A check point, any legal uses, and the leak check: it reports the blocks made since and not
    // freed, and also those from before that realloc has moved.
    method CheckUses(us: seq<Use>) returns (leaked: nat, cleaned: bool)
      requires Valid() && Intact() && AllLegal(AllBefore(|blocks|), us)
      modifies this, head, NodeSet(nodes), MemorySet(blocks)
      ensures Valid() && cleaned
      ensures var o := old(TrackAll(AllBefore(|blocks|), us));
              leaked == CountOf(o, Since) + CountOf(o, MovedOn)
      ensures |blocks| == old(|TrackAll(AllBefore(|blocks|), us)|) - leaked
    {
      var cp := CheckPoint();
      ghost var o := AllBefore(|blocks|);
      ghost var k := RunUses(us, cp, o, |blocks|);
      ReportedDivided(TrackAll(o, us), k);
      IntactRunAll(blocks[k..]);
      leaked, cleaned := FailIfLeaked(cp, k);
    }
  }
}
