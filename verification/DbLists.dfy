/** Relocation of the database: its memory has been copied block by block to other places, and
    the lists that run through it are rewritten in place while they are followed. */
module DbLists {

  /** A block of the old memory, and where its copy starts. */
  datatype Block = Block(start: int, size: nat, copy: int)

  type Memory = map<int, int>

  // Fields of a node of free code, in cells from its start.
  const WCI_BLINK := 1
  const WCI_FLINK := 2

  predicate Within(b: Block, a: int) {
    b.start <= a < b.start + b.size
  }

  /** Old blocks do not overlap, nor do their copies; address 0 belongs to none of them. */
  ghost predicate Layout(blocks: seq<Block>) {
    && (forall i | 0 <= i < |blocks| :: blocks[i].start > 0 && blocks[i].copy > 0)
    && (forall i, j | 0 <= i < j < |blocks| :: Disjoint(blocks[i], blocks[j]))
  }

  predicate Disjoint(b: Block, c: Block) {
    && (b.start + b.size <= c.start || c.start + c.size <= b.start)
    && (b.copy + b.size <= c.copy || c.copy + c.size <= b.copy)
  }

  /** Where an address of the old memory has gone; other words stay as they are. */
  function Translate(blocks: seq<Block>, a: int): int {
    if blocks == [] then a
    else if Within(blocks[0], a) then a - blocks[0].start + blocks[0].copy
    else Translate(blocks[1..], a)
  }

  ghost predicate InBlock(blocks: seq<Block>, a: int) {
    exists i :: 0 <= i < |blocks| && Within(blocks[i], a)
  }

  lemma {:induction false} TranslateIs(blocks: seq<Block>, i: nat, a: int)
    requires Layout(blocks) && i < |blocks| && Within(blocks[i], a)
    ensures Translate(blocks, a) == a - blocks[i].start + blocks[i].copy
  {
    if i > 0 {
      assert Disjoint(blocks[0], blocks[i]);
      assert forall j, k | 0 <= j < k < |blocks| - 1 :: Disjoint(blocks[1..][j], blocks[1..][k]) by {
        forall j, k | 0 <= j < k < |blocks| - 1 ensures Disjoint(blocks[1..][j], blocks[1..][k]) {
          assert Disjoint(blocks[j + 1], blocks[k + 1]);
        }
      }
      TranslateIs(blocks[1..], i - 1, a);
    }
  }

  lemma {:induction false} TranslateElse(blocks: seq<Block>, a: int)
    requires !InBlock(blocks, a)
    ensures Translate(blocks, a) == a
  {
    if blocks != [] {
      assert forall i | 0 <= i < |blocks| :: !Within(blocks[i], a);
      assert forall i | 0 <= i < |blocks| - 1 :: blocks[1..][i] == blocks[i + 1];
      TranslateElse(blocks[1..], a);
    }
  }

  /** Different old addresses go to different new ones. */
  lemma TranslateInjective(blocks: seq<Block>, a: int, b: int)
    requires Layout(blocks) && InBlock(blocks, a) && InBlock(blocks, b) && a != b
    ensures Translate(blocks, a) != Translate(blocks, b)
  {
    var i :| 0 <= i < |blocks| && Within(blocks[i], a);
    var j :| 0 <= j < |blocks| && Within(blocks[j], b);
    TranslateIs(blocks, i, a);
    TranslateIs(blocks, j, b);
    if i < j { assert Disjoint(blocks[i], blocks[j]); }
    if j < i { assert Disjoint(blocks[j], blocks[i]); }
  }

  /** A node lies in one block, so its fields move with it. */
  ghost predicate NodeAt(blocks: seq<Block>, n: int, size: nat) {
    exists i :: 0 <= i < |blocks| && Within(blocks[i], n) && Within(blocks[i], n + size)
  }

  lemma FieldMoves(blocks: seq<Block>, n: int, size: nat, f: nat)
    requires Layout(blocks) && NodeAt(blocks, n, size) && f <= size
    ensures Translate(blocks, n + f) == Translate(blocks, n) + f
    ensures InBlock(blocks, n) && InBlock(blocks, n + f) && Translate(blocks, n) > 0
  {
    var i :| 0 <= i < |blocks| && Within(blocks[i], n) && Within(blocks[i], n + size);
    TranslateIs(blocks, i, n);
    TranslateIs(blocks, i, n + f);
    assert Within(blocks[i], n + f);
  }

  function Get(mem: Memory, a: int): int {
    if a in mem then mem[a] else 0
  }

  /** The new memory starts as a copy of the old one. */
  ghost predicate Copied(blocks: seq<Block>, old0: Memory, mem: Memory) {
    forall a | InBlock(blocks, a) :: CellCopied(blocks, old0, mem, a)
  }

  ghost predicate CellCopied(blocks: seq<Block>, old0: Memory, mem: Memory, a: int) {
    Get(mem, Translate(blocks, a)) == Get(old0, a)
  }

  // ---- chains that end in 0 ----

  function NodeOr0(nodes: seq<int>, i: nat): int {
    if i < |nodes| then nodes[i] else 0
  }

  /** `nodes` are the nodes of the chain through field `f` in the old memory. */
  ghost predicate Chain(blocks: seq<Block>, mem: Memory, f: nat, head: int, nodes: seq<int>) {
    && head == NodeOr0(nodes, 0)
    && (forall i: nat | i < |nodes| :: ChainNode(blocks, mem, f, nodes, i))
    && (forall i, j | 0 <= i < j < |nodes| :: nodes[i] != nodes[j])
  }

  ghost predicate ChainNode(blocks: seq<Block>, mem: Memory, f: nat, nodes: seq<int>, i: nat)
    requires i < |nodes|
  {
    NodeAt(blocks, nodes[i], f) && Get(mem, nodes[i] + f) == NodeOr0(nodes, i + 1)
  }

  function Translated(blocks: seq<Block>, nodes: seq<int>): (r: seq<int>)
    ensures |r| == |nodes|
  {
    seq(|nodes|, i requires 0 <= i < |nodes| => Translate(blocks, nodes[i]))
  }

  /** The same chain in the new memory. */
  ghost predicate ChainLinks(mem: Memory, f: nat, head: int, nodes: seq<int>) {
    && head == NodeOr0(nodes, 0)
    && (forall i: nat | i < |nodes| :: Linked(mem, f, nodes, i))
  }

  ghost predicate Linked(mem: Memory, f: nat, nodes: seq<int>, i: nat)
    requires i < |nodes|
  {
    nodes[i] > 0 && Get(mem, nodes[i] + f) == NodeOr0(nodes, i + 1)
  }

  lemma NullStays(blocks: seq<Block>)
    requires Layout(blocks)
    ensures Translate(blocks, 0) == 0
  {
    TranslateElse(blocks, 0);
  }

  class Database {
    const blocks: seq<Block>
    var mem: Memory

    constructor (blocks: seq<Block>, mem: Memory)
      ensures this.blocks == blocks && this.mem == mem
    {
      this.blocks := blocks;
      this.mem := mem;
    }

    /** An address is looked up among the old blocks, first one first. */
    method FixOffset(a: int) returns (r: int)
      ensures r == Translate(blocks, a)
    {
      for i := 0 to |blocks|
        invariant Translate(blocks, a) == Translate(blocks[i..], a)
      {
        if blocks[i].start <= a && a < blocks[i].start + blocks[i].size {
          return a - blocks[i].start + blocks[i].copy;
        }
        assert blocks[i..][1..] == blocks[i + 1..];
      }
      return a;
    }

    /** The cell at `p` gets the translated address. */
    method FixCell(p: int)
      modifies this`mem
      ensures mem == old(mem)[p := Translate(blocks, Get(old(mem), p))]
    {
      var a := FixOffset(Get(mem, p));
      mem := mem[p := a];
    }
  
    /** A chain that ends in 0, through the field at distance `f`, is followed through the links
        just rewritten: the free list of the memory, or the code that waits to be freed. */
    method FixChain(first: int, f: nat, ghost old0: Memory, ghost nodes: seq<int>) returns (head: int)
      requires Layout(blocks) && Chain(blocks, old0, f, first, nodes) && Copied(blocks, old0, mem)
      modifies this`mem
      ensures ChainLinks(mem, f, head, Translated(blocks, nodes))
      ensures forall a | a !in LinkCells(Translated(blocks, nodes), f) :: Get(mem, a) == Get(old(mem), a)
    {
      hide Chain, Copied, Layout;
      head := FixOffset(first);
      ghost var ts, mem0, i := Translated(blocks, nodes), mem, 0;
      var p := head;
      ChainStarts(blocks, old0, mem, f, first, nodes);
      NodesPositive(blocks, old0, f, first, nodes);
      while p != 0
        invariant 0 <= i <= |ts| == |nodes| && p == NodeOr0(ts, i)
        invariant Progress(blocks, old0, mem, f, nodes, i)
        invariant forall a | a !in LinkCells(ts, f) :: Get(mem, a) == Get(mem0, a)
        decreases |nodes| - i
      {
        ghost var mem1 := mem;
        if Get(mem, p + f) != 0 {
          FixCell(p + f);
        }
        ChainStep(blocks, old0, mem1, mem, f, first, nodes, i);
        p := Get(mem, p + f);
        i := i + 1;
      }
      ChainEnds(blocks, old0, mem, f, first, nodes);
    }

    /** The circular list of free code, linked in both directions. */
    method FixCircle(first: int, ghost old0: Memory, ghost nodes: seq<int>) returns (head: int)
      requires Layout(blocks) && Circle(blocks, old0, first, nodes) && Copied(blocks, old0, mem)
      modifies this`mem
      ensures CircleLinks(mem, head, Translated(blocks, nodes))
      ensures forall a | a !in LinkCells(Translated(blocks, nodes), WCI_BLINK) + LinkCells(Translated(blocks, nodes), WCI_FLINK) ::
                Get(mem, a) == Get(old(mem), a)
    {
      hide Circle, Copied, Layout;
      head := FixOffset(first);
      ghost var ts, mem0, i := Translated(blocks, nodes), mem, 0;
      var p := head;
      CircleStarts(blocks, old0, mem, first, nodes);
      while true
        invariant 0 <= i < |ts| == |nodes| && p == ts[i] && head == ts[0]
        invariant BothProgress(blocks, old0, mem, nodes, i)
        invariant forall a | a !in LinkCells(ts, WCI_BLINK) + LinkCells(ts, WCI_FLINK) :: Get(mem, a) == Get(mem0, a)
        decreases |nodes| - i
      {
        ghost var mem1 := mem;
        FixCell(p + WCI_BLINK);
        FixCell(p + WCI_FLINK);
        CircleStep(blocks, old0, mem1, mem, first, nodes, i);
        p := Get(mem, p + WCI_FLINK);
        if p == head { break; }
        i := i + 1;
      }
      CircleEnds(blocks, old0, mem, first, nodes);
    }
  }

  ghost function LinkCells(nodes: seq<int>, f: nat): set<int> {
    set i | 0 <= i < |nodes| :: nodes[i] + f
  }

  /** Before node `i` links are translated, from there on they are as they were copied. */
  ghost predicate Progress(blocks: seq<Block>, old0: Memory, mem: Memory, f: nat, nodes: seq<int>, i: nat) {
    forall j: nat | j < |nodes| :: LinkIs(blocks, old0, mem, f, nodes, i, j)
  }

  ghost predicate LinkIs(blocks: seq<Block>, old0: Memory, mem: Memory, f: nat, nodes: seq<int>, i: nat, j: nat)
    requires j < |nodes|
  {
    var a := Get(old0, nodes[j] + f);
    Get(mem, Translate(blocks, nodes[j]) + f) == if j < i then Translate(blocks, a) else a
  }

  lemma ChainStarts(blocks: seq<Block>, old0: Memory, mem: Memory, f: nat, first: int, nodes: seq<int>)
    requires Layout(blocks) && Chain(blocks, old0, f, first, nodes) && Copied(blocks, old0, mem)
    ensures Translate(blocks, first) == NodeOr0(Translated(blocks, nodes), 0) && Progress(blocks, old0, mem, f, nodes, 0)
  {
    if nodes == [] { NullStays(blocks); }
    forall j: nat | j < |nodes| ensures LinkIs(blocks, old0, mem, f, nodes, 0, j) {
      assert ChainNode(blocks, old0, f, nodes, j);
      FieldMoves(blocks, nodes[j], f, f);
      assert CellCopied(blocks, old0, mem, nodes[j] + f);
    }
  }

  lemma ChainStep(blocks: seq<Block>, old0: Memory, mem: Memory, mem': Memory, f: nat, first: int, nodes: seq<int>, i: nat)
    requires Layout(blocks) && Chain(blocks, old0, f, first, nodes) && i < |nodes| && Progress(blocks, old0, mem, f, nodes, i)
    requires var x := Translate(blocks, nodes[i]) + f;
             mem' == if Get(mem, x) != 0 then mem[x := Translate(blocks, Get(mem, x))] else mem
    ensures Progress(blocks, old0, mem', f, nodes, i + 1)
    ensures Get(mem', Translate(blocks, nodes[i]) + f) == NodeOr0(Translated(blocks, nodes), i + 1)
  {
    assert ChainNode(blocks, old0, f, nodes, i) && LinkIs(blocks, old0, mem, f, nodes, i, i);
    FieldMoves(blocks, nodes[i], f, f);
    NullStays(blocks);
    var n := i + 1;
    forall j: nat | j < |nodes| ensures LinkIs(blocks, old0, mem', f, nodes, n, j) {
      assert ChainNode(blocks, old0, f, nodes, j) && LinkIs(blocks, old0, mem, f, nodes, i, j);
      FieldMoves(blocks, nodes[j], f, f);
      if j != i {
        assert nodes[i] != nodes[j];
        TranslateInjective(blocks, nodes[i], nodes[j]);
      }
    }
  }

  lemma NodesPositive(blocks: seq<Block>, old0: Memory, f: nat, first: int, nodes: seq<int>)
    requires Layout(blocks) && Chain(blocks, old0, f, first, nodes)
    ensures forall i | 0 <= i < |nodes| :: NodeOr0(Translated(blocks, nodes), i) > 0
  {
    forall i | 0 <= i < |nodes| ensures NodeOr0(Translated(blocks, nodes), i) > 0 {
      assert ChainNode(blocks, old0, f, nodes, i);
      FieldMoves(blocks, nodes[i], f, f);
    }
  }

  lemma ChainEnds(blocks: seq<Block>, old0: Memory, mem: Memory, f: nat, first: int, nodes: seq<int>)
    requires Layout(blocks) && Chain(blocks, old0, f, first, nodes) && Progress(blocks, old0, mem, f, nodes, |nodes|)
    ensures ChainLinks(mem, f, Translate(blocks, first), Translated(blocks, nodes))
  {
    var ts := Translated(blocks, nodes);
    NullStays(blocks);
    NodesPositive(blocks, old0, f, first, nodes);
    forall j: nat | j < |ts| ensures Linked(mem, f, ts, j) {
      assert ChainNode(blocks, old0, f, nodes, j) && LinkIs(blocks, old0, mem, f, nodes, |nodes|, j);
      assert NodeOr0(ts, j) > 0;
    }
  }

  // ---- circles ----

  function After(n: nat, i: nat): nat {
    if i + 1 < n then i + 1 else 0
  }

  function Before(n: nat, i: nat): nat
    requires i < n
  {
    if i > 0 then i - 1 else n - 1
  }

  /** Nodes do not overlap. */
  predicate Apart(a: int, b: int) {
    a + WCI_FLINK < b || b + WCI_FLINK < a
  }

  ghost predicate Circle(blocks: seq<Block>, mem: Memory, first: int, nodes: seq<int>) {
    && 0 < |nodes| && first == nodes[0]
    && (forall i: nat | i < |nodes| :: CircleNode(blocks, mem, nodes, i))
    && (forall i, j | 0 <= i < j < |nodes| :: Apart(nodes[i], nodes[j]))
  }

  ghost predicate CircleNode(blocks: seq<Block>, mem: Memory, nodes: seq<int>, i: nat)
    requires i < |nodes|
  {
    NodeAt(blocks, nodes[i], WCI_FLINK) && BothLinked(mem, nodes, i)
  }

  predicate BothLinked(mem: Memory, nodes: seq<int>, i: nat)
    requires i < |nodes|
  {
    && Get(mem, nodes[i] + WCI_FLINK) == nodes[After(|nodes|, i)]
    && Get(mem, nodes[i] + WCI_BLINK) == nodes[Before(|nodes|, i)]
  }

  /** The same circle in the new memory. */
  ghost predicate CircleLinks(mem: Memory, head: int, nodes: seq<int>) {
    0 < |nodes| && head == nodes[0] && forall i: nat | i < |nodes| :: BothLinked(mem, nodes, i)
  }

  ghost predicate BothProgress(blocks: seq<Block>, old0: Memory, mem: Memory, nodes: seq<int>, i: nat) {
    Progress(blocks, old0, mem, WCI_BLINK, nodes, i) && Progress(blocks, old0, mem, WCI_FLINK, nodes, i)
  }

  lemma CircleStarts(blocks: seq<Block>, old0: Memory, mem: Memory, first: int, nodes: seq<int>)
    requires Layout(blocks) && Circle(blocks, old0, first, nodes) && Copied(blocks, old0, mem)
    ensures 0 < |nodes| && Translate(blocks, first) == Translated(blocks, nodes)[0] && BothProgress(blocks, old0, mem, nodes, 0)
  {
    forall j: nat | j < |nodes|
      ensures LinkIs(blocks, old0, mem, WCI_BLINK, nodes, 0, j) && LinkIs(blocks, old0, mem, WCI_FLINK, nodes, 0, j)
    {
      assert CircleNode(blocks, old0, nodes, j);
      FieldMoves(blocks, nodes[j], WCI_FLINK, WCI_FLINK);
      FieldMoves(blocks, nodes[j], WCI_FLINK, WCI_BLINK);
      assert CellCopied(blocks, old0, mem, nodes[j] + WCI_FLINK) && CellCopied(blocks, old0, mem, nodes[j] + WCI_BLINK);
    }
  }

  lemma CircleFields(blocks: seq<Block>, old0: Memory, first: int, nodes: seq<int>, i: nat, f: nat)
    requires Layout(blocks) && Circle(blocks, old0, first, nodes) && i < |nodes| && f <= WCI_FLINK
    ensures Translate(blocks, nodes[i] + f) == Translate(blocks, nodes[i]) + f && InBlock(blocks, nodes[i] + f)
  {
    assert CircleNode(blocks, old0, nodes, i);
    FieldMoves(blocks, nodes[i], WCI_FLINK, f);
  }

  lemma NodesApart(blocks: seq<Block>, old0: Memory, first: int, nodes: seq<int>, i: nat, j: nat)
    requires Circle(blocks, old0, first, nodes) && i < |nodes| && j < |nodes| && i != j
    ensures Apart(nodes[i], nodes[j])
  {
    if i < j { assert Apart(nodes[i], nodes[j]); } else { assert Apart(nodes[j], nodes[i]); }
  }

  /** The link fields of two nodes stay apart in the new memory. */
  lemma FieldsApart(blocks: seq<Block>, old0: Memory, first: int, nodes: seq<int>, i: nat, j: nat, f: nat, g: nat)
    requires Layout(blocks) && Circle(blocks, old0, first, nodes) && i < |nodes| && j < |nodes|
    requires f <= WCI_FLINK && g <= WCI_FLINK && (i != j || f != g)
    ensures Translate(blocks, nodes[i]) + f != Translate(blocks, nodes[j]) + g
  {
    CircleFields(blocks, old0, first, nodes, i, f);
    CircleFields(blocks, old0, first, nodes, j, g);
    if i != j { NodesApart(blocks, old0, first, nodes, i, j); }
    hide Layout, Circle, InBlock, Translate;
    TranslateInjective(blocks, nodes[i] + f, nodes[j] + g);
  }

  lemma FixedThis(blocks: seq<Block>, old0: Memory, mem: Memory, mem': Memory, first: int, nodes: seq<int>, i: nat, f: nat)
    requires Layout(blocks) && Circle(blocks, old0, first, nodes) && i < |nodes| && f <= WCI_FLINK
    requires Progress(blocks, old0, mem, f, nodes, i)
    requires var x := Translate(blocks, nodes[i]) + f; mem' == mem[x := Translate(blocks, Get(mem, x))]
    ensures Progress(blocks, old0, mem', f, nodes, i + 1)
  {
    hide Layout, Circle;
    var n := i + 1;
    forall j: nat | j < |nodes| ensures LinkIs(blocks, old0, mem', f, nodes, n, j) {
      assert LinkIs(blocks, old0, mem, f, nodes, i, j);
      if j != i { FieldsApart(blocks, old0, first, nodes, i, j, f, f); }
    }
  }

  lemma OtherKept(blocks: seq<Block>, old0: Memory, mem: Memory, mem': Memory, first: int, nodes: seq<int>, i: nat, f: nat, g: nat, k: nat)
    requires Layout(blocks) && Circle(blocks, old0, first, nodes) && i < |nodes| && f <= WCI_FLINK && g <= WCI_FLINK && f != g
    requires Progress(blocks, old0, mem, g, nodes, k)
    requires var x := Translate(blocks, nodes[i]) + f; mem' == mem[x := Translate(blocks, Get(mem, x))]
    ensures Progress(blocks, old0, mem', g, nodes, k)
  {
    hide Layout, Circle;
    forall j: nat | j < |nodes| ensures LinkIs(blocks, old0, mem', g, nodes, k, j) {
      assert LinkIs(blocks, old0, mem, g, nodes, k, j);
      FieldsApart(blocks, old0, first, nodes, i, j, f, g);
    }
  }

  lemma CircleStep(blocks: seq<Block>, old0: Memory, mem: Memory, mem': Memory, first: int, nodes: seq<int>, i: nat)
    requires Layout(blocks) && Circle(blocks, old0, first, nodes) && i < |nodes| && BothProgress(blocks, old0, mem, nodes, i)
    requires var x := Translate(blocks, nodes[i]);
             var mem1 := mem[x + WCI_BLINK := Translate(blocks, Get(mem, x + WCI_BLINK))];
             mem' == mem1[x + WCI_FLINK := Translate(blocks, Get(mem1, x + WCI_FLINK))]
    ensures BothProgress(blocks, old0, mem', nodes, i + 1)
    ensures Get(mem', Translate(blocks, nodes[i]) + WCI_FLINK) == Translated(blocks, nodes)[After(|nodes|, i)]
    ensures (Translated(blocks, nodes)[After(|nodes|, i)] == Translated(blocks, nodes)[0]) <==> i + 1 == |nodes|
  {
    var x := Translate(blocks, nodes[i]);
    var mem1 := mem[x + WCI_BLINK := Translate(blocks, Get(mem, x + WCI_BLINK))];
    FixedThis(blocks, old0, mem, mem1, first, nodes, i, WCI_BLINK);
    OtherKept(blocks, old0, mem, mem1, first, nodes, i, WCI_BLINK, WCI_FLINK, i);
    FixedThis(blocks, old0, mem1, mem', first, nodes, i, WCI_FLINK);
    OtherKept(blocks, old0, mem1, mem', first, nodes, i, WCI_FLINK, WCI_BLINK, i + 1);
    assert LinkIs(blocks, old0, mem', WCI_FLINK, nodes, i + 1, i) && CircleNode(blocks, old0, nodes, i);
    if i + 1 < |nodes| { FieldsApart(blocks, old0, first, nodes, i + 1, 0, 0, 0); }
  }

  lemma CircleEnds(blocks: seq<Block>, old0: Memory, mem: Memory, first: int, nodes: seq<int>)
    requires Layout(blocks) && Circle(blocks, old0, first, nodes) && BothProgress(blocks, old0, mem, nodes, |nodes|)
    ensures CircleLinks(mem, Translate(blocks, first), Translated(blocks, nodes))
  {
    var ts := Translated(blocks, nodes);
    forall j: nat | j < |ts| ensures BothLinked(mem, ts, j) {
      assert CircleNode(blocks, old0, nodes, j);
      assert LinkIs(blocks, old0, mem, WCI_BLINK, nodes, |nodes|, j) && LinkIs(blocks, old0, mem, WCI_FLINK, nodes, |nodes|, j);
    }
  }
}
