/** The hash list: 256 chains of nodes, each node pointing back at the pointer that
    points to it. A slot is the address of such a pointer: the first field of a head or
    the next field of a node. Contents is the finite map the structure stands for. */
module TplHashList {
  import opened Collections

  type Key = k: nat | k < 0x1_0000_0000_0000_0000

  const HASH_HEAD_BITS := 8
  const NUM_OF_HEADS := 256

  /** CALC_HASH: a product of 32-bit words, shifted down to its top eight bits. */
  function CalcHash(key: Key): (h: nat)
    ensures h < NUM_OF_HEADS
  {
    ((key % 0x1_0000_0000) * 0x9e406cb5 % 0x1_0000_0000) / 0x100_0000
  }

  datatype Slot = NoSlot | First(head: Head) | Next(node: Node)

  class Head {
    var first: Node?
  }

  class Node {
    var next: Node?
    var pprev: Slot
    var key: Key
    var data: Pointer
  }

  /** The slot that holds the i-th node of a chain. */
  ghost function SlotOf(head: Head, chain: seq<Node>, i: nat): Slot
    requires i <= |chain|
  {
    if i == 0 then First(head) else Next(chain[i - 1])
  }

  /** *slot */
  function Deref(slot: Slot): Node?
    requires !slot.NoSlot?
    reads match slot { case NoSlot => {} case First(h) => {h as object} case Next(n) => {n as object} }
  {
    match slot
    case First(h) => h.first
    case Next(n) => n.next
  }

  /** `chain` hangs off `head`, linked forward by next and backward by pprev. */
  ghost predicate Linked(head: Head, chain: seq<Node>)
    reads head, chain
  {
    && Distinct(chain)
    && head.first == (if chain == [] then null else chain[0])
    && (forall i {:trigger chain[i].next} | 0 <= i < |chain| ::
          chain[i].next == if i + 1 == |chain| then null else chain[i + 1])
    && (forall i {:trigger chain[i].pprev} | 0 <= i < |chain| :: chain[i].pprev == SlotOf(head, chain, i))
  }

  /** *(n->pprev) == n for every node of a linked chain. */
  lemma BackPointersHold(head: Head, chain: seq<Node>, i: nat)
    requires Linked(head, chain) && i < |chain|
    ensures !chain[i].pprev.NoSlot? && Deref(chain[i].pprev) == chain[i]
  {
    if i > 0 {
      assert chain[i - 1].next == chain[i];
    }
  }

  /** __tpl_hlist_add_head. */
  method AddHead(n: Node, head: Head, ghost chain: seq<Node>)
    requires Linked(head, chain) && n !in chain
    modifies n`next, n`pprev, head, chain`pprev
    ensures Linked(head, [n] + chain)
  {
    var first := head.first;
    n.next := first;
    if first != null {
      first.pprev := Next(n);
    }
    head.first := n;
    n.pprev := First(head);
  }

  /** __tpl_hlist_del on the k-th node of a chain. */
  method Del(n: Node, ghost head: Head, ghost chain: seq<Node>, ghost k: nat)
    requires Linked(head, chain) && k < |chain| && n == chain[k]
    modifies head, chain`next, chain`pprev
    ensures Linked(head, Without(chain, k))
    ensures n.next == null && n.pprev == NoSlot
  {
    var next := n.next;
    var pprev := n.pprev;
    match pprev {
      case First(h) => h.first := next;
      case Next(m) => m.next := next;
      case NoSlot => assert false;
    }
    if next != null {
      next.pprev := pprev;
    }
    n.next := null;
    n.pprev := NoSlot;
    WithoutAt(chain, k);
  }

  ghost function KeysOf(chain: seq<Node>): (keys: seq<Key>)
    reads chain
    ensures |keys| == |chain|
  {
    seq(|chain|, i requires 0 <= i < |chain| reads chain => chain[i].key)
  }

  ghost function DataOf(chain: seq<Node>): (data: seq<Pointer>)
    reads chain
    ensures |data| == |chain|
  {
    seq(|chain|, i requires 0 <= i < |chain| reads chain => chain[i].data)
  }

  lemma EntriesWithout(chain: seq<Node>, k: nat)
    requires k < |chain|
    ensures KeysOf(Without(chain, k)) == Without(KeysOf(chain), k)
    ensures DataOf(Without(chain, k)) == Without(DataOf(chain), k)
  {
  }

  /** The chain hanging off `head` stands for the entries of the map that have its hash;
      head and nodes lie in the footprint. */
  ghost predicate StandsFor(footprint: set<object>, head: Head, chain: seq<Node>, hash: nat,
                            contents: map<Key, Pointer>)
    reads footprint
  {
    && head in footprint && (forall i | 0 <= i < |chain| :: chain[i] in footprint)
    && Linked(head, chain) && Represents(KeysOf(chain), DataOf(chain), hash, CalcHash, contents)
  }

  lemma EntriesCons(node: Node, chain: seq<Node>)
    ensures KeysOf([node] + chain) == [node.key] + KeysOf(chain)
    ensures DataOf([node] + chain) == [node.data] + DataOf(chain)
  {
  }

  /** Allocates a node and gives it its values. */
  method NewNode(key: Key, data: Pointer) returns (node: Node)
    ensures fresh(node) && node.key == key && node.data == data && node.next == null && node.pprev == NoSlot
  {
    node := new Node;
    node.next, node.pprev := null, NoSlot;
    node.key, node.data := key, data;
  }

  method InsertIntoChain(node: Node, ghost footprint: set<object>, head: Head, ghost chain: seq<Node>,
                         ghost contents: map<Key, Pointer>)
    requires StandsFor(footprint, head, chain, CalcHash(node.key), contents)
    requires node.key !in contents && node !in footprint
    modifies node, footprint
    ensures StandsFor(footprint + {node}, head, [node] + chain, CalcHash(old(node.key)),
                      contents[old(node.key) := old(node.data)])
  {
    AddEntry(KeysOf(chain), DataOf(chain), CalcHash, contents, node.key, node.data);
    AddHead(node, head, chain);
    assert KeysOf(chain) == old(KeysOf(chain)) && DataOf(chain) == old(DataOf(chain));
    EntriesCons(node, chain);
  }

  method DeleteFromChain(node: Node, ghost footprint: set<object>, ghost head: Head, ghost chain: seq<Node>,
                         ghost at: nat, ghost contents: map<Key, Pointer>)
    requires at < |chain| && node == chain[at]
    requires StandsFor(footprint, head, chain, CalcHash(node.key), contents)
    modifies footprint
    ensures StandsFor(footprint, head, Without(chain, at), CalcHash(old(node.key)), contents - {old(node.key)})
  {
    DropEntry(KeysOf(chain), DataOf(chain), CalcHash(node.key), CalcHash, contents, at);
    Del(node, head, chain, at);
    assert KeysOf(chain) == old(KeysOf(chain)) && DataOf(chain) == old(DataOf(chain));
    EntriesWithout(chain, at);
  }

  lemma KeyFreed(freed: seq<Key>, key: Key, before: set<Key>, after: set<Key>)
    requires key in before && after == before - {key}
    ensures multiset(freed + [key]) + multiset(after) == multiset(freed) + multiset(before)
  {
    assert before == after + {key};
  }

  datatype Result = NoError | InvalidParameter

  class HashList {
    const heads: seq<Head>
    ghost var chains: seq<seq<Node>>
    ghost var footprints: seq<set<object>>  // the heap objects of each chain
    ghost var Repr: set<object>
    ghost var contents: map<Key, Pointer>

    /** The chains share no object. */
    ghost predicate Shaped()
      reads this
    {
      && |heads| == |chains| == |footprints| == NUM_OF_HEADS
      && (forall i | 0 <= i < NUM_OF_HEADS :: footprints[i] <= Repr && this !in footprints[i])
      && (forall i, j | 0 <= i < j < NUM_OF_HEADS :: footprints[i] !! footprints[j])
    }

    ghost predicate ChainOk(hash: nat)
      requires Shaped() && hash < NUM_OF_HEADS
      reads this, footprints[hash]
    {
      StandsFor(footprints[hash], heads[hash], chains[hash], hash, contents)
    }

    ghost predicate Valid()
      reads this, Repr
    {
      Shaped() && forall hash | 0 <= hash < NUM_OF_HEADS :: ChainOk(hash)
    }

    constructor ()
      ensures Valid() && contents == map[] && fresh(Repr)
    {
      var hs: seq<Head> := [];
      while |hs| < NUM_OF_HEADS
        invariant |hs| <= NUM_OF_HEADS && Distinct(hs) && fresh(hs)
        invariant forall i | 0 <= i < |hs| :: hs[i].first == null
      {
        var h := new Head;
        h.first := null;
        hs := hs + [h];
      }
      heads := hs;
      chains := seq(NUM_OF_HEADS, _ => []);
      footprints := seq(NUM_OF_HEADS, i requires 0 <= i < NUM_OF_HEADS => {hs[i]});
      Repr := set h | h in hs;
      contents := map[];
    }

    /** __tpl_hlist_get_node, and where in its chain the node is. */
    method GetNode(key: Key) returns (node: Node?, ghost at: nat)
      requires Valid()
      ensures node == null <==> key !in contents
      ensures node != null ==> at < |chains[CalcHash(key)]| && node == chains[CalcHash(key)][at]
                               && node.key == key && node.data == contents[key]
    {
      var hash := CalcHash(key);
      ghost var chain := chains[hash];
      assert ChainOk(hash);
      node := heads[hash].first;
      at := 0;
      while node != null
        invariant at <= |chain| && node == if at == |chain| then null else chain[at]
        invariant forall i | 0 <= i < at :: KeysOf(chain)[i] != key
        decreases |chain| - at
      {
        assert KeysOf(chain)[at] == node.key && DataOf(chain)[at] == node.data;
        if node.key == key {
          return;
        }
        node := node.next;
        at := at + 1;
      }
      assert key !in KeysOf(chain);
    }

    method Lookup(key: Key) returns (data: Pointer)
      requires Valid()
      ensures data == if key in contents then contents[key] else NULL
    {
      var node, _ := GetNode(key);
      data := if node == null then NULL else node.data;
    }

    lemma EntriesHaveNodes()
      requires Valid()
      ensures forall k | k in contents :: chains[CalcHash(k)] != []
    {
      forall k | k in contents ensures chains[CalcHash(k)] != [] {
        assert ChainOk(CalcHash(k));
        assert k in KeysOf(chains[CalcHash(k)]);
      }
    }

    /** In a valid list every node is what its back pointer points at, and sits in the
        chain of its own hash. */
    lemma NodesAreInPlace(i: nat, x: nat)
      requires Valid() && i < NUM_OF_HEADS && x < |chains[i]|
      ensures !chains[i][x].pprev.NoSlot? && Deref(chains[i][x].pprev) == chains[i][x]
      ensures CalcHash(chains[i][x].key) == i
      ensures forall j, y | 0 <= j < NUM_OF_HEADS && 0 <= y < |chains[j]| && (j, y) != (i, x) ::
                chains[j][y] != chains[i][x] && chains[j][y].key != chains[i][x].key
    {
      assert ChainOk(i);
      assert KeysOf(chains[i])[x] == chains[i][x].key;
      BackPointersHold(heads[i], chains[i], x);
      forall j, y | 0 <= j < NUM_OF_HEADS && 0 <= y < |chains[j]| && (j, y) != (i, x)
        ensures chains[j][y].key != chains[i][x].key
      {
        assert ChainOk(j);
        assert KeysOf(chains[j])[y] == chains[j][y].key;
      }
    }

    /** Only the chain of `key` and the entry of `key` have changed since `before`. */
    lemma Reassemble(hash: nat, key: Key, before: map<Key, Pointer>)
      requires Shaped() && hash == CalcHash(key) && ChainOk(hash)
      requires forall k | k != key :: k in before <==> k in contents
      requires forall k | k != key && k in before :: before[k] == contents[k]
      requires forall i | 0 <= i < NUM_OF_HEADS && i != hash :: StandsFor(footprints[i], heads[i], chains[i], i, before)
      ensures Valid()
    {
      forall i | 0 <= i < NUM_OF_HEADS && i != hash ensures ChainOk(i) {
        OtherEntry(KeysOf(chains[i]), DataOf(chains[i]), i, CalcHash, before, contents, key);
      }
    }

    /** A chain may take in an object that is in no footprint. */
    lemma FootprintMayGrow(hash: nat, x: object)
      requires Shaped() && hash < NUM_OF_HEADS && x !in Repr && x != this
      ensures var more := footprints[hash := footprints[hash] + {x}];
        && (forall i | 0 <= i < NUM_OF_HEADS :: more[i] <= Repr + {x} && this !in more[i])
        && (forall i, j | 0 <= i < j < NUM_OF_HEADS :: more[i] !! more[j])
    {
    }

    /** Puts a node that is in no chain at the front of the chain of its key. */
    method InsertNode(node: Node, hash: nat)
      requires Valid() && node !in Repr && node.key !in contents && hash == CalcHash(node.key)
      modifies this, Repr, node
      ensures Valid() && Repr == old(Repr) + {node}
      ensures contents == old(contents)[old(node.key) := old(node.data)]
    {
      assert ChainOk(hash);
      ghost var key, data := node.key, node.data;
      ghost var footprint := footprints[hash];
      FootprintMayGrow(hash, node);
      InsertIntoChain(node, footprint, heads[hash], chains[hash], contents);
      chains := chains[hash := [node] + chains[hash]];
      footprints := footprints[hash := footprint + {node}];
      Repr := Repr + {node};
      contents := contents[key := data];
      forall i | 0 <= i < NUM_OF_HEADS && i != hash
        ensures StandsFor(footprints[i], heads[i], chains[i], i, old(contents))
      {
        assert old(ChainOk(i));
      }
      Reassemble(hash, key, old(contents));
    }

    method Insert(key: Key, data: Pointer) returns (result: Result)
      requires Valid()
      modifies this, Repr
      ensures Valid() && fresh(Repr - old(Repr))
      ensures result == if key in old(contents) then InvalidParameter else NoError
      ensures contents == if key in old(contents) then old(contents) else old(contents)[key := data]
    {
      var prevNode, _ := GetNode(key);
      if prevNode != null {
        return InvalidParameter;
      }
      var node := NewNode(key, data);
      InsertNode(node, CalcHash(key));
      return NoError;
    }

    /** Takes the at-th node of a chain out of it. */
    method DeleteNode(node: Node, ghost hash: nat, ghost at: nat)
      requires Valid() && hash < NUM_OF_HEADS && at < |chains[hash]| && node == chains[hash][at]
      modifies this, Repr
      ensures Valid() && Repr == old(Repr)
      ensures contents == old(contents) - {old(node.key)}
      ensures chains == old(chains)[hash := Without(old(chains[hash]), at)]
    {
      assert ChainOk(hash) && KeysOf(chains[hash])[at] == node.key;
      ghost var key := node.key;
      DeleteFromChain(node, footprints[hash], heads[hash], chains[hash], at, contents);
      chains := chains[hash := Without(chains[hash], at)];
      contents := contents - {key};
      forall i | 0 <= i < NUM_OF_HEADS && i != hash
        ensures StandsFor(footprints[i], heads[i], chains[i], i, old(contents))
      {
        assert old(ChainOk(i));
      }
      Reassemble(hash, key, old(contents));
    }

    /** `freed` are the keys of the nodes it frees. */
    method Delete(key: Key) returns (freed: seq<Key>)
      requires Valid()
      modifies this, Repr
      ensures Valid() && Repr == old(Repr)
      ensures contents == old(contents) - {key}
      ensures freed == if key in old(contents) then [key] else []
    {
      var node, at := GetNode(key);
      if node == null {
        assert contents - {key} == contents;
        return [];
      }
      DeleteNode(node, CalcHash(key), at);
      freed := [key];
    }

    /** Frees every node of every chain. `freed` is the sequence of their keys. */
    method Destroy() returns (freed: seq<Key>)
      requires Valid()
      modifies this, Repr
      ensures Valid() && contents == map[]
      ensures multiset(freed) == multiset(old(contents.Keys))
    {
      freed := [];
      var i := 0;
      ghost var all := contents;
      while i < NUM_OF_HEADS
        invariant 0 <= i <= NUM_OF_HEADS && Valid() && Repr == old(Repr)
        invariant forall j | 0 <= j < i :: chains[j] == []
        invariant multiset(freed) + multiset(contents.Keys) == multiset(old(contents.Keys))
      {
        var more := ClearChain(i);
        freed := freed + more;
        i := i + 1;
      }
      EntriesHaveNodes();
    }

    /** Takes the first node of a chain out of it. */
    method DeleteFirst(pos: Node, ghost i: nat)
      requires Valid() && i < NUM_OF_HEADS && chains[i] != [] && pos == chains[i][0]
      modifies this, Repr
      ensures Valid() && Repr == old(Repr)
      ensures chains == old(chains)[i := old(chains)[i][1..]]
      ensures chains[i] == [] <==> old(pos.next) == null
      ensures chains[i] != [] ==> chains[i][0] == old(pos.next)
      ensures old(pos.key) in old(contents) && contents == old(contents) - {old(pos.key)}
    {
      assert ChainOk(i) && KeysOf(chains[i])[0] == pos.key;
      DeleteNode(pos, i, 0);
      assert Without(old(chains)[i], 0) == old(chains)[i][1..];
    }

    method ClearChain(i: nat) returns (freed: seq<Key>)
      requires Valid() && i < NUM_OF_HEADS
      modifies this, Repr
      ensures Valid() && Repr == old(Repr)
      ensures chains == old(chains)[i := []]
      ensures multiset(freed) + multiset(contents.Keys) == multiset(old(contents.Keys))
    {
      freed := [];
      assert ChainOk(i);
      var pos := heads[i].first;
      while pos != null
        invariant Valid() && Repr == old(Repr)
        invariant chains == old(chains)[i := chains[i]]
        invariant pos == if chains[i] == [] then null else chains[i][0]
        invariant multiset(freed) + multiset(contents.Keys) == multiset(old(contents.Keys))
        decreases |chains[i]|
      {
        var next := pos.next;
        var key := pos.key;
        ghost var before := contents;
        DeleteFirst(pos, i);
        KeyFreed(freed, key, before.Keys, contents.Keys);
        freed := freed + [key];
        pos := next;
      }
    }
  }
}
