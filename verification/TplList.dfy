/** The sentinel doubly linked list. A list owns two sentinel nodes and links its
    nodes between them in both directions; Contents is the sequence it stands for,
    and every operation is proved to act on that sequence. */
module TplList {
  import opened Collections

  datatype Occurrence = First | Last | All

  // ---------------------------------------------------------------------------
  // The sequence meaning of the removals
  // ---------------------------------------------------------------------------

  function RemoveFirst(s: seq<Pointer>, x: Pointer): seq<Pointer> {
    if s == [] then []
    else if s[0] == x then s[1..]
    else [s[0]] + RemoveFirst(s[1..], x)
  }

  function RemoveLast(s: seq<Pointer>, x: Pointer): seq<Pointer> {
    if s == [] then []
    else if s[|s| - 1] == x then s[..|s| - 1]
    else RemoveLast(s[..|s| - 1], x) + [s[|s| - 1]]
  }

  function RemoveAll(s: seq<Pointer>, x: Pointer): (r: seq<Pointer>)
    ensures |r| <= |s| && x !in r
  {
    if s == [] then []
    else if s[0] == x then RemoveAll(s[1..], x)
    else [s[0]] + RemoveAll(s[1..], x)
  }

  function Removed(s: seq<Pointer>, x: Pointer, occurrence: Occurrence): seq<Pointer> {
    match occurrence
    case First => RemoveFirst(s, x)
    case Last => RemoveLast(s, x)
    case All => RemoveAll(s, x)
  }

  function Reversed(s: seq<Pointer>): (r: seq<Pointer>)
    ensures |r| == |s|
  {
    if s == [] then [] else Reversed(s[1..]) + [s[0]]
  }

  lemma {:induction false} RemoveFirstAt(s: seq<Pointer>, x: Pointer, k: nat)
    requires k < |s| && s[k] == x && x !in s[..k]
    ensures RemoveFirst(s, x) == s[..k] + s[k + 1..]
  {
    if k > 0 {
      assert s[0] == s[..k][0] && s[1..][..k - 1] == s[..k][1..];
      RemoveFirstAt(s[1..], x, k - 1);
    }
  }

  lemma {:induction false} RemoveFirstAbsent(s: seq<Pointer>, x: Pointer)
    requires x !in s
    ensures RemoveFirst(s, x) == s
  {
    if s != [] {
      RemoveFirstAbsent(s[1..], x);
    }
  }

  lemma {:induction false} RemoveLastAt(s: seq<Pointer>, x: Pointer, k: nat)
    requires k < |s| && s[k] == x && x !in s[k + 1..]
    ensures RemoveLast(s, x) == s[..k] + s[k + 1..]
  {
    if k < |s| - 1 {
      var init := s[..|s| - 1];
      assert s[|s| - 1] == s[k + 1..][|s| - k - 2] && init[k + 1..] == s[k + 1..][..|s| - k - 2];
      RemoveLastAt(init, x, k);
    }
  }

  lemma {:induction false} RemoveLastAbsent(s: seq<Pointer>, x: Pointer)
    requires x !in s
    ensures RemoveLast(s, x) == s
  {
    if s != [] {
      RemoveLastAbsent(s[..|s| - 1], x);
    }
  }

  lemma {:induction false} RemoveFirstCounts(s: seq<Pointer>, x: Pointer)
    ensures multiset(RemoveFirst(s, x)) == multiset(s) - multiset{x}
  {
    if s != [] {
      assert s == [s[0]] + s[1..];
      if s[0] != x {
        RemoveFirstCounts(s[1..], x);
      }
    }
  }

  lemma {:induction false} RemoveLastCounts(s: seq<Pointer>, x: Pointer)
    ensures multiset(RemoveLast(s, x)) == multiset(s) - multiset{x}
  {
    if s != [] {
      var init, last := s[..|s| - 1], s[|s| - 1];
      assert s == init + [last];
      if last == x {
        assert multiset(s) == multiset(init) + multiset{x};
      } else {
        RemoveLastCounts(init, x);
        assert multiset(RemoveLast(init, x) + [last]) == multiset(RemoveLast(init, x)) + multiset{last};
      }
    }
  }

  lemma {:induction false} RemoveAllCounts(s: seq<Pointer>, x: Pointer)
    ensures multiset(RemoveAll(s, x)) == multiset(s)[x := 0]
  {
    if s != [] {
      assert s == [s[0]] + s[1..];
      RemoveAllCounts(s[1..], x);
    }
  }

  /** Which occurrence goes when the first or the last one is removed: the rest stays as it was. */
  lemma RemovedAt(s: seq<Pointer>, x: Pointer, occurrence: Occurrence) returns (k: nat)
    requires x in s && occurrence != All
    ensures k < |s| && s[k] == x && Removed(s, x, occurrence) == Without(s, k)
    ensures if occurrence == First then x !in s[..k] else x !in s[k + 1..]
  {
    if occurrence == First {
      k := 0;
      while s[k] != x
        invariant k < |s| && x !in s[..k] && exists i :: k <= i < |s| && s[i] == x
        decreases |s| - k
      {
        k := k + 1;
      }
      RemoveFirstAt(s, x, k);
    } else {
      k := |s| - 1;
      while s[k] != x
        invariant k < |s| && x !in s[k + 1..] && exists i :: 0 <= i <= k && s[i] == x
        decreases k
      {
        k := k - 1;
      }
      RemoveLastAt(s, x, k);
    }
  }

  lemma RemovedAbsent(s: seq<Pointer>, x: Pointer, occurrence: Occurrence)
    requires x !in s
    ensures Removed(s, x, occurrence) == s
  {
    match occurrence
    case First => RemoveFirstAbsent(s, x);
    case Last => RemoveLastAbsent(s, x);
    case All => RemoveAllAbsent(s, x);
  }

  lemma {:induction false} RemoveAllAbsent(s: seq<Pointer>, x: Pointer)
    requires x !in s
    ensures RemoveAll(s, x) == s
  {
    if s != [] {
      RemoveAllAbsent(s[1..], x);
    }
  }

  /** Removing all occurrences takes out each one and keeps the order of the rest. */
  lemma {:induction false} RemoveAllSplits(s: seq<Pointer>, x: Pointer, k: nat)
    requires k < |s| && s[k] == x
    ensures RemoveAll(s, x) == RemoveAll(s[..k], x) + RemoveAll(s[k + 1..], x)
  {
    if k > 0 {
      assert s[1..][..k - 1] == s[..k][1..];
      RemoveAllSplits(s[1..], x, k - 1);
    }
  }

  lemma {:induction false} ReversedSnoc(s: seq<Pointer>, x: Pointer)
    ensures Reversed(s + [x]) == [x] + Reversed(s)
  {
    if s != [] {
      assert (s + [x])[1..] == s[1..] + [x];
      ReversedSnoc(s[1..], x);
    }
  }

  /** One step of the removal loop, on the sequences: `kept` is what it has passed over
      and `rest` what lies ahead. */
  lemma RemoveAllStep(kept: seq<Pointer>, rest: seq<Pointer>, x: Pointer)
    requires rest != []
    ensures (kept + rest)[|kept|] == rest[0]
    ensures rest[0] == x ==>
      && (kept + rest)[..|kept|] + (kept + rest)[|kept| + 1..] == kept + rest[1..]
      && kept + RemoveAll(rest, x) == kept + RemoveAll(rest[1..], x)
    ensures rest[0] != x ==>
      && kept + rest == kept + [rest[0]] + rest[1..]
      && kept + RemoveAll(rest, x) == kept + [rest[0]] + RemoveAll(rest[1..], x)
  {
    var tail := rest[1..];
    assert rest == [rest[0]] + tail;
    if rest[0] == x {
      assert (kept + rest)[..|kept|] == kept;
      assert (kept + rest)[|kept| + 1..] == tail;
    }
  }

  lemma ReversedCons(x: Pointer, s: seq<Pointer>)
    ensures Reversed([x] + s) == Reversed(s) + [x]
  {
    assert ([x] + s)[1..] == s;
  }

  lemma RemovalLengths(s: seq<Pointer>, x: Pointer)
    ensures |RemoveFirst(s, x)| == |s| - if x in s then 1 else 0
    ensures |RemoveLast(s, x)| == |s| - if x in s then 1 else 0
  {
    RemoveFirstCounts(s, x);
    RemoveLastCounts(s, x);
    assert |multiset(s)| == |s|;
    assert |multiset(RemoveFirst(s, x))| == |RemoveFirst(s, x)|;
    assert |multiset(RemoveLast(s, x))| == |RemoveLast(s, x)|;
  }

  /** The last occurrence is the first one seen from the back. */
  lemma {:induction false} RemoveLastMirrorsFirst(s: seq<Pointer>, x: Pointer)
    ensures Reversed(RemoveLast(s, x)) == RemoveFirst(Reversed(s), x)
  {
    if s != [] {
      var init, last := s[..|s| - 1], s[|s| - 1];
      assert s == init + [last];
      ReversedSnoc(init, last);
      if last == x {
        assert Reversed(s)[1..] == Reversed(init);
      } else {
        RemoveLastMirrorsFirst(init, x);
        ReversedSnoc(RemoveLast(init, x), last);
        assert Reversed(s)[1..] == Reversed(init);
      }
    }
  }

  // ---------------------------------------------------------------------------
  // The heap structure
  // ---------------------------------------------------------------------------

  class Node {
    var prev: Node?
    var next: Node?
    var data: Pointer
    var list: List?

    /** The pointer updates of an insertion between pos and its successor. */
    method Splice(pos: Node, ghost behind: Node)
      requires pos.next == behind && this != pos && this != behind && pos != behind
      modifies this`prev, this`next, pos`next, behind`prev
      ensures pos.next == this && prev == pos && next == behind && behind.prev == this
    {
      pos.next.prev := this;
      next := pos.next;
      pos.next := this;
      prev := pos;
    }
  }

  function Middle<T>(s: seq<T>): seq<T>
    requires |s| >= 2
  {
    s[1..|s| - 1]
  }

  lemma MiddleOfInsert<T>(s: seq<T>, x: T, k: nat)
    requires |s| >= 2 && k < |s| - 1
    ensures Middle(s[..k + 1] + [x] + s[k + 1..]) == Middle(s)[..k] + [x] + Middle(s)[k..]
  {
    assert s[..k + 1] == [s[0]] + Middle(s)[..k];
    assert s[k + 1..] == Middle(s)[k..] + [s[|s| - 1]];
  }

  lemma PartsOfInsert<T>(s: seq<T>, x: T, k: nat)
    requires k < |s|
    ensures var longer := s[..k + 1] + [x] + s[k + 1..];
      longer[..k + 1] == s[..k + 1] && longer[k + 1] == x && longer[k + 2..] == s[k + 1..]
  {
  }

  lemma MiddleOfRemove<T>(s: seq<T>, k: nat)
    requires 1 <= k < |s| - 1
    ensures Middle(s[..k] + s[k + 1..]) == Middle(s)[..k - 1] + Middle(s)[k..]
  {
    assert s[..k] == [s[0]] + Middle(s)[..k - 1];
    assert s[k + 1..] == Middle(s)[k..] + [s[|s| - 1]];
  }

  /** The data pointers of a stretch of nodes. */
  ghost function DataOf(stretch: seq<Node>): (s: seq<Pointer>)
    reads stretch
    ensures |s| == |stretch|
  {
    seq(|stretch|, i requires 0 <= i < |stretch| reads stretch => stretch[i].data)
  }

  lemma InsertBehind(spine: seq<Node>, node: Node, k: nat) returns (longer: seq<Node>)
    requires k < |spine| - 1 && node !in spine
    requires forall i, j | 0 <= i < j < |spine| :: spine[i] != spine[j]
    ensures longer == spine[..k + 1] + [node] + spine[k + 1..] && |longer| == |spine| + 1
    ensures forall i {:trigger longer[i]} | 0 <= i < |longer| ::
              longer[i] == if i <= k then spine[i] else if i == k + 1 then node else spine[i - 1]
    ensures forall i, j | 0 <= i < j < |longer| :: longer[i] != longer[j]
  {
    longer := spine[..k + 1] + [node] + spine[k + 1..];
  }

  /** The links of a chain with the node spliced in behind its k-th. */
  lemma SplicedLinks(spine: seq<Node>, node: Node, k: nat, longer: seq<Node>)
    requires k < |spine| - 1 && |longer| == |spine| + 1
    requires forall i {:trigger longer[i]} | 0 <= i < |longer| ::
               longer[i] == if i <= k then spine[i] else if i == k + 1 then node else spine[i - 1]
    requires forall i {:trigger spine[i].next} | 0 <= i < |spine| - 1 && i != k :: spine[i].next == spine[i + 1]
    requires forall i {:trigger spine[i].prev} | 1 <= i < |spine| && i != k + 1 :: spine[i].prev == spine[i - 1]
    requires spine[k].next == node && node.prev == spine[k]
    requires node.next == spine[k + 1] && spine[k + 1].prev == node
    ensures forall i {:trigger longer[i].next} | 0 <= i < |longer| - 1 :: longer[i].next == longer[i + 1]
    ensures forall i {:trigger longer[i].prev} | 1 <= i < |longer| :: longer[i].prev == longer[i - 1]
  {
    forall i | 0 <= i < |longer| - 1
      ensures longer[i].next == longer[i + 1] && longer[i + 1].prev == longer[i]
    {
      if i != k && i != k + 1 {
        var j := if i < k then i else i - 1;
        assert spine[j].next == spine[j + 1] && spine[j + 1].prev == spine[j];
      }
    }
    forall i | 1 <= i < |longer| ensures longer[i].prev == longer[i - 1] {
      assert longer[i - 1].next == longer[i];
    }
  }

  class List {
    const head: Node
    const tail: Node
    var count: int
    ghost var spine: seq<Node>  // head, the nodes front to back, tail

    ghost predicate Valid()
      reads this, head, tail, spine
    {
      && |spine| >= 2 && spine[0] == head && spine[|spine| - 1] == tail
      && (forall i, j | 0 <= i < j < |spine| :: spine[i] != spine[j])
      && (forall i {:trigger spine[i].next} | 0 <= i < |spine| - 1 :: spine[i].next == spine[i + 1])
      && (forall i {:trigger spine[i].prev} | 1 <= i < |spine| :: spine[i].prev == spine[i - 1])
      && head.prev == null && tail.next == null
      && (forall i {:trigger spine[i].list} | 0 <= i < |spine| :: spine[i].list == this)
      && count == |spine| - 2
    }

    /** The sequence of data pointers the list stands for. */
    ghost function Contents(): seq<Pointer>
      requires |spine| >= 2
      reads this, spine
    {
      DataOf(Middle(spine))
    }

    constructor ()
      ensures Valid() && Contents() == [] && fresh(spine)
    {
      head := new Node;
      tail := new Node;
      new;
      Init();
    }

    method Init()
      requires head != tail
      modifies this, head, tail
      ensures Valid() && Contents() == [] && spine == [head, tail]
    {
      head.list, tail.list := this, this;
      head.prev, head.next := null, tail;
      tail.prev, tail.next := head, null;
      count := 0;
      spine := [head, tail];
    }

    method IsEmpty() returns (empty: bool)
      requires Valid()
      ensures empty <==> Contents() == []
    {
      empty := count == 0;
    }

    /** Links a new node in behind `pos`. */
    method LinkBehind(pos: Node, data: Pointer, ghost k: nat) returns (node: Node)
      requires Valid() && k < |spine| - 1 && pos == spine[k]
      modifies this, spine
      ensures Valid() && fresh(node) && node.data == data
      ensures spine == old(spine)[..k + 1] + [node] + old(spine)[k + 1..]
      ensures forall n | n in old(spine) :: n.data == old(n.data)
    {
      node := new Node;
      ghost var longer := InsertBehind(spine, node, k);
      node.data := data;
      node.list := pos.list;
      node.Splice(pos, spine[k + 1]);
      SplicedLinks(spine, node, k, longer);
      count := count + 1;
      spine := longer;
    }

    /** __tpl_list_insert: a new node behind `pos`, which is the head or a node. */
    method Insert(pos: Node, data: Pointer, ghost k: nat)
      requires Valid() && k < |spine| - 1 && pos == spine[k]
      modifies this, spine
      ensures Valid() && |spine| == |old(spine)| + 1 && forall n | n in spine :: n in old(spine) || fresh(n)
      ensures spine[..k + 1] == old(spine)[..k + 1] && spine[k + 2..] == old(spine)[k + 1..] && fresh(spine[k + 1])
      ensures Contents() == old(Contents())[..k] + [data] + old(Contents())[k..]
    {
      ghost var before := Middle(spine);
      var node := LinkBehind(pos, data, k);
      MiddleOfInsert(old(spine), node, k);
      PartsOfInsert(old(spine), node, k);
      assert forall i | 0 <= i < |before| :: before[i].data == old(Contents())[i];
    }

    /** Takes a node out of the chain. */
    method Unlink(node: Node, ghost k: nat)
      requires Valid() && 1 <= k < |spine| - 1 && node == spine[k]
      modifies this, spine
      ensures Valid() && spine == old(spine)[..k] + old(spine)[k + 1..]
      ensures forall n | n in old(spine) :: n.data == old(n.data)
    {
      node.prev.next := node.next;
      node.next.prev := node.prev;
      count := count - 1;
      spine := spine[..k] + spine[k + 1..];
    }

    /** __tpl_list_remove. `func` says whether a free function was given, and `freed`
        lists the data it was called with. */
    method Remove(node: Node, func: bool, ghost k: nat) returns (freed: seq<Pointer>)
      requires Valid() && 1 <= k < |spine| - 1 && node == spine[k]
      modifies this, spine
      ensures Valid() && spine == old(spine)[..k] + old(spine)[k + 1..]
      ensures Contents() == old(Contents())[..k - 1] + old(Contents())[k..]
      ensures freed == if func then [old(Contents())[k - 1]] else []
    {
      ghost var before := Middle(spine);
      MiddleOfRemove(spine, k);
      freed := if func then [node.data] else [];
      Unlink(node, k);
      assert forall i | 0 <= i < |before| :: before[i].data == old(Contents())[i];
    }

    method PushFront(data: Pointer)
      requires Valid()
      modifies this, spine
      ensures Valid() && |spine| == |old(spine)| + 1 && forall n | n in spine :: n in old(spine) || fresh(n)
      ensures Contents() == [data] + old(Contents())
    {
      Insert(head, data, 0);
    }

    method PushBack(data: Pointer)
      requires Valid()
      modifies this, spine
      ensures Valid() && |spine| == |old(spine)| + 1 && forall n | n in spine :: n in old(spine) || fresh(n)
      ensures Contents() == old(Contents()) + [data]
    {
      assert tail == spine[|spine| - 1];
      Insert(tail.prev, data, |spine| - 2);
    }

    method PopFront(func: bool) returns (data: Pointer, freed: seq<Pointer>)
      requires Valid()
      modifies this, spine
      ensures Valid()
      ensures old(Contents()) == [] ==> data == NULL && freed == [] && Contents() == []
      ensures old(Contents()) != [] ==> old(Contents()) == [data] + Contents() && freed == if func then [data] else []
    {
      if count == 0 {
        return NULL, [];
      }
      assert head == spine[0];
      data := head.next.data;
      freed := Remove(head.next, func, 1);
    }

    method PopBack(func: bool) returns (data: Pointer, freed: seq<Pointer>)
      requires Valid()
      modifies this, spine
      ensures Valid()
      ensures old(Contents()) == [] ==> data == NULL && freed == [] && Contents() == []
      ensures old(Contents()) != [] ==> old(Contents()) == Contents() + [data] && freed == if func then [data] else []
    {
      if count == 0 {
        return NULL, [];
      }
      assert tail == spine[|spine| - 1];
      ghost var before := Contents();
      ghost var n := |before|;
      assert before[n - 1] == spine[n].data && before == before[..n - 1] + [before[n - 1]] + before[n..];
      data := tail.prev.data;
      freed := Remove(tail.prev, func, |spine| - 2);
    }

    /** __tpl_list_remove_data with TPL_FIRST. */
    method RemoveFirstData(data: Pointer, func: bool) returns (freed: seq<Pointer>)
      requires Valid()
      modifies this, spine
      ensures Valid() && Contents() == RemoveFirst(old(Contents()), data)
      ensures freed == if func && data in old(Contents()) then [data] else []
    {
      assert spine[0] == head;
      var node := head.next;
      ghost var k := 1;
      while node != tail
        invariant 1 <= k < |spine| && node == spine[k] && spine == old(spine) && Valid()
        invariant Contents() == old(Contents()) && data !in Contents()[..k - 1]
        decreases |spine| - k
      {
        var curr := node;
        node := node.next;
        if curr.data == data {
          freed := Remove(curr, func, k);
          RemoveFirstAt(old(Contents()), data, k - 1);
          return;
        }
        k := k + 1;
      }
      assert k == |spine| - 1;
      RemoveFirstAbsent(old(Contents()), data);
      freed := [];
    }

    /** __tpl_list_remove_data with TPL_LAST. */
    method RemoveLastData(data: Pointer, func: bool) returns (freed: seq<Pointer>)
      requires Valid()
      modifies this, spine
      ensures Valid() && Contents() == RemoveLast(old(Contents()), data)
      ensures freed == if func && data in old(Contents()) then [data] else []
    {
      assert spine[|spine| - 1] == tail;
      var node := tail.prev;
      ghost var k := |spine| - 2;
      while node != head
        invariant 0 <= k < |spine| - 1 && node == spine[k] && spine == old(spine) && Valid()
        invariant Contents() == old(Contents()) && data !in Contents()[k..]
        decreases k
      {
        var curr := node;
        node := node.prev;
        if curr.data == data {
          freed := Remove(curr, func, k);
          RemoveLastAt(old(Contents()), data, k - 1);
          return;
        }
        k := k - 1;
      }
      assert k == 0;
      RemoveLastAbsent(old(Contents()), data);
      freed := [];
    }

    /** One round of the loop for TPL_ALL, which has passed over `kept`. */
    method RemoveIfMatching(curr: Node, data: Pointer, func: bool, ghost kept: seq<Pointer>, ghost rest: seq<Pointer>)
      returns (next: Node, freed: seq<Pointer>, ghost kept': seq<Pointer>)
      requires Valid() && |kept| + 1 < |spine| - 1 && curr == spine[|kept| + 1]
      requires rest != [] && Contents() == kept + rest
      modifies this, spine
      ensures Valid() && forall i | 0 <= i < |spine| :: spine[i] in old(spine)
      ensures |kept'| + 1 < |spine| && next == spine[|kept'| + 1]
      ensures Contents() == kept' + rest[1..]
      ensures kept + RemoveAll(rest, data) == kept' + RemoveAll(rest[1..], data)
      ensures |freed| == if func then |old(Contents())| - |Contents()| else 0
      ensures forall x | x in freed :: x == data
    {
      RemoveAllStep(kept, rest, data);
      next := curr.next;
      freed := [];
      kept' := kept + [rest[0]];
      assert curr.data == Contents()[|kept|];
      if curr.data == data {
        freed := Remove(curr, func, |kept| + 1);
        kept' := kept;
      }
    }

    /** __tpl_list_remove_data with TPL_ALL. */
    method RemoveAllData(data: Pointer, func: bool) returns (freed: seq<Pointer>)
      requires Valid()
      modifies this, spine
      ensures Valid() && Contents() == RemoveAll(old(Contents()), data)
      ensures |freed| == if func then |old(Contents())| - |Contents()| else 0
      ensures forall x | x in freed :: x == data
    {
      assert spine[0] == head;
      freed := [];
      var node := head.next;
      ghost var s, kept, rest := Contents(), [], Contents();
      while node != tail
        invariant Valid() && forall i | 0 <= i < |spine| :: spine[i] in old(spine)
        invariant |kept| + 1 < |spine| && node == spine[|kept| + 1]
        invariant Contents() == kept + rest && RemoveAll(s, data) == kept + RemoveAll(rest, data)
        invariant |freed| == if func then |s| - |Contents()| else 0
        invariant forall x | x in freed :: x == data
        decreases |rest|
      {
        var more;
        node, more, kept := RemoveIfMatching(node, data, func, kept, rest);
        freed := freed + more;
        rest := rest[1..];
      }
      assert rest == [];
    }

    /** __tpl_list_remove_data: the free function, if given, is called on each removed
        element and on nothing else. */
    method RemoveData(data: Pointer, occurrence: Occurrence, func: bool) returns (freed: seq<Pointer>)
      requires Valid()
      modifies this, spine
      ensures Valid() && Contents() == Removed(old(Contents()), data, occurrence)
      ensures |freed| == if func then |old(Contents())| - |Contents()| else 0
      ensures forall x | x in freed :: x == data
    {
      RemovalLengths(Contents(), data);
      match occurrence {
        case First => freed := RemoveFirstData(data, func);
        case Last => freed := RemoveLastData(data, func);
        case All => freed := RemoveAllData(data, func);
      }
    }

    /** __tpl_list_fini: the free function sees every element once, front to back. */
    method Fini(func: bool) returns (freed: seq<Pointer>)
      requires Valid()
      modifies this, spine
      ensures Valid() && Contents() == []
      ensures freed == if func then old(Contents()) else []
    {
      assert spine[0] == head;
      freed := [];
      var node := head.next;
      ghost var k := 1;
      while node != tail
        invariant 1 <= k < |spine| && node == spine[k] && Valid() && spine == old(spine)
        invariant Contents() == old(Contents()) && freed == if func then Contents()[..k - 1] else []
        decreases |spine| - k
      {
        var freeNode := node;
        node := node.next;
        if func {
          freed := freed + [freeNode.data];
        }
        k := k + 1;
      }
      assert k == |spine| - 1;
      Init();
    }

    method GetFrontNode() returns (node: Node?)
      requires Valid()
      ensures node == if |spine| == 2 then null else spine[1]
    {
      if count == 0 {
        return null;
      }
      assert spine[0] == head;
      return head.next;
    }

    method GetBackNode() returns (node: Node?)
      requires Valid()
      ensures node == if |spine| == 2 then null else spine[|spine| - 2]
    {
      if count == 0 {
        return null;
      }
      assert spine[|spine| - 1] == tail;
      return tail.prev;
    }

    /** The traversal loop every user of the list writes. */
    method Forward() returns (s: seq<Pointer>)
      requires Valid()
      ensures s == Contents()
    {
      s := [];
      var node := GetFrontNode();
      ghost var k := 1;
      while node != null
        invariant 1 <= k < |spine| && node == if k == |spine| - 1 then null else spine[k]
        invariant s == Contents()[..k - 1]
        decreases |spine| - k
      {
        s := s + [node.data];
        k := k + 1;
        node := NodeNext(node, k - 1);
      }
      assert k == |spine| - 1;
    }

    method Backward() returns (s: seq<Pointer>)
      requires Valid()
      ensures s == Reversed(Contents())
    {
      s := [];
      var node := GetBackNode();
      ghost var k := |spine| - 2;
      assert Contents()[k..] == [];
      while node != null
        invariant 0 <= k < |spine| - 1 && node == if k == 0 then null else spine[k]
        invariant s == Reversed(Contents()[k..])
        decreases k
      {
        ReversedCons(Contents()[k - 1], Contents()[k..]);
        assert Contents()[k - 1..] == [Contents()[k - 1]] + Contents()[k..];
        s := s + [node.data];
        k := k - 1;
        node := NodePrev(node, k + 1);
      }
      assert Contents()[0..] == Contents();
    }

    method NodeNext(node: Node, ghost k: nat) returns (next: Node?)
      requires Valid() && 1 <= k < |spine| - 1 && node == spine[k]
      ensures next == if k + 1 == |spine| - 1 then null else spine[k + 1]
    {
      if node.next != node.list.tail {
        return node.next;
      }
      return null;
    }

    method NodePrev(node: Node, ghost k: nat) returns (prev: Node?)
      requires Valid() && 1 <= k < |spine| - 1 && node == spine[k]
      ensures prev == if k - 1 == 0 then null else spine[k - 1]
    {
      if node.prev != node.list.head {
        return node.prev;
      }
      return null;
    }
  }
}
