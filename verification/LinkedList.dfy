/** The singly linked lists of linked_list.c, updated in place. */
module LinkedLists {
  import opened Options

  // A NULL value is None.
  class ListNode<T> {
    var val: Option<T>
    var next: ListNode?<T>

    constructor (val: Option<T>, next: ListNode?<T>)
      ensures this.val == val && this.next == next
    {
      this.val, this.next := val, next;
    }
  }

  ghost function NodeAt<T>(ns: seq<ListNode<T>>, j: nat): ListNode?<T> {
    if j < |ns| then ns[j] else null
  }

  // The nodes ns are linked from head and hold the values vs.
  ghost predicate ListOf<T>(head: ListNode?<T>, ns: seq<ListNode<T>>, vs: seq<Option<T>>)
    reads ns
  {
    && head == NodeAt(ns, 0)
    && |ns| == |vs|
    && (forall j {:trigger ns[j].next} :: 0 <= j < |ns| ==> ns[j].next == NodeAt(ns, j + 1))
    && (forall j :: 0 <= j < |ns| ==> ns[j].val == vs[j])
  }

  // A list that ends in NULL repeats no node.
  lemma {:induction false} NoRepeat<T>(head: ListNode?<T>, ns: seq<ListNode<T>>, vs: seq<Option<T>>, j: nat, l: nat)
    requires ListOf(head, ns, vs) && j < l < |ns|
    ensures ns[j] != ns[l]
    decreases |ns| - l
  {
    assert ns[j].next == NodeAt(ns, j + 1) && ns[l].next == NodeAt(ns, l + 1);
    if l + 1 == |ns| {
    } else {
      NoRepeat(head, ns, vs, j + 1, l + 1);
    }
  }

  lemma NotEmpty<T>(head: ListNode<T>, ns: seq<ListNode<T>>, vs: seq<Option<T>>)
    requires ListOf(head, ns, vs)
    ensures ns != []
  {
  }

  method NewLinkedList<T>(val: Option<T>) returns (head: ListNode<T>)
    ensures fresh(head) && ListOf(head, [head], [val])
  {
    head := new ListNode(val, null);
  }

  // A NULL element is found nowhere.
  method ExistsInList<T(==)>(head: ListNode?<T>, elem: Option<T>, ghost ns: seq<ListNode<T>>, ghost vs: seq<Option<T>>)
    returns (b: bool)
    requires ListOf(head, ns, vs)
    ensures b <==> elem.Some? && elem in vs
  {
    var current := head;
    ghost var j := 0;
    while current != null
      invariant j <= |ns| && current == NodeAt(ns, j)
      invariant elem.Some? ==> elem !in vs[..j]
      decreases |ns| - j
    {
      if current.val != None && elem != None && current.val == elem {
        return true;
      }
      current, j := current.next, j + 1;
    }
    return false;
  }

  // Append at the end.
  method Push<T>(head: ListNode<T>, val: Option<T>, ghost ns: seq<ListNode<T>>, ghost vs: seq<Option<T>>)
    returns (ghost last: ListNode<T>)
    requires ListOf(head, ns, vs)
    modifies if ns != [] then {ns[|ns| - 1]} else {}
    ensures fresh(last) && ListOf(head, ns + [last], vs + [val])
  {
    var current := head;
    ghost var j := 0;
    while current.next != null
      invariant j < |ns| && current == ns[j]
      decreases |ns| - j
    {
      assert ns[j].next == NodeAt(ns, j + 1);
      current, j := current.next, j + 1;
    }
    assert ns[j].next == NodeAt(ns, j + 1);
    forall l | 0 <= l < j
      ensures ns[l] != ns[j]
    {
      NoRepeat(head, ns, vs, l, j);
    }
    var node := new ListNode(val, null);
    current.next := node;
    last := node;
  }

  // Prepend; the head pointer moves.
  method PushFirst<T>(head: ListNode?<T>, val: Option<T>, ghost ns: seq<ListNode<T>>, ghost vs: seq<Option<T>>)
    returns (head': ListNode<T>)
    requires ListOf(head, ns, vs)
    ensures fresh(head') && ListOf(head', [head'] + ns, [val] + vs)
  {
    head' := new ListNode(val, head);
  }

  // The result of a removal: the value, or the string "-1" if there was none.
  datatype Removed<T> = Value(val: Option<T>) | MinusOne

  // Remove the first node.
  method Pop<T>(head: ListNode?<T>, ghost ns: seq<ListNode<T>>, ghost vs: seq<Option<T>>)
    returns (head': ListNode?<T>, r: Removed<T>)
    requires ListOf(head, ns, vs)
    ensures if vs == [] then head' == null && r == MinusOne else ListOf(head', ns[1..], vs[1..]) && r == Value(vs[0])
  {
    if head == null {
      return head, MinusOne;
    }
    head', r := head.next, Value(head.val);
    ghost var tail := ns[1..];
    assert forall j {:trigger NodeAt(tail, j)} :: 0 <= j <= |tail| ==> NodeAt(tail, j) == NodeAt(ns, j + 1);
  }

  // Remove the n-th node. At n equal to the length the source follows a NULL pointer.
  method RemoveByIndex<T>(head: ListNode?<T>, n: nat, ghost ns: seq<ListNode<T>>, ghost vs: seq<Option<T>>)
    returns (head': ListNode?<T>, r: Removed<T>)
    requires ListOf(head, ns, vs) && (n == 0 || (vs != [] && n != |vs|))
    modifies ns
    ensures if n < |vs| then ListOf(head', ns[..n] + ns[n + 1..], vs[..n] + vs[n + 1..]) && r == Value(vs[n])
            else head' == head && r == MinusOne && ListOf(head, ns, vs)
  {
    if n == 0 {
      head', r := Pop(head, ns, vs);
      if vs != [] {
        assert ns[..0] + ns[1..] == ns[1..] && vs[..0] + vs[1..] == vs[1..];
      }
      return;
    }
    head' := head;
    var current := head;
    var i := 0;
    while i < n - 1
      invariant i <= n - 1 && i < |ns| && current == ns[i]
    {
      assert ns[i].next == NodeAt(ns, i + 1);
      if current.next == null {
        return head, MinusOne;
      }
      current, i := current.next, i + 1;
    }
    assert ns[i].next == NodeAt(ns, i + 1) && ns[i + 1].next == NodeAt(ns, i + 2);
    forall l | 0 <= l < |ns| && l != i
      ensures ns[l] != ns[i]
    {
      NoRepeat(head, ns, vs, if l < i then l else i, if l < i then i else l);
    }
    var temp := current.next;
    r := Value(temp.val);
    current.next := temp.next;
    ghost var rest := ns[..n] + ns[n + 1..];
    assert forall j {:trigger NodeAt(rest, j)} :: 0 <= j <= |rest| ==>
        NodeAt(rest, j) == NodeAt(ns, if j < n then j else j + 1);
  }
}
