/** Chapter 4's list exercise (and its copy in test.js): an array turned into
    a chain of `{value, rest}` nodes by a loop that extends the chain at its
    tail, and the walk that turns the chain back into an array. */
module LinkedList {

  /** A `{value, rest}` record; `rest` is changed after creation when the
      chain grows, so a node is an object. */
  class ListNode<T> {
    var value: T
    var rest: ListNode?<T>

    /** `createNode(value, rest = null)`. */
    constructor (value: T, rest: ListNode?<T> := null)
      ensures this.value == value && this.rest == rest
    {
      this.value := value;
      this.rest := rest;
    }
  }

  /** nodes, in order, form a chain: each node's `rest` is the next node and
      the last node's `rest` is null. */
  ghost predicate IsChain<T>(nodes: seq<ListNode<T>>)
    reads nodes
  {
    |nodes| > 0 && forall i :: 0 <= i < |nodes| ==> nodes[i].rest == Successor(nodes, i)
  }

  /** The node after position i, null after the last. */
  ghost function Successor<T>(nodes: seq<ListNode<T>>, i: int): ListNode?<T>
    requires 0 <= i < |nodes|
  {
    if i + 1 < |nodes| then nodes[i + 1] else null
  }

  /** The values held by the nodes, in order. */
  ghost function Values<T>(nodes: seq<ListNode<T>>): (r: seq<T>)
    reads nodes
    ensures |r| == |nodes|
    ensures forall i :: 0 <= i < |nodes| ==> r[i] == nodes[i].value
  {
    if nodes == [] then [] else [nodes[0].value] + Values(nodes[1..])
  }

  /** `arrayToList(array)`: null for an empty array; otherwise a fresh chain
      whose node i holds `array[i]`. `nodes` names the chain's nodes. */
  method ArrayToList<T>(arr: seq<T>) returns (head: ListNode?<T>, ghost nodes: seq<ListNode<T>>)
    ensures arr == [] <==> head == null
    ensures arr == [] ==> nodes == []
    ensures arr != [] ==> IsChain(nodes) && nodes[0] == head && Values(nodes) == arr
    ensures forall n :: n in nodes ==> fresh(n)
  {
    if |arr| == 0 {
      return null, [];
    }
    head := new ListNode(arr[0]);
    var currentNode := head;
    nodes := [head];
    for i := 1 to |arr|
      invariant |nodes| == i && nodes[0] == head && nodes[i - 1] == currentNode
      invariant IsChain(nodes)
      invariant forall k :: 0 <= k < i ==> nodes[k].value == arr[k]
      invariant forall n :: n in nodes ==> fresh(n)
      invariant fresh(currentNode)
    {
      var node := Extend(nodes, currentNode, arr[i]);
      currentNode := node;
      nodes := nodes + [node];
    }
  }

  /** One step of the loop in `arrayToList`: a new node holding value becomes
      the `rest` of the chain's last node, so the chain grows by one. */
  method Extend<T>(ghost nodes: seq<ListNode<T>>, last: ListNode<T>, value: T) returns (node: ListNode<T>)
    requires IsChain(nodes) && nodes[|nodes| - 1] == last
    modifies last`rest
    ensures fresh(node) && node.value == value
    ensures IsChain(nodes + [node])
  {
    node := new ListNode(value);
    last.rest := node;
    var extended := nodes + [node];
    forall k | 0 <= k < |extended|
      ensures extended[k].rest == Successor(extended, k)
    {
      if k < |nodes| - 1 {
        assert old(nodes[k].rest) == nodes[k + 1];
        assert nodes[k] != last;
      }
    }
  }

  /** `arrayToLinkedList(array)` in test.js: the same code as `arrayToList`. */
  method ArrayToLinkedList<T>(arr: seq<T>) returns (head: ListNode?<T>, ghost nodes: seq<ListNode<T>>)
    ensures arr == [] <==> head == null
    ensures arr == [] ==> nodes == []
    ensures arr != [] ==> IsChain(nodes) && nodes[0] == head && Values(nodes) == arr
    ensures forall n :: n in nodes ==> fresh(n)
  {
    head, nodes := ArrayToList(arr);
  }

  /** `listToArray(list)`: follows `rest` links until the node whose `rest`
      is null, collecting values. It reads `list.rest` at once, so the list
      must not be null. */
  method ListToArray<T>(list: ListNode<T>, ghost nodes: seq<ListNode<T>>) returns (arr: seq<T>)
    requires IsChain(nodes) && nodes[0] == list
    ensures arr == Values(nodes)
  {
    arr := [];
    var currentNode := list;
    ghost var i := 0;
    while currentNode.rest != null
      invariant 0 <= i < |nodes| && currentNode == nodes[i]
      invariant arr == Values(nodes[..i])
      invariant currentNode.rest == Successor(nodes, i)
      decreases |nodes| - i
    {
      arr := arr + [currentNode.value];
      currentNode := currentNode.rest;
      i := i + 1;
    }
    arr := arr + [currentNode.value];
    assert nodes[..i + 1] == nodes;
  }

  /** Converting a non-empty array to a list and back gives the array. */
  method RoundTrip<T>(xs: seq<T>) returns (ys: seq<T>)
    requires xs != []
    ensures ys == xs
  {
    var head, nodes := ArrayToList(xs);
    ys := ListToArray(head, nodes);
  }

  /** `arrayToList([1, 2, 3])`: three nodes holding 1, 2, 3, then null. */
  method ListExample() returns (first: int, second: int, third: int, afterThird: ListNode?<int>)
    ensures first == 1 && second == 2 && third == 3 && afterThird == null
  {
    var head, nodes := ArrayToList([1, 2, 3]);
    assert nodes[0].rest == nodes[1] && nodes[1].rest == nodes[2] && nodes[2].rest == null;
    first, second, third := head.value, head.rest.value, head.rest.rest.value;
    afterThird := head.rest.rest.rest;
  }
}
