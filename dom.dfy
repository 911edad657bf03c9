/**
 * The slice of the browser DOM that the watermark component touches: the
 * container element's list of children, the document's allocation of fresh
 * nodes, the inline style of each node, and the queue of mutation records a
 * subtree observer on the container has collected but not yet delivered.
 *
 * Nodes are identified by number; `document.createElement` hands out the next
 * unused number, so node identity is number equality.
 */
module Dom {

  type NodeId = nat

  /** The two inline style declarations of the overlay that vary with the configuration. */
  datatype Style = Style(backgroundSize: real, backgroundImage: string)

  /** A mutation record, by type; "characterData" stands for every other type. */
  datatype Record =
    | ChildList(addedNodes: seq<NodeId>, removedNodes: seq<NodeId>)
    | Attributes(target: NodeId)
    | CharacterData(target: NodeId)

  /** A value snapshot of the DOM slice. */
  datatype DomState = DomState(
    children: seq<NodeId>,
    created: nat,
    styles: map<NodeId, Style>,
    records: seq<Record>)

  predicate NoDuplicates(s: seq<NodeId>)
  {
    forall i, j | 0 <= i < j < |s| :: s[i] != s[j]
  }

  /** A child list holds each node at most once, and only nodes that exist. */
  predicate Wellformed(d: DomState)
  {
    NoDuplicates(d.children) &&
    (forall n | n in d.children :: n < d.created) &&
    (forall n | n in d.styles :: n < d.created)
  }

  /** The child list with `n` taken out, the other children in their order. */
  function Without(s: seq<NodeId>, n: NodeId): (r: seq<NodeId>)
    ensures forall m :: m in r <==> m in s && m != n
    ensures n !in s ==> r == s
    ensures NoDuplicates(s) ==> NoDuplicates(r)
    ensures NoDuplicates(s) && n in s ==> |r| == |s| - 1
  {
    if s == [] then []
    else if s[0] == n then Without(s[1..], n)
    else
      assert NoDuplicates(s) ==> s[0] !in s[1..];
      [s[0]] + Without(s[1..], n)
  }

  /** Taking a node out of a child list that holds it once is splicing out its position. */
  lemma {:induction false} WithoutIsSplice(s: seq<NodeId>, k: nat)
    requires NoDuplicates(s) && k < |s|
    ensures Without(s, s[k]) == s[..k] + s[k + 1..]
  {
    if k == 0 {
      assert s[0] !in s[1..];
    } else {
      WithoutIsSplice(s[1..], k - 1);
      assert s[1..][..k - 1] == s[1..k];
      assert s[..k] + s[k + 1..] == [s[0]] + (s[1..k] + s[k + 1..]);
    }
  }

  /** `document.createElement`: the fresh node is `d.created`; nothing is attached. */
  function Created(d: DomState): DomState
  {
    d.(created := d.created + 1)
  }

  /** `node.remove()`: detaches `n` from the container and records the removal; a detached node is left alone. */
  function Removed(d: DomState, n: NodeId): (r: DomState)
    ensures n !in r.children
    ensures r.children == Without(d.children, n)
    ensures forall m | m != n :: m in r.children <==> m in d.children
    ensures r.created == d.created && r.styles == d.styles
    ensures n !in d.children ==> r == d
    ensures n in d.children ==> r.records == d.records + [ChildList([], [n])]
    ensures Wellformed(d) ==> Wellformed(r)
  {
    if n in d.children then
      d.(children := Without(d.children, n), records := d.records + [ChildList([], [n])])
    else d
  }

  /**
   * Assigning an inline style to `n`. The observer watches the container's
   * subtree only, so an attribute record is queued when `n` is attached and
   * the style actually changes.
   */
  function Styled(d: DomState, n: NodeId, s: Style): (r: DomState)
    ensures r.children == d.children && r.created == d.created
    ensures n in r.styles && r.styles[n] == s
    ensures forall m | m != n && m in d.styles :: m in r.styles && r.styles[m] == d.styles[m]
    ensures n !in d.children ==> r.records == d.records
    ensures r.records == d.records || r.records == d.records + [Attributes(n)]
    ensures n in d.children && (n !in d.styles || d.styles[n] != s) ==> r.records == d.records + [Attributes(n)]
    ensures n in d.styles && d.styles[n] == s ==> r.records == d.records
    ensures r.styles.Keys == d.styles.Keys + {n}
    ensures Wellformed(d) && n < d.created ==> Wellformed(r)
  {
    var changed := n !in d.styles || d.styles[n] != s;
    d.(styles := d.styles[n := s],
       records := d.records + if n in d.children && changed then [Attributes(n)] else [])
  }

  /**
   * `container.appendChild(n)`: an attached node is first removed (which the
   * observer reports as a removal), then `n` becomes the last child.
   */
  function Appended(d: DomState, n: NodeId): (r: DomState)
    ensures |r.children| > 0 && r.children[|r.children| - 1] == n
    ensures r.children == Without(d.children, n) + [n]
    ensures forall m :: m in r.children <==> m in d.children || m == n
    ensures r.created == d.created && r.styles == d.styles
    ensures r.records ==
      d.records + (if n in d.children then [ChildList([], [n])] else []) + [ChildList([n], [])]
    ensures Wellformed(d) && n < d.created ==>
      Wellformed(r) && |r.children| == |d.children| + (if n in d.children then 0 else 1)
  {
    var moved := Removed(d, n);
    moved.(children := moved.children + [n], records := moved.records + [ChildList([n], [])])
  }

  /** The container element, with the document state it shares. */
  class Container {
    var children: seq<NodeId>
    var created: nat
    var styles: map<NodeId, Style>
    var records: seq<Record>

    function Model(): DomState
      reads this
    {
      DomState(children, created, styles, records)
    }

    ghost predicate Valid()
      reads this
    {
      Wellformed(Model())
    }

    constructor ()
      ensures Valid()
      ensures Model() == DomState([], 0, map[], [])
    {
      children, created, styles, records := [], 0, map[], [];
    }

    method CreateElement() returns (n: NodeId)
      modifies this
      ensures n == old(created)
      ensures Model() == Created(old(Model()))
    {
      n := created;
      created := created + 1;
    }

    method Remove(n: NodeId)
      modifies this
      ensures Model() == Removed(old(Model()), n)
    {
      if n in children {
        children := Without(children, n);
        records := records + [ChildList([], [n])];
      }
    }

    method SetStyle(n: NodeId, s: Style)
      modifies this
      ensures Model() == Styled(old(Model()), n, s)
    {
      var changed := n !in styles || styles[n] != s;
      if n in children && changed {
        records := records + [Attributes(n)];
      }
      styles := styles[n := s];
    }

    method AppendChild(n: NodeId)
      modifies this
      ensures Model() == Appended(old(Model()), n)
    {
      Remove(n);
      children := children + [n];
      records := records + [ChildList([n], [])];
    }

    /** Hands the queued records to the observer as one batch and empties the queue. */
    method TakeRecords() returns (batch: seq<Record>)
      modifies this
      ensures batch == old(records)
      ensures Model() == old(Model()).(records := [])
    {
      batch := records;
      records := [];
    }
  }
}
