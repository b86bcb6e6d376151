/** The numbering that nestedsortable.js gives a forest of list items: left and right ends, depth and parent. */
module NestedSet {
  import opened Words

  /** An item's id attribute: absent, not matching the id pattern, or matching it with this second group. */
  datatype Label = Missing | Unmatched | Id(id: string)

  datatype Node = Node(tag: Label, children: seq<Node>)

  type Forest = seq<Node>

  /** An element of the array; None is null. */
  datatype Row = Row(itemId: Option<string>, parentId: Option<string>, depth: int, left: int, right: int)

  function Size(f: Forest): nat {
    if f == [] then 0 else 1 + Size(f[0].children) + Size(f[1..])
  }

  /** Every item has an id attribute that matches. */
  predicate AllIds(f: Forest) {
    f != [] ==> f[0].tag.Id? && AllIds(f[0].children) && AllIds(f[1..])
  }

  /** What toArray needs in order not to throw: no attribute missing, and every parent's attribute matching. */
  predicate Convertible(f: Forest) {
    f != [] ==>
      && !f[0].tag.Missing?
      && (f[0].children != [] ==> f[0].tag.Id?)
      && Convertible(f[0].children) && Convertible(f[1..])
  }

  /** An item of the forest, at any depth. */
  predicate Within(f: Forest, n: Node) {
    f != [] && (f[0] == n || Within(f[0].children, n) || Within(f[1..], n))
  }

  /** What is asked of a forest is asked of each of its items. */
  lemma {:induction false} EveryItem(f: Forest)
    ensures AllIds(f) <==> forall n :: Within(f, n) ==> n.tag.Id?
    ensures Convertible(f) <==>
      forall n :: Within(f, n) ==> !n.tag.Missing? && (n.tag.Unmatched? ==> n.children == [])
  {
    if f != [] {
      EveryItem(f[0].children);
      EveryItem(f[1..]);
      assert Within(f, f[0]);
      assert forall n :: Within(f[0].children, n) || Within(f[1..], n) ==> Within(f, n);
    }
  }

  lemma {:induction false} AllIdsConvertible(f: Forest)
    requires AllIds(f)
    ensures Convertible(f)
  {
    if f != [] {
      AllIdsConvertible(f[0].children);
      AllIdsConvertible(f[1..]);
    }
  }

  function LabelId(l: Label): Option<string> {
    if l.Id? then Some(l.id) else None
  }

  /** The row of the first item of a forest, or none where its attribute does not match. */
  function HeadRow(n: Node, depth: int, pid: Option<string>, left: int): seq<Row> {
    if n.tag.Id? then [Row(Some(n.tag.id), pid, depth, left, left + 2 * Size(n.children) + 1)] else []
  }

  /** Where the numbers of the later siblings start. */
  function NextLeft(n: Node, left: int): int {
    left + 2 * Size(n.children) + 2
  }

  /** The rows in the order in which they are pushed: children before their parent. */
  function PostOrder(f: Forest, depth: int, pid: Option<string>, left: int): seq<Row> {
    if f == [] then []
    else
      PostOrder(f[0].children, depth + 1, LabelId(f[0].tag), left + 1)
      + HeadRow(f[0], depth, pid, left)
      + PostOrder(f[1..], depth, pid, NextLeft(f[0], left))
  }

  /** The rows with every parent before its children. */
  function PreOrder(f: Forest, depth: int, pid: Option<string>, left: int): seq<Row> {
    if f == [] then []
    else
      HeadRow(f[0], depth, pid, left)
      + PreOrder(f[0].children, depth + 1, LabelId(f[0].tag), left + 1)
      + PreOrder(f[1..], depth, pid, NextLeft(f[0], left))
  }

  /** All rows lie in the stretch of numbers that the forest is given, and run upwards. */
  lemma {:induction false} RowBounds(f: Forest, depth: int, pid: Option<string>, left: int, r: Row)
    requires r in PreOrder(f, depth, pid, left)
    ensures left <= r.left < r.right < left + 2 * Size(f) && r.depth >= depth
  {
    var head, inner, rest := HeadRow(f[0], depth, pid, left),
        PreOrder(f[0].children, depth + 1, LabelId(f[0].tag), left + 1),
        PreOrder(f[1..], depth, pid, NextLeft(f[0], left));
    if r in inner {
      RowBounds(f[0].children, depth + 1, LabelId(f[0].tag), left + 1, r);
    } else if r in rest {
      RowBounds(f[1..], depth, pid, NextLeft(f[0], left), r);
    }
  }

  lemma MultisetOfThree(a: seq<Row>, b: seq<Row>, c: seq<Row>)
    ensures multiset(a + b + c) == multiset(a) + multiset(b) + multiset(c)
  {
  }

  /** Both orders hold the same rows, each as often. */
  lemma {:induction false} OrdersHaveSameRows(f: Forest, depth: int, pid: Option<string>, left: int)
    ensures multiset(PostOrder(f, depth, pid, left)) == multiset(PreOrder(f, depth, pid, left))
  {
    hide HeadRow, NextLeft;
    if f != [] {
      var d, p, l, next := depth + 1, LabelId(f[0].tag), left + 1, NextLeft(f[0], left);
      OrdersHaveSameRows(f[0].children, d, p, l);
      OrdersHaveSameRows(f[1..], depth, pid, next);
      var head := HeadRow(f[0], depth, pid, left);
      var inner, rest := PostOrder(f[0].children, d, p, l), PostOrder(f[1..], depth, pid, next);
      var inner', rest' := PreOrder(f[0].children, d, p, l), PreOrder(f[1..], depth, pid, next);
      assert PostOrder(f, depth, pid, left) == inner + head + rest;
      assert PreOrder(f, depth, pid, left) == head + inner' + rest';
      MultisetOfThree(inner, head, rest);
      MultisetOfThree(head, inner', rest');
    }
  }

  predicate SortedByLeft(rows: seq<Row>) {
    forall i, j :: 0 <= i < j < |rows| ==> rows[i].left < rows[j].left
  }

  lemma SortedTogether(a: seq<Row>, b: seq<Row>, c: seq<Row>, x: int, y: int)
    requires |a| <= 1 && SortedByLeft(b) && SortedByLeft(c)
    requires (forall r :: r in a ==> r.left == x) && (forall r :: r in b ==> x < r.left < y)
    requires x < y && forall r :: r in c ==> y <= r.left
    ensures SortedByLeft(a + b + c)
  {
    var all := a + b + c;
    forall i, j | 0 <= i < j < |all|
      ensures all[i].left < all[j].left
    {
      var part := if j < |a| then a else if j < |a| + |b| then b else c;
      assert all[j] in part;
      assert i < |a| ==> all[i] in a;
      assert |a| <= i < |a| + |b| ==> all[i] == b[i - |a|] && all[i] in b;
      assert i >= |a| + |b| ==> all[i] == c[i - |a| - |b|] && all[j] == c[j - |a| - |b|];
      assert |a| <= j < |a| + |b| ==> all[j] == b[j - |a|];
    }
  }

  /** Parents before children is the order of the left ends. */
  lemma {:induction false} PreOrderSorted(f: Forest, depth: int, pid: Option<string>, left: int)
    ensures SortedByLeft(PreOrder(f, depth, pid, left))
  {
    hide SortedByLeft;
    if f == [] {
      NothingSorted();
    } else {
      var inner := PreOrder(f[0].children, depth + 1, LabelId(f[0].tag), left + 1);
      var rest := PreOrder(f[1..], depth, pid, NextLeft(f[0], left));
      PreOrderSorted(f[0].children, depth + 1, LabelId(f[0].tag), left + 1);
      PreOrderSorted(f[1..], depth, pid, NextLeft(f[0], left));
      forall r | r in inner
        ensures left < r.left < NextLeft(f[0], left)
      {
        RowBounds(f[0].children, depth + 1, LabelId(f[0].tag), left + 1, r);
      }
      forall r | r in rest
        ensures NextLeft(f[0], left) <= r.left
      {
        RowBounds(f[1..], depth, pid, NextLeft(f[0], left), r);
      }
      SortedTogether(HeadRow(f[0], depth, pid, left), inner, rest, left, NextLeft(f[0], left));
    }
  }

  lemma NothingSorted()
    ensures SortedByLeft([])
  {
  }

  lemma FirstIsLeast(b: seq<Row>, r: Row)
    requires r in b && SortedByLeft(b)
    ensures b[0].left <= r.left
  {
    var i :| 0 <= i < |b| && b[i] == r;
  }

  lemma OnePerLeft(b: seq<Row>, r: Row, s: Row)
    requires r in b && s in b && SortedByLeft(b)
    ensures r.left == s.left ==> r == s
  {
    var k :| 0 <= k < |b| && b[k] == r;
    var l :| 0 <= l < |b| && b[l] == s;
  }

  lemma SameFirst(a: seq<Row>, b: seq<Row>)
    requires multiset(a) == multiset(b) && SortedByLeft(a) && SortedByLeft(b) && a != [] && b != []
    ensures a[0] == b[0]
  {
    hide SortedByLeft;
    assert a[0] in multiset(b) && b[0] in multiset(a);
    FirstIsLeast(a, b[0]);
    FirstIsLeast(b, a[0]);
    OnePerLeft(a, a[0], b[0]);
  }

  lemma MultisetOfTail(a: seq<Row>)
    requires a != []
    ensures multiset(a[1..]) == multiset(a) - multiset{a[0]}
  {
    assert a == [a[0]] + a[1..];
  }

  /** A list of rows is determined by its rows and the order of their left ends: any sort gives the same. */
  lemma {:induction false} SortedUnique(a: seq<Row>, b: seq<Row>)
    requires multiset(a) == multiset(b) && SortedByLeft(a) && SortedByLeft(b)
    ensures a == b
  {
    assert |a| == |multiset(a)| == |multiset(b)| == |b|;
    if a != [] {
      SameFirst(a, b);
      MultisetOfTail(a);
      MultisetOfTail(b);
      SortedUnique(a[1..], b[1..]);
      assert a == [a[0]] + a[1..] && b == [b[0]] + b[1..];
    }
  }
}
