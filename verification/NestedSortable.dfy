/** toArray, toHierarchy and _getChildLevels of nestedsortable.js, step by step. */
module NestedSortable {
  import opened Words
  import opened NestedSet
  import opened NestedSetTheory

  lemma {:induction false} SizeAppend(f: Forest, g: Forest)
    ensures Size(f + g) == Size(f) + Size(g)
  {
    if f == [] {
      assert f + g == g;
    } else {
      SizeAppend(f[1..], g);
      assert (f + g)[1..] == f[1..] + g;
    }
  }

  lemma {:induction false} ConvertibleAppend(f: Forest, g: Forest)
    ensures Convertible(f + g) <==> Convertible(f) && Convertible(g)
  {
    if f == [] {
      assert f + g == g;
    } else {
      ConvertibleAppend(f[1..], g);
      assert (f + g)[1..] == f[1..] + g;
    }
  }

  lemma PostOrderIs(f: Forest, depth: int, pid: Option<string>, left: int)
    requires f != []
    ensures PostOrder(f, depth, pid, left)
         == PostOrder(f[0].children, depth + 1, LabelId(f[0].tag), left + 1)
          + HeadRow(f[0], depth, pid, left)
          + PostOrder(f[1..], depth, pid, NextLeft(f[0], left))
  {
  }

  /** Later siblings continue with the numbers that earlier ones left. */
  lemma {:induction false} PostOrderAppend(f: Forest, g: Forest, depth: int, pid: Option<string>, left: int)
    ensures PostOrder(f + g, depth, pid, left)
         == PostOrder(f, depth, pid, left) + PostOrder(g, depth, pid, left + 2 * Size(f))
  {
    hide PostOrder, Size, HeadRow;
    NoItems(depth, pid, left);
    if f == [] {
      assert f + g == g;
    } else {
      PostOrderAppend(f[1..], g, depth, pid, NextLeft(f[0], left));
      assert (f + g)[1..] == f[1..] + g && (f + g)[0] == f[0];
      SizeIs(f);
      PostOrderIs(f + g, depth, pid, left);
      PostOrderIs(f, depth, pid, left);
      Regroup(PostOrder(f[0].children, depth + 1, LabelId(f[0].tag), left + 1), HeadRow(f[0], depth, pid, left),
              PostOrder(f[1..], depth, pid, NextLeft(f[0], left)),
              PostOrder(g, depth, pid, left + 2 * Size(f)));
    }
  }

  lemma Regroup(a: seq<Row>, b: seq<Row>, c: seq<Row>, d: seq<Row>)
    ensures a + b + (c + d) == a + b + c + d
  {
  }

  lemma SizeIs(f: Forest)
    requires f != []
    ensures Size(f) == 1 + Size(f[0].children) + Size(f[1..])
  {
  }

  lemma LevelsOfNothing()
    ensures Levels([]) == []
  {
  }

  lemma LevelsIs(f: Forest)
    requires f != []
    ensures Levels(f) == [LevelOf(f[0].tag, Levels(f[0].children))] + Levels(f[1..])
  {
  }

  lemma {:induction false} LevelsAppend(f: Forest, g: Forest)
    ensures Levels(f + g) == Levels(f) + Levels(g)
  {
    hide LevelOf, Levels;
    if f == [] {
      LevelsOfNothing();
      assert f + g == g;
    } else {
      LevelsIs(f + g);
      LevelsIs(f);
      LevelsAppend(f[1..], g);
      assert (f + g)[1..] == f[1..] + g;
    }
  }

  lemma {:induction false} HeightAppend(f: Forest, g: Forest)
    ensures Height(f + g) == Larger(Height(f), Height(g))
  {
    if f == [] {
      assert f + g == g;
    } else {
      HeightAppend(f[1..], g);
      assert (f + g)[1..] == f[1..] + g;
    }
  }

  /** What one item adds: its descendants' rows, then its own, and it is convertible if they are. */
  lemma OneItem(n: Node, depth: int, pid: Option<string>, left: int)
    ensures PostOrder([n], depth, pid, left)
         == PostOrder(n.children, depth + 1, LabelId(n.tag), left + 1) + HeadRow(n, depth, pid, left)
    ensures Size([n]) == 1 + Size(n.children)
    ensures Convertible([n]) <==> !n.tag.Missing? && (n.children != [] ==> n.tag.Id?) && Convertible(n.children)
  {
    assert [n][1..] == [];
  }

  /** One more sibling. */
  lemma NextItem(f: Forest, i: nat, depth: int, pid: Option<string>, left: int)
    requires i < |f|
    ensures PostOrder(f[..i + 1], depth, pid, left)
         == PostOrder(f[..i], depth, pid, left) + PostOrder([f[i]], depth, pid, left + 2 * Size(f[..i]))
    ensures Size(f[..i + 1]) == Size(f[..i]) + Size([f[i]])
    ensures Convertible(f[..i + 1]) <==> Convertible(f[..i]) && Convertible([f[i]])
  {
    hide PostOrder, Size, Convertible;
    assert f[..i + 1] == f[..i] + [f[i]];
    PostOrderAppend(f[..i], [f[i]], depth, pid, left);
    SizeAppend(f[..i], [f[i]]);
    ConvertibleAppend(f[..i], [f[i]]);
  }

  /** An item that throws makes the whole list throw. */
  lemma OneThrows(f: Forest, i: nat)
    requires i < |f| && !Convertible([f[i]])
    ensures !Convertible(f)
  {
    assert f == f[..i] + ([f[i]] + f[i + 1..]);
    ConvertibleAppend(f[..i], [f[i]] + f[i + 1..]);
    ConvertibleAppend([f[i]], f[i + 1..]);
  }

  /** What match and the group give for a parent's id; a missing attribute or no match throws. */
  function ParentId(depth: int, startDepth: int, rootId: Option<string>, parent: Label): Option<string> {
    if depth == startDepth + 1 then rootId else LabelId(parent)
  }

  predicate NoThrow(depth: int, startDepth: int, parent: Label) {
    depth == startDepth + 1 || parent.Id?
  }

  /** The closure's variables: the options it reads and the list it fills. */
  class Conversion {
    const rootId: Option<string>
    const startDepth: int
    var ret: seq<Row>

    constructor (rootId: Option<string>, startDepth: int)
      ensures this.rootId == rootId && this.startDepth == startDepth && ret == []
    {
      this.rootId, this.startDepth, ret := rootId, startDepth, [];
    }

    /** _recursiveArray; `threw` where match is called on undefined or its null result is indexed. */
    method RecursiveArray(item: Node, parent: Label, depth: int, left: int) returns (threw: bool, next: int)
      requires depth > startDepth
      modifies this
      ensures threw <==> !(Convertible([item]) && NoThrow(depth, startDepth, parent))
      ensures !threw ==>
        ret == old(ret) + PostOrder([item], depth, ParentId(depth, startDepth, rootId, parent), left)
      ensures !threw ==> next == left + 2 * Size([item])
      decreases item, 1
    {
      hide PostOrder, Size, Convertible, HeadRow;
      var right := left + 1;
      OneItem(item, depth, ParentId(depth, startDepth, rootId, parent), left);
      if item.children != [] {
        threw, right := RecursiveChildren(item.children, item.tag, depth + 1, right);
        if threw {
          return true, left;
        }
      } else {
        NoItems(depth + 1, LabelId(item.tag), left + 1);
      }
      if item.tag.Missing? {
        return true, left;
      }
      var pid: Option<string>;
      if depth == startDepth + 1 {
        pid := rootId;
      } else if parent.Id? {
        pid := Some(parent.id);
      } else {
        return true, left;
      }
      if item.tag.Id? {
        ret := ret + [Row(Some(item.tag.id), pid, depth, left, right)];
      }
      HeadRowIs(item, depth, pid, left);
      return false, right + 1;
    }

    /** The loop over the items of one list. */
    method RecursiveChildren(items: Forest, parent: Label, depth: int, left: int) returns (threw: bool, right: int)
      requires depth > startDepth
      modifies this
      ensures items != [] ==> (threw <==> !(Convertible(items) && NoThrow(depth, startDepth, parent)))
      ensures items == [] ==> !threw
      ensures !threw ==>
        ret == old(ret) + PostOrder(items, depth, ParentId(depth, startDepth, rootId, parent), left)
      ensures !threw ==> right == left + 2 * Size(items)
      decreases items, 0
    {
      hide PostOrder, Size, Convertible, NoThrow, ParentId;
      right := left;
      var i := 0;
      ghost var pid := ParentId(depth, startDepth, rootId, parent);
      NoItems(depth, pid, left);
      assert items[..0] == [];
      while i < |items|
        invariant i <= |items|
        invariant i > 0 ==> NoThrow(depth, startDepth, parent)
        invariant Convertible(items[..i])
        invariant ret == old(ret) + PostOrder(items[..i], depth, pid, left)
        invariant right == left + 2 * Size(items[..i])
      {
        threw, right := RecursiveArray(items[i], parent, depth, right);
        if threw {
          if !Convertible([items[i]]) {
            OneThrows(items, i);
          }
          return;
        }
        NextItem(items, i, depth, pid, left);
        i := i + 1;
      }
      assert items[..|items|] == items;
      threw := false;
    }
  }

  lemma NoItems(depth: int, pid: Option<string>, left: int)
    ensures PostOrder([], depth, pid, left) == [] && Size([]) == 0 && Convertible([])
  {
  }

  lemma HeadRowIs(n: Node, depth: int, pid: Option<string>, left: int)
    ensures HeadRow(n, depth, pid, left)
         == if n.tag.Id? then [Row(Some(n.tag.id), pid, depth, left, left + 2 * Size(n.children) + 1)] else []
  {
  }

  predicate Weakly(rows: seq<Row>) {
    forall i, j :: 0 <= i < j < |rows| ==> rows[i].left <= rows[j].left
  }

  /** A sort by ascending left end. */
  method SortByLeft(rows: seq<Row>) returns (sorted: seq<Row>)
    ensures multiset(sorted) == multiset(rows) && Weakly(sorted)
  {
    hide Weakly, Inserted;
    sorted := [];
    NothingWeakly();
    var i := 0;
    while i < |rows|
      invariant i <= |rows| && multiset(sorted) == multiset(rows[..i]) && Weakly(sorted)
    {
      OneMoreRow(rows, i);
      sorted := Insert(sorted, rows[i]);
      i := i + 1;
    }
    assert rows[..i] == rows;
  }

  lemma NothingWeakly()
    ensures Weakly([])
  {
  }

  lemma OneMoreRow(rows: seq<Row>, i: nat)
    requires i < |rows|
    ensures multiset(rows[..i + 1]) == multiset(rows[..i]) + multiset{rows[i]}
  {
    assert rows[..i + 1] == rows[..i] + [rows[i]];
  }

  /** One row put in its place, behind those that start no later. */
  method Insert(sorted: seq<Row>, r: Row) returns (longer: seq<Row>)
    requires Weakly(sorted)
    ensures Weakly(longer) && multiset(longer) == multiset(sorted) + multiset{r}
  {
    hide Weakly, Inserted;
    var j := |sorted|;
    while j > 0 && r.left < sorted[j - 1].left
      invariant 0 <= j <= |sorted|
      invariant forall k :: j <= k < |sorted| ==> r.left < sorted[k].left
    {
      j := j - 1;
    }
    InsertKeepsOrder(sorted, j, r);
    InsertKeepsRows(sorted, j, r);
    longer := Inserted(sorted, j, r);
  }

  function Inserted(rows: seq<Row>, j: nat, r: Row): seq<Row>
    requires j <= |rows|
  {
    rows[..j] + [r] + rows[j..]
  }

  lemma InsertKeepsOrder(rows: seq<Row>, j: nat, r: Row)
    requires j <= |rows| && Weakly(rows)
    requires j > 0 ==> rows[j - 1].left <= r.left
    requires forall k :: j <= k < |rows| ==> r.left < rows[k].left
    ensures Weakly(Inserted(rows, j, r))
  {
    var all := Inserted(rows, j, r);
    assert forall k :: 0 <= k < j ==> all[k] == rows[k] && all[k].left <= r.left;
    assert all[j] == r;
    assert forall k :: j < k < |all| ==> all[k] == rows[k - 1];
  }

  lemma InsertKeepsRows(rows: seq<Row>, j: nat, r: Row)
    requires j <= |rows|
    ensures multiset(Inserted(rows, j, r)) == multiset(rows) + multiset{r}
  {
    assert rows == rows[..j] + rows[j..];
  }

  lemma AtTwoPlaces(a: seq<Row>, i: nat, j: nat)
    requires i < j < |a| && a[i] == a[j]
    ensures multiset(a)[a[i]] >= 2
  {
    assert a == a[..j] + a[j..];
    assert a[i] in a[..j] && a[i] in a[j..];
  }

  lemma OnlyOnce(b: seq<Row>, r: Row)
    requires r in b && SortedByLeft(b)
    ensures multiset(b)[r] == 1
  {
    var k :| 0 <= k < |b| && b[k] == r;
    assert b == b[..k] + ([r] + b[k + 1..]);
    assert r !in b[..k] && r !in b[k + 1..];
  }

  lemma LeftsDiffer(a: seq<Row>, b: seq<Row>, i: nat, j: nat)
    requires i < j < |a| && multiset(a) == multiset(b) && SortedByLeft(b)
    ensures a[i].left != a[j].left
  {
    hide SortedByLeft;
    assert a[i] in multiset(b) && a[j] in multiset(b);
    OnePerLeft(b, a[i], a[j]);
    OnlyOnce(b, a[i]);
    if a[i] == a[j] {
      AtTwoPlaces(a, i, j);
    }
  }

  /** Rows with distinct left ends have one sorted order. */
  lemma SortGivesPreOrder(sorted: seq<Row>, target: seq<Row>)
    requires multiset(sorted) == multiset(target) && Weakly(sorted) && SortedByLeft(target)
    ensures sorted == target
  {
    forall i, j | 0 <= i < j < |sorted|
      ensures sorted[i].left < sorted[j].left
    {
      LeftsDiffer(sorted, target, i, j);
    }
    SortedUnique(sorted, target);
  }

  /** toArray, once the list's items are read from the page. */
  method ToArray(items: Forest, rootId: Option<string>, startDepth: int, excludeRoot: bool)
    returns (threw: bool, rows: seq<Row>)
    ensures threw <==> !Convertible(items)
    ensures !threw ==> rows == ArrayOf(items, rootId, startDepth, excludeRoot)
  {
    hide PostOrder, PreOrder, Size, Convertible, SortedByLeft, Weakly, ArrayOf;
    var c := new Conversion(rootId, startDepth);
    var left := 1;
    if !excludeRoot {
      c.ret := c.ret + [Row(rootId, None, startDepth, left, (Size(items) + 1) * 2)];
      left := left + 1;
    }
    ghost var first := c.ret;
    var right;
    NoItems(startDepth + 1, rootId, left);
    threw, right := c.RecursiveChildren(items, Missing, startDepth + 1, left);
    if threw {
      return true, [];
    }
    ghost var pre := PreOrder(items, startDepth + 1, rootId, left);
    rows := SortByLeft(c.ret);
    OrdersHaveSameRows(items, startDepth + 1, rootId, left);
    WholeSorted(items, rootId, startDepth, excludeRoot);
    FirstThen(items, rootId, startDepth, excludeRoot, first);
    SortGivesPreOrder(rows, first + pre);
  }

  /** The root's row, if wanted, goes before the others in both orders. */
  lemma FirstThen(f: Forest, rootId: Option<string>, startDepth: int, excludeRoot: bool, first: seq<Row>)
    requires first == if excludeRoot then [] else [Row(rootId, None, startDepth, 1, (Size(f) + 1) * 2)]
    ensures var left := if excludeRoot then 1 else 2;
            var post, pre := PostOrder(f, startDepth + 1, rootId, left), PreOrder(f, startDepth + 1, rootId, left);
            first + pre == ArrayOf(f, rootId, startDepth, excludeRoot)
            && multiset(first + post) == multiset(first) + multiset(post)
            && multiset(first + pre) == multiset(first) + multiset(pre)
  {
    hide PostOrder, PreOrder, Size;
  }

  lemma WholeSorted(f: Forest, rootId: Option<string>, startDepth: int, excludeRoot: bool)
    ensures SortedByLeft(ArrayOf(f, rootId, startDepth, excludeRoot))
  {
    var left := if excludeRoot then 1 else 2;
    PreOrderSorted(f, startDepth + 1, rootId, left);
    AllBounds(f, startDepth + 1, rootId, left);
  }

  /** toHierarchy's loop over a list and its _recursiveItems for each of them. */
  method ToHierarchy(items: Forest) returns (ret: seq<Level>)
    ensures ret == Levels(items)
    ensures Shows(ret, items) && NoEmptyBranch(ret)
    decreases items, 0
  {
    ShowsIff(Levels(items), items);
    ShownBranchesAreFull(Levels(items), items);
    hide Shows, NoEmptyBranch;
    ret := [];
    var i := 0;
    while i < |items|
      invariant i <= |items| && ret == Levels(items[..i])
    {
      var level := RecursiveItems(items[i]);
      LevelsAppend(items[..i], [items[i]]);
      assert items[..i + 1] == items[..i] + [items[i]];
      ret := ret + [level];
      i := i + 1;
    }
    assert items[..i] == items;
  }

  method RecursiveItems(item: Node) returns (level: Level)
    ensures [level] == Levels([item])
    decreases item, 1
  {
    assert [item][1..] == [];
    if !item.tag.Id? {
      return Undefined;
    }
    if item.children == [] {
      return Leaf(item.tag.id);
    }
    var below := ToHierarchy(item.children);
    LevelPerItem(item.children);
    return Branch(item.tag.id, below);
  }

  /** _getChildLevels, with its depth counted from the item first asked about. */
  method GetChildLevels(parent: Node, depth: nat) returns (levels: nat)
    ensures levels == Height(parent.children) + if depth != 0 then 1 else 0
    decreases parent
  {
    var result := 0;
    var i := 0;
    while i < |parent.children|
      invariant i <= |parent.children| && result == Height(parent.children[..i])
    {
      var child := parent.children[i];
      var below := GetChildLevels(child, depth + 1);
      assert [child][1..] == [];
      assert Height([child]) == 1 + Height(child.children);
      HeightAppend(parent.children[..i], [child]);
      assert parent.children[..i + 1] == parent.children[..i] + [child];
      result := Larger(below, result);
      i := i + 1;
    }
    assert parent.children[..i] == parent.children;
    levels := if depth != 0 then result + 1 else result;
  }
}
