/** Why the numbers describe the tree: every number once, intervals nested like the items, and nothing lost. */
module NestedSetTheory {
  import opened Words
  import opened NestedSet

  /** How many of the left and right ends of some rows equal `k`. */
  function Occurrences(rows: seq<Row>, k: int): nat {
    if rows == [] then 0
    else (if rows[0].left == k then 1 else 0) + (if rows[0].right == k then 1 else 0) + Occurrences(rows[1..], k)
  }

  lemma {:induction false} OccurrencesOfAppend(a: seq<Row>, b: seq<Row>, k: int)
    ensures Occurrences(a + b, k) == Occurrences(a, k) + Occurrences(b, k)
  {
    if a == [] {
      assert a + b == b;
    } else {
      OccurrencesOfAppend(a[1..], b, k);
      assert (a + b)[1..] == a[1..] + b;
    }
  }

  lemma OccurrencesParts(f: Forest, depth: int, pid: Option<string>, left: int, k: int)
    requires f != []
    ensures Occurrences(PreOrder(f, depth, pid, left), k)
         == (if f[0].tag.Id? && (k == left || k == left + 2 * Size(f[0].children) + 1) then 1 else 0)
            + Occurrences(PreOrder(f[0].children, depth + 1, LabelId(f[0].tag), left + 1), k)
            + Occurrences(PreOrder(f[1..], depth, pid, NextLeft(f[0], left)), k)
  {
    var head := HeadRow(f[0], depth, pid, left);
    var inner := PreOrder(f[0].children, depth + 1, LabelId(f[0].tag), left + 1);
    var rest := PreOrder(f[1..], depth, pid, NextLeft(f[0], left));
    assert PreOrder(f, depth, pid, left) == head + inner + rest;
    OccurrencesOfAppend(head + inner, rest, k);
    OccurrencesOfAppend(head, inner, k);
    hide PreOrder;
  }

  /** The ends of a forest's rows are exactly the numbers it is given, each used once. */
  lemma {:induction false} EveryNumberOnce(f: Forest, depth: int, pid: Option<string>, left: int, k: int)
    requires AllIds(f)
    ensures Occurrences(PreOrder(f, depth, pid, left), k) == if left <= k < left + 2 * Size(f) then 1 else 0
  {
    if f != [] {
      EveryNumberOnce(f[0].children, depth + 1, LabelId(f[0].tag), left + 1, k);
      EveryNumberOnce(f[1..], depth, pid, NextLeft(f[0], left), k);
      hide PreOrder, Occurrences;
      OccurrencesParts(f, depth, pid, left, k);
    }
  }

  /** Whatever the ids are, no number is used twice, and none outside the stretch. */
  lemma {:induction false} NoNumberTwice(f: Forest, depth: int, pid: Option<string>, left: int, k: int)
    ensures Occurrences(PreOrder(f, depth, pid, left), k) <= if left <= k < left + 2 * Size(f) then 1 else 0
  {
    if f != [] {
      NoNumberTwice(f[0].children, depth + 1, LabelId(f[0].tag), left + 1, k);
      NoNumberTwice(f[1..], depth, pid, NextLeft(f[0], left), k);
      hide PreOrder, Occurrences;
      OccurrencesParts(f, depth, pid, left, k);
    }
  }

  /** An item that does not match leaves its two numbers unused. */
  lemma {:induction false} UnusedNumber(f: Forest, depth: int, pid: Option<string>, left: int) returns (k: int)
    requires !AllIds(f)
    ensures left <= k < left + 2 * Size(f) && Occurrences(PreOrder(f, depth, pid, left), k) == 0
  {
    hide PreOrder, Occurrences;
    var d, p, l, next := depth + 1, LabelId(f[0].tag), left + 1, NextLeft(f[0], left);
    k := left;
    if f[0].tag.Id? && !AllIds(f[0].children) {
      k := UnusedNumber(f[0].children, d, p, l);
    } else if f[0].tag.Id? {
      k := UnusedNumber(f[1..], depth, pid, next);
    }
    NoNumberTwice(f[0].children, d, p, l, k);
    NoNumberTwice(f[1..], depth, pid, next, k);
    OccurrencesParts(f, depth, pid, left, k);
  }

  /** Every number of the stretch is used, and then once, exactly when all ids match. */
  lemma EveryNumberIffAllIds(f: Forest, depth: int, pid: Option<string>, left: int)
    ensures AllIds(f) <==>
      forall k :: left <= k < left + 2 * Size(f) ==> Occurrences(PreOrder(f, depth, pid, left), k) == 1
  {
    if AllIds(f) {
      forall k | left <= k < left + 2 * Size(f)
        ensures Occurrences(PreOrder(f, depth, pid, left), k) == 1
      {
        EveryNumberOnce(f, depth, pid, left, k);
      }
    } else {
      var k := UnusedNumber(f, depth, pid, left);
    }
  }

  /** Whether the interval of `s` lies inside that of `r`. */
  predicate Contains(r: Row, s: Row) {
    r.left < s.left && s.right < r.right
  }

  /** The ids that match the pattern. */
  function Ids(f: Forest): set<string> {
    if f == [] then {} else OwnId(f[0].tag) + Ids(f[0].children) + Ids(f[1..])
  }

  function OwnId(tag: Label): set<string> {
    if tag.Id? then {tag.id} else {}
  }

  predicate Distinct(f: Forest) {
    f != [] ==>
      && OwnId(f[0].tag) !! Ids(f[0].children) + Ids(f[1..])
      && Ids(f[0].children) !! Ids(f[1..])
      && Distinct(f[0].children) && Distinct(f[1..])
  }

  /** Item `b` is somewhere below item `a`. */
  predicate Under(f: Forest, a: string, b: string) {
    f != [] &&
    ((a in OwnId(f[0].tag) && b in Ids(f[0].children)) || Under(f[0].children, a, b) || Under(f[1..], a, b))
  }

  lemma {:induction false} UnderIds(f: Forest, a: string, b: string)
    requires Under(f, a, b)
    ensures a in Ids(f) && b in Ids(f)
  {
    if Under(f[0].children, a, b) {
      UnderIds(f[0].children, a, b);
    } else if Under(f[1..], a, b) {
      UnderIds(f[1..], a, b);
    }
  }

  lemma {:induction false} RowIds(f: Forest, depth: int, pid: Option<string>, left: int, r: Row)
    requires r in PreOrder(f, depth, pid, left)
    ensures r.itemId.Some? && r.itemId.value in Ids(f)
  {
    if r in PreOrder(f[0].children, depth + 1, LabelId(f[0].tag), left + 1) {
      RowIds(f[0].children, depth + 1, LabelId(f[0].tag), left + 1, r);
    } else if r in PreOrder(f[1..], depth, pid, NextLeft(f[0], left)) {
      RowIds(f[1..], depth, pid, NextLeft(f[0], left), r);
    }
  }

  /** In which of the three parts of a forest a row lies, with its numbers and its id. */
  datatype Part = Head | Inner | Rest

  ghost predicate InPart(f: Forest, depth: int, pid: Option<string>, left: int, r: Row, part: Part)
    requires f != []
  {
    r.itemId.Some? &&
    match part
    case Head =>
      && HeadRow(f[0], depth, pid, left) == [r]
      && r.left == left && r.right == left + 2 * Size(f[0].children) + 1 && r.depth == depth && r.parentId == pid
      && r.itemId.value in OwnId(f[0].tag)
    case Inner =>
      && r in PreOrder(f[0].children, depth + 1, LabelId(f[0].tag), left + 1)
      && left < r.left < r.right < left + 2 * Size(f[0].children) + 1 && r.depth > depth
      && r.itemId.value in Ids(f[0].children)
    case Rest =>
      && r in PreOrder(f[1..], depth, pid, NextLeft(f[0], left))
      && NextLeft(f[0], left) <= r.left < r.right && r.itemId.value in Ids(f[1..])
  }

  lemma PartOf(f: Forest, depth: int, pid: Option<string>, left: int, r: Row) returns (part: Part)
    requires r in PreOrder(f, depth, pid, left)
    ensures f != [] && InPart(f, depth, pid, left, r, part)
  {
    if r in PreOrder(f[0].children, depth + 1, LabelId(f[0].tag), left + 1) {
      RowBounds(f[0].children, depth + 1, LabelId(f[0].tag), left + 1, r);
      RowIds(f[0].children, depth + 1, LabelId(f[0].tag), left + 1, r);
      part := Inner;
    } else if r in PreOrder(f[1..], depth, pid, NextLeft(f[0], left)) {
      RowBounds(f[1..], depth, pid, NextLeft(f[0], left), r);
      RowIds(f[1..], depth, pid, NextLeft(f[0], left), r);
      part := Rest;
    } else {
      part := Head;
    }
  }

  /** Where ids are distinct, being below is decided by the parts that the two ids lie in. */
  lemma UnderCases(f: Forest, a: string, b: string)
    requires f != [] && Distinct(f)
    ensures Distinct(f[0].children) && Distinct(f[1..])
    ensures a in OwnId(f[0].tag) ==> (Under(f, a, b) <==> b in Ids(f[0].children))
    ensures a in Ids(f[0].children) ==> (Under(f, a, b) <==> Under(f[0].children, a, b))
    ensures a in Ids(f[1..]) ==> (Under(f, a, b) <==> Under(f[1..], a, b))
    ensures a in Ids(f[0].children) && b !in Ids(f[0].children) ==> !Under(f, a, b)
    ensures a in Ids(f[1..]) && b !in Ids(f[1..]) ==> !Under(f, a, b)
    ensures b in OwnId(f[0].tag) ==> b !in Ids(f[0].children) && b !in Ids(f[1..])
    ensures b in Ids(f[1..]) ==> b !in Ids(f[0].children)
  {
    if Under(f[0].children, a, b) {
      UnderIds(f[0].children, a, b);
    }
    if Under(f[1..], a, b) {
      UnderIds(f[1..], a, b);
    }
  }

  /** With distinct ids, an interval lies inside another exactly when its item is below the other's. */
  lemma {:induction false} ContainsIffUnder(f: Forest, depth: int, pid: Option<string>, left: int, r: Row, s: Row)
    requires Distinct(f)
    requires r in PreOrder(f, depth, pid, left) && s in PreOrder(f, depth, pid, left)
    ensures r.itemId.Some? && s.itemId.Some?
    ensures Contains(r, s) <==> Under(f, r.itemId.value, s.itemId.value)
  {
    hide PreOrder, HeadRow, Size, Distinct, Under, Ids, OwnId;
    var p := PartOf(f, depth, pid, left, r);
    var q := PartOf(f, depth, pid, left, s);
    UnderCases(f, r.itemId.value, s.itemId.value);
    if p == Inner && q == Inner {
      ContainsIffUnder(f[0].children, depth + 1, LabelId(f[0].tag), left + 1, r, s);
    } else if p == Rest && q == Rest {
      ContainsIffUnder(f[1..], depth, pid, NextLeft(f[0], left), r, s);
    }
  }

  /** How many rows have `s` inside their interval. */
  function Around(rows: seq<Row>, s: Row): nat {
    if rows == [] then 0 else (if Contains(rows[0], s) then 1 else 0) + Around(rows[1..], s)
  }

  lemma {:induction false} AroundAppend(a: seq<Row>, b: seq<Row>, s: Row)
    ensures Around(a + b, s) == Around(a, s) + Around(b, s)
  {
    if a == [] {
      assert a + b == b;
    } else {
      AroundAppend(a[1..], b, s);
      assert (a + b)[1..] == a[1..] + b;
    }
  }

  /** Rows that all end before `s`, or all start no earlier, do not have it inside. */
  lemma {:induction false} NoneAround(f: Forest, depth: int, pid: Option<string>, left: int, s: Row)
    requires s.left <= left || left + 2 * Size(f) <= s.right + 1
    ensures Around(PreOrder(f, depth, pid, left), s) == 0
  {
    if f != [] {
      var inner := PreOrder(f[0].children, depth + 1, LabelId(f[0].tag), left + 1);
      var rest := PreOrder(f[1..], depth, pid, NextLeft(f[0], left));
      NoneAround(f[0].children, depth + 1, LabelId(f[0].tag), left + 1, s);
      NoneAround(f[1..], depth, pid, NextLeft(f[0], left), s);
      AroundAppend(HeadRow(f[0], depth, pid, left) + inner, rest, s);
      AroundAppend(HeadRow(f[0], depth, pid, left), inner, s);
    }
  }

  lemma AroundParts(f: Forest, depth: int, pid: Option<string>, left: int, s: Row)
    requires f != []
    ensures Around(PreOrder(f, depth, pid, left), s)
         == (if f[0].tag.Id? && left < s.left && s.right < left + 2 * Size(f[0].children) + 1 then 1 else 0)
            + Around(PreOrder(f[0].children, depth + 1, LabelId(f[0].tag), left + 1), s)
            + Around(PreOrder(f[1..], depth, pid, NextLeft(f[0], left)), s)
  {
    var head := HeadRow(f[0], depth, pid, left);
    var inner := PreOrder(f[0].children, depth + 1, LabelId(f[0].tag), left + 1);
    var rest := PreOrder(f[1..], depth, pid, NextLeft(f[0], left));
    assert PreOrder(f, depth, pid, left) == head + inner + rest;
    AroundAppend(head + inner, rest, s);
    AroundAppend(head, inner, s);
    hide PreOrder;
  }

  /** Only an item that matches may have items below it, and so rows. */
  lemma ConvertibleParts(f: Forest, depth: int, left: int, s: Row)
    requires Convertible(f) && f != []
    ensures Convertible(f[0].children) && Convertible(f[1..])
    ensures s in PreOrder(f[0].children, depth + 1, LabelId(f[0].tag), left + 1) ==> f[0].tag.Id?
  {
  }

  /** The depth of a row counts the intervals around it. */
  lemma {:induction false} DepthCountsIntervals(f: Forest, depth: int, pid: Option<string>, left: int, s: Row)
    requires Convertible(f) && s in PreOrder(f, depth, pid, left)
    ensures s.depth == depth + Around(PreOrder(f, depth, pid, left), s)
  {
    hide PreOrder, Around, HeadRow, Size, Convertible, OwnId, Ids, LabelId;
    var part := PartOf(f, depth, pid, left, s);
    AroundParts(f, depth, pid, left, s);
    ConvertibleParts(f, depth, left, s);
    if part == Inner {
      DepthCountsIntervals(f[0].children, depth + 1, LabelId(f[0].tag), left + 1, s);
      NoneAround(f[1..], depth, pid, NextLeft(f[0], left), s);
    } else {
      NoneAround(f[0].children, depth + 1, LabelId(f[0].tag), left + 1, s);
      if part == Rest {
        DepthCountsIntervals(f[1..], depth, pid, NextLeft(f[0], left), s);
      } else {
        NoneAround(f[1..], depth, pid, NextLeft(f[0], left), s);
      }
    }
  }

  /** The row around `s` that is one level up. */
  predicate IsParent(r: Row, s: Row) {
    Contains(r, s) && r.depth + 1 == s.depth
  }

  /** Among some rows there is the parent of `s`, whose id is its parent_id. */
  ghost predicate HasParent(rows: seq<Row>, s: Row) {
    exists r :: r in rows && IsParent(r, s) && r.itemId == s.parentId
  }

  lemma ParentInLonger(a: seq<Row>, b: seq<Row>, c: seq<Row>, s: Row)
    requires HasParent(a, s) || HasParent(b, s) || HasParent(c, s)
    ensures HasParent(a + b + c, s)
  {
    var r :| r in a + b + c && IsParent(r, s) && r.itemId == s.parentId;
  }

  /** The head's row is the parent of the rows one level below it. */
  lemma HeadIsParent(n: Node, depth: int, pid: Option<string>, left: int, s: Row)
    requires n.tag.Id? && left < s.left && s.right < left + 2 * Size(n.children) + 1
    requires s.depth == depth + 1 && s.parentId == LabelId(n.tag)
    ensures HasParent(HeadRow(n, depth, pid, left), s)
  {
    var r := HeadRow(n, depth, pid, left)[0];
    assert r in HeadRow(n, depth, pid, left) && IsParent(r, s);
  }

  lemma PreOrderIs(f: Forest, depth: int, pid: Option<string>, left: int)
    requires f != []
    ensures PreOrder(f, depth, pid, left)
         == HeadRow(f[0], depth, pid, left)
            + PreOrder(f[0].children, depth + 1, LabelId(f[0].tag), left + 1)
            + PreOrder(f[1..], depth, pid, NextLeft(f[0], left))
  {
  }

  /** parent_id names the item one level up whose interval is around the row; at the top it is the root's. */
  lemma {:induction false} ParentIsAround(f: Forest, depth: int, pid: Option<string>, left: int, s: Row)
    requires Convertible(f) && s in PreOrder(f, depth, pid, left)
    ensures s.depth >= depth
    ensures s.depth == depth ==> s.parentId == pid
    ensures s.depth > depth ==> HasParent(PreOrder(f, depth, pid, left), s)
  {
    hide PreOrder, HeadRow, Size, Convertible, HasParent, OwnId, Ids, LabelId;
    var part := PartOf(f, depth, pid, left, s);
    ConvertibleParts(f, depth, left, s);
    PreOrderIs(f, depth, pid, left);
    var head := HeadRow(f[0], depth, pid, left);
    var inner := PreOrder(f[0].children, depth + 1, LabelId(f[0].tag), left + 1);
    var rest := PreOrder(f[1..], depth, pid, NextLeft(f[0], left));
    if part == Inner {
      ParentIsAround(f[0].children, depth + 1, LabelId(f[0].tag), left + 1, s);
      if s.depth == depth + 1 {
        HeadIsParent(f[0], depth, pid, left, s);
      }
      ParentInLonger(head, inner, rest, s);
    } else if part == Rest {
      ParentIsAround(f[1..], depth, pid, NextLeft(f[0], left), s);
      if s.depth > depth {
        ParentInLonger(head, inner, rest, s);
      }
    }
  }

  /** The item that a row stands for. */
  predicate Numbered(f: Forest, depth: int, pid: Option<string>, left: int, n: Node, r: Row) {
    f != [] &&
    (|| (n == f[0] && HeadRow(n, depth, pid, left) == [r])
     || Numbered(f[0].children, depth + 1, LabelId(f[0].tag), left + 1, n, r)
     || Numbered(f[1..], depth, pid, NextLeft(f[0], left), n, r))
  }

  /** Every row stands for an item, with its id, and its interval is as wide as the item's tree is large. */
  lemma {:induction false} EveryRowIsAnItem(f: Forest, depth: int, pid: Option<string>, left: int, r: Row)
      returns (n: Node)
    requires r in PreOrder(f, depth, pid, left)
    ensures Numbered(f, depth, pid, left, n, r)
    ensures r.itemId == LabelId(n.tag) && r.right == r.left + 2 * Size([n]) - 1
  {
    if r in PreOrder(f[0].children, depth + 1, LabelId(f[0].tag), left + 1) {
      n := EveryRowIsAnItem(f[0].children, depth + 1, LabelId(f[0].tag), left + 1, r);
    } else if r in PreOrder(f[1..], depth, pid, NextLeft(f[0], left)) {
      n := EveryRowIsAnItem(f[1..], depth, pid, NextLeft(f[0], left), r);
    } else {
      n := f[0];
      assert [n][1..] == [];
    }
  }

  /** Levels of items in a forest. */
  function Height(f: Forest): nat {
    if f == [] then 0 else Larger(1 + Height(f[0].children), Height(f[1..]))
  }

  /** Levels of items that have a row: those that match, with all items above them. */
  function RowHeight(f: Forest): nat {
    if f == [] then 0
    else Larger(if f[0].tag.Id? then 1 + RowHeight(f[0].children) else 0, RowHeight(f[1..]))
  }

  lemma {:induction false} RowHeightBound(f: Forest)
    ensures RowHeight(f) <= Height(f) && (AllIds(f) ==> RowHeight(f) == Height(f))
  {
    if f != [] {
      RowHeightBound(f[0].children);
      RowHeightBound(f[1..]);
    }
  }

  function Larger(a: nat, b: nat): nat {
    if a < b then b else a
  }

  /** Among the rows with `r` around them, and `r` itself, the largest depth is `d`. */
  ghost predicate DeepestInside(rows: seq<Row>, r: Row, d: int) {
    && (forall s :: s in rows && (s == r || Contains(r, s)) ==> s.depth <= d)
    && (exists s :: s in rows && (s == r || Contains(r, s)) && s.depth == d)
  }

  /** The largest depth among some rows is `d` - 1; there are none where `d` is `from`. */
  ghost predicate DepthsReach(rows: seq<Row>, from: int, d: int) {
    && (forall s :: s in rows ==> s.depth < d)
    && (d != from ==> exists s :: s in rows && s.depth == d - 1)
  }

  /** The depths of a whole forest's rows run up to its height in rows. */
  lemma {:induction false} DepthsReachHeight(f: Forest, depth: int, pid: Option<string>, left: int)
    requires Convertible(f)
    ensures DepthsReach(PreOrder(f, depth, pid, left), depth, depth + RowHeight(f))
  {
    if f != [] {
      var head := HeadRow(f[0], depth, pid, left);
      var inner := PreOrder(f[0].children, depth + 1, LabelId(f[0].tag), left + 1);
      var rest := PreOrder(f[1..], depth, pid, NextLeft(f[0], left));
      DepthsReachHeight(f[0].children, depth + 1, LabelId(f[0].tag), left + 1);
      DepthsReachHeight(f[1..], depth, pid, NextLeft(f[0], left));
      assert PreOrder(f, depth, pid, left) == head + inner + rest;
      var below, beside := RowHeight(f[0].children), RowHeight(f[1..]);
      if RowHeight(f) == beside {
        if beside > 0 {
          var s :| s in rest && s.depth == depth + beside - 1;
          assert s in head + inner + rest;
        }
      } else if below > 0 {
        var s :| s in inner && s.depth == depth + 1 + below - 1;
        assert s in head + inner + rest;
      } else {
        assert head[0] in head + inner + rest;
      }
    }
  }

  function Together(head: seq<Row>, inner: seq<Row>, rest: seq<Row>): seq<Row> {
    head + inner + rest
  }

  lemma PartsOfForest(f: Forest, depth: int, pid: Option<string>, left: int)
    requires Convertible(f) && f != []
    ensures Convertible(f[0].children) && Convertible(f[1..])
    ensures PreOrder(f, depth, pid, left) == Together(
      HeadRow(f[0], depth, pid, left),
      PreOrder(f[0].children, depth + 1, LabelId(f[0].tag), left + 1),
      PreOrder(f[1..], depth, pid, NextLeft(f[0], left)))
    ensures f[0].tag.Id? ==>
      |HeadRow(f[0], depth, pid, left)| == 1 && HeadRow(f[0], depth, pid, left)[0].depth == depth
  {
  }

  /** The height below the first item is the largest depth inside its interval minus its own depth. */
  lemma HeightOfHead(f: Forest, depth: int, pid: Option<string>, left: int, r: Row)
    requires Convertible(f) && f != [] && HeadRow(f[0], depth, pid, left) == [r]
    ensures r in PreOrder(f, depth, pid, left)
    ensures DeepestInside(PreOrder(f, depth, pid, left), r, r.depth + RowHeight(f[0].children))
  {
    hide *;
    HeadDepth(f[0], depth, pid, left, r);
    PartsOfForest(f, depth, pid, left);
    BoundsOfParts(f, depth, pid, left);
    DepthsReachHeight(f[0].children, depth + 1, LabelId(f[0].tag), left + 1);
    InsideHead([r], PreOrder(f[0].children, depth + 1, LabelId(f[0].tag), left + 1),
               PreOrder(f[1..], depth, pid, NextLeft(f[0], left)), r, RowHeight(f[0].children));
  }

  lemma HeadDepth(n: Node, depth: int, pid: Option<string>, left: int, r: Row)
    requires HeadRow(n, depth, pid, left) == [r]
    ensures r.depth == depth
  {
  }

  /** The height in rows below an item is the largest depth inside its interval minus its own depth. */
  lemma {:induction false} HeightIsDepthInside(
      f: Forest, depth: int, pid: Option<string>, left: int, n: Node, r: Row)
    requires Convertible(f) && Numbered(f, depth, pid, left, n, r)
    ensures r in PreOrder(f, depth, pid, left)
    ensures DeepestInside(PreOrder(f, depth, pid, left), r, r.depth + RowHeight(n.children))
  {
    hide PreOrder, DeepestInside, Apart, Size, Contains, RowHeight, Together, HeadRow, NextLeft, LabelId, Convertible;
    var head := HeadRow(f[0], depth, pid, left);
    if n == f[0] && head == [r] {
      HeightOfHead(f, depth, pid, left, r);
    } else {
      PartsOfForest(f, depth, pid, left);
      BoundsOfParts(f, depth, pid, left);
      var inner := PreOrder(f[0].children, depth + 1, LabelId(f[0].tag), left + 1);
      var rest := PreOrder(f[1..], depth, pid, NextLeft(f[0], left));
      if Numbered(f[0].children, depth + 1, LabelId(f[0].tag), left + 1, n, r) {
        HeightIsDepthInside(f[0].children, depth + 1, LabelId(f[0].tag), left + 1, n, r);
        InsidePart(head, inner, rest, inner, r, r.depth + RowHeight(n.children));
      } else {
        HeightIsDepthInside(f[1..], depth, pid, NextLeft(f[0], left), n, r);
        InsidePart(head, inner, rest, rest, r, r.depth + RowHeight(n.children));
      }
    }
  }

  /** The levels below an item are the largest depth inside its interval minus its own depth exactly when an item on
      the lowest of them has a row; so they are where all ids below it match. */
  lemma LevelsAreDepthInside(f: Forest, depth: int, pid: Option<string>, left: int, n: Node, r: Row)
    requires Convertible(f) && Numbered(f, depth, pid, left, n, r)
    ensures DeepestInside(PreOrder(f, depth, pid, left), r, r.depth + Height(n.children))
       <==> RowHeight(n.children) == Height(n.children)
    ensures AllIds(n.children) ==> DeepestInside(PreOrder(f, depth, pid, left), r, r.depth + Height(n.children))
  {
    HeightIsDepthInside(f, depth, pid, left, n, r);
    RowHeightBound(n.children);
    hide PreOrder, Height, RowHeight, AllIds, Numbered, Contains;
  }

  /** Where the three parts of a forest's rows lie. */
  ghost predicate Apart(head: seq<Row>, inner: seq<Row>, rest: seq<Row>) {
    && |head| <= 1 && (head == [] ==> inner == []) && (head != [] ==> head[0].left < head[0].right)
    && (forall s :: s in inner ==> Contains(head[0], s) && s.left < s.right)
    && (forall s :: s in rest ==> (head != [] ==> head[0].right < s.left) && s.left < s.right)
  }

  lemma BoundsOfParts(f: Forest, depth: int, pid: Option<string>, left: int)
    requires Convertible(f) && f != []
    ensures Apart(
      HeadRow(f[0], depth, pid, left),
      PreOrder(f[0].children, depth + 1, LabelId(f[0].tag), left + 1),
      PreOrder(f[1..], depth, pid, NextLeft(f[0], left)))
  {
    hide PreOrder, Size, Convertible, LabelId;
    AllBounds(f[0].children, depth + 1, LabelId(f[0].tag), left + 1);
    AllBounds(f[1..], depth, pid, NextLeft(f[0], left));
    NoRowsBelowUnmatched(f, depth, left);
  }

  lemma NoRowsBelowUnmatched(f: Forest, depth: int, left: int)
    requires Convertible(f) && f != []
    ensures !f[0].tag.Id? ==> PreOrder(f[0].children, depth + 1, LabelId(f[0].tag), left + 1) == []
  {
  }

  lemma AllBounds(f: Forest, depth: int, pid: Option<string>, left: int)
    ensures forall s :: s in PreOrder(f, depth, pid, left) ==> left <= s.left < s.right < left + 2 * Size(f)
  {
    forall s | s in PreOrder(f, depth, pid, left)
      ensures left <= s.left < s.right < left + 2 * Size(f)
    {
      RowBounds(f, depth, pid, left, s);
    }
  }

  lemma InsideHead(head: seq<Row>, inner: seq<Row>, rest: seq<Row>, r: Row, h: nat)
    requires Apart(head, inner, rest) && head == [r]
    requires DepthsReach(inner, r.depth + 1, r.depth + 1 + h)
    ensures r in Together(head, inner, rest)
    ensures DeepestInside(Together(head, inner, rest), r, r.depth + h)
  {
    assert r in head + inner + rest;
    if h > 0 {
      var s :| s in inner && s.depth == r.depth + 1 + h - 1;
      assert s in head + inner + rest && Contains(r, s);
    }
  }

  lemma InsidePart(head: seq<Row>, inner: seq<Row>, rest: seq<Row>, part: seq<Row>, r: Row, d: int)
    requires Apart(head, inner, rest) && (part == inner || part == rest)
    requires r in part && DeepestInside(part, r, d)
    ensures r in Together(head, inner, rest)
    ensures DeepestInside(Together(head, inner, rest), r, d)
  {
    var s :| s in part && (s == r || Contains(r, s)) && s.depth == d;
    assert s in head + inner + rest;
    assert r in head + inner + rest;
  }

  lemma {:induction false} RowPerItem(f: Forest, depth: int, pid: Option<string>, left: int)
    requires AllIds(f)
    ensures |PreOrder(f, depth, pid, left)| == Size(f)
  {
    if f != [] {
      RowPerItem(f[0].children, depth + 1, LabelId(f[0].tag), left + 1);
      RowPerItem(f[1..], depth, pid, NextLeft(f[0], left));
    }
  }

  /** Reads a forest back from its rows, by the widths of their intervals alone. */
  function Rebuild(rows: seq<Row>): Forest
    decreases |rows|
  {
    if rows == [] then []
    else
      var n := (rows[0].right - rows[0].left + 1) / 2;
      if 1 <= n <= |rows| && rows[0].itemId.Some? then
        [Node(Id(rows[0].itemId.value), Rebuild(rows[1..n]))] + Rebuild(rows[n..])
      else []
  }

  lemma CutTogether(r: Row, inner: seq<Row>, rest: seq<Row>)
    ensures Together([r], inner, rest) != [] && Together([r], inner, rest)[0] == r
    ensures |Together([r], inner, rest)| == 1 + |inner| + |rest|
    ensures Together([r], inner, rest)[1..1 + |inner|] == inner && Together([r], inner, rest)[1 + |inner|..] == rest
  {
  }

  /** The array determines the forest. */
  lemma {:induction false} RebuildGivesForest(f: Forest, depth: int, pid: Option<string>, left: int)
    requires AllIds(f)
    ensures Rebuild(PreOrder(f, depth, pid, left)) == f
  {
    if f != [] {
      AllIdsConvertible(f);
      PartsOfForest(f, depth, pid, left);
      var r := HeadRow(f[0], depth, pid, left)[0];
      var inner := PreOrder(f[0].children, depth + 1, LabelId(f[0].tag), left + 1);
      var rest := PreOrder(f[1..], depth, pid, NextLeft(f[0], left));
      RowPerItem(f[0].children, depth + 1, LabelId(f[0].tag), left + 1);
      RebuildGivesForest(f[0].children, depth + 1, LabelId(f[0].tag), left + 1);
      RebuildGivesForest(f[1..], depth, pid, NextLeft(f[0], left));
      hide PreOrder, Together, Size, AllIds;
      CutTogether(r, inner, rest);
      assert [f[0]] + f[1..] == f;
    }
  }

  lemma {:induction false} RebuiltIdsMatch(rows: seq<Row>)
    ensures AllIds(Rebuild(rows))
    decreases |rows|
  {
    if rows != [] {
      var n := (rows[0].right - rows[0].left + 1) / 2;
      if 1 <= n <= |rows| && rows[0].itemId.Some? {
        RebuiltIdsMatch(rows[1..n]);
        RebuiltIdsMatch(rows[n..]);
        var first, rest := Node(Id(rows[0].itemId.value), Rebuild(rows[1..n])), Rebuild(rows[n..]);
        assert ([first] + rest)[1..] == rest;
      }
    }
  }

  /** The array determines the forest exactly when all ids match: an item that does not is not in it. */
  lemma RebuildIffAllIds(f: Forest, depth: int, pid: Option<string>, left: int)
    ensures Rebuild(PreOrder(f, depth, pid, left)) == f <==> AllIds(f)
  {
    RebuiltIdsMatch(PreOrder(f, depth, pid, left));
    if AllIds(f) {
      RebuildGivesForest(f, depth, pid, left);
    }
  }

  /** What toArray returns for a convertible forest. */
  function ArrayOf(f: Forest, rootId: Option<string>, startDepth: int, excludeRoot: bool): seq<Row> {
    if excludeRoot then PreOrder(f, startDepth + 1, rootId, 1)
    else [Row(rootId, None, startDepth, 1, (Size(f) + 1) * 2)] + PreOrder(f, startDepth + 1, rootId, 2)
  }

  /** The closed form for the root is what the recursion gives where the whole list is itself an item. */
  lemma RootIsAnItem(f: Forest, rootId: string, startDepth: int)
    ensures ArrayOf(f, Some(rootId), startDepth, false) == PreOrder([Node(Id(rootId), f)], startDepth, None, 1)
  {
    var whole := [Node(Id(rootId), f)];
    assert whole[1..] == [];
    assert PreOrder(whole, startDepth, None, 1)
        == HeadRow(whole[0], startDepth, None, 1) + PreOrder(f, startDepth + 1, Some(rootId), 2) + [];
  }

  /** The last number of the whole array: 2n+2, or 2n without the root. */
  function LastNumber(f: Forest, excludeRoot: bool): nat {
    2 * Size(f) + if excludeRoot then 0 else 2
  }

  /** In the whole array no number is used twice, and none beyond 1 .. 2n+2 (2n without the root). */
  lemma ArrayUsesNoNumberTwice(f: Forest, rootId: Option<string>, startDepth: int, excludeRoot: bool, k: int)
    ensures Occurrences(ArrayOf(f, rootId, startDepth, excludeRoot), k)
         <= if 1 <= k <= LastNumber(f, excludeRoot) then 1 else 0
  {
    NoNumberTwice(f, startDepth + 1, rootId, if excludeRoot then 1 else 2, k);
    if !excludeRoot {
      OccurrencesOfAppend([ArrayOf(f, rootId, startDepth, false)[0]], PreOrder(f, startDepth + 1, rootId, 2), k);
    }
  }

  /** The root's two numbers are those that the recursion does not get. */
  lemma ArrayOccurrences(f: Forest, rootId: Option<string>, startDepth: int, excludeRoot: bool, k: int)
    ensures Occurrences(ArrayOf(f, rootId, startDepth, excludeRoot), k)
         == Occurrences(PreOrder(f, startDepth + 1, rootId, if excludeRoot then 1 else 2), k)
            + if !excludeRoot && (k == 1 || k == LastNumber(f, false)) then 1 else 0
  {
    if !excludeRoot {
      OccurrencesOfAppend([ArrayOf(f, rootId, startDepth, false)[0]], PreOrder(f, startDepth + 1, rootId, 2), k);
    }
  }

  /** Of a forest of n items, each of 1 .. 2n+2 (2n without the root) is used once exactly when all ids match. */
  lemma ArrayUsesEveryNumberIff(f: Forest, rootId: Option<string>, startDepth: int, excludeRoot: bool)
    ensures AllIds(f) <==>
      forall k :: 1 <= k <= LastNumber(f, excludeRoot) ==>
        Occurrences(ArrayOf(f, rootId, startDepth, excludeRoot), k) == 1
  {
    var left := if excludeRoot then 1 else 2;
    var whole := ArrayOf(f, rootId, startDepth, excludeRoot);
    if AllIds(f) {
      forall k | 1 <= k <= LastNumber(f, excludeRoot)
        ensures Occurrences(whole, k) == 1
      {
        EveryNumberOnce(f, startDepth + 1, rootId, left, k);
        ArrayOccurrences(f, rootId, startDepth, excludeRoot, k);
      }
    } else {
      var k := UnusedNumber(f, startDepth + 1, rootId, left);
      ArrayOccurrences(f, rootId, startDepth, excludeRoot, k);
    }
  }

  /** The root's interval is around all other rows. */
  lemma RootIsAround(f: Forest, rootId: Option<string>, startDepth: int, s: Row)
    requires s in PreOrder(f, startDepth + 1, rootId, 2)
    ensures Around(ArrayOf(f, rootId, startDepth, false), s) == 1 + Around(PreOrder(f, startDepth + 1, rootId, 2), s)
  {
    RowBounds(f, startDepth + 1, rootId, 2, s);
    hide PreOrder, Size;
    assert ArrayOf(f, rootId, startDepth, false)[1..] == PreOrder(f, startDepth + 1, rootId, 2);
  }

  /** In the whole array the depth of an item's row counts the intervals around it, with the root's or with the one
      that is left out, from startDepth on; those at the top have the root as their parent. */
  lemma ArrayDepths(f: Forest, rootId: Option<string>, startDepth: int, excludeRoot: bool, s: Row)
    requires Convertible(f) && s in ArrayOf(f, rootId, startDepth, excludeRoot)
    requires !excludeRoot ==> s != ArrayOf(f, rootId, startDepth, excludeRoot)[0]
    ensures s.depth == startDepth + (if excludeRoot then 1 else 0)
                       + Around(ArrayOf(f, rootId, startDepth, excludeRoot), s)
    ensures s.depth == startDepth + 1 ==> s.parentId == rootId
  {
    var left := if excludeRoot then 1 else 2;
    assert s in PreOrder(f, startDepth + 1, rootId, left) by {
      hide PreOrder;
    }
    if !excludeRoot {
      RootIsAround(f, rootId, startDepth, s);
    }
    hide PreOrder, Around, Size, Convertible;
    DepthCountsIntervals(f, startDepth + 1, rootId, left, s);
    ParentIsAround(f, startDepth + 1, rootId, left, s);
  }

  /** The root's own row: no parent, the start depth, and the first and the last number of the array. */
  lemma RootRow(f: Forest, rootId: Option<string>, startDepth: int)
    ensures ArrayOf(f, rootId, startDepth, false) != []
    ensures var root := ArrayOf(f, rootId, startDepth, false)[0];
            && root.itemId == rootId && root.parentId == None && root.depth == startDepth
            && root.left == 1 && root.right == LastNumber(f, false)
            && forall s :: s in ArrayOf(f, rootId, startDepth, false)[1..] ==> Contains(root, s)
  {
    var rows := PreOrder(f, startDepth + 1, rootId, 2);
    assert ArrayOf(f, rootId, startDepth, false)[1..] == rows;
    forall s | s in rows
      ensures 2 <= s.left < s.right < 2 + 2 * Size(f)
    {
      RowBounds(f, startDepth + 1, rootId, 2, s);
    }
    hide PreOrder, Size;
  }

  /** In the whole array with its root, every row but the root's has its parent's around it, one level up. */
  lemma ArrayParents(f: Forest, rootId: Option<string>, startDepth: int, s: Row)
    requires Convertible(f) && s in ArrayOf(f, rootId, startDepth, false)[1..]
    ensures HasParent(ArrayOf(f, rootId, startDepth, false), s)
  {
    var rows := PreOrder(f, startDepth + 1, rootId, 2);
    var root := Row(rootId, None, startDepth, 1, (Size(f) + 1) * 2);
    assert ArrayOf(f, rootId, startDepth, false) == [root] + rows + [];
    assert ArrayOf(f, rootId, startDepth, false)[1..] == rows;
    ParentIsAround(f, startDepth + 1, rootId, 2, s);
    RowBounds(f, startDepth + 1, rootId, 2, s);
    hide PreOrder, Size, ArrayOf, Convertible;
    if s.depth == startDepth + 1 {
      assert root in [root] && IsParent(root, s);
    }
    ParentInLonger([root], rows, [], s);
  }

  /** An element of toHierarchy's result: undefined where the attribute does not match, with children only if any. */
  datatype Level = Undefined | Leaf(id: string) | Branch(id: string, children: seq<Level>)

  function LevelOf(tag: Label, below: seq<Level>): Level {
    if !tag.Id? then Undefined else if below == [] then Leaf(tag.id) else Branch(tag.id, below)
  }

  function Levels(f: Forest): seq<Level> {
    if f == [] then [] else [LevelOf(f[0].tag, Levels(f[0].children))] + Levels(f[1..])
  }

  /** A list of levels that shows a forest, item by item: one element each, undefined where the attribute does not
      match; an item that matches is shown by its id, with its children if and only if it has any. */
  ghost predicate Shows(ls: seq<Level>, f: Forest)
    decreases f
  {
    && |ls| == |f|
    && forall i :: 0 <= i < |f| ==>
         if !f[i].tag.Id? then ls[i].Undefined?
         else if f[i].children == [] then ls[i].Leaf? && ls[i].id == f[i].tag.id
         else ls[i].Branch? && ls[i].id == f[i].tag.id && Shows(ls[i].children, f[i].children)
  }

  /** Only the levels of toHierarchy show a forest. */
  lemma {:induction false} ShowsIff(ls: seq<Level>, f: Forest)
    ensures Shows(ls, f) <==> ls == Levels(f)
    decreases f
  {
    LevelPerItem(f);
    if |ls| == |f| {
      forall i | 0 <= i < |f|
        ensures Levels(f)[i] == LevelOf(f[i].tag, Levels(f[i].children))
      {
        LevelAt(f, i);
      }
      forall i | 0 <= i < |f|
        ensures ls[i].Branch? ==> (Shows(ls[i].children, f[i].children) <==> ls[i].children == Levels(f[i].children))
        ensures |Levels(f[i].children)| == |f[i].children|
      {
        LevelPerItem(f[i].children);
        if ls[i].Branch? {
          ShowsIff(ls[i].children, f[i].children);
        }
      }
    }
  }

  lemma {:induction false} LevelAt(f: Forest, i: nat)
    requires i < |f|
    ensures |Levels(f)| == |f| && Levels(f)[i] == LevelOf(f[i].tag, Levels(f[i].children))
  {
    LevelPerItem(f);
    hide LevelOf;
    if i > 0 {
      LevelAt(f[1..], i - 1);
    }
  }

  /** No element, at any depth, has an empty list of children. */
  ghost predicate NoEmptyBranch(ls: seq<Level>) {
    forall i :: 0 <= i < |ls| && ls[i].Branch? ==> ls[i].children != [] && NoEmptyBranch(ls[i].children)
  }

  lemma {:induction false} ShownBranchesAreFull(ls: seq<Level>, f: Forest)
    requires Shows(ls, f)
    ensures NoEmptyBranch(ls)
    decreases f
  {
    forall i | 0 <= i < |ls| && ls[i].Branch?
      ensures ls[i].children != [] && NoEmptyBranch(ls[i].children)
    {
      ShownBranchesAreFull(ls[i].children, f[i].children);
    }
  }

  /** The forest that a list of levels describes. */
  function Items(ls: seq<Level>): Forest {
    if ls == [] then []
    else if ls[0].Undefined? then [Node(Unmatched, [])] + Items(ls[1..])
    else [Node(Id(ls[0].id), if ls[0].Leaf? then [] else Items(ls[0].children))] + Items(ls[1..])
  }

  lemma ItemOfLevel(tag: Label, below: seq<Level>, rest: seq<Level>)
    requires !tag.Missing? && (below != [] ==> tag.Id?)
    ensures Items([LevelOf(tag, below)] + rest) == [Node(tag, Items(below))] + Items(rest)
  {
    assert ([LevelOf(tag, below)] + rest)[1..] == rest;
  }

  lemma LevelPerItem(f: Forest)
    ensures |Levels(f)| == |f|
  {
  }

  lemma {:induction false} ItemsOfLevels(f: Forest)
    requires Convertible(f)
    ensures Items(Levels(f)) == f
  {
    if f != [] {
      ItemsOfLevels(f[0].children);
      ItemsOfLevels(f[1..]);
      LevelPerItem(f[0].children);
      hide Items, LevelOf;
      ItemOfLevel(f[0].tag, Levels(f[0].children), Levels(f[1..]));
      assert [f[0]] + f[1..] == f;
    }
  }

  lemma {:induction false} ItemsConvertible(ls: seq<Level>)
    ensures Convertible(Items(ls))
  {
    if ls != [] {
      ItemsConvertible(ls[1..]);
      if ls[0].Branch? {
        ItemsConvertible(ls[0].children);
      }
      var rest := Items(ls[1..]);
      assert Items(ls)[1..] == rest;
    }
  }

  /** toHierarchy's result determines the forest exactly when toArray can convert it. */
  lemma LevelsKeepForest(f: Forest)
    ensures Items(Levels(f)) == f <==> Convertible(f)
  {
    ItemsConvertible(Levels(f));
    if Convertible(f) {
      ItemsOfLevels(f);
    }
  }

  /** The nested form can be computed from the flat array, and the flat array from the nested form. */
  lemma FlatAndNestedAgree(f: Forest, rootId: Option<string>, startDepth: int)
    requires AllIds(f)
    ensures Levels(Rebuild(ArrayOf(f, rootId, startDepth, true))) == Levels(f)
    ensures Levels(Rebuild(ArrayOf(f, rootId, startDepth, false)[1..])) == Levels(f)
    ensures ArrayOf(Items(Levels(f)), rootId, startDepth, false) == ArrayOf(f, rootId, startDepth, false)
  {
    RebuildGivesForest(f, startDepth + 1, rootId, 1);
    RebuildGivesForest(f, startDepth + 1, rootId, 2);
    assert ArrayOf(f, rootId, startDepth, false)[1..] == PreOrder(f, startDepth + 1, rootId, 2);
    AllIdsConvertible(f);
    LevelsKeepForest(f);
  }
}
