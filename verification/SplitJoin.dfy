/** split of tools.cpp and the join template of tools.h. */
module SplitJoin {
  /** std::string::npos, the largest value of a 64-bit size_t. */
  const NPOS: nat := 0xffff_ffff_ffff_ffff

  /** How far a string goes before its first character among the delimiters. */
  function Free(s: string, delim: string): (k: nat)
    ensures k <= |s|
    ensures forall i :: 0 <= i < k ==> s[i] !in delim
    ensures k < |s| ==> s[k] in delim
  {
    if s == [] || s[0] in delim then 0 else 1 + Free(s[1..], delim)
  }

  /** How long the run of delimiters is with which a string starts. */
  function Run(s: string, delim: string): (k: nat)
    ensures k <= |s|
    ensures forall i :: 0 <= i < k ==> s[i] in delim
    ensures k < |s| ==> s[k] !in delim
  {
    if s == [] || s[0] !in delim then 0 else 1 + Run(s[1..], delim)
  }

  /** What follows that run. */
  function Skip(s: string, delim: string): (r: string)
    ensures |r| <= |s| && (s != "" && s[0] in delim ==> |r| < |s|)
    ensures r != "" ==> r[0] !in delim
  {
    s[Run(s, delim)..]
  }

  /** The parts between runs of delimiters. */
  function Split(s: string, delim: string): (v: seq<string>)
    ensures v != []
    decreases |s|
  {
    var k := Free(s, delim);
    if k == |s| then [s] else [s[..k]] + Split(Skip(s[k..], delim), delim)
  }

  function Join(v: seq<string>, delim: string): string {
    if v == [] then "" else if |v| == 1 then v[0] else v[0] + delim + Join(v[1..], delim)
  }

  /** The vectors that split can produce: no delimiter inside, nothing empty except first or last. */
  predicate Splittable(v: seq<string>, delim: string) {
    && v != []
    && (forall i :: 0 <= i < |v| ==> DelimiterFree(v[i], delim))
    && (forall i :: 0 < i < |v| - 1 ==> v[i] != "")
  }

  predicate DelimiterFree(s: string, delim: string) {
    forall i :: 0 <= i < |s| ==> s[i] !in delim
  }

  /** Every run of delimiters replaced by `delim`. */
  function Collapse(s: string, delim: string): string {
    if s == [] then []
    else if s[0] !in delim then [s[0]] + Collapse(s[1..], delim)
    else if |s| > 1 && s[1] in delim then Collapse(s[1..], delim)
    else delim + Collapse(s[1..], delim)
  }

  lemma {:induction false} FreeIs(s: string, k: nat, delim: string)
    requires k <= |s| && (forall i :: 0 <= i < k ==> s[i] !in delim) && (k < |s| ==> s[k] in delim)
    ensures Free(s, delim) == k
  {
    if k > 0 {
      FreeIs(s[1..], k - 1, delim);
    }
  }

  lemma {:induction false} RunIs(s: string, k: nat, delim: string)
    requires k <= |s| && (forall i :: 0 <= i < k ==> s[i] in delim) && (k < |s| ==> s[k] !in delim)
    ensures Run(s, delim) == k
  {
    if k > 0 {
      RunIs(s[1..], k - 1, delim);
    }
  }

  lemma SkipIs(s: string, k: nat, delim: string)
    requires k <= |s| && (forall i :: 0 <= i < k ==> s[i] in delim) && (k < |s| ==> s[k] !in delim)
    ensures Skip(s, delim) == s[k..]
  {
    RunIs(s, k, delim);
  }

  lemma SplitIs(s: string, delim: string, k: nat)
    requires k == Free(s, delim) < |s|
    ensures Split(s, delim) == [s[..k]] + Split(Skip(s[k..], delim), delim)
  {
  }

  /** One part, a run of delimiters, and the rest. */
  lemma SplitFirst(s: string, k: nat, m: nat, delim: string)
    requires k < m <= |s| && (forall i :: 0 <= i < k ==> s[i] !in delim)
    requires (forall i :: k <= i < m ==> s[i] in delim) && (m < |s| ==> s[m] !in delim)
    ensures Split(s, delim) == [s[..k]] + Split(s[m..], delim)
  {
    hide Free, Run, Skip, Split;
    FreeIs(s, k, delim);
    SplitIs(s, delim, k);
    SkipIs(s[k..], m - k, delim);
    assert s[k..][m - k..] == s[m..];
  }

  lemma SplitWhole(s: string, delim: string)
    requires DelimiterFree(s, delim)
    ensures Split(s, delim) == [s]
  {
    FreeIs(s, |s|, delim);
  }

  /** Everything that split produces is splittable. */
  lemma {:induction false} SplitIsSplittable(s: string, delim: string)
    ensures Splittable(Split(s, delim), delim)
    ensures s != "" && s[0] !in delim ==> Split(s, delim)[0] != ""
    decreases |s|
  {
    var k := Free(s, delim);
    if k < |s| {
      var rest := Skip(s[k..], delim);
      SplitIsSplittable(rest, delim);
      SplitOfNothing(delim);
      SplitIs(s, delim, k);
      hide Split, Skip, Free;
    }
  }

  lemma SplitOfNothing(delim: string)
    ensures Split("", delim) == [""]
  {
  }

  lemma JoinOfRest(v: seq<string>, delim: string)
    requires Splittable(v, delim) && |v| > 1
    ensures DelimiterFree(v[0], delim) && Splittable(v[1..], delim)
    ensures Join(v, delim) == v[0] + delim + Join(v[1..], delim)
    ensures Join(v[1..], delim) != "" ==> Join(v[1..], delim)[0] !in delim
  {
    if |v| > 2 {
      assert Join(v[1..], delim)[0] == v[1][0];
    }
  }

  lemma CutFirst(a: string, delim: string, rest: string)
    requires DelimiterFree(a, delim) && delim != "" && (rest != "" ==> rest[0] !in delim)
    ensures Split(a + delim + rest, delim) == [a] + Split(rest, delim)
  {
    hide Split;
    var s := a + delim + rest;
    SplitFirst(s, |a|, |a + delim|, delim);
    assert s[..|a|] == a && s[|a + delim|..] == rest;
  }

  lemma {:induction false} SplitOfJoin(v: seq<string>, delim: string)
    requires Splittable(v, delim) && delim != ""
    ensures Split(Join(v, delim), delim) == v
  {
    if |v| == 1 {
      SplitWhole(v[0], delim);
    } else {
      var rest := Join(v[1..], delim);
      JoinOfRest(v, delim);
      SplitOfJoin(v[1..], delim);
      hide Split, Join, Splittable, DelimiterFree;
      CutFirst(v[0], delim, rest);
      assert v == [v[0]] + v[1..];
    }
  }

  /** Exactly the splittable vectors come back from join and split. */
  lemma SplitUndoesJoin(v: seq<string>, delim: string)
    requires delim != ""
    ensures Split(Join(v, delim), delim) == v <==> Splittable(v, delim)
  {
    SplitIsSplittable(Join(v, delim), delim);
    if Splittable(v, delim) {
      SplitOfJoin(v, delim);
    }
  }

  lemma {:induction false} CollapseFree(a: string, b: string, delim: string)
    requires DelimiterFree(a, delim)
    ensures Collapse(a + b, delim) == a + Collapse(b, delim)
  {
    if a == [] {
      assert a + b == b;
    } else {
      CollapseFree(a[1..], b, delim);
      assert (a + b)[1..] == a[1..] + b;
    }
  }

  lemma {:induction false} CollapseRun(run: string, b: string, delim: string)
    requires run != [] && (forall i :: 0 <= i < |run| ==> run[i] in delim) && (b != [] ==> b[0] !in delim)
    ensures Collapse(run + b, delim) == delim + Collapse(b, delim)
  {
    assert (run + b)[1..] == run[1..] + b;
    if |run| > 1 {
      CollapseRun(run[1..], b, delim);
    } else {
      assert run[1..] + b == b;
    }
  }

  /** Splitting and joining again leaves the string with every run of delimiters collapsed. */
  lemma {:induction false} JoinOfSplit(s: string, delim: string)
    ensures Join(Split(s, delim), delim) == Collapse(s, delim)
    decreases |s|
  {
    var k := Free(s, delim);
    hide Free, Run, Skip, Collapse;
    if k == |s| {
      CollapseFree(s, [], delim);
      CollapseNothing(delim);
      assert s + [] == s;
    } else {
      SplitIs(s, delim, k);
      var rest := Skip(s[k..], delim);
      JoinOfSplit(rest, delim);
      CollapseSkip(s[k..], delim);
      CollapseFree(s[..k], s[k..], delim);
      assert s == s[..k] + s[k..];
      hide Split;
      JoinCons(s[..k], Split(rest, delim), delim);
    }
  }

  lemma JoinCons(a: string, v: seq<string>, delim: string)
    requires v != []
    ensures Join([a] + v, delim) == a + delim + Join(v, delim)
  {
    assert ([a] + v)[1..] == v;
  }

  lemma CollapseNothing(delim: string)
    ensures Collapse("", delim) == ""
  {
  }

  lemma CollapseSkip(s: string, delim: string)
    requires s != "" && s[0] in delim
    ensures Collapse(s, delim) == delim + Collapse(Skip(s, delim), delim)
  {
    var m := Run(s, delim);
    hide Collapse, Run;
    CollapseRun(s[..m], s[m..], delim);
    assert s == s[..m] + s[m..];
  }

  /** Where no two delimiters are neighbours and `delim` is one character, collapsing changes nothing: then joining the
      parts gives the string itself. */
  lemma {:induction false} JoinGivesString(s: string, c: char)
    requires forall i :: 0 <= i < |s| - 1 ==> !(s[i] == c && s[i + 1] == c)
    ensures Join(Split(s, [c]), [c]) == s
  {
    JoinOfSplit(s, [c]);
    CollapseKeeps(s, c);
  }

  lemma {:induction false} CollapseKeeps(s: string, c: char)
    requires forall i :: 0 <= i < |s| - 1 ==> !(s[i] == c && s[i + 1] == c)
    ensures Collapse(s, [c]) == s
  {
    if s != [] {
      CollapseKeeps(s[1..], c);
    }
  }

  /** The strings of a vector, one after the other. */
  function Flat(v: seq<string>): string {
    if v == [] then "" else v[0] + Flat(v[1..])
  }

  /** The characters of a string that are no delimiters. */
  function Kept(s: string, delim: string): string {
    if s == [] then [] else (if s[0] in delim then [] else [s[0]]) + Kept(s[1..], delim)
  }

  lemma {:induction false} KeptAppend(a: string, b: string, delim: string)
    ensures Kept(a + b, delim) == Kept(a, delim) + Kept(b, delim)
  {
    if a == [] {
      assert a + b == b;
    } else {
      KeptAppend(a[1..], b, delim);
      assert (a + b)[1..] == a[1..] + b;
    }
  }

  lemma {:induction false} KeptOfFree(a: string, delim: string)
    requires DelimiterFree(a, delim)
    ensures Kept(a, delim) == a
  {
    if a != [] {
      KeptOfFree(a[1..], delim);
    }
  }

  predicate OnlyDelimiters(s: string, delim: string) {
    forall i :: 0 <= i < |s| ==> s[i] in delim
  }

  lemma {:induction false} KeptOfRun(a: string, delim: string)
    requires OnlyDelimiters(a, delim)
    ensures Kept(a, delim) == []
  {
    if a != [] {
      KeptOfRun(a[1..], delim);
    }
  }

  /** A part, a run of delimiters and the rest. */
  lemma KeptOfParts(a: string, run: string, rest: string, delim: string)
    requires DelimiterFree(a, delim) && OnlyDelimiters(run, delim)
    ensures Kept(a + run + rest, delim) == a + Kept(rest, delim)
  {
    hide *;
    KeptOfFree(a, delim);
    KeptOfRun(run, delim);
    KeptAppend(a + run, rest, delim);
    KeptAppend(a, run, delim);
  }

  lemma FlatCons(a: string, v: seq<string>)
    ensures Flat([a] + v) == a + Flat(v)
  {
    assert ([a] + v)[1..] == v;
  }

  lemma FlatOne(a: string)
    ensures Flat([a]) == a
  {
    assert [a][1..] == [];
  }

  /** Where the first run of delimiters ends. */
  lemma FirstRun(s: string, delim: string) returns (k: nat, m: nat)
    requires !DelimiterFree(s, delim)
    ensures k < m <= |s| && DelimiterFree(s[..k], delim) && OnlyDelimiters(s[k..m], delim)
    ensures m < |s| ==> s[m] !in delim
  {
    k := Free(s, delim);
    var tail := s[k..];
    var n := Run(tail, delim);
    m := k + n;
    assert s[k..m] == tail[..n];
    assert m < |s| ==> s[m] == tail[n];
    hide Free, Run;
  }

  lemma SplitRun(s: string, delim: string, k: nat, m: nat)
    requires k < m <= |s| && DelimiterFree(s[..k], delim) && OnlyDelimiters(s[k..m], delim)
    requires m < |s| ==> s[m] !in delim
    ensures Split(s, delim) == [s[..k]] + Split(s[m..], delim)
  {
    hide Split;
    assert forall i :: 0 <= i < k ==> s[i] == s[..k][i];
    assert forall i :: k <= i < m ==> s[i] == s[k..m][i - k];
    SplitFirst(s, k, m, delim);
  }

  /** split drops the delimiters and no other character, and keeps their order. */
  lemma {:induction false} SplitKeepsCharacters(s: string, delim: string)
    ensures Flat(Split(s, delim)) == Kept(s, delim)
    decreases |s|
  {
    hide *;
    if DelimiterFree(s, delim) {
      SplitWhole(s, delim);
      KeptOfFree(s, delim);
      FlatOne(s);
    } else {
      var k, m := FirstRun(s, delim);
      SplitRun(s, delim, k, m);
      SplitKeepsCharacters(s[m..], delim);
      FlatCons(s[..k], Split(s[m..], delim));
      KeptOfParts(s[..k], s[k..m], s[m..], delim);
      assert s == s[..k] + s[k..m] + s[m..];
    }
  }

  function Total(v: seq<string>): nat {
    if v == [] then 0 else |v[0]| + Total(v[1..])
  }

  /** join puts the delimiter between neighbours only: one less than there are elements. */
  lemma {:induction false} JoinLength(v: seq<string>, delim: string)
    requires v != []
    ensures |Join(v, delim)| == Total(v) + (|v| - 1) * |delim|
  {
    if |v| == 1 {
      assert v[1..] == [];
    } else {
      JoinLength(v[1..], delim);
    }
  }

  /** So collapsing changes nothing that split sees. */
  lemma CollapsedSplitsAlike(s: string, delim: string)
    requires delim != ""
    ensures Split(Collapse(s, delim), delim) == Split(s, delim)
  {
    JoinOfSplit(s, delim);
    SplitIsSplittable(s, delim);
    SplitOfJoin(Split(s, delim), delim);
  }

  /** std::string::find_first_of and find_first_not_of from a position, which may be npos. */
  function FindFirstOf(s: string, delim: string, pos: nat): (r: nat)
    requires |s| < NPOS
    ensures r == NPOS || (pos <= r < |s| && s[r] in delim)
    ensures forall i :: pos <= i < |s| && i < r ==> s[i] !in delim
  {
    if pos < |s| && Free(s[pos..], delim) < |s| - pos then pos + Free(s[pos..], delim) else NPOS
  }

  function FindFirstNotOf(s: string, delim: string, pos: nat): (r: nat)
    requires |s| < NPOS
    ensures r == NPOS || (pos <= r < |s| && s[r] !in delim)
    ensures forall i :: pos <= i < |s| && i < r ==> s[i] in delim
  {
    if pos < |s| && Run(s[pos..], delim) < |s| - pos then pos + Run(s[pos..], delim) else NPOS
  }

  /** std::string::substr: at most `count` characters from `pos`. */
  function Substr(s: string, pos: nat, count: nat): string
    requires pos <= |s|
  {
    if pos + count < |s| then s[pos..pos + count] else s[pos..]
  }

  /** split, appending to the vector it is given; the loop ends because each part found lies further on. */
  method SplitInto(s: string, delim: string, elems: seq<string>) returns (r: seq<string>)
    requires |s| < NPOS
    ensures r == elems + Split(s, delim)
  {
    hide Split, Free, Run, Substr, FindFirstOf, FindFirstNotOf;
    var pos: nat, pos2: nat := 0, 0;
    r := elems;
    assert s[0..] == s;
    while pos != NPOS
      invariant pos == NPOS || pos <= |s|
      invariant pos2 == NPOS || pos2 < |s| || pos == 0
      invariant r + Unread(s, delim, pos, pos2) == elems + Split(s, delim)
      decreases if pos == NPOS then 0 else |s| + 1 - pos
    {
      ghost var from := pos;
      pos2 := FindFirstOf(s, delim, pos);
      ghost var before := r;
      r := r + [Substr(s, pos, pos2 - pos)];
      pos := FindFirstNotOf(s, delim, pos2);
      NextPart(s, delim, from, pos2, pos);
      Regroup(before, Substr(s, from, pos2 - from), Unread(s, delim, pos, pos2));
    }
    if pos2 != NPOS {
      r := r + [""];
    }
  }

  /** The parts that the loop has still to push, the empty one after it included. */
  ghost function Unread(s: string, delim: string, pos: nat, pos2: nat): seq<string>
    requires pos == NPOS || pos <= |s|
  {
    if pos != NPOS then Split(s[pos..], delim) else if pos2 != NPOS then [""] else []
  }

  lemma Regroup(a: seq<string>, b: string, c: seq<string>)
    ensures a + [b] + c == a + ([b] + c)
  {
  }

  /** What one turn of the loop takes off. */
  lemma NextPart(s: string, delim: string, from: nat, pos2: nat, pos: nat)
    requires |s| < NPOS && from <= |s|
    requires pos2 == FindFirstOf(s, delim, from) && pos == FindFirstNotOf(s, delim, pos2)
    ensures Split(s[from..], delim) == [Substr(s, from, pos2 - from)] + Unread(s, delim, pos, pos2)
  {
    hide Split, Free, Run;
    if pos2 == NPOS {
      NoDelimiter(s, delim, from);
      SplitWhole(s[from..], delim);
    } else {
      NextCut(s, delim, from, pos2, if pos == NPOS then |s| else pos);
      SplitOfNothing(delim);
      assert s[|s|..] == "";
    }
  }

  lemma NextCut(s: string, delim: string, from: nat, pos2: nat, m: nat)
    requires |s| < NPOS && from <= |s| && pos2 == FindFirstOf(s, delim, from) != NPOS
    requires var pos := FindFirstNotOf(s, delim, pos2); m == if pos == NPOS then |s| else pos
    ensures m <= |s| && Split(s[from..], delim) == [s[from..pos2]] + Split(s[m..], delim)
  {
    hide Split, Free, Run;
    RunEnds(s, delim, pos2, m);
    FreeStarts(s, delim, from);
    CutAt(s, delim, from, pos2, m);
  }

  lemma CutAt(s: string, delim: string, from: nat, pos2: nat, m: nat)
    requires from <= pos2 < m <= |s| && (forall i :: from <= i < pos2 ==> s[i] !in delim)
    requires (forall i :: pos2 <= i < m ==> s[i] in delim) && (m < |s| ==> s[m] !in delim)
    ensures Split(s[from..], delim) == [s[from..pos2]] + Split(s[m..], delim)
  {
    hide *;
    var rest := s[from..];
    SplitFirst(rest, pos2 - from, m - from, delim);
    assert rest[m - from..] == s[m..];
    assert rest[..pos2 - from] == s[from..pos2];
  }

  lemma NoDelimiter(s: string, delim: string, from: nat)
    requires |s| < NPOS && from <= |s| && FindFirstOf(s, delim, from) == NPOS
    ensures DelimiterFree(s[from..], delim)
  {
  }

  lemma FreeStarts(s: string, delim: string, from: nat)
    requires |s| < NPOS && from <= |s| && FindFirstOf(s, delim, from) != NPOS
    ensures forall i :: from <= i < FindFirstOf(s, delim, from) ==> s[i] !in delim
  {
    assert forall i :: from <= i < |s| ==> s[i] == s[from..][i - from];
  }

  lemma RunEnds(s: string, delim: string, pos2: nat, m: nat)
    requires |s| < NPOS && pos2 < |s| && s[pos2] in delim
    requires var pos := FindFirstNotOf(s, delim, pos2); m == if pos == NPOS then |s| else pos
    ensures pos2 < m <= |s| && (forall i :: pos2 <= i < m ==> s[i] in delim) && (m < |s| ==> s[m] !in delim)
  {
    assert forall i :: pos2 <= i < |s| ==> s[i] == s[pos2..][i - pos2];
  }

  /** join: the delimiter after every element but the last. */
  method JoinAll(v: seq<string>, delim: string) returns (ss: string)
    ensures ss == Join(v, delim)
  {
    hide Join;
    ss := "";
    var it := 0;
    assert v[0..] == v;
    JoinEnds(v, delim);
    while it != |v|
      invariant 0 <= it <= |v|
      invariant ss + Join(v[it..], delim) == Join(v, delim)
      decreases |v| - it
    {
      JoinGoesOn(v, delim, it, ss);
      if it + 1 != |v| {
        ss := ss + v[it] + delim;
      } else {
        ss := ss + v[it];
      }
      it := it + 1;
    }
  }

  lemma JoinEnds(v: seq<string>, delim: string)
    ensures Join(v[|v|..], delim) == ""
  {
  }

  lemma JoinGoesOn(v: seq<string>, delim: string, it: nat, ss: string)
    requires it < |v|
    ensures ss + Join(v[it..], delim)
         == (if it + 1 != |v| then ss + v[it] + delim else ss + v[it]) + Join(v[it + 1..], delim)
  {
    var rest := v[it..];
    assert rest[1..] == v[it + 1..];
  }
}
