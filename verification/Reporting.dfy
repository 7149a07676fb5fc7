/**
 The printed report of a call tree: one line per node, with the node's level, name and statistics. `Visit` is the
 order in which the recursive printing reaches the nodes below a path.
 */
module Reporting {
  import opened Words
  import opened NodeStats
  import opened CallTree

  datatype Line = Line(level: nat, name: Name, stats: TimingStats)

  // ----- Key order of std::map<std::string, ...> --------------------------------------------------------

  predicate NameLt(a: Name, b: Name) {
    b != [] && (a == [] || a[0] < b[0] || (a[0] == b[0] && NameLt(a[1..], b[1..])))
  }

  /** Paths compared name by name; a path comes before its extensions. */
  predicate PathLt(a: Path, b: Path) {
    b != [] && (a == [] || NameLt(a[0], b[0]) || (a[0] == b[0] && PathLt(a[1..], b[1..])))
  }

  lemma {:induction false} NameLtTotal(a: Name, b: Name)
    ensures NameLt(a, b) || a == b || NameLt(b, a)
    ensures !(NameLt(a, b) && (a == b || NameLt(b, a)))
  {
    if a != [] && b != [] {
      NameLtTotal(a[1..], b[1..]);
      assert a == [a[0]] + a[1..] && b == [b[0]] + b[1..];
    }
  }

  lemma {:induction false} NameLtTransitive(a: Name, b: Name, c: Name)
    requires NameLt(a, b) && NameLt(b, c)
    ensures NameLt(a, c)
  {
    if a != [] && a[0] == b[0] == c[0] {
      NameLtTransitive(a[1..], b[1..], c[1..]);
    }
  }

  /** The order of strings in C++: a proper prefix comes first, else the lower character where they first differ. */
  ghost predicate Lower(a: Name, b: Name) {
    (a <= b && a != b) || exists k :: 0 <= k < |a| && k < |b| && DifferAt(a, b, k)
  }

  predicate DifferAt(a: Name, b: Name, k: nat)
    requires k < |a| && k < |b|
  {
    a[..k] == b[..k] && a[k] < b[k]
  }

  lemma {:induction false} NameLtIsLower(a: Name, b: Name)
    ensures NameLt(a, b) <==> Lower(a, b)
  {
    if a == [] || b == [] {
    } else {
      NameLtIsLower(a[1..], b[1..]);
      assert a == [a[0]] + a[1..] && b == [b[0]] + b[1..];
      if NameLt(a, b) {
        LowerFromRest(a, b);
      }
      if Lower(a, b) {
        LowerToRest(a, b);
      }
    }
  }

  lemma LowerFromRest(a: Name, b: Name)
    requires a != [] && b != [] && (a[0] < b[0] || (a[0] == b[0] && Lower(a[1..], b[1..])))
    ensures Lower(a, b)
  {
    if a[0] < b[0] {
      assert DifferAt(a, b, 0);
    } else if k :| 0 <= k < |a[1..]| && k < |b[1..]| && DifferAt(a[1..], b[1..], k) {
      assert a[..k + 1] == [a[0]] + a[1..][..k] && b[..k + 1] == [b[0]] + b[1..][..k];
      assert DifferAt(a, b, k + 1);
    } else {
      assert a == [a[0]] + a[1..] && b == [b[0]] + b[1..];
    }
  }

  lemma LowerToRest(a: Name, b: Name)
    requires a != [] && b != [] && Lower(a, b)
    ensures a[0] < b[0] || (a[0] == b[0] && Lower(a[1..], b[1..]))
  {
    if k :| 0 <= k < |a| && k < |b| && DifferAt(a, b, k) {
      if k > 0 {
        assert a[0] == a[..k][0] == b[..k][0] == b[0];
        assert a[1..][..k - 1] == a[..k][1..] && b[1..][..k - 1] == b[..k][1..];
        assert DifferAt(a[1..], b[1..], k - 1);
      }
    }
  }

  /** A path comes before its extensions, else the path with the lower name where they first differ. */
  ghost predicate Before(p: Path, q: Path) {
    (p <= q && p != q) || exists k :: 0 <= k < |p| && k < |q| && p[..k] == q[..k] && Lower(p[k], q[k])
  }

  lemma {:induction false} PathLtIsBefore(p: Path, q: Path)
    requires PathLt(p, q)
    ensures Before(p, q)
  {
    if p == [] {
    } else if NameLt(p[0], q[0]) {
      NameLtIsLower(p[0], q[0]);
      assert p[..0] == q[..0];
    } else {
      hide NameLt, Lower;
      PathLtIsBefore(p[1..], q[1..]);
      if k :| 0 <= k < |p[1..]| && k < |q[1..]| && p[1..][..k] == q[1..][..k] && Lower(p[1..][k], q[1..][k]) {
        assert p[..k + 1] == [p[0]] + p[1..][..k] && q[..k + 1] == [q[0]] + q[1..][..k];
        assert Lower(p[k + 1], q[k + 1]);
      } else {
        assert p == [p[0]] + p[1..] && q == [q[0]] + q[1..];
      }
    }
  }

  predicate IsLeast(names: set<Name>, k: Name) {
    k in names && forall j :: j in names && j != k ==> NameLt(k, j)
  }

  lemma {:induction false} LeastExists(names: set<Name>)
    requires names != {}
    ensures exists k :: IsLeast(names, k)
    decreases |names|
  {
    var k :| k in names;
    if names == {k} {
      assert IsLeast(names, k);
    } else {
      var rest := names - {k};
      LeastExists(rest);
      var m :| IsLeast(rest, m);
      NameLtTotal(k, m);
      if NameLt(k, m) {
        forall j | j in names && j != k ensures NameLt(k, j) {
          if j != m { NameLtTransitive(k, m, j); }
        }
        assert IsLeast(names, k);
      } else {
        assert IsLeast(names, m);
      }
    }
  }

  /** The key a map iterator starts from. */
  function Least(names: set<Name>): (k: Name)
    requires names != {}
    ensures IsLeast(names, k)
  {
    LeastExists(names);
    assert forall j, k :: IsLeast(names, j) && IsLeast(names, k) ==> j == k by {
      forall j, k | IsLeast(names, j) && IsLeast(names, k) ensures j == k { NameLtTotal(j, k); }
    }
    var k :| IsLeast(names, k);
    k
  }

  /** The keys in iteration order. */
  function InOrder(names: set<Name>): (s: seq<Name>)
    ensures forall k :: k in s <==> k in names
    ensures forall i, j :: 0 <= i < j < |s| ==> NameLt(s[i], s[j]) && s[i] != s[j]
    ensures |s| == |names|
  {
    if names == {} then [] else
      var k := Least(names);
      [k] + InOrder(names - {k})
  }

  // ----- Order of printing -------------------------------------------------------------------------------

  function Kids(paths: set<Path>, p: Path): set<Name> {
    set q | q in paths && |q| == |p| + 1 && p <= q :: NameAt(q)
  }

  function Below(paths: set<Path>, p: Path): set<Path> {
    set q | q in paths && p <= q
  }

  lemma KidIsBelow(paths: set<Path>, p: Path, k: Name)
    requires p in paths
    ensures k in Kids(paths, p) <==> p + [k] in paths
    ensures Below(paths, p + [k]) < Below(paths, p)
  {
    if p + [k] in paths {
      assert p <= p + [k] && NameAt(p + [k]) == k;
    }
    if k in Kids(paths, p) {
      var q :| q in paths && |q| == |p| + 1 && p <= q && NameAt(q) == k;
      assert q == p + [k];
    }
    assert p in Below(paths, p) && p !in Below(paths, p + [k]);
  }

  lemma BranchIsKid(paths: set<Path>, p: Path, q: Path)
    requires Closed(paths) && p in paths && q in paths && p < q
    ensures q[|p|] in Kids(paths, p) && p + [q[|p|]] in paths && p + [q[|p|]] <= q
  {
    PrefixesAreIn(paths, q, q[..|p| + 1]);
    assert q[..|p| + 1] == p + [q[|p|]];
    KidIsBelow(paths, p, q[|p|]);
  }

  function Visit(paths: set<Path>, p: Path): seq<Path>
    requires p in paths
    decreases Below(paths, p), |Kids(paths, p)| + 1
  {
    [p] + VisitKids(paths, p, InOrder(Kids(paths, p)))
  }

  function VisitKids(paths: set<Path>, p: Path, names: seq<Name>): seq<Path>
    requires p in paths
    requires forall k :: k in names ==> k in Kids(paths, p)
    decreases Below(paths, p), |names|
  {
    if names == [] then [] else
      var k := names[|names| - 1];
      KidIsBelow(paths, p, k);
      VisitKids(paths, p, names[..|names| - 1]) + Visit(paths, p + [k])
  }

  ghost predicate Printable(logs: map<Path, Log>, base: nat, visit: seq<Path>) {
    forall i :: 0 <= i < |visit| ==> visit[i] in logs && logs[visit[i]].Ok() && base <= |visit[i]|
  }

  function LineOf(logs: map<Path, Log>, base: nat, q: Path): Line
    requires q in logs && logs[q].Ok() && base <= |q|
  {
    Line(|q| - base, NameAt(q), Meaning(logs[q]))
  }

  /** The lines printed for the nodes in `visit`, the first level being that of a path of length `base`. */
  ghost function Lines(logs: map<Path, Log>, base: nat, visit: seq<Path>): seq<Line>
    requires Printable(logs, base, visit)
  {
    seq(|visit|, i requires 0 <= i < |visit| && Printable(logs, base, visit) => LineOf(logs, base, visit[i]))
  }

  lemma LinesConcat(logs: map<Path, Log>, base: nat, a: seq<Path>, b: seq<Path>)
    requires Printable(logs, base, a) && Printable(logs, base, b)
    ensures Printable(logs, base, a + b)
    ensures Lines(logs, base, a + b) == Lines(logs, base, a) + Lines(logs, base, b)
  {
    hide Meaning;
  }

  lemma LinesOfOne(logs: map<Path, Log>, base: nat, p: Path)
    requires p in logs && logs[p].Ok() && base <= |p|
    ensures Printable(logs, base, [p])
    ensures Lines(logs, base, [p]) == [LineOf(logs, base, p)]
  {
    hide Meaning;
  }

  /** The lines below a path depend only on the logs below that path. */
  lemma LinesAgree(a: map<Path, Log>, b: map<Path, Log>, base: nat, paths: set<Path>, p: Path)
    requires a.Keys == b.Keys == paths && Closed(paths) && p in paths
    requires forall q :: q in paths && p <= q ==> a[q] == b[q]
    requires Printable(a, base, Visit(paths, p))
    ensures Printable(b, base, Visit(paths, p))
    ensures Lines(a, base, Visit(paths, p)) == Lines(b, base, Visit(paths, p))
  {
    hide Meaning, Visit, PathLt, Closed;
    VisitIsSortedListing(paths, p);
    var v := Visit(paths, p);
    forall i | 0 <= i < |v| ensures a[v[i]] == b[v[i]] {
      assert v[i] in v;
    }
  }

  /** `lines` is what printing the children `names` of `p`, with everything below them, gives. */
  ghost predicate KidsPrinted(logs: map<Path, Log>, base: nat, paths: set<Path>, p: Path, names: seq<Name>,
                              lines: seq<Line>)
    requires p in paths
  {
    && (forall k :: k in names ==> k in Kids(paths, p))
    && Printable(logs, base, VisitKids(paths, p, names))
    && lines == Lines(logs, base, VisitKids(paths, p, names))
  }

  /** One more child subtree printed. */
  lemma KidsPrintedStep(now: map<Path, Log>, logs: map<Path, Log>, base: nat, paths: set<Path>, p: Path,
                        names: seq<Name>, i: nat, kid: Path, lines: seq<Line>, more: seq<Line>)
    requires now.Keys == logs.Keys == paths && Closed(paths) && p in paths && i < |names|
    requires names[i] in Kids(paths, p) && kid == p + [names[i]] && kid in paths
    requires forall q :: q in paths && kid <= q ==> now[q] == logs[q]
    requires KidsPrinted(logs, base, paths, p, names[..i], lines)
    requires Printable(now, base, Visit(paths, kid)) && more == Lines(now, base, Visit(paths, kid))
    ensures KidsPrinted(logs, base, paths, p, names[..i + 1], lines + more)
  {
    hide Meaning, Closed, Lines, Printable;
    var a, b := VisitKids(paths, p, names[..i]), Visit(paths, kid);
    assert forall k :: k in names[..i + 1] ==> k in names[..i] || k == names[i];
    assert VisitKids(paths, p, names[..i + 1]) == a + b by {
      assert names[..i + 1][..i] == names[..i];
    }
    LinesAgree(now, logs, base, paths, kid);
    LinesConcat(logs, base, a, b);
  }

  // ----- Every node once, in preorder and key order -----------------------------------------------------

  ghost predicate Increasing(v: seq<Path>) {
    forall i, j :: 0 <= i < j < |v| ==> PathLt(v[i], v[j])
  }

  lemma IncreasingConcat(a: seq<Path>, b: seq<Path>)
    requires Increasing(a) && Increasing(b)
    requires forall x, y :: x in a && y in b ==> PathLt(x, y)
    ensures Increasing(a + b)
  {
    hide PathLt;
  }

  lemma {:induction false} PathLtBelow(p: Path, q: Path)
    requires p <= q && p != q
    ensures PathLt(p, q)
  {
    if p == [] {
    } else {
      PathLtBelow(p[1..], q[1..]);
    }
  }

  lemma {:induction false} PathLtBranches(p: Path, a: Path, b: Path)
    requires p < a && p < b && NameLt(a[|p|], b[|p|])
    ensures PathLt(a, b)
  {
    if p == [] {
    } else {
      PathLtBranches(p[1..], a[1..], b[1..]);
    }
  }

  /** The nodes under `p` that lie in the branches `names`. */
  ghost predicate Listed(paths: set<Path>, p: Path, names: seq<Name>, v: seq<Path>) {
    forall q :: q in v <==> q in paths && p < q && q[|p|] in names
  }

  /** The printing reaches exactly the nodes at and below a path, each once, in the order of their paths. */
  lemma {:induction false} VisitIsSortedListing(paths: set<Path>, p: Path)
    requires Closed(paths) && p in paths
    ensures forall q :: q in Visit(paths, p) <==> q in Below(paths, p)
    ensures Increasing(Visit(paths, p))
    decreases Below(paths, p), |Kids(paths, p)| + 1
  {
    hide PathLt, NameLt, Closed, Increasing, VisitKids, Below, Listed, InOrder;
    var names := InOrder(Kids(paths, p));
    var kids := VisitKids(paths, p, names);
    VisitKidsIsSortedListing(paths, p, names);
    assert (forall q :: q in [p] + kids <==> q in Below(paths, p)) && Increasing([p] + kids) by {
      AllListed(paths, p, kids);
    }
    assert Visit(paths, p) == [p] + kids;
  }

  /**
   So a node is printed before everything below it, and of two siblings the one with the lower name first, as strings
   compare in C++.
   */
  lemma VisitIsInKeyOrder(paths: set<Path>, p: Path)
    requires Closed(paths) && p in paths
    ensures forall i, j :: 0 <= i < j < |Visit(paths, p)| ==> Before(Visit(paths, p)[i], Visit(paths, p)[j])
    ensures forall i, j :: 0 <= i < j < |Visit(paths, p)| ==>
              var x, y := Visit(paths, p)[i], Visit(paths, p)[j];
              x != [] && y != [] && Parent(x) == Parent(y) ==> Lower(NameAt(x), NameAt(y))
  {
    hide PathLt, Before, Closed, Visit, Lower;
    VisitIsSortedListing(paths, p);
    var v := Visit(paths, p);
    forall i, j | 0 <= i < j < |v|
      ensures Before(v[i], v[j])
      ensures v[i] != [] && v[j] != [] && Parent(v[i]) == Parent(v[j]) ==> Lower(NameAt(v[i]), NameAt(v[j]))
    {
      PathLtIsBefore(v[i], v[j]);
      if v[i] != [] && v[j] != [] && Parent(v[i]) == Parent(v[j]) {
        SiblingsCompare(v[i], v[j]);
      }
    }
  }

  lemma SiblingsCompare(x: Path, y: Path)
    requires x != [] && y != [] && Parent(x) == Parent(y) && Before(x, y)
    ensures Lower(NameAt(x), NameAt(y))
  {
    hide Lower;
    assert |x| == |y|;
    var k :| 0 <= k < |x| && k < |y| && x[..k] == y[..k] && Lower(x[k], y[k]);
    if k < |x| - 1 {
      assert x[k] == Parent(x)[k] == Parent(y)[k] == y[k];
      NotLower(x[k]);
    }
  }

  lemma NotLower(a: Name)
    ensures !Lower(a, a)
  {}

  /** Children "a" and "b" are printed in this order. */
  lemma AComesBeforeB()
    ensures InOrder({"a", "b"}) == ["a", "b"]
  {
    var names := InOrder({"a", "b"});
    assert NameLt("a", "b") && !NameLt("b", "a");
    assert |names| == 2 && names[0] in names && names[1] in names;
  }

  lemma {:induction false} VisitKidsIsSortedListing(paths: set<Path>, p: Path, names: seq<Name>)
    requires Closed(paths) && p in paths
    requires forall k :: k in names ==> k in Kids(paths, p)
    requires forall i, j :: 0 <= i < j < |names| ==> NameLt(names[i], names[j])
    ensures Listed(paths, p, names, VisitKids(paths, p, names))
    ensures Increasing(VisitKids(paths, p, names))
    decreases Below(paths, p), |names|
  {
    hide PathLt, NameLt, Closed, Increasing, Visit, Listed, Below;
    if names == [] {
      NothingListed(paths, p);
    } else {
      var k := names[|names| - 1];
      var init := names[..|names| - 1];
      KidIsBelow(paths, p, k);
      VisitKidsIsSortedListing(paths, p, init);
      VisitIsSortedListing(paths, p + [k]);
      OneMoreListed(paths, p, names, VisitKids(paths, p, init), Visit(paths, p + [k]));
    }
  }

  lemma AllListed(paths: set<Path>, p: Path, kids: seq<Path>)
    requires Closed(paths) && p in paths
    requires Listed(paths, p, InOrder(Kids(paths, p)), kids) && Increasing(kids)
    ensures forall q :: q in [p] + kids <==> q in Below(paths, p)
    ensures Increasing([p] + kids)
  {
    hide PathLt, NameLt, Closed, Increasing, InOrder;
    forall q | q in Below(paths, p) && q != p ensures q in kids {
      assert p < q;
      BranchIsKid(paths, p, q);
    }
    IncreasingSingle(p);
    forall q | q in kids ensures PathLt(p, q) { PathLtBelow(p, q); }
    IncreasingConcat([p], kids);
  }

  lemma NothingListed(paths: set<Path>, p: Path)
    ensures Listed(paths, p, [], []) && Increasing([])
  {}

  lemma IncreasingSingle(p: Path)
    ensures Increasing([p])
  {}

  /** Appending the listing of one more branch. */
  lemma OneMoreListed(paths: set<Path>, p: Path, names: seq<Name>, a: seq<Path>, b: seq<Path>)
    requires names != []
    requires forall i, j :: 0 <= i < j < |names| ==> NameLt(names[i], names[j])
    requires Listed(paths, p, names[..|names| - 1], a) && Increasing(a)
    requires (forall q :: q in b <==> q in Below(paths, p + [names[|names| - 1]])) && Increasing(b)
    ensures Listed(paths, p, names, a + b) && Increasing(a + b)
  {
    hide PathLt, NameLt, Increasing;
    var k := names[|names| - 1];
    var init := names[..|names| - 1];
    assert forall q :: q in b ==> p < q && q[|p|] == k by {
      forall q | q in b ensures p < q && q[|p|] == k { assert p + [k] <= q; }
    }
    assert Listed(paths, p, names, a + b) by {
      forall q | q in paths && p < q ensures q in b <==> q[|p|] == k {
        assert p + [k] <= q <==> q[|p|] == k;
      }
    }
    forall x, y | x in a && y in b ensures PathLt(x, y) {
      var n :| 0 <= n < |init| && init[n] == x[|p|];
      assert NameLt(names[n], k);
      PathLtBranches(p, x, y);
    }
    IncreasingConcat(a, b);
  }

  // ----- The report determines the tree -----------------------------------------------------------------

  /** A reader of the report: the path of the last line read, and the nodes seen so far. */
  datatype Rebuilt = Rebuilt(path: Path, nodes: map<Path, TimingStats>)

  /** A line one level deeper than an earlier one is a child of the last such line; level 0 is the root. */
  function ReadLine(r: Rebuilt, l: Line): Rebuilt {
    var p := if 1 <= l.level <= |r.path| + 1 then r.path[..l.level - 1] + [l.name] else [];
    Rebuilt(p, r.nodes[p := l.stats])
  }

  function Rebuild(lines: seq<Line>): Rebuilt {
    if lines == [] then Rebuilt([], map[]) else ReadLine(Rebuild(lines[..|lines| - 1]), lines[|lines| - 1])
  }

  /** Each path after the first is a child of the path before it or of one of that path's ancestors. */
  ghost predicate Chained(v: seq<Path>) {
    forall i :: 0 < i < |v| ==> v[i] != [] && Parent(v[i]) <= v[i - 1]
  }

  lemma LastIsBelow(paths: set<Path>, p: Path, names: seq<Name>, v: seq<Path>)
    requires Listed(paths, p, names, v)
    ensures p <= ([p] + v)[|v|]
  {
    if v != [] {
      assert v[|v| - 1] in v;
      assert ([p] + v)[|v|] == v[|v| - 1];
    }
  }

  lemma ChainedSingle(p: Path)
    ensures Chained([p])
  {}

  lemma ChainedConcat(a: seq<Path>, b: seq<Path>)
    requires Chained(a) && Chained(b)
    requires a != [] && b != [] && b[0] != [] && Parent(b[0]) <= a[|a| - 1]
    ensures Chained(a + b)
  {}

  lemma {:induction false} VisitIsChained(paths: set<Path>, p: Path)
    requires Closed(paths) && p in paths
    ensures Chained(Visit(paths, p)) && Visit(paths, p) != [] && Visit(paths, p)[0] == p
    decreases Below(paths, p), |Kids(paths, p)| + 1
  {
    hide PathLt, NameLt;
    VisitKidsIsChained(paths, p, InOrder(Kids(paths, p)));
  }

  lemma {:induction false} VisitKidsIsChained(paths: set<Path>, p: Path, names: seq<Name>)
    requires Closed(paths) && p in paths
    requires forall k :: k in names ==> k in Kids(paths, p)
    requires forall i, j :: 0 <= i < j < |names| ==> NameLt(names[i], names[j])
    ensures Chained([p] + VisitKids(paths, p, names))
    decreases Below(paths, p), |names|
  {
    hide PathLt, NameLt, Chained, Visit, Listed, Increasing, Below, Closed;
    if names == [] {
      assert Chained([p]) by { ChainedSingle(p); }
      assert [p] + VisitKids(paths, p, names) == [p];
    } else {
      var k := names[|names| - 1];
      var init := names[..|names| - 1];
      KidIsBelow(paths, p, k);
      var a, b := [p] + VisitKids(paths, p, init), Visit(paths, p + [k]);
      assert Chained(a) by { VisitKidsIsChained(paths, p, init); }
      assert Chained(b) && b[0] == p + [k] by { VisitIsChained(paths, p + [k]); }
      assert p <= a[|a| - 1] by {
        VisitKidsIsSortedListing(paths, p, init);
        LastIsBelow(paths, p, init, VisitKids(paths, p, init));
      }
      assert Parent(p + [k]) == p;
      ChainedConcat(a, b);
      assert [p] + VisitKids(paths, p, names) == a + b;
    }
  }

  /** The nodes read are those of the paths in `v`, each found at its path from `p` on, with its statistics. */
  ghost predicate ReadBack(nodes: map<Path, TimingStats>, logs: map<Path, Log>, p: Path, v: seq<Path>) {
    && (forall q :: q in v ==>
          p <= q && q in logs && logs[q].Ok() && q[|p|..] in nodes && nodes[q[|p|..]] == Meaning(logs[q]))
    && (forall r :: r in nodes ==> p + r in v)
  }

  lemma {:induction false} RebuildChained(logs: map<Path, Log>, p: Path, v: seq<Path>)
    requires Printable(logs, |p|, v) && forall i :: 0 <= i < |v| ==> p <= v[i]
    requires v != [] && v[0] == p && Chained(v) && forall i :: 0 < i < |v| ==> v[i] != p
    ensures Rebuild(Lines(logs, |p|, v)).path == v[|v| - 1][|p|..]
    ensures ReadBack(Rebuild(Lines(logs, |p|, v)).nodes, logs, p, v)
  {
    hide Meaning, ReadLine, LineOf, ReadBack;
    var init, q := v[..|v| - 1], v[|v| - 1];
    var r := Rebuild(Lines(logs, |p|, init));
    RebuildLast(logs, |p|, v);
    hide Rebuild, Lines;
    if init == [] {
      assert v == [p];
      EmptyReport(logs, |p|);
      FirstLine(logs, p);
    } else {
      RebuildChained(logs, p, init);
      assert Parent(q) <= init[|init| - 1];
      hide Chained, Printable;
      NextLine(logs, p, init[|init| - 1], r, q);
      OneMoreRead(r.nodes, logs, p, init, q);
      assert v == init + [q];
    }
  }

  lemma OneMoreRead(nodes: map<Path, TimingStats>, logs: map<Path, Log>, p: Path, v: seq<Path>, q: Path)
    requires ReadBack(nodes, logs, p, v) && q in logs && logs[q].Ok() && p <= q
    ensures ReadBack(nodes[q[|p|..] := Meaning(logs[q])], logs, p, v + [q])
  {
    hide Meaning;
    forall x | x in v ensures x[|p|..] == q[|p|..] ==> x == q {
      assert x == p + x[|p|..] && q == p + q[|p|..];
    }
    assert p + q[|p|..] == q;
    forall r | r in nodes[q[|p|..] := Meaning(logs[q])] ensures p + r in v + [q] {}
  }

  lemma EmptyReport(logs: map<Path, Log>, base: nat)
    ensures Printable(logs, base, []) && Rebuild(Lines(logs, base, [])) == Rebuilt([], map[])
  {}

  lemma RebuildLast(logs: map<Path, Log>, base: nat, v: seq<Path>)
    requires Printable(logs, base, v) && v != []
    ensures Printable(logs, base, v[..|v| - 1])
    ensures Rebuild(Lines(logs, base, v))
            == ReadLine(Rebuild(Lines(logs, base, v[..|v| - 1])), LineOf(logs, base, v[|v| - 1]))
  {
    hide ReadLine, Meaning;
    var lines := Lines(logs, base, v);
    assert lines[..|lines| - 1] == Lines(logs, base, v[..|v| - 1]);
  }

  lemma FirstLine(logs: map<Path, Log>, p: Path)
    requires p in logs && logs[p].Ok()
    ensures var r := ReadLine(Rebuilt([], map[]), LineOf(logs, |p|, p));
      r.path == p[|p|..] && ReadBack(r.nodes, logs, p, [p])
  {
    hide Meaning, ReadBack;
    assert p[|p|..] == [];
    NothingRead(logs, p);
    OneMoreRead(map[], logs, p, [], p);
    assert [] + [p] == [p];
  }

  lemma NothingRead(logs: map<Path, Log>, p: Path)
    ensures ReadBack(map[], logs, p, [])
  {}

  lemma NextLine(logs: map<Path, Log>, p: Path, last: Path, r: Rebuilt, q: Path)
    requires q in logs && logs[q].Ok() && q != p && p <= q && p <= last && Parent(q) <= last && r.path == last[|p|..]
    ensures ReadLine(r, LineOf(logs, |p|, q)) == Rebuilt(q[|p|..], r.nodes[q[|p|..] := Meaning(logs[q])])
  {
    hide Meaning;
    PathParts(q);
    assert r.path[..|q| - |p| - 1] == Parent(q)[|p|..];
    assert q[|p|..] == Parent(q)[|p|..] + [NameAt(q)];
  }

  lemma MembersArePrintable(logs: map<Path, Log>, v: seq<Path>)
    requires forall q :: q in v ==> q in logs && logs[q].Ok()
    ensures Printable(logs, 0, v)
  {
    forall i | 0 <= i < |v| ensures v[i] in logs && logs[v[i]].Ok() { assert v[i] in v; }
  }

  /** Reading back the (level, name, statistics) lines of a full report gives every node of the tree. */
  lemma ReportDeterminesTree(t: Tree)
    requires WellFormed(t)
    ensures forall q :: q in Visit(t.logs.Keys, []) <==> q in t.logs
    ensures Printable(t.logs, 0, Visit(t.logs.Keys, []))
    ensures Rebuild(Lines(t.logs, 0, Visit(t.logs.Keys, []))).nodes == map q | q in t.logs :: Meaning(t.logs[q])
  {
    var paths := t.logs.Keys;
    assert [] in paths && Closed(paths) && forall q :: q in paths ==> t.logs[q].Ok();
    hide Meaning, Visit, Lines, Rebuild, Chained, Increasing, Closed, Printable, WellFormed, Below;
    var v := Visit(paths, []);
    assert forall q :: q in v <==> q in paths by {
      VisitIsSortedListing(paths, []);
      BelowRoot(paths);
    }
    MembersArePrintable(t.logs, v);
    VisitIsChained(paths, []);
    RebuildAll(t.logs, v);
  }

  lemma BelowRoot(paths: set<Path>)
    ensures Below(paths, []) == paths
  {}

  lemma RebuildAll(logs: map<Path, Log>, v: seq<Path>)
    requires Printable(logs, 0, v) && v != [] && v[0] == [] && Chained(v)
    requires forall q :: q in v <==> q in logs.Keys
    requires forall q :: q in logs ==> logs[q].Ok()
    ensures Rebuild(Lines(logs, 0, v)).nodes == map q | q in logs :: Meaning(logs[q])
  {
    hide Meaning, Lines, Rebuild, Chained, Printable, ReadBack;
    OnlyFirstIsRoot(v);
    RebuildChained(logs, [], v);
    AllReadBack(Rebuild(Lines(logs, 0, v)).nodes, logs, v);
  }

  lemma OnlyFirstIsRoot(v: seq<Path>)
    requires Chained(v)
    ensures forall i :: 0 < i < |v| ==> v[i] != []
  {}

  lemma AllReadBack(nodes: map<Path, TimingStats>, logs: map<Path, Log>, v: seq<Path>)
    requires ReadBack(nodes, logs, [], v)
    requires (forall q :: q in v <==> q in logs.Keys) && forall q :: q in logs ==> logs[q].Ok()
    ensures nodes == map q | q in logs :: Meaning(logs[q])
  {
    hide Meaning;
    forall q: Path ensures q[0..] == q && [] + q == q {}
  }

  /** The lines of a full report of a tree. */
  ghost function FullReport(t: Tree): seq<Line>
    requires WellFormed(t)
  {
    ReportDeterminesTree(t);
    Lines(t.logs, 0, Visit(t.logs.Keys, []))
  }

  lemma SubtreeIsPrintable(t: Tree, p: Path)
    requires WellFormed(t) && p in t.logs
    ensures Printable(t.logs, |p|, Visit(t.logs.Keys, p))
  {
    assert Closed(t.logs.Keys) && forall q :: q in t.logs ==> t.logs[q].Ok();
    hide Visit, Increasing, Closed, WellFormed, Below;
    VisitIsSortedListing(t.logs.Keys, p);
    BelowIsPrintable(t.logs, p, Visit(t.logs.Keys, p));
  }

  lemma BelowIsPrintable(logs: map<Path, Log>, p: Path, v: seq<Path>)
    requires forall q :: q in logs ==> logs[q].Ok()
    requires forall q :: q in v ==> q in Below(logs.Keys, p)
    ensures Printable(logs, |p|, v)
  {
    forall i | 0 <= i < |v| ensures v[i] in logs && |p| <= |v[i]| {
      assert v[i] in v;
    }
  }

  /** The lines of a report of one node and everything below it, the node being at level zero. */
  ghost function NodeReport(t: Tree, p: Path): seq<Line>
    requires WellFormed(t) && p in t.logs
  {
    SubtreeIsPrintable(t, p);
    Lines(t.logs, |p|, Visit(t.logs.Keys, p))
  }

  lemma {:induction false} NotBeforeItself(p: Path)
    ensures !PathLt(p, p)
  {
    if p == [] {
    } else {
      NameLtTotal(p[0], p[0]);
      NotBeforeItself(p[1..]);
    }
  }

  lemma NoRepeats(v: seq<Path>)
    requires Increasing(v)
    ensures forall i, j :: 0 <= i < j < |v| ==> v[i] != v[j]
  {
    hide PathLt;
    forall i, j | 0 <= i < j < |v| ensures v[i] != v[j] {
      assert PathLt(v[i], v[j]);
      NotBeforeItself(v[i]);
    }
  }

  lemma {:induction false} DistinctLength(v: seq<Path>, s: set<Path>)
    requires (forall q :: q in v <==> q in s) && forall i, j :: 0 <= i < j < |v| ==> v[i] != v[j]
    ensures |v| == |s|
  {
    if v == [] {
    } else {
      var init, q := v[..|v| - 1], v[|v| - 1];
      assert forall x :: x in v <==> x in init || x == q;
      DistinctLength(init, s - {q});
    }
  }

  lemma ReadBackMeans(nodes: map<Path, TimingStats>, logs: map<Path, Log>, p: Path, v: seq<Path>)
    requires ReadBack(nodes, logs, p, v) && forall q :: q in v <==> q in Below(logs.Keys, p)
    ensures forall q :: q in logs && p <= q ==>
              logs[q].Ok() && q[|p|..] in nodes && nodes[q[|p|..]] == Meaning(logs[q])
    ensures forall r :: r in nodes ==> p + r in logs
  {
    hide Meaning;
  }

  lemma FirstOfLines(logs: map<Path, Log>, p: Path, v: seq<Path>)
    requires Printable(logs, |p|, v) && v != [] && v[0] == p
    ensures |Lines(logs, |p|, v)| == |v| && Lines(logs, |p|, v)[0].level == 0
    ensures Lines(logs, |p|, v)[0].name == if p == [] then "root_node" else p[|p| - 1]
  {
    hide Meaning;
  }

  /**
   Reading back the report of one node gives every node at and below it, each at its path from the node on, and no
   other; its first line is that of the node itself.
   */
  lemma NodeReportDeterminesSubtree(t: Tree, p: Path)
    requires WellFormed(t) && p in t.logs
    ensures var lines, nodes := NodeReport(t, p), Rebuild(NodeReport(t, p)).nodes;
      && (forall q :: q in t.logs && p <= q ==>
            q[|p|..] in nodes && t.logs[q].Ok() && nodes[q[|p|..]] == Meaning(t.logs[q]))
      && (forall r :: r in nodes ==> p + r in t.logs)
      && |lines| == |Below(t.logs.Keys, p)|
      && lines != [] && lines[0].level == 0 && lines[0].name == (if p == [] then "root_node" else p[|p| - 1])
  {
    var paths := t.logs.Keys;
    assert Closed(paths) && forall q :: q in paths ==> t.logs[q].Ok();
    hide Meaning, Visit, Rebuild, Chained, Increasing, Closed, WellFormed, ReadBack;
    var v := Visit(paths, p);
    VisitIsSortedListing(paths, p);
    VisitIsChained(paths, p);
    SubtreeIsPrintable(t, p);
    NoRepeats(v);
    forall i | 0 <= i < |v| ensures p <= v[i] { assert v[i] in v; }
    hide Lines, Printable;
    FirstOfLines(t.logs, p, v);
    RebuildChained(t.logs, p, v);
    DistinctLength(v, Below(paths, p));
    var nodes := Rebuild(Lines(t.logs, |p|, v)).nodes;
    hide Below;
    ReadBackMeans(nodes, t.logs, p, v);
  }
}
