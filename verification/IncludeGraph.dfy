/**
 The include graph of the clang-tidy hook: which translation unit should be
 analysed when a header changes (bin/pre-commit/clang_tidy_check.py).
 */
module IncludeGraph {
  import opened Words

  datatype Path = Path(name: string)

  // ----- chains in a successor relation

  /** A relation on paths; what it does not mention is related to nothing. */
  type Graph = map<Path, set<Path>>

  function Next(g: Graph, f: Path): set<Path> {
    if f in g then g[f] else {}
  }

  ghost predicate Chain(g: Graph, p: seq<Path>) {
    forall i, j :: 0 <= i && j == i + 1 < |p| ==> p[j] in Next(g, p[i])
  }

  /** `p` leads from `a` to `b` in one or more steps. */
  ghost predicate Leads(g: Graph, p: seq<Path>, a: Path, b: Path) {
    |p| >= 2 && Chain(g, p) && p[0] == a && p[|p| - 1] == b
  }

  ghost predicate Reaches(g: Graph, a: Path, b: Path) {
    exists p :: Leads(g, p, a, b)
  }

  lemma OneStep(g: Graph, a: Path, b: Path)
    requires b in Next(g, a)
    ensures Reaches(g, a, b)
  {
    assert Leads(g, [a, b], a, b);
  }

  lemma OneMoreStep(g: Graph, a: Path, b: Path, c: Path)
    requires Reaches(g, a, b) && c in Next(g, b)
    ensures Reaches(g, a, c)
  {
    var p :| Leads(g, p, a, b);
    assert Leads(g, p + [c], a, c);
  }

  ghost predicate Closed(g: Graph, s: set<Path>) {
    forall f :: f in s ==> Next(g, f) <= s
  }

  lemma {:induction false} ChainStaysInside(g: Graph, s: set<Path>, p: seq<Path>, k: nat)
    requires Closed(g, s) && Chain(g, p) && k < |p| && p[0] in s
    ensures p[k] in s
  {
    if k > 0 {
      ChainStaysInside(g, s, p, k - 1);
      assert p[k] in Next(g, p[k - 1]);
    }
  }

  function Backwards(p: seq<Path>): (r: seq<Path>)
    ensures |r| == |p| && forall i :: 0 <= i < |p| ==> r[i] == p[|p| - 1 - i]
  {
    seq(|p|, i requires 0 <= i < |p| => p[|p| - 1 - i])
  }

  /** A chain whose every step is an edge of the opposite relation, read backwards. */
  lemma ReversedLeads(g: Graph, opposite: Graph, p: seq<Path>, a: Path, b: Path)
    requires Leads(g, p, a, b)
    requires forall i, j :: 0 <= i && j == i + 1 < |p| ==> p[i] in Next(opposite, p[j])
    ensures Reaches(opposite, b, a)
  {
    var r := Backwards(p);
    forall i, j | 0 <= i && j == i + 1 < |r| ensures r[j] in Next(opposite, r[i]) {
      var m, n := |p| - 1 - j, |p| - 1 - i;
      assert p[m] in Next(opposite, p[n]);
    }
    assert Leads(opposite, r, b, a);
  }

  // ----- the source tree

  /**
   The tree as the hook sees it: which files exist, the names in the
   `#include` lines of each file from top to bottom, and the path a name
   resolves to below each include root.
   */
  datatype Tree = Tree(files: set<Path>, names: Path -> seq<string>, roots: seq<string -> Path>)

  /** The first root below which the name exists decides. */
  function FirstHit(t: Tree, name: string, k: nat): (r: Option<Path>)
    requires k <= |t.roots|
    ensures r.Some? ==> r.value in t.files
    ensures r.Some? <==> exists i :: k <= i < |t.roots| && t.roots[i](name) in t.files
    decreases |t.roots| - k
  {
    if k == |t.roots| then None
    else if t.roots[k](name) in t.files then Some(t.roots[k](name))
    else FirstHit(t, name, k + 1)
  }

  function Included(t: Tree, f: Path, n: nat): (r: set<Path>)
    requires n <= |t.names(f)|
    ensures r <= t.files
  {
    if n == 0 then {}
    else
      var hit := FirstHit(t, t.names(f)[n - 1], 0);
      Included(t, f, n - 1) + if hit.Some? then {hit.value} else {}
  }

  /** The files a file includes directly; a file that does not exist includes nothing. */
  function Targets(t: Tree): Graph {
    map f | f in t.files :: Included(t, f, |t.names(f)|)
  }

  /** The unit is present and includes the header, directly or through other files. */
  ghost predicate TransitivelyIncludes(t: Tree, unit: Path, header: Path) {
    Reaches(Targets(t), unit, header)
  }

  /** The files a translation unit brings in, the unit itself among them. */
  ghost predicate BroughtIn(t: Tree, units: set<Path>, f: Path) {
    f in t.files && (f in units || exists u :: u in units && Reaches(Targets(t), u, f))
  }

  // ----- building the inverted graph

  function Added(inverted: Graph, h: Path, f: Path): (r: Graph) {
    inverted[h := Next(inverted, h) + {f}]
  }

  predicate Has(g: Graph, a: Path, b: Path) {
    b in Next(g, a)
  }

  /** The graph holds exactly the reversed include edges that leave `scanned`. */
  ghost predicate Reversed(t: Tree, scanned: set<Path>, inverted: Graph) {
    forall h, f :: Has(inverted, h, f) <==> f in scanned && Has(Targets(t), f, h)
  }

  /** The include edges of `done`, and those of the first `n` include lines of `file`. */
  ghost predicate SeenEdge(t: Tree, done: set<Path>, file: Path, n: nat, f: Path, h: Path)
    requires n <= |t.names(file)|
  {
    (f in done && Has(Targets(t), f, h)) || (f == file && h in Included(t, file, n))
  }

  ghost predicate PartlyReversed(t: Tree, done: set<Path>, file: Path, n: nat, inverted: Graph)
    requires n <= |t.names(file)|
  {
    forall h, f :: Has(inverted, h, f) <==> SeenEdge(t, done, file, n, f, h)
  }

  ghost predicate OnlyBroughtIn(t: Tree, units: set<Path>, toScan: set<Path>, scanned: set<Path>) {
    && scanned <= t.files
    && forall f :: f in toScan + scanned && f in t.files ==> BroughtIn(t, units, f)
  }

  ghost predicate NothingForgotten(t: Tree, units: set<Path>, toScan: set<Path>, scanned: set<Path>) {
    && units * t.files <= toScan + scanned
    && forall f :: f in scanned ==> Next(Targets(t), f) <= toScan + scanned
  }

  lemma BringsIn(t: Tree, units: set<Path>, f: Path, h: Path)
    requires BroughtIn(t, units, f) && h in Next(Targets(t), f)
    ensures BroughtIn(t, units, h)
  {
    if f in units {
      OneStep(Targets(t), f, h);
    } else {
      var u :| u in units && Reaches(Targets(t), u, f);
      OneMoreStep(Targets(t), u, f, h);
    }
  }

  lemma {:induction false} IncludedGrows(t: Tree, f: Path, m: nat, n: nat)
    requires m <= n <= |t.names(f)|
    ensures Included(t, f, m) <= Included(t, f, n)
  {
    if m < n { IncludedGrows(t, f, m, n - 1); }
  }

  /** With nothing left to scan, exactly the files brought in have been scanned. */
  lemma ScannedExactly(t: Tree, units: set<Path>, scanned: set<Path>)
    requires OnlyBroughtIn(t, units, {}, scanned) && NothingForgotten(t, units, {}, scanned)
    ensures forall f :: f in scanned <==> BroughtIn(t, units, f)
  {
    forall f ensures f in scanned <==> BroughtIn(t, units, f) {
      if BroughtIn(t, units, f) && f !in units {
        var u :| u in units && Reaches(Targets(t), u, f);
        var p :| Leads(Targets(t), p, u, f);
        assert p[1] in Next(Targets(t), p[0]);
        assert u in t.files;
        ChainStaysInside(Targets(t), scanned, p, |p| - 1);
      }
    }
  }

  /** Exactly the files brought in have been scanned, and all their edges reversed. */
  ghost predicate Built(t: Tree, units: set<Path>, scanned: set<Path>, inverted: Graph) {
    && (forall f :: f in scanned <==> BroughtIn(t, units, f))
    && Reversed(t, scanned, inverted)
  }

  /** `build_include_graph`: the scan over everything the compile commands bring in. */
  method BuildIncludeGraph(t: Tree, units: set<Path>) returns (inverted: Graph, scanned: set<Path>)
    ensures Built(t, units, scanned, inverted)
  {
    inverted := map[];
    var toScan := units;
    scanned := {};
    while toScan != {}
      invariant OnlyBroughtIn(t, units, toScan, scanned)
      invariant NothingForgotten(t, units, toScan, scanned)
      invariant Reversed(t, scanned, inverted)
      decreases |t.files - scanned|, |toScan|
    {
      var file :| file in toScan;
      ghost var before := toScan;
      toScan := toScan - {file};
      if file in scanned || file !in t.files {
        assert before == toScan + {file};
        continue;
      }
      assert t.files - (scanned + {file}) < t.files - scanned;
      StrictlySmaller(t.files - (scanned + {file}), t.files - scanned);
      StartFile(t, units, file, scanned, before, toScan, inverted);
      ghost var left := toScan;
      inverted, toScan := ScanFile(t, units, file, scanned, toScan, inverted);
      assert before == left + {file};
      FileScanned(t, units, file, scanned, left, toScan, inverted);
      scanned := scanned + {file};
    }
    ScannedExactly(t, units, scanned);
  }

  lemma StartFile(
    t: Tree, units: set<Path>, file: Path, done: set<Path>, before: set<Path>, toScan: set<Path>, inverted: Graph)
    requires file in before && file in t.files && toScan == before - {file}
    requires OnlyBroughtIn(t, units, before, done) && Reversed(t, done, inverted)
    ensures OnlyBroughtIn(t, units, toScan, done + {file})
    ensures PartlyReversed(t, done, file, 0, inverted)
  {
    forall k, f ensures Has(inverted, k, f) <==> SeenEdge(t, done, file, 0, f, k) {
      assert Has(inverted, k, f) <==> f in done && Has(Targets(t), f, k);
    }
  }

  lemma StrictlySmaller(a: set<Path>, b: set<Path>)
    requires a < b
    ensures |a| < |b|
  {
    assert b == a + (b - a);
    assert b - a != {};
  }

  lemma EdgeAdded(t: Tree, done: set<Path>, file: Path, n: nat, inverted: Graph, h: Path)
    requires n < |t.names(file)|
    requires PartlyReversed(t, done, file, n, inverted)
    requires FirstHit(t, t.names(file)[n], 0) == Some(h)
    ensures PartlyReversed(t, done, file, n + 1, Added(inverted, h, file))
  {
    var grown := Added(inverted, h, file);
    forall k, f ensures Has(grown, k, f) <==> SeenEdge(t, done, file, n + 1, f, k) {
      assert Has(grown, k, f) <==> Has(inverted, k, f) || (k == h && f == file);
      assert Has(inverted, k, f) <==> SeenEdge(t, done, file, n, f, k);
    }
  }

  lemma NoEdgeAdded(t: Tree, done: set<Path>, file: Path, n: nat, inverted: Graph)
    requires n < |t.names(file)|
    requires PartlyReversed(t, done, file, n, inverted)
    requires FirstHit(t, t.names(file)[n], 0).None?
    ensures PartlyReversed(t, done, file, n + 1, inverted)
  {
    forall k, f ensures Has(inverted, k, f) <==> SeenEdge(t, done, file, n + 1, f, k) {
      assert Has(inverted, k, f) <==> SeenEdge(t, done, file, n, f, k);
    }
  }

  /** Queueing what a line of `file` resolves to keeps the queue honest. */
  lemma HitQueued(t: Tree, units: set<Path>, toScan: set<Path>, scanned: set<Path>, file: Path, n: nat, h: Path)
    requires n < |t.names(file)| && file in scanned
    requires FirstHit(t, t.names(file)[n], 0) == Some(h)
    requires OnlyBroughtIn(t, units, toScan, scanned)
    ensures OnlyBroughtIn(t, units, toScan + {h}, scanned)
  {
    IncludedGrows(t, file, n + 1, |t.names(file)|);
    assert h in Next(Targets(t), file);
    BringsIn(t, units, file, h);
  }

  /** After the last line, `file` counts as scanned. */
  lemma FileScanned(t: Tree, units: set<Path>, file: Path, done: set<Path>, toScan0: set<Path>, toScan: set<Path>, inverted: Graph)
    requires file in t.files
    requires NothingForgotten(t, units, toScan0 + {file}, done) && toScan0 <= toScan
    requires Included(t, file, |t.names(file)|) <= toScan + done + {file}
    requires PartlyReversed(t, done, file, |t.names(file)|, inverted)
    ensures NothingForgotten(t, units, toScan, done + {file})
    ensures Reversed(t, done + {file}, inverted)
  {
    var n := |t.names(file)|;
    assert Next(Targets(t), file) == Included(t, file, n);
    forall h, f ensures Has(inverted, h, f) <==> f in done + {file} && Has(Targets(t), f, h) {
      assert Has(inverted, h, f) <==> SeenEdge(t, done, file, n, f, h);
    }
  }

  /** One pass of the scanning loop's body over the lines of one file. */
  method ScanFile(t: Tree, units: set<Path>, file: Path, done: set<Path>, toScan0: set<Path>, inverted0: Graph)
      returns (inverted: Graph, toScan: set<Path>)
    requires file in t.files
    requires OnlyBroughtIn(t, units, toScan0, done + {file})
    requires PartlyReversed(t, done, file, 0, inverted0)
    ensures OnlyBroughtIn(t, units, toScan, done + {file})
    ensures toScan0 <= toScan
    ensures Included(t, file, |t.names(file)|) <= toScan + done + {file}
    ensures PartlyReversed(t, done, file, |t.names(file)|, inverted)
  {
    inverted, toScan := inverted0, toScan0;
    var scanned := done + {file};
    var names := t.names(file);
    var i := 0;
    while i < |names|
      invariant 0 <= i <= |names|
      invariant OnlyBroughtIn(t, units, toScan, scanned)
      invariant toScan0 <= toScan
      invariant Included(t, file, i) <= toScan + scanned
      invariant PartlyReversed(t, done, file, i, inverted)
    {
      var hit := FirstHit(t, names[i], 0);
      if hit.Some? {
        EdgeAdded(t, done, file, i, inverted, hit.value);
        inverted := Added(inverted, hit.value, file);
        if hit.value !in scanned {
          HitQueued(t, units, toScan, scanned, file, i, hit.value);
          toScan := toScan + {hit.value};
        }
      } else {
        NoEdgeAdded(t, done, file, i, inverted);
      }
      i := i + 1;
    }
  }

  // ----- searching it

  ghost predicate Candidate(inverted: Graph, units: set<Path>, header: Path, u: Path) {
    u in units && Reaches(inverted, header, u)
  }

  /** What the search promises about its choice, whatever order sets are walked in. */
  ghost predicate GoodChoice(
    inverted: Graph, units: set<Path>, stem: Path -> string, header: Path, choice: Option<Path>)
  {
    && (choice.Some? ==> Candidate(inverted, units, header, choice.value))
    && (choice.None? ==> forall u :: !Candidate(inverted, units, header, u))
    && ((exists u :: Candidate(inverted, units, header, u) && stem(u) == stem(header)) ==>
          choice.Some? && stem(choice.value) == stem(header))
  }

  ghost predicate Visited(inverted: Graph, header: Path, visited: set<Path>) {
    header in visited && forall f :: f in visited ==> f == header || Reaches(inverted, header, f)
  }

  /** The choice so far is a candidate, the header's namesake only at the end. */
  ghost predicate Sound(inverted: Graph, units: set<Path>, header: Path, preferred: Option<Path>) {
    preferred.Some? ==> Candidate(inverted, units, header, preferred.value)
  }

  /** Every includer in `incs` has been taken account of, none being a namesake unit. */
  ghost predicate Handled(
    incs: set<Path>, units: set<Path>, stem: Path -> string, header: Path, visited: set<Path>, preferred: Option<Path>)
  {
    forall u :: u in incs ==> u in visited && (u in units ==> preferred.Some? && stem(u) != stem(header))
  }

  function Everything(inverted: Graph): (r: set<Path>)
    ensures forall h :: h in inverted ==> inverted[h] <= r
  {
    set h, f | h in inverted && f in inverted[h] :: f
  }

  lemma SearchedAll(
    inverted: Graph, units: set<Path>, stem: Path -> string, header: Path, visited: set<Path>, preferred: Option<Path>)
    requires Visited(inverted, header, visited) && Sound(inverted, units, header, preferred)
    requires forall h :: h in visited ==>
      Handled(Next(inverted, h), units, stem, header, visited, preferred)
    ensures GoodChoice(inverted, units, stem, header, preferred)
  {
    assert Closed(inverted, visited);
    forall u | Candidate(inverted, units, header, u)
      ensures preferred.Some? && stem(u) != stem(header)
    {
      var p :| Leads(inverted, p, header, u);
      ChainStaysInside(inverted, visited, p, |p| - 2);
      var k := |p| - 2;
      assert p[k + 1] in Next(inverted, p[k]);
    }
  }

  /** What both loops of the search keep. */
  ghost predicate Walking(
    inverted: Graph, units: set<Path>, header: Path, visited: set<Path>, stack: seq<Path>, preferred: Option<Path>)
  {
    && Visited(inverted, header, visited)
    && (forall f :: f in stack ==> f in visited)
    && Sound(inverted, units, header, preferred)
  }

  /** Files are pushed when first visited, one stack entry each. */
  ghost predicate Pushed(visited0: set<Path>, stack0: seq<Path>, visited: set<Path>, stack: seq<Path>) {
    && visited0 <= visited
    && (forall f :: f in stack0 || f in visited - visited0 ==> f in stack)
    && |stack| == |stack0| + |visited - visited0|
  }

  lemma PushedNow(visited0: set<Path>, stack0: seq<Path>, visited: set<Path>, stack: seq<Path>, inc: Path)
    requires Pushed(visited0, stack0, visited, stack) && inc !in visited
    ensures Pushed(visited0, stack0, visited + {inc}, stack + [inc])
  {
    assert visited + {inc} - visited0 == (visited - visited0) + {inc};
  }

  lemma IncluderReached(inverted: Graph, header: Path, visited: set<Path>, h: Path, inc: Path)
    requires Visited(inverted, header, visited) && h in visited && inc in Next(inverted, h)
    ensures Reaches(inverted, header, inc)
  {
    if h == header { OneStep(inverted, header, inc); } else { OneMoreStep(inverted, header, h, inc); }
  }

  predicate Namesake(stem: Path -> string, header: Path, choice: Option<Path>) {
    choice.Some? && stem(choice.value) == stem(header)
  }

  /** The inner loop over the includers of `h`, in whatever order the set yields them. */
  method WalkIncluders(
    h: Path, header: Path, inverted: Graph, units: set<Path>, stem: Path -> string,
    visited0: set<Path>, stack0: seq<Path>, preferred0: Option<Path>)
      returns (visited: set<Path>, stack: seq<Path>, preferred: Option<Path>)
    requires Walking(inverted, units, header, visited0, stack0, preferred0) && h in visited0
    ensures Walking(inverted, units, header, visited, stack, preferred)
    ensures Pushed(visited0, stack0, visited, stack)
    ensures preferred0.Some? ==> preferred.Some?
    ensures visited <= visited0 + Next(inverted, h)
    ensures Handled(Next(inverted, h), units, stem, header, visited, preferred)
      || Namesake(stem, header, preferred)
  {
    visited, stack, preferred := visited0, stack0, preferred0;
    var todo := Next(inverted, h);
    while todo != {}
      invariant Walking(inverted, units, header, visited, stack, preferred)
      invariant Pushed(visited0, stack0, visited, stack)
      invariant preferred0.Some? ==> preferred.Some?
      invariant todo <= Next(inverted, h)
      invariant visited <= visited0 + Next(inverted, h)
      invariant Handled(Next(inverted, h) - todo, units, stem, header, visited, preferred)
      decreases |todo|
    {
      var inc :| inc in todo;
      todo := todo - {inc};
      IncluderReached(inverted, header, visited0, h, inc);
      if inc in units {
        if stem(inc) == stem(header) {
          preferred := Some(inc);
          break;
        }
        if preferred.None? { preferred := Some(inc); }
      }
      if inc !in visited {
        PushedNow(visited0, stack0, visited, stack, inc);
        visited := visited + {inc};
        stack := stack + [inc];
      }
    }
  }

  ghost predicate AllHandled(
    inverted: Graph, units: set<Path>, stem: Path -> string, header: Path,
    visited: set<Path>, stack: seq<Path>, preferred: Option<Path>)
  {
    forall h :: h in visited && h !in stack ==>
      Handled(Next(inverted, h), units, stem, header, visited, preferred)
  }

  /** Popping a file and walking its includers leaves every file off the stack handled. */
  lemma StillHandled(
    inverted: Graph, units: set<Path>, stem: Path -> string, header: Path,
    visited0: set<Path>, stack0: seq<Path>, preferred0: Option<Path>,
    visited: set<Path>, stack: seq<Path>, preferred: Option<Path>)
    requires |stack0| > 0 && AllHandled(inverted, units, stem, header, visited0, stack0, preferred0)
    requires Pushed(visited0, stack0[..|stack0| - 1], visited, stack)
    requires preferred0.Some? ==> preferred.Some?
    requires Handled(Next(inverted, stack0[|stack0| - 1]), units, stem, header, visited, preferred)
    ensures AllHandled(inverted, units, stem, header, visited, stack, preferred)
  {
    var n := |stack0| - 1;
    forall h | h in visited && h !in stack
      ensures Handled(Next(inverted, h), units, stem, header, visited, preferred)
    {
      assert h in visited0 && h !in stack0[..n];
      if h != stack0[n] {
        assert stack0 == stack0[..n] + [stack0[n]];
        assert Handled(Next(inverted, h), units, stem, header, visited0, preferred0);
      }
    }
  }

  lemma NamesakeFound(inverted: Graph, units: set<Path>, stem: Path -> string, header: Path, choice: Option<Path>)
    requires Sound(inverted, units, header, choice) && Namesake(stem, header, choice)
    ensures GoodChoice(inverted, units, stem, header, choice)
  {
  }

  /** The search for one header. */
  method FindUnit(header: Path, inverted: Graph, units: set<Path>, stem: Path -> string)
      returns (preferred: Option<Path>)
    ensures GoodChoice(inverted, units, stem, header, preferred)
  {
    preferred := None;
    var visited := {header};
    var stack := [header];
    ghost var all := Everything(inverted);
    while |stack| > 0
      invariant Walking(inverted, units, header, visited, stack, preferred)
      invariant AllHandled(inverted, units, stem, header, visited, stack, preferred)
      decreases |all - visited| + |stack|
    {
      var h := stack[|stack| - 1];
      var rest := stack[..|stack| - 1];
      var seen, left, choice := WalkIncluders(h, header, inverted, units, stem, visited, rest, preferred);
      if Namesake(stem, header, choice) {
        NamesakeFound(inverted, units, stem, header, choice);
        return choice;
      }
      StillHandled(inverted, units, stem, header, visited, stack, preferred, seen, left, choice);
      Smaller(all, visited, seen);
      visited, stack, preferred := seen, left, choice;
    }
    SearchedAll(inverted, units, stem, header, visited, preferred);
  }

  lemma Smaller(all: set<Path>, earlier: set<Path>, grown: set<Path>)
    requires earlier <= grown <= earlier + all
    ensures |all - grown| + |grown - earlier| == |all - earlier|
  {
    assert all - earlier == (all - grown) + (grown - earlier);
  }

  // ----- the two halves together

  /** `u` is a unit that includes the header, and its namesake if any such unit is. */
  ghost predicate Represents(t: Tree, units: set<Path>, stem: Path -> string, header: Path, u: Path) {
    && u in units && TransitivelyIncludes(t, u, header)
    && ((exists v :: v in units && TransitivelyIncludes(t, v, header) && stem(v) == stem(header)) ==>
          stem(u) == stem(header))
  }

  /** In the built graph the candidates are exactly the units that include the header. */
  lemma CandidateIsIncluder(t: Tree, units: set<Path>, scanned: set<Path>, inverted: Graph, header: Path, u: Path)
    requires Built(t, units, scanned, inverted)
    ensures Candidate(inverted, units, header, u) <==> u in units && TransitivelyIncludes(t, u, header)
  {
    if Candidate(inverted, units, header, u) {
      var p :| Leads(inverted, p, header, u);
      forall i, j | 0 <= i && j == i + 1 < |p| ensures p[i] in Next(Targets(t), p[j]) {
        assert Has(inverted, p[i], p[j]);
        assert Has(Targets(t), p[j], p[i]);
      }
      ReversedLeads(inverted, Targets(t), p, header, u);
    }
    if u in units && TransitivelyIncludes(t, u, header) {
      var p :| Leads(Targets(t), p, u, header);
      ScannedAlong(t, units, scanned, p);
      forall i, j | 0 <= i && j == i + 1 < |p| ensures p[i] in Next(inverted, p[j]) {
        assert Has(Targets(t), p[i], p[j]);
        assert Has(inverted, p[j], p[i]);
      }
      ReversedLeads(Targets(t), inverted, p, u, header);
    }
  }

  lemma ScannedAlong(t: Tree, units: set<Path>, scanned: set<Path>, p: seq<Path>)
    requires forall f :: f in scanned <==> BroughtIn(t, units, f)
    requires |p| >= 2 && Chain(Targets(t), p) && p[0] in units
    ensures forall i :: 0 <= i < |p| ==> p[i] in scanned
  {
    assert p[1] in Next(Targets(t), p[0]);
    assert p[0] in scanned;
    forall f | f in scanned ensures Next(Targets(t), f) <= scanned {
      forall h | h in Next(Targets(t), f) ensures h in scanned { BringsIn(t, units, f, h); }
    }
    forall i | 0 <= i < |p| ensures p[i] in scanned { ChainStaysInside(Targets(t), scanned, p, i); }
  }

  /** The header has a representative, or no unit includes it. */
  ghost predicate Covered(t: Tree, units: set<Path>, stem: Path -> string, header: Path, result: set<Path>) {
    || (exists u :: u in result && Represents(t, units, stem, header, u))
    || (forall v :: v in units ==> !TransitivelyIncludes(t, v, header))
  }

  /** The unit represents one of the first `n` headers. */
  ghost predicate Called(t: Tree, units: set<Path>, stem: Path -> string, headers: seq<Path>, n: nat, u: Path)
    requires n <= |headers|
  {
    exists i :: 0 <= i < n && Represents(t, units, stem, headers[i], u)
  }

  ghost predicate Chosen(t: Tree, units: set<Path>, stem: Path -> string, headers: seq<Path>, n: nat, result: set<Path>)
    requires n <= |headers|
  {
    && (forall u :: u in result ==> Called(t, units, stem, headers, n, u))
    && (forall i :: 0 <= i < n ==> Covered(t, units, stem, headers[i], result))
  }

  function With(result: set<Path>, choice: Option<Path>): set<Path> {
    if choice.Some? then result + {choice.value} else result
  }

  lemma GoodChoiceCovers(
    t: Tree, units: set<Path>, stem: Path -> string, scanned: set<Path>, inverted: Graph,
    header: Path, choice: Option<Path>, result: set<Path>)
    requires Built(t, units, scanned, inverted)
    requires GoodChoice(inverted, units, stem, header, choice)
    ensures choice.Some? ==> Represents(t, units, stem, header, choice.value)
    ensures Covered(t, units, stem, header, With(result, choice))
  {
    forall u ensures Candidate(inverted, units, header, u) <==> u in units && TransitivelyIncludes(t, u, header) {
      CandidateIsIncluder(t, units, scanned, inverted, header, u);
    }
  }

  lemma ChosenNext(
    t: Tree, units: set<Path>, stem: Path -> string, headers: seq<Path>, n: nat, result: set<Path>, choice: Option<Path>)
    requires n < |headers| && Chosen(t, units, stem, headers, n, result)
    requires choice.Some? ==> Represents(t, units, stem, headers[n], choice.value)
    requires Covered(t, units, stem, headers[n], With(result, choice))
    ensures Chosen(t, units, stem, headers, n + 1, With(result, choice))
  {
    forall u | u in With(result, choice) ensures Called(t, units, stem, headers, n + 1, u) {
      if u in result { assert Called(t, units, stem, headers, n, u); }
    }
    forall i | 0 <= i < n + 1 ensures Covered(t, units, stem, headers[i], With(result, choice)) {
      if i < n { assert Covered(t, units, stem, headers[i], result); }
    }
  }

  /** The body of the loop over headers. */
  method AddUnit(
    ghost t: Tree, ghost scanned: set<Path>, headers: seq<Path>, n: nat, inverted: Graph, units: set<Path>,
    stem: Path -> string, result: set<Path>)
      returns (more: set<Path>)
    requires n < |headers| && Built(t, units, scanned, inverted)
    requires Chosen(t, units, stem, headers, n, result)
    ensures Chosen(t, units, stem, headers, n + 1, more)
    ensures |more| <= |result| + 1
  {
    var choice := FindUnit(headers[n], inverted, units, stem);
    GoodChoiceCovers(t, units, stem, scanned, inverted, headers[n], choice, result);
    ChosenNext(t, units, stem, headers, n, result, choice);
    more := With(result, choice);
  }

  /** `find_tus_for_headers` on a built graph. */
  method FindUnitsForHeaders(
    ghost t: Tree, ghost scanned: set<Path>, headers: seq<Path>, inverted: Graph, units: set<Path>, stem: Path -> string)
      returns (result: set<Path>)
    requires Built(t, units, scanned, inverted)
    ensures Chosen(t, units, stem, headers, |headers|, result)
    ensures |result| <= |headers|
  {
    result := {};
    for k := 0 to |headers|
      invariant |result| <= k && Chosen(t, units, stem, headers, k, result)
    {
      result := AddUnit(t, scanned, headers, k, inverted, units, stem, result);
    }
  }

  /**
   The units to analyse for the changed headers: every header that some unit
   includes gets a representative, and nothing else is chosen.
   */
  method ResolveHeaders(t: Tree, units: set<Path>, stem: Path -> string, headers: seq<Path>)
      returns (result: set<Path>)
    ensures Chosen(t, units, stem, headers, |headers|, result)
    ensures |result| <= |headers|
  {
    var inverted, scanned := BuildIncludeGraph(t, units);
    result := FindUnitsForHeaders(t, scanned, headers, inverted, units, stem);
  }
}
