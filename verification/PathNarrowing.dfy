/** Narrowing by path patterns: from which patterns on down a whole work graph stays inside. */
module PathNarrowing {
  import opened Common
  import opened WorkGraphs
  import opened PathPolicy
  import opened PathRoots

  /** The pattern, in normal form, is a path without wildcards, a whole subtree, or starts with a wildcard. */
  predicate IsRooted(path: string) {
    Normalize(path).Some? && Rooted(Normalize(path).value)
  }

  lemma RootedCoversThrough(x: string, patterns: set<string>)
    requires IsRooted(x)
    ensures TransitiveThrough(Covers, x, patterns)
  {
    forall y, z | y in patterns && z in patterns && Covers(x, y) && Covers(y, z) ensures Covers(x, z) {
      RootedIsTransitive(Normalize(x).value, Normalize(y).value, Normalize(z).value);
    }
  }

  /** In every well-formed graph, everything below a unit with rooted patterns is inside its scope and
      ownership, however deep and whatever patterns lie between. */
  lemma DescendantsStayInside(g: Graph, d: string, a: string, steps: nat)
    requires WellFormed(Covers, g) && Below(g, d, a, steps) && steps > 0
    requires a in g.units ==> forall p | p in PathsOf(g.units[a]) :: IsRooted(p)
    ensures a in g.units
    ensures Within(Covers, g.units[d].scope, g.units[a].scope)
    ensures Within(Covers, g.units[d].ownership, g.units[a].ownership)
  {
    if a in g.units {
      forall p | p in PathsOf(g.units[a]) ensures TransitiveThrough(Covers, p, AllPaths(g)) {
        RootedCoversThrough(p, AllPaths(g));
      }
    }
    PathsShrink(Covers, g, d, a, steps);
  }

  /** Every descendant of a unit whose scope is the one pattern lies inside it, in this graph. */
  ghost predicate HoldsDescendants(g: Graph, x: string) {
    WellFormed(Covers, g) ==>
      forall d, a, steps: nat | a in g.units && g.units[a].scope == [x] && Below(g, d, a, steps) && steps > 0 ::
        Within(Covers, g.units[d].scope, [x])
  }

  lemma {:induction false} ScopeStaysInside(g: Graph, d: string, a: string, steps: nat, x: string)
    requires WellFormed(Covers, g) && IsRooted(x)
    requires a in g.units && g.units[a].scope == [x] && Below(g, d, a, steps) && steps > 0
    ensures Within(Covers, g.units[d].scope, [x])
    decreases steps
  {
    EdgeNarrows(Covers, g, d);
    var p := g.units[d].parent.value;
    if steps > 1 {
      ScopeStaysInside(g, p, a, steps - 1, x);
      RootedCoversThrough(x, Members(g.units[d].scope) + Members(g.units[p].scope));
      WithinIsTransitive(Covers, Members(g.units[d].scope) + Members(g.units[p].scope), g.units[d].scope, g.units[p].scope, [x]);
    }
  }

  /** Checking each edge keeps every descendant of a unit inside the unit's pattern, in all graphs, exactly
      when the pattern is rooted: for any other pattern there is a chain of three units, each inside the
      one above it, whose last escapes the first. */
  lemma EdgeChecksSufficeExactlyFromRooted(x: string)
    requires IsPattern(x)
    ensures (forall g :: HoldsDescendants(g, x)) <==> Rooted(x)
  {
    PatternIsNormal(x);
    if Rooted(x) {
      forall g ensures HoldsDescendants(g, x) {
        if WellFormed(Covers, g) {
          forall d, a, steps: nat | a in g.units && g.units[a].scope == [x] && Below(g, d, a, steps) && steps > 0
            ensures Within(Covers, g.units[d].scope, [x])
          {
            ScopeStaysInside(g, d, a, steps, x);
          }
        }
      }
    } else {
      TransitiveExactlyFromRooted(x);
      var y, z :| IsPattern(y) && IsPattern(z) && Contains(x, y) && Contains(y, z) && !Contains(x, z);
      ChainEscapes(x, y, z);
    }
  }

  lemma PatternsCover(x: string, y: string)
    requires IsPattern(x) && IsPattern(y)
    ensures Covers(x, y) <==> Contains(x, y)
    ensures Strip(x) != ""
  {
    PatternIsNormal(x);
    PatternIsNormal(y);
    TextIsNotBlank(x);
  }

  lemma ChainEscapes(x: string, y: string, z: string)
    requires IsPattern(x) && IsPattern(y) && IsPattern(z)
    requires Contains(x, y) && Contains(y, z) && !Contains(x, z)
    ensures exists g :: !HoldsDescendants(g, x)
  {
    PatternsCover(x, y);
    PatternsCover(y, z);
    PatternsCover(x, z);
    PatternsCover(z, z);
    var ids := ("a", "b", "c");
    assert "a"[0] != "b"[0] && "b"[0] != "c"[0] && "a"[0] != "c"[0];
    NestedEscapes(ids, x, y, z);
  }

  lemma NestedEscapes(ids: (string, string, string), x: string, y: string, z: string)
    requires Covers(x, y) && Covers(y, z) && !Covers(x, z) && ids.0 != ids.1 && ids.1 != ids.2 && ids.0 != ids.2
    requires Strip(x) != "" && Strip(y) != "" && Strip(z) != ""
    ensures !HoldsDescendants(Nested(ids, x, y, z), x)
  {
    NestedIsWellFormed(Covers, ids, x, y, z);
    NestedIsBelow(ids, x, y, z);
    assert !Within(Covers, [z], [x]) by { assert z in [z]; }
  }
}
