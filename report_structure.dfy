/**
 * Properties of a whole report as `print_object` produces it: which kind
 * of line appears under which condition and in what order, how header
 * lines correspond to the nodes of the tree in pre-order under the depth
 * bound, and that a missing facet removes exactly its own line.
 */
module ReportStructure {
  import opened Wrappers
  import opened Text
  import opened Reporter

  // ---------------------------------------------------------------------
  // Classifying lines

  /** What a report line is, told from its first characters. */
  datatype LineKind = HeaderKind | StatesKind | RelationsKind | DescriptionKind | BoundsKind | ActionKind | OtherKind

  predicate StartsWith(s: string, prefix: string)
  {
    |prefix| <= |s| && s[..|prefix|] == prefix
  }

  /**
   * Headers start with an asterisk, or at level 0 with the space; every
   * other line starts with its own fixed label, and the labels differ in
   * their first letter.
   */
  function Kind(line: string): LineKind
  {
    if line == [] then OtherKind
    else if line[0] == '*' || line[0] == ' ' then HeaderKind
    else if line[0] == 'S' && StartsWith(line, StatesPrefix) then StatesKind
    else if line[0] == 'R' && StartsWith(line, RelationsPrefix) then RelationsKind
    else if line[0] == 'D' && StartsWith(line, DescriptionPrefix) then DescriptionKind
    else if line[0] == 'O' && StartsWith(line, BoundsPrefix) then BoundsKind
    else if line[0] == 'A' && StartsWith(line, ActionPrefix) then ActionKind
    else OtherKind
  }

  function Kinds(lines: seq<string>): seq<LineKind>
  {
    seq(|lines|, i requires 0 <= i < |lines| => Kind(lines[i]))
  }

  lemma KindsAppend(a: seq<string>, b: seq<string>)
    ensures Kinds(a + b) == Kinds(a) + Kinds(b)
  {
    assert forall i :: 0 <= i < |a + b| ==> Kinds(a + b)[i] == (Kinds(a) + Kinds(b))[i];
  }

  lemma KindOfLabelled(prefix: string, rest: string)
    requires prefix in {StatesPrefix, RelationsPrefix, DescriptionPrefix, BoundsPrefix, ActionPrefix}
    ensures Kind(prefix + rest)
         == if prefix == StatesPrefix then StatesKind
            else if prefix == RelationsPrefix then RelationsKind
            else if prefix == DescriptionPrefix then DescriptionKind
            else if prefix == BoundsPrefix then BoundsKind
            else ActionKind
  {
    var line := prefix + rest;
    assert line[..|prefix|] == prefix;
    assert line[0] == prefix[0];
  }

  lemma KindOfHeader(level: nat, n: Node)
    ensures Kind(Header(level, n)) == HeaderKind
  {
    var h := Header(level, n);
    assert h[0] == if level > 0 then '*' else ' ';
  }

  /** A run of `count` action lines. */
  function ActionKinds(count: nat): seq<LineKind>
  {
    seq(count, _ => ActionKind)
  }

  lemma {:induction false} ActionLinesKinds(actions: seq<Option<ActionInfo>>, first: nat)
    ensures Kinds(ActionLinesFrom(actions, first)) == ActionKinds(CountSome(actions))
  {
    if actions != [] {
      var entry := ActionEntry(actions[0], first);
      ActionLinesKinds(actions[1..], first + 1);
      KindsAppend(entry, ActionLinesFrom(actions[1..], first + 1));
      if actions[0].Some? {
        var line := ActionLine(first, actions[0].value);
        assert line == ActionPrefix + line[|ActionPrefix|..];
        KindOfLabelled(ActionPrefix, line[|ActionPrefix|..]);
        assert Kinds(entry) == [ActionKind];
      }
    }
  }

  /** The kinds of the optional lines, in the order they are printed. */
  function ExpectedFacetKinds(n: Node): seq<LineKind>
  {
    (if StatesShown(n.states) then [StatesKind] else [])
      + (if n.relations != [] then [RelationsKind] else [])
      + (if n.description != "" then [DescriptionKind] else [])
      + (if "Component" in n.interfaces && n.extents.Some? then [BoundsKind] else [])
      + (if "Action" in n.interfaces then ActionKinds(CountSome(n.actions)) else [])
  }

  lemma StatesKinds(states: seq<string>)
    ensures Kinds(StatesLines(states)) == if StatesShown(states) then [StatesKind] else []
  {
    StatesLineIff(states);
    if StatesShown(states) {
      KindOfLabelled(StatesPrefix, Join(states, ", "));
    }
  }

  lemma RelationsKinds(relations: seq<Relation>)
    ensures Kinds(RelationsLines(relations)) == if relations != [] then [RelationsKind] else []
  {
    RelationsLineIff(relations);
    if relations != [] {
      KindOfLabelled(RelationsPrefix, Join(RelationDescs(relations), ", "));
    }
  }

  lemma DescriptionKinds(description: string)
    ensures Kinds(DescriptionLines(description)) == if description != "" then [DescriptionKind] else []
  {
    if description != "" {
      KindOfLabelled(DescriptionPrefix, description);
    }
  }

  lemma BoundsKinds(interfaces: set<string>, extents: Option<Rect>)
    ensures Kinds(BoundsLines(interfaces, extents))
         == if "Component" in interfaces && extents.Some? then [BoundsKind] else []
  {
    if "Component" in interfaces && extents.Some? {
      KindOfLabelled(BoundsPrefix, BoundsText(extents.value));
    }
  }

  /**
   * The lines after the header: a `States:` line exactly when the state
   * names join to something non-empty, a `Relations:` line exactly when
   * there is a relation, a `Description:` line exactly when the
   * description is non-empty, a bounds line exactly when `Component` is
   * offered and the extents are available, one action line per
   * retrievable action exactly when `Action` is offered, and always in
   * this order.
   */
  lemma FacetLineKinds(n: Node)
    ensures Kinds(FacetLines(n)) == ExpectedFacetKinds(n)
  {
    var s, r, d := StatesLines(n.states), RelationsLines(n.relations), DescriptionLines(n.description);
    var b, a := BoundsLines(n.interfaces, n.extents), ActionLines(n.interfaces, n.actions);
    StatesKinds(n.states);
    RelationsKinds(n.relations);
    DescriptionKinds(n.description);
    BoundsKinds(n.interfaces, n.extents);
    if "Action" in n.interfaces {
      ActionLinesKinds(n.actions, 0);
    }
    KindsAppend(s, r);
    KindsAppend(s + r, d);
    KindsAppend(s + r + d, b);
    KindsAppend(s + r + d + b, a);
  }

  /** A node's own lines: its header first, then the facet lines in their fixed order. */
  lemma NodeLineKinds(n: Node, level: nat)
    ensures Kinds(NodeLines(n, level)) == [HeaderKind] + ExpectedFacetKinds(n)
  {
    var header := [Header(level, n)];
    KindOfHeader(level, n);
    assert Kinds(header) == [HeaderKind];
    FacetLineKinds(n);
    KindsAppend(header, FacetLines(n));
  }

  /** No facet line can be taken for a header. */
  lemma NoHeaderAmongFacets(n: Node)
    ensures HeaderKind !in ExpectedFacetKinds(n)
  {
    var k := CountSome(n.actions);
    assert forall i :: 0 <= i < k ==> ActionKinds(k)[i] == ActionKind;
  }

  // ---------------------------------------------------------------------
  // Header lines and the pre-order of the tree

  /** The header lines of a report, in order. */
  function HeaderLines(lines: seq<string>): seq<string>
  {
    if lines == [] then []
    else (if Kind(lines[0]) == HeaderKind then [lines[0]] else []) + HeaderLines(lines[1..])
  }

  lemma {:induction false} HeaderLinesAppend(a: seq<string>, b: seq<string>)
    ensures HeaderLines(a + b) == HeaderLines(a) + HeaderLines(b)
  {
    if a == [] {
      assert a + b == b;
    } else {
      assert (a + b)[0] == a[0];
      assert (a + b)[1..] == a[1..] + b;
      HeaderLinesAppend(a[1..], b);
    }
  }

  lemma {:induction false} NoHeaderLines(lines: seq<string>)
    requires HeaderKind !in Kinds(lines)
    ensures HeaderLines(lines) == []
  {
    if lines != [] {
      assert Kinds(lines)[0] == Kind(lines[0]);
      assert Kinds(lines[1..]) == Kinds(lines)[1..];
      NoHeaderLines(lines[1..]);
    }
  }

  /** Only the first of a node's own lines is a header. */
  lemma NodeHeaderLines(n: Node, level: nat)
    ensures HeaderLines(NodeLines(n, level)) == [Header(level, n)]
  {
    var h, facets := Header(level, n), FacetLines(n);
    FacetLineKinds(n);
    NoHeaderAmongFacets(n);
    NoHeaderLines(facets);
    KindOfHeader(level, n);
    assert HeaderLines([h]) == [h];
    HeaderLinesAppend([h], facets);
  }

  /** A node of the tree together with the level it is reported at. */
  datatype Visit = Visit(node: Node, level: nat)

  /** Every node of the tree rooted at `n`, in pre-order, with its level. */
  function Visits(n: Node, level: nat): seq<Visit>
    decreases n
  {
    [Visit(n, level)] + ChildVisits(n.children, level + 1)
  }

  function ChildVisits(children: seq<Node>, level: nat): seq<Visit>
    decreases children
  {
    if children == [] then [] else Visits(children[0], level) + ChildVisits(children[1..], level)
  }

  /** The number of nodes in the tree. */
  function Size(n: Node): nat
    decreases n
  {
    1 + ChildrenSize(n.children)
  }

  function ChildrenSize(children: seq<Node>): nat
    decreases children
  {
    if children == [] then 0 else Size(children[0]) + ChildrenSize(children[1..])
  }

  /** The visits at a level within the bound, in their original order. */
  function Within(visits: seq<Visit>, maxDepth: Option<int>): seq<Visit>
  {
    if visits == [] then []
    else (if Pruned(visits[0].level, maxDepth) then [] else [visits[0]]) + Within(visits[1..], maxDepth)
  }

  /** The header that each visit would print. */
  function HeadersOf(visits: seq<Visit>): seq<string>
  {
    seq(|visits|, i requires 0 <= i < |visits| => Header(visits[i].level, visits[i].node))
  }

  lemma {:induction false} WithinAppend(a: seq<Visit>, b: seq<Visit>, maxDepth: Option<int>)
    ensures Within(a + b, maxDepth) == Within(a, maxDepth) + Within(b, maxDepth)
  {
    if a == [] {
      assert a + b == b;
    } else {
      assert (a + b)[0] == a[0];
      assert (a + b)[1..] == a[1..] + b;
      WithinAppend(a[1..], b, maxDepth);
    }
  }

  lemma HeadersOfAppend(a: seq<Visit>, b: seq<Visit>)
    ensures HeadersOf(a + b) == HeadersOf(a) + HeadersOf(b)
  {
  }

  /** Without a bound nothing is filtered out. */
  lemma {:induction false} WithinUnbounded(visits: seq<Visit>)
    ensures Within(visits, None) == visits
  {
    if visits != [] {
      WithinUnbounded(visits[1..]);
    }
  }

  /** Visits that are all pruned leave nothing. */
  lemma {:induction false} WithinAllPruned(visits: seq<Visit>, maxDepth: Option<int>)
    requires forall i :: 0 <= i < |visits| ==> Pruned(visits[i].level, maxDepth)
    ensures Within(visits, maxDepth) == []
  {
    if visits != [] {
      WithinAllPruned(visits[1..], maxDepth);
    }
  }

  /** Descendants are reported at deeper levels than their ancestor. */
  lemma {:induction false} VisitsDeeper(n: Node, level: nat)
    ensures forall i :: 0 <= i < |Visits(n, level)| ==> Visits(n, level)[i].level >= level
    decreases n
  {
    ChildVisitsDeeper(n.children, level + 1);
  }

  lemma {:induction false} ChildVisitsDeeper(children: seq<Node>, level: nat)
    ensures forall i :: 0 <= i < |ChildVisits(children, level)| ==> ChildVisits(children, level)[i].level >= level
    decreases children
  {
    if children != [] {
      VisitsDeeper(children[0], level);
      ChildVisitsDeeper(children[1..], level);
    }
  }

  /** Every node of the tree is visited exactly once. */
  lemma {:induction false} VisitsCount(n: Node, level: nat)
    ensures |Visits(n, level)| == Size(n)
    decreases n
  {
    ChildVisitsCount(n.children, level + 1);
  }

  lemma {:induction false} ChildVisitsCount(children: seq<Node>, level: nat)
    ensures |ChildVisits(children, level)| == ChildrenSize(children)
    decreases children
  {
    if children != [] {
      VisitsCount(children[0], level);
      ChildVisitsCount(children[1..], level);
    }
  }

  /** A reported node contributes its own header ahead of its children's header lines. */
  lemma RenderedNodeHeaders(n: Node, level: nat, maxDepth: Option<int>)
    requires !Pruned(level, maxDepth)
    ensures HeaderLines(Render(n, level, maxDepth))
         == [Header(level, n)] + HeaderLines(RenderChildren(n.children, level + 1, maxDepth))
  {
    NodeHeaderLines(n, level);
    HeaderLinesAppend(NodeLines(n, level), RenderChildren(n.children, level + 1, maxDepth));
  }

  /** A visit within the bound keeps its place ahead of its descendants. */
  lemma KeptVisitHeaders(n: Node, level: nat, maxDepth: Option<int>)
    requires !Pruned(level, maxDepth)
    ensures HeadersOf(Within(Visits(n, level), maxDepth))
         == [Header(level, n)] + HeadersOf(Within(ChildVisits(n.children, level + 1), maxDepth))
  {
    var own, below := [Visit(n, level)], ChildVisits(n.children, level + 1);
    WithinAppend(own, below, maxDepth);
    assert Within(own, maxDepth) == own;
    HeadersOfAppend(own, Within(below, maxDepth));
  }

  /** A pruned node hides its whole subtree. */
  lemma PrunedHeaders(n: Node, level: nat, maxDepth: Option<int>)
    requires Pruned(level, maxDepth)
    ensures HeaderLines(Render(n, level, maxDepth)) == [] == HeadersOf(Within(Visits(n, level), maxDepth))
  {
    VisitsDeeper(n, level);
    WithinAllPruned(Visits(n, level), maxDepth);
  }

  /**
   * The header lines of a report are, one for one and in pre-order, the
   * headers of the nodes whose level is within the depth bound.  A node
   * beyond the bound takes its whole subtree with it, which is the same as
   * dropping every node beyond the bound, because levels only grow
   * downwards.
   */
  lemma {:induction false} RenderHeaders(n: Node, level: nat, maxDepth: Option<int>)
    ensures HeaderLines(Render(n, level, maxDepth)) == HeadersOf(Within(Visits(n, level), maxDepth))
    decreases n
  {
    if Pruned(level, maxDepth) {
      PrunedHeaders(n, level, maxDepth);
    } else {
      RenderChildrenHeaders(n.children, level + 1, maxDepth);
      RenderedNodeHeaders(n, level, maxDepth);
      KeptVisitHeaders(n, level, maxDepth);
    }
  }

  lemma {:induction false} RenderChildrenHeaders(children: seq<Node>, level: nat, maxDepth: Option<int>)
    ensures HeaderLines(RenderChildren(children, level, maxDepth))
         == HeadersOf(Within(ChildVisits(children, level), maxDepth))
    decreases children
  {
    if children != [] {
      var first, rest := children[0], children[1..];
      RenderHeaders(first, level, maxDepth);
      RenderChildrenHeaders(rest, level, maxDepth);
      HeaderLinesAppend(Render(first, level, maxDepth), RenderChildren(rest, level, maxDepth));
      WithinAppend(Visits(first, level), ChildVisits(rest, level), maxDepth);
      HeadersOfAppend(Within(Visits(first, level), maxDepth), Within(ChildVisits(rest, level), maxDepth));
    }
  }

  /** With no depth bound, every node of the tree prints exactly one header, in pre-order. */
  lemma UnboundedHeaders(n: Node, level: nat)
    ensures HeaderLines(Render(n, level, None)) == HeadersOf(Visits(n, level))
    ensures |HeaderLines(Render(n, level, None))| == Size(n)
  {
    RenderHeaders(n, level, None);
    WithinUnbounded(Visits(n, level));
    VisitsCount(n, level);
  }

  // ---------------------------------------------------------------------
  // Depth bound

  lemma {:induction false} ChildrenPruned(children: seq<Node>, level: nat, maxDepth: Option<int>)
    requires Pruned(level, maxDepth)
    ensures RenderChildren(children, level, maxDepth) == []
    decreases children
  {
    if children != [] {
      ChildrenPruned(children[1..], level, maxDepth);
    }
  }

  /** With a bound of 0 a report from level 0 holds the root's own lines and nothing of its children. */
  lemma DepthZeroShowsOnlyRoot(n: Node)
    ensures Render(n, 0, Some(0)) == NodeLines(n, 0)
  {
    ChildrenPruned(n.children, 1, Some(0));
  }

  // ---------------------------------------------------------------------
  // Failure isolation

  /** Regrouping a report around one line, or around the gap it leaves. */
  lemma Regroup<T>(h: seq<T>, pre: seq<T>, before: seq<T>, x: seq<T>, after: seq<T>, below: seq<T>)
    ensures h + (pre + x + after) + below == (h + pre) + x + (after + below)
    ensures h + (pre + after) + below == (h + pre) + (after + below)
    ensures h + (pre + (before + x + after)) + below == (h + pre + before) + x + (after + below)
    ensures h + (pre + (before + after)) + below == (h + pre + before) + (after + below)
  {
  }

  /** A node that is reported: its header, its facet lines, its children's reports. */
  lemma RenderUnfold(n: Node, level: nat, maxDepth: Option<int>)
    requires !Pruned(level, maxDepth)
    ensures Render(n, level, maxDepth) == [Header(level, n)] + FacetLines(n) + RenderChildren(n.children, level + 1, maxDepth)
  {
  }

  /** The same, for a node that differs from `n` only in its facets. */
  lemma RenderVariant(n: Node, m: Node, level: nat, maxDepth: Option<int>)
    requires !Pruned(level, maxDepth)
    requires m.role == n.role && m.name == n.name && m.children == n.children
    ensures Render(m, level, maxDepth) == [Header(level, n)] + FacetLines(m) + RenderChildren(n.children, level + 1, maxDepth)
  {
    assert Header(level, m) == Header(level, n);
  }

  /** The facets before the bounds line. */
  function LinesBeforeBounds(n: Node): seq<string>
  {
    StatesLines(n.states) + RelationsLines(n.relations) + DescriptionLines(n.description)
  }

  /** The facet lines of a node with and without its extents. */
  lemma FacetsAroundBounds(n: Node)
    requires "Component" in n.interfaces && n.extents.Some?
    ensures FacetLines(n) == LinesBeforeBounds(n) + [BoundsLine(n.extents.value)] + ActionLines(n.interfaces, n.actions)
    ensures FacetLines(n.(extents := None)) == LinesBeforeBounds(n) + ActionLines(n.interfaces, n.actions)
  {
    var m := n.(extents := None);
    assert LinesBeforeBounds(m) == LinesBeforeBounds(n);
    assert BoundsLines(m.interfaces, m.extents) == [];
  }

  /**
   * When the extents are unavailable only the bounds line is missing: the
   * report with the extents and the report without them share everything
   * before the bounds line (header, states, relations, description) and
   * everything after it (actions and the children's reports).
   */
  lemma BoundsFailureIsolated(n: Node, level: nat, maxDepth: Option<int>)
    requires "Component" in n.interfaces && n.extents.Some?
    requires !Pruned(level, maxDepth)
    ensures var front := [Header(level, n)] + LinesBeforeBounds(n);
            var back := ActionLines(n.interfaces, n.actions) + RenderChildren(n.children, level + 1, maxDepth);
            && Render(n, level, maxDepth) == front + [BoundsLine(n.extents.value)] + back
            && Render(n.(extents := None), level, maxDepth) == front + back
  {
    FacetsAroundBounds(n);
    RenderUnfold(n, level, maxDepth);
    RenderVariant(n, n.(extents := None), level, maxDepth);
    Regroup([Header(level, n)], LinesBeforeBounds(n), [], [BoundsLine(n.extents.value)],
            ActionLines(n.interfaces, n.actions), RenderChildren(n.children, level + 1, maxDepth));
  }

  /** The facets before the action lines. */
  function LinesBeforeActions(n: Node): seq<string>
  {
    StatesLines(n.states) + RelationsLines(n.relations) + DescriptionLines(n.description)
      + BoundsLines(n.interfaces, n.extents)
  }

  /** The facet lines of a node with and without one of its actions. */
  lemma FacetsAroundAction(n: Node, j: nat)
    requires "Action" in n.interfaces && j < |n.actions| && n.actions[j].Some?
    ensures var pre := LinesBeforeActions(n);
            var before, after := ActionLinesFrom(n.actions[..j], 0), ActionLinesFrom(n.actions[j + 1..], j + 1);
            && FacetLines(n) == pre + (before + [ActionLine(j, n.actions[j].value)] + after)
            && FacetLines(n.(actions := n.actions[j := None])) == pre + (before + after)
  {
    ActionFailureIsolated(n.actions, j);
  }

  /**
   * A failing action drops only its own line from the whole report: the
   * report with the action and the report without it share everything
   * before that line (header, other facets, the earlier actions) and
   * everything after it (the later actions, numbered as before, and the
   * children's reports).
   */
  lemma ActionFailureIsolatedInReport(n: Node, level: nat, maxDepth: Option<int>, j: nat)
    requires "Action" in n.interfaces && j < |n.actions| && n.actions[j].Some?
    requires !Pruned(level, maxDepth)
    ensures var front := [Header(level, n)] + LinesBeforeActions(n) + ActionLinesFrom(n.actions[..j], 0);
            var back := ActionLinesFrom(n.actions[j + 1..], j + 1) + RenderChildren(n.children, level + 1, maxDepth);
            && Render(n, level, maxDepth) == front + [ActionLine(j, n.actions[j].value)] + back
            && Render(n.(actions := n.actions[j := None]), level, maxDepth) == front + back
  {
    FacetsAroundAction(n, j);
    RenderUnfold(n, level, maxDepth);
    RenderVariant(n, n.(actions := n.actions[j := None]), level, maxDepth);
    Regroup([Header(level, n)], LinesBeforeActions(n),
            ActionLinesFrom(n.actions[..j], 0), [ActionLine(j, n.actions[j].value)], ActionLinesFrom(n.actions[j + 1..], j + 1),
            RenderChildren(n.children, level + 1, maxDepth));
  }

  // ---------------------------------------------------------------------
  // Scenarios

  /**
   * A childless root with no name, no description, no state, no relation
   * and neither `Component` nor `Action` reports one line: a space, its
   * role, and `UNNAMED`.
   */
  lemma BareRootScenario(n: Node, maxDepth: Option<int>)
    requires n.name == "" && n.description == "" && n.states == [] && n.relations == []
    requires "Component" !in n.interfaces && "Action" !in n.interfaces
    requires n.children == [] && !Pruned(0, maxDepth)
    ensures Render(n, 0, maxDepth) == [" " + n.role + " UNNAMED"]
  {
    assert Header(0, n) == " " + n.role + " UNNAMED";
  }
}
