/**
 * The tree reporter: `repr_object`, `format_rel` and `print_object`.
 *
 * The accessibility handle is replaced by a plain value that carries
 * everything the reporter reads from it, and the printed output by the
 * returned sequence of lines.  A facet whose retrieval is swallowed by the
 * reporter is an `Option`: `extents == None` stands for `get_extents`
 * raising `NotImplementedError`, `actions[i] == None` for retrieving
 * action `i` raising anything.
 */
module Reporter {
  import opened Wrappers
  import opened Text

  /** A relation target: only its role and name are rendered. */
  datatype Target = Target(role: string, name: string)

  /** A typed edge to an ordered list of targets (which may be empty). */
  datatype Relation = Relation(relationType: string, targets: seq<Target>)

  /** Window-relative extents. */
  datatype Rect = Rect(x: int, y: int, width: int, height: int)

  /**
   * What one action reports.  For the localized name, description and key
   * binding the empty string is an absent field; `name` is the text printed
   * for the action's name as it is.
   */
  datatype ActionInfo = ActionInfo(name: string, localizedName: string, description: string, keyBinding: string)

  /**
   * One accessible object.  `name` and `description` use the empty string
   * for "absent"; `states` are the state value names in enumeration order.
   */
  datatype Node = Node(
    role: string,
    name: string,
    states: seq<string>,
    relations: seq<Relation>,
    description: string,
    interfaces: set<string>,
    extents: Option<Rect>,
    actions: seq<Option<ActionInfo>>,
    children: seq<Node>)

  // ---------------------------------------------------------------------
  // repr_object

  const Unnamed := "UNNAMED"

  /** The name as shown: the sentinel `UNNAMED` stands in for a missing name. */
  function DisplayName(name: string): (shown: string)
    ensures shown != ""
    ensures shown == name <==> name != ""
    ensures name == "" ==> shown == Unnamed
  {
    if name == "" then Unnamed else name
  }

  /** `repr_object`: the role, one space, then the shown name. */
  function ReprObject(role: string, name: string): string
  {
    role + " " + DisplayName(name)
  }

  /** Splits a string at its first space (the space itself is dropped). */
  function SplitAtSpace(s: string): (string, string)
  {
    if s == [] then ([], [])
    else if s[0] == ' ' then ([], s[1..])
    else var (before, after) := SplitAtSpace(s[1..]); ([s[0]] + before, after)
  }

  /**
   * The representation holds the role, then one space, then the shown
   * name, for every role.  Knowing how long the role is recovers both.
   */
  lemma ReprObjectDecodes(role: string, name: string)
    ensures var r := ReprObject(role, name);
            && |r| > |role| && r[..|role|] == role && r[|role|] == ' '
            && r[|role| + 1..] == DisplayName(name)
  {
    var r := ReprObject(role, name);
    assert r == role + (" " + DisplayName(name));
  }

  /**
   * Role names may themselves contain spaces (`push button`), so the
   * printed text alone does not always tell role and name apart.
   */
  lemma ReprObjectAmbiguous()
    ensures ReprObject("push button", "OK") == ReprObject("push", "button OK")
  {
  }

  /**
   * For a role without spaces, the representation splits back at its
   * first space into the role and the shown name.
   */
  lemma {:induction false} ReprObjectSplits(role: string, name: string)
    requires ' ' !in role
    ensures SplitAtSpace(ReprObject(role, name)) == (role, DisplayName(name))
  {
    var r := ReprObject(role, name);
    if role == [] {
      assert r == " " + DisplayName(name) && r[1..] == DisplayName(name);
    } else {
      assert role[0] in role;
      assert r[0] == role[0] != ' ';
      assert r[1..] == ReprObject(role[1..], name);
      ReprObjectSplits(role[1..], name);
      assert [role[0]] + role[1..] == role;
    }
  }

  // ---------------------------------------------------------------------
  // Header line

  /** The header: `level` asterisks, a space, then the representation. */
  function Header(level: nat, n: Node): string
  {
    Repeat('*', level) + " " + ReprObject(n.role, n.name)
  }

  /** The number of asterisks a line starts with. */
  function LeadingStars(s: string): nat
  {
    if s != [] && s[0] == '*' then 1 + LeadingStars(s[1..]) else 0
  }

  lemma {:induction false} LeadingStarsOfRepeat(k: nat, s: string)
    ensures LeadingStars(Repeat('*', k) + s) == k + LeadingStars(s)
  {
    var t := Repeat('*', k) + s;
    if k == 0 {
      assert t == s;
    } else {
      assert t[0] == '*';
      assert t[1..] == Repeat('*', k - 1) + s;
      LeadingStarsOfRepeat(k - 1, s);
    }
  }

  /**
   * A header gives back its level: exactly `level` leading asterisks, then
   * one space, then the node's representation.  At level 0 the header
   * therefore starts with the space.
   */
  lemma HeaderShape(level: nat, n: Node)
    ensures var h := Header(level, n);
            && LeadingStars(h) == level
            && |h| > level && h[level] == ' '
            && h[level + 1..] == ReprObject(n.role, n.name)
  {
    var rest := " " + ReprObject(n.role, n.name);
    assert Header(level, n) == Repeat('*', level) + rest;
    assert rest[0] == ' ';
    assert LeadingStars(rest) == 0;
    LeadingStarsOfRepeat(level, rest);
  }

  // ---------------------------------------------------------------------
  // Facet lines

  const StatesPrefix := "States: "
  const RelationsPrefix := "Relations: "
  const DescriptionPrefix := "Description: "
  const BoundsPrefix := "Object bounds: "
  const ActionPrefix := "Action "

  /** The `States:` line, present when the comma-joined state names are non-empty. */
  function StatesLines(states: seq<string>): seq<string>
  {
    var descs := Join(states, ", ");
    if descs != "" then [StatesPrefix + descs] else []
  }

  /** When the state set yields a `States:` line, stated without joining. */
  predicate StatesShown(states: seq<string>)
  {
    |states| > 1 || (|states| == 1 && states[0] != "")
  }

  /**
   * The `States:` line appears exactly when there are at least two states
   * or a single one with a non-empty name, and then lists them all.
   */
  lemma StatesLineIff(states: seq<string>)
    ensures StatesLines(states) == if StatesShown(states) then [StatesPrefix + Join(states, ", ")] else []
  {
    JoinIsEmpty(states, ", ");
  }

  /** With non-empty state names, the line appears exactly when some state is set. */
  lemma StatesLineIffNonEmpty(states: seq<string>)
    requires forall i :: 0 <= i < |states| ==> states[i] != ""
    ensures |StatesLines(states)| == (if states == [] then 0 else 1)
  {
    StatesLineIff(states);
  }

  /** The representations of a relation's targets, in target index order. */
  function TargetReprs(targets: seq<Target>): seq<string>
  {
    seq(|targets|, i requires 0 <= i < |targets| => ReprObject(targets[i].role, targets[i].name))
  }

  /** `format_rel` */
  function FormatRel(rel: Relation): string
  {
    "Relation of type " + rel.relationType + " to " + Join(TargetReprs(rel.targets), ", ")
  }

  /**
   * Targets are rendered in index order: one more target appends its
   * representation after a comma.
   */
  lemma FormatRelAppendTarget(relationType: string, targets: seq<Target>, last: Target)
    requires targets != []
    ensures FormatRel(Relation(relationType, targets + [last]))
         == FormatRel(Relation(relationType, targets)) + ", " + ReprObject(last.role, last.name)
  {
    assert TargetReprs(targets + [last]) == TargetReprs(targets) + [ReprObject(last.role, last.name)];
    JoinAppend(TargetReprs(targets), [ReprObject(last.role, last.name)], ", ");
  }

  function RelationDescs(relations: seq<Relation>): seq<string>
  {
    seq(|relations|, i requires 0 <= i < |relations| => FormatRel(relations[i]))
  }

  /** The `Relations:` line, present when the joined relation texts are non-empty. */
  function RelationsLines(relations: seq<Relation>): seq<string>
  {
    var descs := Join(RelationDescs(relations), ", ");
    if descs != "" then [RelationsPrefix + descs] else []
  }

  /** The `Relations:` line appears exactly when there is at least one relation. */
  lemma RelationsLineIff(relations: seq<Relation>)
    ensures RelationsLines(relations)
         == if relations == [] then [] else [RelationsPrefix + Join(RelationDescs(relations), ", ")]
  {
    JoinIsEmpty(RelationDescs(relations), ", ");
    if |relations| == 1 {
      assert RelationDescs(relations)[0] == FormatRel(relations[0]);
    }
  }

  function DescriptionLines(description: string): seq<string>
  {
    if description != "" then [DescriptionPrefix + description] else []
  }

  function BoundsLine(box: Rect): string
  {
    BoundsPrefix + BoundsText(box)
  }

  /** Size, then position: `WxH rect at X, Y`. */
  function BoundsText(box: Rect): string
  {
    IntToString(box.width) + "x" + IntToString(box.height)
      + " rect at " + IntToString(box.x) + ", " + IntToString(box.y)
  }

  /** The bounds line: only with `Component`, and only when the extents are available. */
  function BoundsLines(interfaces: set<string>, extents: Option<Rect>): seq<string>
  {
    if "Component" in interfaces then
      match extents
      case Some(box) => [BoundsLine(box)]
      case None => []
    else []
  }

  function Fallback(s: string, default: string): string
  {
    if s != "" then s else default
  }

  const NoLocalizedName := "no localized name"
  const NoDescription := "no description"
  const NoKeyBindings := "no key bindings"

  /** The line for the action at 0-based index `index`, numbered from 1. */
  function ActionLine(index: nat, action: ActionInfo): string
  {
    ActionPrefix + NatToString(index + 1) + ": " + action.name
      + ", " + Fallback(action.localizedName, NoLocalizedName)
      + ", " + Fallback(action.description, NoDescription)
      + ", " + Fallback(action.keyBinding, NoKeyBindings)
  }

  /**
   * The lines for `actions`, the first of which has 0-based index `first`;
   * an action whose retrieval failed contributes nothing.
   */
  function ActionLinesFrom(actions: seq<Option<ActionInfo>>, first: nat): seq<string>
  {
    if actions == [] then []
    else ActionEntry(actions[0], first) + ActionLinesFrom(actions[1..], first + 1)
  }

  /** The line of one action, or nothing when retrieving it failed. */
  function ActionEntry(action: Option<ActionInfo>, index: nat): seq<string>
  {
    match action
    case Some(a) => [ActionLine(index, a)]
    case None => []
  }

  /** The action lines: only with the `Action` interface. */
  function ActionLines(interfaces: set<string>, actions: seq<Option<ActionInfo>>): seq<string>
  {
    if "Action" in interfaces then ActionLinesFrom(actions, 0) else []
  }

  /** The number of actions whose retrieval succeeded. */
  function CountSome(actions: seq<Option<ActionInfo>>): nat
  {
    if actions == [] then 0 else (if actions[0].Some? then 1 else 0) + CountSome(actions[1..])
  }

  /** Exactly one line per action that could be retrieved. */
  lemma {:induction false} ActionLinesCount(actions: seq<Option<ActionInfo>>, first: nat)
    ensures |ActionLinesFrom(actions, first)| == CountSome(actions)
  {
    if actions != [] {
      ActionLinesCount(actions[1..], first + 1);
    }
  }

  /** The action lines of a concatenation keep their numbering. */
  lemma {:induction false} ActionLinesSplit(a: seq<Option<ActionInfo>>, b: seq<Option<ActionInfo>>, first: nat)
    ensures ActionLinesFrom(a + b, first) == ActionLinesFrom(a, first) + ActionLinesFrom(b, first + |a|)
  {
    if a == [] {
      assert a + b == b;
    } else {
      var ab := a + b;
      assert ab != [] && ab[0] == a[0] && ab[1..] == a[1..] + b;
      calc {
        ActionLinesFrom(ab, first);
        ActionEntry(a[0], first) + ActionLinesFrom(a[1..] + b, first + 1);
        { ActionLinesSplit(a[1..], b, first + 1); }
        ActionEntry(a[0], first) + (ActionLinesFrom(a[1..], first + 1) + ActionLinesFrom(b, first + |a|));
        ActionLinesFrom(a, first) + ActionLinesFrom(b, first + |a|);
      }
    }
  }

  /** The lines around one action: those before it, its own entry, those after it. */
  lemma ActionLinesAround(before: seq<Option<ActionInfo>>, action: Option<ActionInfo>, after: seq<Option<ActionInfo>>)
    ensures ActionLinesFrom(before + [action] + after, 0)
         == ActionLinesFrom(before, 0) + ActionEntry(action, |before|) + ActionLinesFrom(after, |before| + 1)
  {
    var rest := [action] + after;
    assert before + [action] + after == before + rest;
    ActionLinesSplit(before, rest, 0);
    assert rest != [] && rest[0] == action && rest[1..] == after;
    var entry, tail := ActionEntry(action, |before|), ActionLinesFrom(after, |before| + 1);
    assert ActionLinesFrom(rest, |before|) == entry + tail;
    Regroup3(ActionLinesFrom(before, 0), entry, tail);
  }

  /** Concatenation regrouped to the left. */
  lemma Regroup3<T>(a: seq<T>, b: seq<T>, c: seq<T>)
    ensures a + (b + c) == a + b + c
  {
  }

  /** A sequence with its `j`th element replaced by `x`, as three pieces. */
  lemma SplitAround<T>(s: seq<T>, j: nat, x: T)
    requires j < |s|
    ensures s[j := x] == s[..j] + [x] + s[j + 1..]
    ensures s[j := s[j]] == s
  {
  }

  /** A retrievable action sits, numbered by its index, between the lines before and after it. */
  lemma ActionLineAt(actions: seq<Option<ActionInfo>>, j: nat)
    requires j < |actions| && actions[j].Some?
    ensures ActionLinesFrom(actions, 0)
         == ActionLinesFrom(actions[..j], 0) + [ActionLine(j, actions[j].value)] + ActionLinesFrom(actions[j + 1..], j + 1)
  {
    SplitAround(actions, j, actions[j]);
    ActionLinesAround(actions[..j], actions[j], actions[j + 1..]);
    assert ActionEntry(actions[j], j) == [ActionLine(j, actions[j].value)];
  }

  /** A failed action leaves only the lines before and after it. */
  lemma ActionLineDropped(actions: seq<Option<ActionInfo>>, j: nat)
    requires j < |actions|
    ensures ActionLinesFrom(actions[j := None], 0)
         == ActionLinesFrom(actions[..j], 0) + ActionLinesFrom(actions[j + 1..], j + 1)
  {
    SplitAround(actions, j, None);
    ActionLinesAround(actions[..j], None, actions[j + 1..]);
    assert ActionEntry(None, j) == [];
  }

  /**
   * A failing action drops its own line and nothing else: the lines before
   * and after it, and their numbers, are the same as when it succeeds.
   */
  lemma ActionFailureIsolated(actions: seq<Option<ActionInfo>>, j: nat)
    requires j < |actions| && actions[j].Some?
    ensures var before, after := ActionLinesFrom(actions[..j], 0), ActionLinesFrom(actions[j + 1..], j + 1);
            && ActionLinesFrom(actions, 0) == before + [ActionLine(j, actions[j].value)] + after
            && ActionLinesFrom(actions[j := None], 0) == before + after
  {
    ActionLineAt(actions, j);
    ActionLineDropped(actions, j);
  }

  // ---------------------------------------------------------------------
  // print_object

  /** A node is skipped, with its subtree, when a depth bound is set and exceeded. */
  predicate Pruned(level: nat, maxDepth: Option<int>)
  {
    maxDepth.Some? && level > maxDepth.value
  }

  /** The lines `print_object` prints for the node itself, in their fixed order. */
  function NodeLines(n: Node, level: nat): seq<string>
  {
    [Header(level, n)] + FacetLines(n)
  }

  /** The optional lines after the header, each gated by its own facet. */
  function FacetLines(n: Node): seq<string>
  {
    StatesLines(n.states)
      + RelationsLines(n.relations)
      + DescriptionLines(n.description)
      + BoundsLines(n.interfaces, n.extents)
      + ActionLines(n.interfaces, n.actions)
  }

  /**
   * `print_object(n, level, max_depth)`: the node's own lines, then each
   * child's report at `level + 1`, in child order.
   */
  function Render(n: Node, level: nat, maxDepth: Option<int>): seq<string>
    decreases n
  {
    if Pruned(level, maxDepth) then []
    else NodeLines(n, level) + RenderChildren(n.children, level + 1, maxDepth)
  }

  /**
   * A node prints nothing exactly when it is pruned; otherwise its first
   * line is its header.
   */
  lemma RenderSilentIffPruned(n: Node, level: nat, maxDepth: Option<int>)
    ensures Render(n, level, maxDepth) == [] <==> Pruned(level, maxDepth)
    ensures Render(n, level, maxDepth) != [] ==> Render(n, level, maxDepth)[0] == Header(level, n)
  {
  }

  /** The reports of `children`, one after the other, all at `level`. */
  function RenderChildren(children: seq<Node>, level: nat, maxDepth: Option<int>): seq<string>
    decreases children
  {
    if children == [] then []
    else Render(children[0], level, maxDepth) + RenderChildren(children[1..], level, maxDepth)
  }
}
