# Accessibility tree reporter — a Dafny model

`print_accessibility_tree.py` prints the AT-SPI accessibility tree. It can
print the whole tree reachable from the first desktop, the tree of one
named application, the list of running applications, or the subtree of
each object that gains focus.

This project models the reporter as a pure function from an abstract
object tree to the lines it prints. It models the three decision pieces
of `main` as methods:

- picking the tree to dump;
- numbering the application list;
- the focus handler, which filters events, counts them and stops the loop.

Files:

- `wrappers.dfy`: `Option`.
- `text.dfy`: `', '.join`, character repetition, and decimal rendering of
  integers as f-strings print them, with round-trip lemmas.
- `reporter.dfy`:
  - `repr_object` (`ReprObject`, `DisplayName`) and the header line.
  - Each optional line of `print_object`: states, relations via
    `format_rel` (`FormatRel`), description, bounds, actions.
  - `print_object` itself, as `Render` and `RenderChildren`.
- `report_structure.dfy`: properties of whole reports:
  - which line appears under which condition, and their order (a line is
    classified by its leading marker);
  - header lines are exactly the pre-order walk of the nodes within the
    depth bound;
  - a failing bounds or action retrieval removes only its own line.
- `cli.dfy`:
  - the application lookup loop and dump mode (`FindApplication`, `Dump`);
  - list mode (`ListApps`);
  - the focus handler as a class, `FocusWatcher`. Its `numEvents` counter
    and quit flag are updated by `Handle`. `Run` is the event loop that
    feeds it events until quit is requested.

Modelling choices:

- An object is a `Node` value:
  - role and name; the empty name stands for an absent one;
  - state names;
  - relations, each a type name and its targets' role/name pairs;
  - description;
  - interface names;
  - extents: `None` when `get_extents` raises `NotImplementedError`;
  - actions: `None` for an action whose retrieval raised;
  - children.
- `max_depth` is `Option<int>`; `None` is the unset option.
- `detail1` is an integer. An event counts as a focus gain when it is
  non-zero, which is Python's truth test.
- The header at level 0 is `" " + repr_object(...)`, with a leading space,
  because the code prints `"*" * level + " "` at
  print_accessibility_tree.py:21; see `BareRootScenario`.
- The `States:` line follows the code's truth test on
  `', '.join(...)`. A single empty state name therefore prints no line.
  `StatesLineIffNonEmpty` states the case where no state name is empty:
  then the line appears iff there is a state.
- A non-positive `num_focus_events` never equals the counter after an
  increment, so the loop never stops on its own. `Run` then delivers every
  event.

## Model

| member | source | states |
|---|---|---|
| Reporter.DisplayName | print_accessibility_tree.py:11 | the shown name is never empty; it is the object's own name exactly when that name is non-empty, and `UNNAMED` when it is empty |
| Reporter.ReprObjectDecodes | print_accessibility_tree.py:10-11 | for every role, the representation is the role, one space, then the shown name, so the role's length recovers both |
| Reporter.ReprObjectAmbiguous | print_accessibility_tree.py:10-11 | a role containing a space (`push button`) can print the same text as a shorter role with a longer name |
| Reporter.ReprObjectSplits | print_accessibility_tree.py:10-11 | for a role without spaces, splitting the representation at its first space gives back the role and the shown name |
| Reporter.HeaderShape | print_accessibility_tree.py:21 | a header has exactly `level` leading asterisks, then one space, then the representation of the object |
| Reporter.RenderSilentIffPruned | print_accessibility_tree.py:19-21 | a node prints nothing iff a depth bound is set and its level exceeds it; otherwise its first line is its header |
| Reporter.StatesLineIff | print_accessibility_tree.py:22-23 | a `States:` line with the comma-joined state names appears iff that join is non-empty |
| Reporter.StatesLineIffNonEmpty | print_accessibility_tree.py:22-23 | when no state name is empty, there is one `States:` line iff there is at least one state |
| Reporter.FormatRelAppendTarget | print_accessibility_tree.py:16-18 | one more target extends a relation's description by `, ` and that target's representation, so targets appear in index order |
| Reporter.RelationsLineIff | print_accessibility_tree.py:24-25 | a `Relations:` line, joining each relation's description with `, `, appears iff there is at least one relation |
| Reporter.ActionLinesCount | print_accessibility_tree.py:34-40 | there is exactly one action line per action whose retrieval succeeded |
| Reporter.ActionLinesSplit | print_accessibility_tree.py:36-38 | the action lines of a concatenation are those of each part, the second numbered on from where the first ends |
| Reporter.ActionLineAt | print_accessibility_tree.py:36-38 | a retrievable action at index j yields its line, numbered j+1, between the lines of the actions before and after it |
| Reporter.ActionLineDropped | print_accessibility_tree.py:37-40 | an action whose retrieval fails leaves the lines before and after it, with their numbers, side by side |
| Reporter.ActionFailureIsolated | print_accessibility_tree.py:34-40 | making one action fail removes its line and leaves every other action line and number unchanged |
| ReportStructure.KindOfHeader | print_accessibility_tree.py:21 | a header line is recognised as a header by its first character |
| ReportStructure.StatesKinds | print_accessibility_tree.py:22-23 | the states facet yields one `States:` line iff the states are shown, otherwise none |
| ReportStructure.RelationsKinds | print_accessibility_tree.py:24-25 | the relations facet yields one `Relations:` line iff there is a relation |
| ReportStructure.DescriptionKinds | print_accessibility_tree.py:26-27 | the description facet yields one `Description:` line iff the description is non-empty |
| ReportStructure.BoundsKinds | print_accessibility_tree.py:28-33 | an `Object bounds:` line appears iff `Component` is offered and the extents were retrieved |
| ReportStructure.ActionLinesKinds | print_accessibility_tree.py:34-40 | the action lines are all `Action` lines, as many as the retrievable actions |
| ReportStructure.FacetLineKinds | print_accessibility_tree.py:22-40 | after the header come states, relations, description, bounds, then actions, each present exactly under its own condition |
| ReportStructure.NodeLineKinds | print_accessibility_tree.py:21-40 | a node's own lines are its header followed by its facet lines in that fixed order |
| ReportStructure.NoHeaderAmongFacets | print_accessibility_tree.py:22-40 | no facet line is taken for a header |
| ReportStructure.NodeHeaderLines | print_accessibility_tree.py:21-40 | among a node's own lines, the only header is its own |
| ReportStructure.RenderHeaders | print_accessibility_tree.py:19-43 | the header lines of a report are, in pre-order, the headers of exactly the nodes whose level is within the depth bound |
| ReportStructure.RenderChildrenHeaders | print_accessibility_tree.py:41-43 | the header lines of the children's reports are the pre-order headers of the descendants within the depth bound |
| ReportStructure.UnboundedHeaders | print_accessibility_tree.py:19-43 | without a depth bound every node in the tree prints exactly one header line, in pre-order |
| ReportStructure.ChildrenPruned | print_accessibility_tree.py:19-20 | children beyond the depth bound print nothing, with all their subtrees |
| ReportStructure.DepthZeroShowsOnlyRoot | print_accessibility_tree.py:19-43 | with `max_depth` 0 a dump from level 0 is the root's own lines and nothing from its children |
| ReportStructure.FacetsAroundBounds | print_accessibility_tree.py:22-40 | a node's facet lines with and without extents differ only by the bounds line between description and actions |
| ReportStructure.BoundsFailureIsolated | print_accessibility_tree.py:28-33 | when the extents call fails only the bounds line is missing; the header, other facets, actions and children are unchanged |
| ReportStructure.FacetsAroundAction | print_accessibility_tree.py:22-40 | a node's facet lines with and without action j differ only by that action's line |
| ReportStructure.ActionFailureIsolatedInReport | print_accessibility_tree.py:34-43 | when one action fails only its line is missing from the report; everything before and after it, children included, is unchanged |
| ReportStructure.BareRootScenario | print_accessibility_tree.py:21 | a nameless leaf root without states, relations, description, bounds or actions prints exactly the line `" {role} UNNAMED"` |
| Text.JoinIsEmpty | print_accessibility_tree.py:22 | with a non-empty separator, a join is empty iff there is nothing to join or only one empty part |
| Text.JoinAppend | print_accessibility_tree.py:18 | joining two non-empty lists is joining each and putting the separator between them |
| Text.NatToStringRoundTrip | print_accessibility_tree.py:75 | the decimal rendering of a natural number reads back as that number |
| Text.NatToStringInjective | print_accessibility_tree.py:38 | different numbers render differently |
| Text.IntToStringRoundTrip | print_accessibility_tree.py:31 | `str` of an integer, as the f-string prints each of the bounds numbers: a minus sign for negatives, and the rendering reads back as that integer (the bounds line as a whole is not parsed back) |
| Cli.FindApplication | print_accessibility_tree.py:82-87 | the result is the index of the first application with the given name, and it is `None` iff no application has that name |
| Cli.Dump | print_accessibility_tree.py:76-92 | with no name the desktop is reported from level 0; with a name, the first matching application is, and with no match the only line is `Could not find application {name}` |
| Cli.ListApps | print_accessibility_tree.py:72-75 | one line `{i+1}: {name}` per application, in desktop order |
| Cli.ListLinesDistinct | print_accessibility_tree.py:75 | two list lines are equal only for the same position, whatever the names |
| Cli.ListAppsScenario | print_accessibility_tree.py:72-75 | applications A, B, C are listed as `1: A`, `2: B`, `3: C` |
| Cli.DepthZeroFocusReportsNothing | print_accessibility_tree.py:65 | in focus mode with `max_depth` 0 no event produces any line |
| Cli.DeliverOne | print_accessibility_tree.py:60-65 | delivering one more event adds 1 to the count and its source's level-1 report to the output exactly when it qualifies |
| Cli.CountQualifyingPrefixes | print_accessibility_tree.py:60-66 | along the events the count never falls and rises by at most one per event, so it reaches a target at a first prefix |
| Cli.FocusWatcher.constructor | print_accessibility_tree.py:57 | the counter starts at 0, with no output and no quit request |
| Cli.FocusWatcher.Handle | print_accessibility_tree.py:58-66 | an event from another application or without a focus gain changes nothing; a qualifying one increments the counter, appends its source's report from level 1, and requests quit when the counter reaches the target |
| Cli.FocusWatcher.Run | print_accessibility_tree.py:57-69 | the counter is the number of qualifying events delivered and the output their reports; quit is requested iff a positive target is reached; the counter never exceeds a positive target; the loop stops right after the qualifying event that reaches it, every shorter prefix being below the target, and otherwise delivers every event |
| Cli.FooBarFooFooCounts | print_accessibility_tree.py:60-66 | filtering on `Foo`, the events Foo, Bar, Foo, Foo give running counts 1, 1, 2, 3, and the first three give two reports of the `Foo` object |
| Cli.FocusScenario | print_accessibility_tree.py:57-69 | with target 2 and filter `Foo`, the loop stops after the third event, having printed the two `Foo` reports |

## Left out

- The AT-SPI library is not part of this model. Desktop and child access,
  role, name, state and relation queries, interface lookups, `get_extents`
  and the action accessors are replaced by the fields of `Node`. The
  listener registration, `event_main` and `event_quit` are replaced by the
  event sequence given to `Run` and its quit flag.
- Option parsing with `click` and the `__main__` entry point
  (print_accessibility_tree.py:45-51, 94-95) are not modelled. The mode and
  option values are parameters.
- Printing to standard output is modelled as returned or accumulated lines.
- The "Waiting for a focus event" banners (print_accessibility_tree.py:53-56)
  are not modelled.
- The `print_up_to_root` branch (print_accessibility_tree.py:14-15) is not
  modelled. It calls `up_to_root`, which the file does not define; no
  caller passes the flag, and the recursive call drops it.
- Exceptions from `get_extents` other than `NotImplementedError` are not
  modelled: they propagate and abort the report. So are failures of
  `get_action_iface` or `get_n_actions`, which are outside the per-action
  `try`.
- Every other accessor failure propagates and aborts the report in the
  code, and the model cannot express it. This covers `get_role_name` and
  `get_name` (:11), `get_target` (:17), `get_state_set` (:22),
  `get_relation_set` (:24), `get_description` (:26), `get_interfaces`
  (:28, :34), a `None` child from `get_child_at_index` (:42-43) and
  `get_application` in the handler (:60). So does exceeding Python's
  recursion limit on a very deep or cyclic live tree without a depth
  bound: a `Node` is finite and acyclic.
- A model line is one `print` argument. A name, description, state or
  relation text holding a newline prints several physical lines, and one
  of them may start with `*` or a space. `Kind`, `RenderHeaders` and the
  other line-kind results are about print calls, not physical lines of
  standard output.
- Reporter.ReprObjectSplits: splits at the first space, which recovers the
  role only when it has no space. Real role names often do (`push button`,
  `menu item`); `ReprObjectDecodes` states the decoding for every role
  given the role's length, and `ReprObjectAmbiguous` shows that the text
  alone is ambiguous.
- Reporter.ActionLine: an action whose `get_name` returns `None` is
  printed as `None`, since that field has no fallback. In the model `name`
  is the printed text, so such an action is modelled with name `None`.
- The deprecation-warning filter and the unused `time` import are not
  modelled.
- Cli.ListApps: an application whose `get_name()` returns `None` is printed
  as `None` by the f-string. In the model an absent name is the empty
  string, so its line ends after `: `.
- Cli.FocusWatcher.Run: models the event loop as delivering nothing after
  quit is requested. Real AT-SPI may already have queued events, and
  handler order and threading in the library are not modelled.
