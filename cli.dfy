/**
 * The decision logic of `main`: picking the tree to dump (the whole
 * desktop or the first application with the requested name), numbering
 * the applications in list mode, and the focus-event handler that filters
 * events, counts the qualifying ones and asks the event loop to stop.
 *
 * The desktop is a `Node` whose children are the applications; what is
 * printed is returned (or, for the handler, accumulated) as lines.
 */
module Cli {
  import opened Wrappers
  import opened Text
  import opened Reporter

  const NotFoundPrefix := "Could not find application "

  // ---------------------------------------------------------------------
  // Dump mode

  /**
   * The lookup loop: the index of the first application named `appName`,
   * or `None` when no application has that name.
   */
  method FindApplication(apps: seq<Node>, appName: string) returns (found: Option<nat>)
    ensures found.Some? ==> found.value < |apps| && apps[found.value].name == appName
    ensures found.Some? ==> forall k :: 0 <= k < found.value ==> apps[k].name != appName
    ensures found.None? <==> forall k :: 0 <= k < |apps| ==> apps[k].name != appName
  {
    found := None;
    var idx := 0;
    while idx < |apps|
      invariant 0 <= idx <= |apps|
      invariant found.None?
      invariant forall k :: 0 <= k < idx ==> apps[k].name != appName
    {
      if apps[idx].name == appName {
        found := Some(idx);
        break;
      }
      idx := idx + 1;
    }
  }

  /**
   * Dump mode: without an application name the whole desktop is reported
   * from level 0; with one, the first application of that name is, and
   * when there is none the only output is the not-found line.
   */
  method Dump(desktop: Node, appName: string, maxDepth: Option<int>) returns (output: seq<string>)
    ensures appName == "" ==> output == Render(desktop, 0, maxDepth)
    ensures (appName != "" && forall k :: 0 <= k < |desktop.children| ==> desktop.children[k].name != appName)
              ==> output == [NotFoundPrefix + appName]
    ensures forall i :: 0 <= i < |desktop.children| && appName != "" && desktop.children[i].name == appName
                          && (forall k :: 0 <= k < i ==> desktop.children[k].name != appName)
              ==> output == Render(desktop.children[i], 0, maxDepth)
  {
    if appName == "" {
      output := Render(desktop, 0, maxDepth);
    } else {
      var apps := desktop.children;
      var found := FindApplication(apps, appName);
      if found.None? {
        output := [NotFoundPrefix + appName];
      } else {
        var i := found.value;
        assert forall k :: (0 <= k < |apps| && apps[k].name == appName
                              && forall m :: 0 <= m < k ==> apps[m].name != appName) ==> k == i;
        output := Render(apps[i], 0, maxDepth);
      }
    }
  }

  // ---------------------------------------------------------------------
  // List mode

  /** The list-mode line of the application at 0-based index `index`. */
  function ListLine(index: nat, name: string): string
  {
    NatToString(index + 1) + ": " + name
  }

  /** List mode: one line per application, numbered from 1, in desktop order. */
  method ListApps(desktop: Node) returns (output: seq<string>)
    ensures |output| == |desktop.children|
    ensures forall i :: 0 <= i < |output| ==> output[i] == ListLine(i, desktop.children[i].name)
  {
    output := [];
    var idx := 0;
    while idx < |desktop.children|
      invariant 0 <= idx <= |desktop.children|
      invariant |output| == idx
      invariant forall i :: 0 <= i < idx ==> output[i] == ListLine(i, desktop.children[i].name)
    {
      output := output + [ListLine(idx, desktop.children[idx].name)];
      idx := idx + 1;
    }
  }

  /** The length of the run of digits at the start of `s`. */
  function DigitRun(s: string): nat
  {
    if s == [] || !IsDigit(s[0]) then 0 else 1 + DigitRun(s[1..])
  }

  /** A number followed by a colon: the digit run is exactly the number. */
  lemma {:induction false} DigitRunBeforeColon(digits: string, rest: string)
    requires AllDigits(digits)
    ensures DigitRun(digits + (":" + rest)) == |digits|
  {
    if digits != [] {
      assert (digits + (":" + rest))[1..] == digits[1..] + (":" + rest);
      DigitRunBeforeColon(digits[1..], rest);
    }
  }

  /**
   * The number in front of a list line identifies the application: two
   * lines for different positions differ even when the names coincide.
   */
  lemma ListLinesDistinct(i: nat, j: nat, a: string, b: string)
    requires ListLine(i, a) == ListLine(j, b)
    ensures i == j
  {
    var si, sj := NatToString(i + 1), NatToString(j + 1);
    var line := ListLine(i, a);
    assert line == si + (":" + (" " + a)) && line == sj + (":" + (" " + b));
    DigitRunBeforeColon(si, " " + a);
    DigitRunBeforeColon(sj, " " + b);
    assert si == line[..|si|] == sj;
    NatToStringInjective(i + 1, j + 1);
  }

  /** Three applications named A, B and C are listed as `1: A`, `2: B`, `3: C`. */
  method ListAppsScenario(desktop: Node) returns (output: seq<string>)
    requires |desktop.children| == 3
    requires desktop.children[0].name == "A" && desktop.children[1].name == "B" && desktop.children[2].name == "C"
    ensures output == ["1: A", "2: B", "3: C"]
  {
    output := ListApps(desktop);
    assert NatToString(1) == "1" && NatToString(2) == "2" && NatToString(3) == "3";
    assert output[0] == ListLine(0, "A") == "1: A";
    assert output[1] == ListLine(1, "B") == "2: B";
    assert output[2] == ListLine(2, "C") == "3: C";
  }

  // ---------------------------------------------------------------------
  // Focus mode

  /**
   * A focus notification: its source object, the name of the application
   * the source belongs to, and the `detail1` flag (non-zero when the
   * object gained focus).
   */
  datatype FocusEvent = FocusEvent(source: Node, appName: string, detail1: int)

  /** An event the handler reports: from the wanted application (if one is named) and a gain of focus. */
  predicate Qualifies(evt: FocusEvent, appName: string)
  {
    (appName == "" || evt.appName == appName) && evt.detail1 != 0
  }

  /** How many of `events` qualify. */
  function CountQualifying(events: seq<FocusEvent>, appName: string): nat
  {
    if events == [] then 0
    else CountQualifying(events[..|events| - 1], appName) + (if Qualifies(events[|events| - 1], appName) then 1 else 0)
  }

  /** The reports of the qualifying `events`, each rooted at the event's source at level 1. */
  function Reports(events: seq<FocusEvent>, appName: string, maxDepth: Option<int>): seq<string>
  {
    if events == [] then []
    else
      var last := events[|events| - 1];
      Reports(events[..|events| - 1], appName, maxDepth)
        + (if Qualifies(last, appName) then Render(last.source, 1, maxDepth) else [])
  }

  /** Delivering one more event: the count and the reports grow by that event's share. */
  lemma DeliverOne(events: seq<FocusEvent>, appName: string, maxDepth: Option<int>, i: nat)
    requires i < |events|
    ensures CountQualifying(events[..i + 1], appName)
         == CountQualifying(events[..i], appName) + (if Qualifies(events[i], appName) then 1 else 0)
    ensures Reports(events[..i + 1], appName, maxDepth)
         == Reports(events[..i], appName, maxDepth)
            + (if Qualifies(events[i], appName) then Render(events[i].source, 1, maxDepth) else [])
  {
    assert events[..i + 1][..i] == events[..i];
  }

  /** With a depth bound of 0, focus mode prints no report at all, since reports start at level 1. */
  lemma {:induction false} DepthZeroFocusReportsNothing(events: seq<FocusEvent>, appName: string)
    ensures Reports(events, appName, Some(0)) == []
  {
    if events != [] {
      DepthZeroFocusReportsNothing(events[..|events| - 1], appName);
      RenderSilentIffPruned(events[|events| - 1].source, 1, Some(0));
    }
  }

  /**
   * Along the delivered events the count never falls and rises by at most
   * one per event: a run that stops on reaching a target stops at the
   * first prefix that reaches it.
   */
  lemma {:induction false} CountQualifyingPrefixes(events: seq<FocusEvent>, appName: string, i: nat, j: nat)
    requires i <= j <= |events|
    ensures CountQualifying(events[..i], appName) <= CountQualifying(events[..j], appName)
    ensures CountQualifying(events[..j], appName) <= CountQualifying(events[..i], appName) + (j - i)
  {
    if i < j {
      CountQualifyingPrefixes(events, appName, i, j - 1);
      assert events[..j][..j - 1] == events[..j - 1];
    }
  }

  /**
   * The handler and its `num_events` counter.  `quitRequested` records the
   * call to `event_quit`; the event loop delivers nothing after it.
   */
  class FocusWatcher {
    const appName: string
    const maxDepth: Option<int>
    const numFocusEvents: int
    var numEvents: int
    var output: seq<string>
    var quitRequested: bool

    constructor (appName: string, maxDepth: Option<int>, numFocusEvents: int)
      ensures this.appName == appName && this.maxDepth == maxDepth && this.numFocusEvents == numFocusEvents
      ensures numEvents == 0 && output == [] && !quitRequested
    {
      this.appName := appName;
      this.maxDepth := maxDepth;
      this.numFocusEvents := numFocusEvents;
      numEvents := 0;
      output := [];
      quitRequested := false;
    }

    /**
     * `handler(evt)`: an event from another application, or one that is
     * not a gain of focus, changes nothing; a qualifying event is counted,
     * its source's subtree is reported from level 1, and quitting is
     * requested when the count reaches `numFocusEvents`.
     */
    method Handle(evt: FocusEvent)
      modifies this
      ensures Qualifies(evt, appName) ==>
                && numEvents == old(numEvents) + 1
                && output == old(output) + Render(evt.source, 1, maxDepth)
                && quitRequested == (old(quitRequested) || numEvents == numFocusEvents)
      ensures !Qualifies(evt, appName) ==>
                numEvents == old(numEvents) && output == old(output) && quitRequested == old(quitRequested)
    {
      if appName != "" && evt.appName != appName {
        return;
      }
      if evt.detail1 == 0 {
        return;
      }
      numEvents := numEvents + 1;
      output := output + Render(evt.source, 1, maxDepth);
      if numEvents == numFocusEvents {
        quitRequested := true;
      }
    }

    /**
     * The event loop from registration on: events are handed to the
     * handler in order until it asks to quit.  The counter equals the
     * number of qualifying events delivered and never passes a positive
     * `numFocusEvents`; the loop stops exactly when that many qualifying
     * events have been seen, right after the last of them, and otherwise
     * runs through every event.
     */
    method Run(events: seq<FocusEvent>) returns (delivered: nat)
      requires numEvents == 0 && output == [] && !quitRequested
      modifies this
      ensures delivered <= |events|
      ensures numEvents == CountQualifying(events[..delivered], appName)
      ensures output == Reports(events[..delivered], appName, maxDepth)
      ensures quitRequested <==> numFocusEvents >= 1 && numEvents == numFocusEvents
      ensures numFocusEvents >= 1 ==> numEvents <= numFocusEvents
      ensures !quitRequested ==> delivered == |events|
      ensures quitRequested ==> delivered >= 1 && Qualifies(events[delivered - 1], appName)
      ensures numFocusEvents >= 1 ==>
                forall k :: 0 <= k < delivered ==> CountQualifying(events[..k], appName) < numFocusEvents
    {
      delivered := 0;
      while delivered < |events| && !quitRequested
        invariant delivered <= |events|
        invariant numEvents == CountQualifying(events[..delivered], appName)
        invariant output == Reports(events[..delivered], appName, maxDepth)
        invariant quitRequested <==> numFocusEvents >= 1 && numEvents == numFocusEvents
        invariant numFocusEvents >= 1 ==> numEvents <= numFocusEvents
        invariant quitRequested ==> delivered >= 1 && Qualifies(events[delivered - 1], appName)
        invariant numEvents >= 0
        invariant numFocusEvents >= 1 ==>
                    forall k :: 0 <= k < delivered ==> CountQualifying(events[..k], appName) < numFocusEvents
      {
        var evt := events[delivered];
        DeliverOne(events, appName, maxDepth, delivered);
        assert numFocusEvents >= 1 ==> CountQualifying(events[..delivered], appName) < numFocusEvents;
        Handle(evt);
        delivered := delivered + 1;
      }
    }
  }

  /** The events of the scenario below: focus gains in `Foo`, `Bar`, `Foo`, `Foo`. */
  function FooBarFooFoo(foo: Node, bar: Node): seq<FocusEvent>
  {
    [FocusEvent(foo, "Foo", 1), FocusEvent(bar, "Bar", 1), FocusEvent(foo, "Foo", 1), FocusEvent(foo, "Foo", 1)]
  }

  /**
   * Filtering on `Foo`, the running count over the prefixes of the
   * scenario's events is 1, 1, 2, 3, and the first three events yield
   * two reports, both rooted at the `Foo` object.
   */
  lemma FooBarFooFooCounts(foo: Node, bar: Node)
    ensures var events := FooBarFooFoo(foo, bar);
            && CountQualifying(events[..1], "Foo") == 1
            && CountQualifying(events[..2], "Foo") == 1
            && CountQualifying(events[..3], "Foo") == 2
            && CountQualifying(events[..4], "Foo") == 3
            && Reports(events[..3], "Foo", None) == Render(foo, 1, None) + Render(foo, 1, None)
  {
    var events := FooBarFooFoo(foo, bar);
    var inFoo, inBar := events[0], events[1];
    assert Qualifies(inFoo, "Foo") && !Qualifies(inBar, "Foo");
    assert events[..1] == [inFoo] && events[..1][..0] == [];
    assert events[..2] == [inFoo, inBar] && events[..2][..1] == events[..1];
    assert events[..3] == [inFoo, inBar, inFoo] && events[..3][..2] == events[..2];
    assert events[..4][..3] == events[..3];
    assert Reports(events[..1], "Foo", None) == Render(foo, 1, None);
    assert Reports(events[..2], "Foo", None) == Render(foo, 1, None);
  }

  /**
   * Filtering on application `Foo` and stopping after two events: a focus
   * gain in `Foo`, one in `Bar`, then another in `Foo` yield exactly the
   * two `Foo` reports, and the loop stops after the third event.
   */
  method FocusScenario(foo: Node, bar: Node) returns (output: seq<string>, delivered: nat, quit: bool)
    ensures output == Render(foo, 1, None) + Render(foo, 1, None)
    ensures delivered == 3 && quit
  {
    var watcher := new FocusWatcher("Foo", None, 2);
    var events := FooBarFooFoo(foo, bar);
    delivered := watcher.Run(events);
    FooBarFooFooCounts(foo, bar);
    output, quit := watcher.output, watcher.quitRequested;
  }
}
