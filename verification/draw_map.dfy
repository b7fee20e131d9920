/**
 * The file readers and route bookkeeping of draw_map.py: the route the C
 * engine wrote, the stats file, the green route edges and the printed
 * summary. Drawing itself is not modelled.
 */
module DrawMap {
  import opened Wrappers
  import opened Text
  import opened Routes
  import opened Histogram
  import opened CEngine

  // ----- load_route -----

  /** One line of the route file: its stripped text when that is all digits, as a node; `None` when it is skipped. */
  function RouteEntry(line: string): (r: Option<nat>)
  {
    var t := Strip(line);
    if IsDigits(t) then Some(DigitsValue(t)) else None
  }

  /** The values present, in order. */
  function Present<T>(ps: seq<Option<T>>): (r: seq<T>)
    ensures |r| <= |ps|
  {
    if ps == [] then []
    else Present(ps[..|ps| - 1]) + (if ps[|ps| - 1].Some? then [ps[|ps| - 1].value] else [])
  }

  /** Keeping what is present commutes with concatenation. */
  lemma {:induction false} PresentAppend<T>(a: seq<Option<T>>, b: seq<Option<T>>)
    ensures Present(a + b) == Present(a) + Present(b)
  {
    if b != [] {
      PresentAppend(a, b[..|b| - 1]);
      assert (a + b)[..|a + b| - 1] == a + b[..|b| - 1];
      assert (a + b)[|a + b| - 1] == b[|b| - 1];
    } else {
      assert a + b == a;
    }
  }

  /** With every value present nothing is dropped; with none present nothing is kept. */
  lemma {:induction false} PresentAll<T>(ps: seq<Option<T>>)
    ensures (forall k | 0 <= k < |ps| :: ps[k].Some?) ==>
      |Present(ps)| == |ps| && forall k | 0 <= k < |ps| :: Present(ps)[k] == ps[k].value
    ensures (forall k | 0 <= k < |ps| :: ps[k].None?) ==> Present(ps) == []
  {
    if ps != [] {
      PresentAll(ps[..|ps| - 1]);
    }
  }

  function RouteEntries(lines: seq<string>): (es: seq<Option<nat>>)
    ensures |es| == |lines|
  {
    seq(|lines|, k requires 0 <= k < |lines| => RouteEntry(lines[k]))
  }

  /** `load_route`: every line whose stripped text is all digits becomes a node; every other line is skipped. */
  function LoadRoute(lines: seq<string>): (route: seq<nat>)
    ensures |route| <= |lines|
  {
    Present(RouteEntries(lines))
  }

  /** Reading two files one after the other gives the two routes one after the other. */
  lemma LoadRouteAppend(a: seq<string>, b: seq<string>)
    ensures LoadRoute(a + b) == LoadRoute(a) + LoadRoute(b)
  {
    RouteEntriesAppend(a, b);
    PresentAppend(RouteEntries(a), RouteEntries(b));
  }

  lemma RouteEntriesAppend(a: seq<string>, b: seq<string>)
    ensures RouteEntries(a + b) == RouteEntries(a) + RouteEntries(b)
  {
    forall k | 0 <= k < |a + b| ensures RouteEntries(a + b)[k] == (RouteEntries(a) + RouteEntries(b))[k] {
      if k < |a| {
        assert (a + b)[k] == a[k];
      } else {
        assert (a + b)[k] == b[k - |a|];
      }
    }
  }

  /** A line whose stripped text has a non-digit at `i`, or is empty, is skipped. */
  lemma SkippedLine(t: string, i: nat)
    requires t == [] || (i < |t| && !IsDigit(t[i]) && !IsSpace(t[0]) && !IsSpace(t[|t| - 1]))
    ensures RouteEntry(t + "\n") == None
  {
    assert [] + t + "\n" == t + "\n";
    StripOf([], t, "\n");
  }

  /** A negative number, a decimal, two numbers on a line and a blank line are all skipped. */
  lemma SkippedLines()
    ensures LoadRoute(["-3\n", "1.5\n", "3 4\n", "\n"]) == []
  {
    var ls: seq<string> := ["-3\n", "1.5\n", "3 4\n", "\n"];
    var es := RouteEntries(ls);
    SkippedLine("-3", 0);
    SkippedLine("1.5", 1);
    SkippedLine("3 4", 1);
    SkippedLine([], 0);
    assert es == [None, None, None, None];
    PresentAll(es);
  }

  /** `fprintf(f, "%d\n", route[i])` for one node. */
  function RouteLine(v: nat): string
  {
    NatText(v) + "\n"
  }

  /** The lines the route writer prints. */
  function RouteLines(route: seq<nat>): (ls: seq<string>)
    ensures |ls| == |route|
  {
    seq(|route|, k requires 0 <= k < |route| => RouteLine(route[k]))
  }

  /** Each written line is kept, as its node. */
  lemma RouteLineRead(v: nat)
    ensures RouteEntry(RouteLine(v)) == Some(v)
  {
    var t := NatText(v);
    assert RouteLine(v) == [] + t + "\n";
    StripOf([], t, "\n");
    NatTextValue(v);
  }

  /** A route written one node per line reads back as the same route. */
  lemma RouteRoundTrip(route: seq<nat>)
    ensures LoadRoute(RouteLines(route)) == route
  {
    var es := RouteEntries(RouteLines(route));
    forall k | 0 <= k < |route| ensures es[k] == Some(route[k]) {
      RouteLineRead(route[k]);
    }
    PresentAll(es);
  }

  /** The same through the file text: splitting it into lines first changes nothing. */
  lemma RouteFileRoundTrip(route: seq<nat>)
    ensures LoadRoute(Lines(Concat(RouteLines(route)))) == route
  {
    var ls := RouteLines(route);
    forall k | 0 <= k < |ls| ensures IsLine(ls[k]) {
      assert ls[k] == NatText(route[k]) + "\n";
    }
    LinesConcat(ls);
    RouteRoundTrip(route);
  }

  // ----- load_stats -----

  /** What `load_stats` does with one line. */
  datatype StatStep = Skip | Entry(key: string, value: string) | Stop

  /** A line without `:` is skipped; one that splits on `:` into two parts is an entry; any other raises and ends the load. */
  function StatStepOf(line: string): (s: StatStep)
    ensures s.Skip? <==> ':' !in line
  {
    if ':' !in line then Skip
    else
      var parts := SplitOn(Strip(line), ":");
      if |parts| == 2 then Entry(Strip(parts[0]), Strip(parts[1]))
      else Stop
  }

  /** The dict built so far, and whether the loop is still running. */
  function LoadStatsRun(lines: seq<string>): (r: (map<string, string>, bool))
  {
    if lines == [] then (map[], true)
    else
      var (m, running) := LoadStatsRun(lines[..|lines| - 1]);
      if !running then (m, false)
      else
        match StatStepOf(lines[|lines| - 1])
          case Skip => (m, true)
          case Entry(k, v) => (m[k := v], true)
          case Stop => (m, false)
  }

  /**
   * `load_stats`: a missing file gives `{}`; otherwise the entries read
   * before the first line that raises, which the handler keeps.
   */
  function LoadStats(file: Option<seq<string>>): (stats: map<string, string>)
    ensures file.None? ==> stats == map[]
  {
    if file.None? then map[] else LoadStatsRun(file.value).0
  }

  /** Once a line raises, nothing after it is read: the result is what the lines before it gave. */
  lemma {:induction false} LoadStatsStops(lines: seq<string>, k: nat)
    requires k < |lines| && StatStepOf(lines[k]).Stop?
    ensures LoadStats(Some(lines)) == LoadStatsRun(lines[..k]).0
    ensures !LoadStatsRun(lines).1
  {
    if k < |lines| - 1 {
      assert lines[..|lines| - 1][k] == lines[k];
      assert lines[..|lines| - 1][..k] == lines[..k];
      LoadStatsStops(lines[..|lines| - 1], k);
    } else {
      assert lines[..|lines| - 1] == lines[..k];
    }
  }

  /** Lines without `:` leave the stats as they were. */
  lemma SkippedStatLine(lines: seq<string>, line: string)
    requires ':' !in line
    ensures LoadStatsRun(lines + [line]) == LoadStatsRun(lines)
  {
    assert (lines + [line])[..|lines|] == lines;
  }

  /** Stripping a written stats line drops only its line break. */
  lemma StripStatLine(key: string, value: string)
    requires PlainField(key) && PlainField(value)
    ensures Strip(StatLine(key, value)) == key + ":" + (" " + value)
  {
    var body := key + ":" + (" " + value);
    assert StatLine(key, value) == [] + body + "\n";
    StripOf([], body, "\n");
  }

  /** The two sides of the `:`, each stripped, are the key and the value. */
  lemma StatSides(key: string, value: string)
    requires PlainField(key) && PlainField(value)
    ensures SplitOn(key + ":" + (" " + value), ":") == [key, " " + value]
    ensures Strip(key) == key && Strip(" " + value) == value
  {
    SplitOnPair(key, " " + value, ":");
    assert [] + key + [] == key;
    StripOf([], key, []);
    assert " " + value + [] == " " + value;
    StripOf(" ", value, []);
  }

  /** One line the C writer prints is an entry of its key and value. */
  lemma StatStepOfLine(key: string, value: string)
    requires PlainField(key) && PlainField(value)
    ensures StatStepOf(StatLine(key, value)) == Entry(key, value)
  {
    assert StatLine(key, value)[|key|] == ':';
    StripStatLine(key, value);
    StatSides(key, value);
  }

  /** The lines for a sequence of stats entries. */
  function StatLines(entries: seq<(string, string)>): (ls: seq<string>)
    ensures |ls| == |entries|
  {
    seq(|entries|, k requires 0 <= k < |entries| => StatLine(entries[k].0, entries[k].1))
  }

  /** draw_map reads the C engine's stats lines as the same assignments. */
  lemma {:induction false} StatsRead(entries: seq<(string, string)>)
    requires forall k | 0 <= k < |entries| :: PlainField(entries[k].0) && PlainField(entries[k].1)
    ensures LoadStatsRun(StatLines(entries)) == (Assign(entries), true)
  {
    if entries != [] {
      var pre := entries[..|entries| - 1];
      assert StatLines(entries)[..|entries| - 1] == StatLines(pre);
      StatsRead(pre);
      StatStepOfLine(entries[|entries| - 1].0, entries[|entries| - 1].1);
    }
  }

  /** Both readers agree on a stats file the C engine wrote: the histogram's `: ` split and draw_map's `:` split give the same map. */
  lemma StatsReadersAgree(entries: seq<(string, string)>)
    requires forall k | 0 <= k < |entries| :: PlainField(entries[k].0) && PlainField(entries[k].1)
    ensures LoadRouteStats(StatLines(entries)) == Some(LoadStats(Some(StatLines(entries))))
  {
    StatsRead(entries);
    StatsRoundTrip(entries);
    assert StatLines(entries) == seq(|entries|, k requires 0 <= k < |entries| => StatLine(entries[k].0, entries[k].1));
  }

  // ----- route edges, title and summary -----

  /** `list(zip(route, route[1:]))` when the route has more than one node, else no edges. */
  function RouteEdges(route: seq<nat>): (edges: seq<(nat, nat)>)
    ensures |edges| == if |route| <= 1 then 0 else |route| - 1
  {
    if |route| <= 1 then [] else seq(|route| - 1, k requires 0 <= k < |route| - 1 => (route[k], route[k + 1]))
  }

  /** How often the pair `(u, v)` appears among the edges. */
  function Occurrences(edges: seq<(nat, nat)>, u: nat, v: nat): nat
  {
    if edges == [] then 0
    else Occurrences(edges[..|edges| - 1], u, v) + (if edges[|edges| - 1] == (u, v) then 1 else 0)
  }

  /** The edges among the first `k` nodes are the first `k - 1` edges. */
  lemma {:induction false} EdgesCountedPrefix(route: Route, k: nat, u: nat, v: nat)
    requires 1 <= k <= |route|
    ensures Occurrences(RouteEdges(route)[..k - 1], u, v) == EdgeCount(route, k, u, v)
  {
    if k > 1 {
      EdgesCountedPrefix(route, k - 1, u, v);
      var es := RouteEdges(route);
      assert es[..k - 1][..k - 2] == es[..k - 2];
    }
  }

  /** The green edges are exactly the edges the C engine counts into its visit matrix, each as often. */
  lemma EdgesCounted(route: Route, u: nat, v: nat)
    ensures Occurrences(RouteEdges(route), u, v) == EdgeCount(route, |route|, u, v)
  {
    if |route| >= 1 {
      EdgesCountedPrefix(route, |route|, u, v);
      assert RouteEdges(route)[..|route| - 1] == RouteEdges(route);
    }
  }

  /** The node and edge counts in the plot title; `None` for the "No Route" title. */
  function TitleCounts(route: seq<nat>): (r: Option<(nat, nat)>)
    ensures r.None? <==> route == []
    ensures r.Some? ==> r.value.0 == |route| && r.value.1 + 1 == r.value.0
  {
    if route == [] then None else Some((|route|, |RouteEdges(route)|))
  }

  /** A complete route of the C engine over `n >= 1` nodes is titled with `n` nodes and `n - 1` edges. */
  lemma TitleOfTour(route: Route, n: nat)
    requires n >= 1 && IsPermutation(route, n)
    ensures TitleCounts(route) == Some((n, n - 1))
  {
  }

  /** What `print_route_summary` prints for the route: all of it, or its first and last three nodes around `...`. */
  datatype Summary = Whole(nodes: seq<nat>) | Abbreviated(first: seq<nat>, last: seq<nat>)

  function RouteSummary(route: seq<nat>): (s: Summary)
    ensures s.Abbreviated? <==> |route| > 6
    ensures s.Whole? ==> s.nodes == route
    ensures s.Abbreviated? ==> |s.first| == 3 && |s.last| == 3
    ensures s.Abbreviated? ==> s.first + route[3..|route| - 3] + s.last == route
  {
    if |route| > 6 then
      var r := Abbreviated(route[..3], route[|route| - 3..]);
      assert route[..3] + route[3..|route| - 3] + route[|route| - 3..] == route;
      r
    else Whole(route)
  }

  /** The abbreviation hides at least one node, and never shows a node twice for a route without repeats. */
  lemma SummaryHidesSome(route: seq<nat>)
    requires |route| > 6
    ensures |route| - |RouteSummary(route).first| - |RouteSummary(route).last| >= 1
    ensures Distinct(route) ==> Distinct(RouteSummary(route).first + RouteSummary(route).last)
  {
    var s := RouteSummary(route);
    var shown := s.first + s.last;
    if Distinct(route) {
      forall i, j | 0 <= i < j < |shown| ensures shown[i] != shown[j] {
        var p := if i < 3 then i else |route| - 6 + i;
        var q := if j < 3 then j else |route| - 6 + j;
        assert shown[i] == route[p] && shown[j] == route[q];
      }
    }
  }
}
