/**
 * The report side of generate_histogram.py: reading `node_visits.txt` into a
 * dense array, reading `route_stats.txt`, the total/most/least statistics
 * and the top-5 ranking. The per-node fold itself is `VisitFold`.
 */
module Histogram {
  import opened Wrappers
  import opened Sums
  import opened Text
  import opened VisitFold
  import opened Routes

  // ----- load_node_visits -----

  /** One line `"<node> <count>"`: exactly two whitespace-separated integers, else the unpacking fails. */
  function ParseVisitLine(line: string): (r: Option<(int, int)>)
  {
    VisitFields(Words(Strip(line)))
  }

  /** `node_id, visits = map(int, words)`: two words, both integers. */
  function VisitFields(ws: seq<string>): (r: Option<(int, int)>)
    ensures r.Some? <==> |ws| == 2 && ParseInt(ws[0]).Some? && ParseInt(ws[1]).Some?
  {
    if |ws| == 2 && ParseInt(ws[0]).Some? && ParseInt(ws[1]).Some? then
      Some((ParseInt(ws[0]).value, ParseInt(ws[1]).value))
    else None
  }

  /** Each line's parse, in file order. */
  function ParseEach(lines: seq<string>): (ps: seq<Option<(int, int)>>)
    ensures |ps| == |lines|
  {
    seq(|lines|, k requires 0 <= k < |lines| => ParseVisitLine(lines[k]))
  }

  /** Every line parsed, or `None` at the first that does not (the exception aborts the whole load). */
  function AllSome<T>(ps: seq<Option<T>>): (r: Option<seq<T>>)
    ensures r.Some? ==> |r.value| == |ps|
  {
    if ps == [] then Some([])
    else
      match ps[0]
        case None => None
        case Some(p) =>
          match AllSome(ps[1..])
            case None => None
            case Some(rest) => Some([p] + rest)
  }

  /** The load gets the parsed values exactly when every line parses, and fails at any line that does not. */
  lemma {:induction false} AllSomeOf<T>(ps: seq<Option<T>>)
    ensures AllSome(ps).Some? <==> forall k | 0 <= k < |ps| :: ps[k].Some?
    ensures AllSome(ps).Some? ==> forall k | 0 <= k < |ps| :: AllSome(ps).value[k] == ps[k].value
  {
    if ps != [] {
      AllSomeOf(ps[1..]);
      assert forall k | 1 <= k < |ps| :: ps[1..][k - 1] == ps[k];
    }
  }

  /** A Python dict from node id to count: pairs in first-insertion order. */
  type Dict = seq<(int, int)>

  function KeySet(d: Dict): set<int>
  {
    if d == [] then {} else {d[0].0} + KeySet(d[1..])
  }

  /** No id appears twice. */
  predicate UniqueKeys(d: Dict)
  {
    d == [] || (d[0].0 !in KeySet(d[1..]) && UniqueKeys(d[1..]))
  }

  /** `d.get(k)`. */
  function Lookup(d: Dict, k: int): (r: Option<int>)
    ensures r.Some? <==> k in KeySet(d)
  {
    if d == [] then None else if d[0].0 == k then Some(d[0].1) else Lookup(d[1..], k)
  }

  /** `d[k] = v`: replaces the value of an existing key in place, or appends a new key. */
  function Put(d: Dict, k: int, v: int): (r: Dict)
    ensures KeySet(r) == KeySet(d) + {k}
    ensures Lookup(r, k) == Some(v)
    ensures forall k' | k' != k :: Lookup(r, k') == Lookup(d, k')
    ensures UniqueKeys(d) ==> UniqueKeys(r)
  {
    if d == [] then [(k, v)]
    else if d[0].0 == k then [(k, v)] + d[1..]
    else [d[0]] + Put(d[1..], k, v)
  }

  /** The ids the parsed lines mention. */
  function Ids(pairs: seq<(int, int)>): set<int>
  {
    if pairs == [] then {} else Ids(pairs[..|pairs| - 1]) + {pairs[|pairs| - 1].0}
  }

  /** The dict after `node_visits[node_id] = visits` for every parsed line in order. */
  function BuildDict(pairs: seq<(int, int)>): (d: Dict)
    ensures UniqueKeys(d) && KeySet(d) == Ids(pairs)
  {
    if pairs == [] then []
    else Put(BuildDict(pairs[..|pairs| - 1]), pairs[|pairs| - 1].0, pairs[|pairs| - 1].1)
  }

  /** Later duplicate ids overwrite earlier ones: an id maps to the count on its last line. */
  lemma {:induction false} BuildDictLast(pairs: seq<(int, int)>, k: int, i: nat)
    requires i < |pairs| && pairs[i].0 == k
    requires forall j | i < j < |pairs| :: pairs[j].0 != k
    ensures Lookup(BuildDict(pairs), k) == Some(pairs[i].1)
  {
    if i < |pairs| - 1 {
      BuildDictLast(pairs[..|pairs| - 1], k, i);
    }
  }

  /** Every parsed id is a key, and every key is a parsed id within any bounds the ids keep. */
  lemma {:induction false} IdsWithin(pairs: seq<(int, int)>, lo: int, hi: int)
    requires forall i | 0 <= i < |pairs| :: lo <= pairs[i].0 < hi
    ensures forall x | x in Ids(pairs) :: lo <= x < hi
    ensures forall i | 0 <= i < |pairs| :: pairs[i].0 in Ids(pairs)
  {
    if pairs != [] {
      IdsWithin(pairs[..|pairs| - 1], lo, hi);
    }
  }

  /** Python list indexing `a[k]` for a list of length `n`: negative ids count from the end; anything else is an IndexError. */
  function PyIndex(k: int, n: nat): (p: Option<nat>)
    ensures p.Some? <==> -(n as int) <= k < n
    ensures p.Some? ==> p.value < n && (k >= 0 ==> p.value == k) && (k < 0 ==> p.value == n + k)
  {
    if 0 <= k < n then Some(k) else if -(n as int) <= k < 0 then Some(n + k) else None
  }

  /** `for node, visits in node_visits.items(): visits_array[node] = visits`, from `arr` on. */
  function Densify(d: Dict, arr: seq<int>): (r: Option<seq<int>>)
    ensures r.Some? ==> |r.value| == |arr|
  {
    if d == [] then Some(arr)
    else
      match PyIndex(d[0].0, |arr|)
        case None => None
        case Some(p) => Densify(d[1..], arr[p := d[0].1])
  }

  /** With in-range non-negative unique keys, each key's slot gets its count and every other slot keeps its value. */
  lemma {:induction false} DensifyNonNegative(d: Dict, arr: seq<int>)
    requires UniqueKeys(d) && forall x | x in KeySet(d) :: 0 <= x < |arr|
    ensures Densify(d, arr).Some?
    ensures forall p | 0 <= p < |arr| ::
      Densify(d, arr).value[p] == (if Lookup(d, p).Some? then Lookup(d, p).value else arr[p])
  {
    if d != [] {
      assert d[0].0 in KeySet(d);
      DensifyNonNegative(d[1..], arr[d[0].0 := d[0].1]);
    }
  }

  /** `max(node_visits.keys())`. */
  function MaxKey(d: Dict): (m: int)
    requires |d| >= 1
    ensures m in KeySet(d) && forall x | x in KeySet(d) :: x <= m
  {
    if |d| == 1 then d[0].0
    else
      var m := MaxKey(d[1..]);
      if d[0].0 > m then d[0].0 else m
  }

  /** `[0] * n`: an empty list for `n <= 0`. */
  function ZeroList(n: int): (z: seq<int>)
    ensures |z| == (if n > 0 then n else 0) && forall i | 0 <= i < |z| :: z[i] == 0
  {
    seq(if n > 0 then n else 0, _ => 0)
  }

  /**
   * `load_node_visits` on the lines of the file: `None` where Python prints
   * an error and returns `None` (a malformed line, an empty file, or an index
   * outside the dense array).
   */
  function LoadNodeVisits(lines: seq<string>): (r: Option<seq<int>>)
    ensures lines == [] ==> r == None
  {
    match AllSome(ParseEach(lines))
      case None => None
      case Some(pairs) => DensePairs(pairs)
  }

  /** The dict and the dense array built from the parsed pairs; `max()` of no keys raises. */
  function DensePairs(pairs: seq<(int, int)>): (r: Option<seq<int>>)
    ensures pairs == [] ==> r == None
  {
    var d := BuildDict(pairs);
    if d == [] then None else Densify(d, ZeroList(MaxKey(d) + 1))
  }

  /**
   * With every id non-negative, the array has length `max(id) + 1`, listed ids
   * carry the count of their last line and unlisted ids are 0.
   */
  lemma DenseVisits(pairs: seq<(int, int)>, hi: int)
    requires |pairs| >= 1 && forall i | 0 <= i < |pairs| :: 0 <= pairs[i].0 < hi
    ensures DensePairs(pairs).Some?
    ensures var v := DensePairs(pairs).value;
      && |v| == MaxKey(BuildDict(pairs)) + 1 <= hi
      && forall p | 0 <= p < |v| ::
        v[p] == (if Lookup(BuildDict(pairs), p).Some? then Lookup(BuildDict(pairs), p).value else 0)
  {
    var d := BuildDict(pairs);
    IdsWithin(pairs, 0, hi);
    assert pairs[0].0 in KeySet(d);
    DensifyNonNegative(d, ZeroList(MaxKey(d) + 1));
  }

  /** A line as `fprintf(nf, "%d %d\n", i, node_visits[i])` writes it. */
  function VisitLine(i: int, c: int): string
  {
    IntText(i) + " " + IntText(c) + "\n"
  }

  /** The whole `node_visits.txt` for the given per-node totals. */
  function VisitsText(counts: seq<int>): string
  {
    Concat(VisitLines(TotalsPairs(counts)))
  }

  /** The pairs `(i, counts[i])` the writer loop prints, node by node. */
  function TotalsPairs(counts: seq<int>): (pairs: seq<(int, int)>)
    ensures |pairs| == |counts|
  {
    seq(|counts|, i requires 0 <= i < |counts| => (i, counts[i]))
  }

  /** Stripping a written line leaves the two numbers and the space between them. */
  lemma StripVisitLine(i: int, c: int)
    ensures Strip(VisitLine(i, c)) == IntText(i) + " " + IntText(c)
  {
    var body := IntText(i) + " " + IntText(c);
    assert [] + body + "\n" == VisitLine(i, c);
    StripOf([], body, "\n");
  }

  /** Each written line is read back as its two numbers. */
  lemma ParseVisitLineOf(i: int, c: int)
    ensures ParseVisitLine(VisitLine(i, c)) == Some((i, c))
  {
    var x, y := IntText(i), IntText(c);
    StripVisitLine(i, c);
    WordsOfPair(x, y, []);
    assert x + " " + y + [] == x + " " + y;
    IntTextRoundTrip(i);
    IntTextRoundTrip(c);
    assert VisitFields([x, y]) == Some((i, c));
  }

  /** The lines `fprintf(nf, "%d %d\n", ...)` writes for the given pairs. */
  function VisitLines(pairs: seq<(int, int)>): (ls: seq<string>)
    ensures |ls| == |pairs|
  {
    seq(|pairs|, k requires 0 <= k < |pairs| => VisitLine(pairs[k].0, pairs[k].1))
  }

  /** Any written lines, negative ids included, parse back to their pairs and go on to the dict and the array. */
  lemma ReadVisitLines(pairs: seq<(int, int)>)
    ensures LoadNodeVisits(VisitLines(pairs)) == DensePairs(pairs)
  {
    var ls := VisitLines(pairs);
    forall k | 0 <= k < |ls| ensures ParseEach(ls)[k] == Some(pairs[k]) {
      ParseVisitLineOf(pairs[k].0, pairs[k].1);
    }
    AllSomeOf(ParseEach(ls));
    assert AllSome(ParseEach(ls)).value == pairs;
  }

  /** The lines of the file are the written lines. */
  lemma VisitsTextLines(pairs: seq<(int, int)>)
    ensures Lines(Concat(VisitLines(pairs))) == VisitLines(pairs)
  {
    var ls := VisitLines(pairs);
    forall k | 0 <= k < |ls| ensures IsLine(ls[k]) {
      assert ls[k] == IntText(pairs[k].0) + " " + IntText(pairs[k].1) + "\n";
    }
    LinesConcat(ls);
  }

  /** The file the C engine writes reads back as exactly the totals it wrote. */
  lemma VisitsRoundTrip(counts: seq<int>)
    requires |counts| >= 1
    ensures LoadNodeVisits(Lines(VisitsText(counts))) == Some(counts)
  {
    var pairs := TotalsPairs(counts);
    VisitsTextLines(pairs);
    ReadVisitLines(pairs);
    DensePairsOfTotals(counts, pairs);
  }

  /** The pairs `(i, counts[i])` make the dense array `counts` again. */
  lemma DensePairsOfTotals(counts: seq<int>, pairs: seq<(int, int)>)
    requires |counts| >= 1 && pairs == TotalsPairs(counts)
    ensures DensePairs(pairs) == Some(counts)
  {
    var n := |counts|;
    DenseVisits(pairs, n);
    var d := BuildDict(pairs);
    forall p | 0 <= p < n ensures Lookup(d, p) == Some(counts[p]) {
      BuildDictLast(pairs, p, p);
    }
    assert n - 1 in KeySet(d);
    var v := DensePairs(pairs).value;
    assert MaxKey(d) + 1 <= n;
    assert MaxKey(d) >= n - 1;
    assert |v| == n;
    assert forall p | 0 <= p < n :: v[p] == counts[p];
    assert v == counts;
  }

  /** A negative id indexes from the end: ids `2` and `-1` both land in the last slot of a 3-slot array. */
  lemma NegativeIdAliases()
    ensures LoadNodeVisits(VisitLines([(2, 5), (-1, 7)])) == Some([0, 0, 7])
  {
    ReadVisitLines([(2, 5), (-1, 7)]);
    DenseAliases();
  }

  /** The dict `{2: 5, -1: 7}` has 3 slots, and `-1` writes over the count `2` wrote. */
  lemma DenseAliases()
    ensures DensePairs([(2, 5), (-1, 7)]) == Some([0, 0, 7])
  {
    var pairs: seq<(int, int)> := [(2, 5), (-1, 7)];
    assert pairs[..1] == [(2, 5)];
    assert BuildDict(pairs) == pairs;
    assert MaxKey(pairs) == 2;
    assert ZeroList(3) == [0, 0, 0];
    assert PyIndex(2, 3) == Some(2) && PyIndex(-1, 3) == Some(2);
    assert [0, 0, 0][2 := 5] == [0, 0, 5] && [0, 0, 5][2 := 7] == [0, 0, 7];
    assert |pairs[1..][1..]| == 0;
    assert Densify(pairs[1..][1..], [0, 0, 7]) == Some([0, 0, 7]);
    assert Densify(pairs[1..], [0, 0, 5]) == Some([0, 0, 7]);
  }

  /** Past `-n` a negative id is an IndexError: a lone id `-1` makes a 0-slot array, so the load fails. */
  lemma NegativeIdOutOfRange()
    ensures LoadNodeVisits(VisitLines([(-1, 4)])) == None
  {
    ReadVisitLines([(-1, 4)]);
    assert BuildDict([(-1, 4)]) == [(-1, 4)];
  }

  /** One line that is not two integers fails the whole load. */
  lemma BadVisitLine(lines: seq<string>, k: nat)
    requires k < |lines| && ParseVisitLine(lines[k]).None?
    ensures LoadNodeVisits(lines) == None
  {
    AllSomeOf(ParseEach(lines));
    assert ParseEach(lines)[k].None?;
  }

  // ----- load_route_stats -----

  /** One stats line: the two sides of `": "` in the stripped line, or `None` when it does not split in two. */
  function StatEntry(line: string): (r: Option<(string, string)>)
  {
    var parts := SplitOn(Strip(line), ": ");
    if |parts| == 2 then Some((parts[0], parts[1])) else None
  }

  /** The map after assigning the entries in order, later keys overwriting. */
  function Assign(entries: seq<(string, string)>): map<string, string>
  {
    if entries == [] then map[]
    else Assign(entries[..|entries| - 1])[entries[|entries| - 1].0 := entries[|entries| - 1].1]
  }

  function StatEntries(lines: seq<string>): (es: seq<Option<(string, string)>>)
    ensures |es| == |lines|
  {
    seq(|lines|, k requires 0 <= k < |lines| => StatEntry(lines[k]))
  }

  /** `load_route_stats`: any line that does not split into exactly two parts makes the whole result `None`. */
  function LoadRouteStats(lines: seq<string>): (r: Option<map<string, string>>)
    ensures lines == [] ==> r == Some(map[])
  {
    match AllSome(StatEntries(lines))
      case None => None
      case Some(entries) => Some(Assign(entries))
  }

  /** A key or value the `: ` split reads back unchanged: non-empty, no `:`, no line break, no whitespace at either end. */
  predicate PlainField(s: string)
  {
    && |s| >= 1 && !IsSpace(s[0]) && !IsSpace(s[|s| - 1])
    && forall i | 0 <= i < |s| :: s[i] != ':' && s[i] != '\n'
  }

  /** A line `fprintf(sf, "<key>: <value>\n", ...)` writes. */
  function StatLine(key: string, value: string): string
  {
    key + ": " + value + "\n"
  }

  /** The pieces of one written line. */
  lemma StatLineParts(key: string, value: string)
    requires PlainField(key) && PlainField(value)
    ensures StatEntry(StatLine(key, value)) == Some((key, value))
  {
    var body := key + ": " + value;
    assert StatLine(key, value) == [] + body + "\n";
    StripOf([], body, "\n");
    SplitOnPair(key, value, ": ");
  }

  /** One line that does not split in two fails the whole load. */
  lemma BadStatLine(lines: seq<string>, k: nat)
    requires k < |lines| && StatEntry(lines[k]).None?
    ensures LoadRouteStats(lines) == None
  {
    AllSomeOf(StatEntries(lines));
    assert StatEntries(lines)[k].None?;
  }

  /** Stats written as `key: value` lines read back as those assignments. */
  lemma StatsRoundTrip(entries: seq<(string, string)>)
    requires forall k | 0 <= k < |entries| :: PlainField(entries[k].0) && PlainField(entries[k].1)
    ensures LoadRouteStats(seq(|entries|, k requires 0 <= k < |entries| => StatLine(entries[k].0, entries[k].1)))
      == Some(Assign(entries))
  {
    var ls := seq(|entries|, k requires 0 <= k < |entries| => StatLine(entries[k].0, entries[k].1));
    var es := StatEntries(ls);
    forall k | 0 <= k < |entries| ensures es[k] == Some(entries[k]) {
      StatLineParts(entries[k].0, entries[k].1);
    }
    AllSomeOf(es);
    assert AllSome(es).value == entries;
  }

  // ----- statistics -----

  /** `sum(visit_list) // 2`: Python's floor division. */
  function TotalVisits(counts: seq<int>): int
  {
    Sum(counts) / 2
  }

  /** Halving the per-node totals gives back exactly the off-diagonal visit total. */
  lemma TotalVisitsExact(m: seq<seq<int>>)
    requires Wide(m)
    ensures TotalVisits(CalculateNodeVisitCounts(m)) == OffDiagonal(m, |m|)
  {
  }

  /** `max(xs)`. */
  function MaxOf(xs: seq<int>): (v: int)
    requires |xs| >= 1
    ensures v in xs && forall i | 0 <= i < |xs| :: xs[i] <= v
  {
    if |xs| == 1 then xs[0]
    else
      var m := MaxOf(xs[1..]);
      assert forall i | 1 <= i < |xs| :: xs[i] == xs[1..][i - 1];
      if xs[0] >= m then xs[0] else m
  }

  /** `min(xs)`. */
  function MinOf(xs: seq<int>): (v: int)
    requires |xs| >= 1
    ensures v in xs && forall i | 0 <= i < |xs| :: v <= xs[i]
  {
    if |xs| == 1 then xs[0]
    else
      var m := MinOf(xs[1..]);
      assert forall i | 1 <= i < |xs| :: xs[i] == xs[1..][i - 1];
      if xs[0] <= m then xs[0] else m
  }

  /** `xs.index(v)`: the first position holding `v`. */
  function IndexOf(xs: seq<int>, v: int): (i: nat)
    requires v in xs
    ensures i < |xs| && xs[i] == v && forall j | 0 <= j < i :: xs[j] != v
  {
    if xs[0] == v then 0 else 1 + IndexOf(xs[1..], v)
  }

  /** The statistics' most-visited node and count; `(0, 0)` for an empty list. */
  function MostVisited(xs: seq<int>): (r: (nat, int))
    ensures xs == [] ==> r == (0, 0)
    ensures xs != [] ==> r.0 < |xs| && xs[r.0] == r.1
    ensures forall i | 0 <= i < |xs| :: xs[i] <= r.1
    ensures forall i | 0 <= i < r.0 && i < |xs| :: xs[i] < r.1
  {
    if xs == [] then (0, 0) else (IndexOf(xs, MaxOf(xs)), MaxOf(xs))
  }

  /** The statistics' least-visited node and count; `(0, 0)` for an empty list. */
  function LeastVisited(xs: seq<int>): (r: (nat, int))
    ensures xs == [] ==> r == (0, 0)
    ensures xs != [] ==> r.0 < |xs| && xs[r.0] == r.1
    ensures forall i | 0 <= i < |xs| :: r.1 <= xs[i]
    ensures forall i | 0 <= i < r.0 && i < |xs| :: r.1 < xs[i]
  {
    if xs == [] then (0, 0) else (IndexOf(xs, MinOf(xs)), MinOf(xs))
  }

  /** The bar `generate_histogram` highlights; `max` of an empty list raises, modelled as `None`. */
  function HistogramPeak(xs: seq<int>): (r: Option<(nat, int)>)
    ensures r.None? <==> xs == []
    ensures r.Some? ==> (r.value.0 < |xs| && xs[r.value.0] == r.value.1)
    ensures r.Some? ==> forall i | 0 <= i < |xs| :: xs[i] <= r.value.1
    ensures r.Some? ==> forall i | 0 <= i < r.value.0 && i < |xs| :: xs[i] < r.value.1
  {
    if xs == [] then None else Some((IndexOf(xs, MaxOf(xs)), MaxOf(xs)))
  }

  // ----- top 5 -----

  /**
   * The order the stable descending sort produces on `(index, count)` pairs
   * listed by ascending index: higher count first, equal counts by index.
   */
  predicate Ranked(xs: seq<int>, a: nat, b: nat)
    requires a < |xs| && b < |xs|
  {
    xs[a] > xs[b] || (xs[a] == xs[b] && a < b)
  }

  predicate RankedSeq(xs: seq<int>, s: seq<nat>)
    requires InRange(s, |xs|)
  {
    forall i, j | 0 <= i < j < |s| :: Ranked(xs, s[i], s[j])
  }

  /** One step of the stable sort: `x` goes after every entry whose count is at least its own. */
  function InsertByCount(xs: seq<int>, s: seq<nat>, x: nat): (r: seq<nat>)
    requires x < |xs| && InRange(s, |xs|)
    ensures |r| == |s| + 1 && InRange(r, |xs|) && multiset(r) == multiset(s) + multiset{x}
  {
    if s == [] then [x]
    else if xs[s[0]] >= xs[x] then [s[0]] + InsertByCount(xs, s[1..], x)
    else
      assert s == [s[0]] + s[1..];
      [x] + s
  }

  /** Inserting a larger index into a ranked list keeps it ranked. */
  lemma {:induction false} InsertRanked(xs: seq<int>, s: seq<nat>, x: nat)
    requires x < |xs| && InRange(s, |xs|) && RankedSeq(xs, s)
    requires forall i | 0 <= i < |s| :: s[i] < x
    ensures RankedSeq(xs, InsertByCount(xs, s, x))
  {
    if s != [] && xs[s[0]] >= xs[x] {
      InsertRanked(xs, s[1..], x);
      var t := InsertByCount(xs, s[1..], x);
      forall j | 0 <= j < |t| ensures Ranked(xs, s[0], t[j]) {
        assert t[j] in multiset(t);
        assert t[j] in multiset(s[1..]) || t[j] == x;
        if t[j] != x {
          var k :| 0 <= k < |s[1..]| && s[1..][k] == t[j];
          assert s[k + 1] == t[j];
        }
      }
    }
  }

  /** `indexed_visits.sort(key=count, reverse=True)` over the pairs of indices `0..k-1`. */
  function RankPrefix(xs: seq<int>, k: nat): (r: seq<nat>)
    requires k <= |xs|
    ensures InRange(r, |xs|) && |r| == k && multiset(r) == multiset(Iota(k))
  {
    if k == 0 then []
    else
      assert Iota(k) == Iota(k - 1) + [k - 1];
      InsertByCount(xs, RankPrefix(xs, k - 1), k - 1)
  }

  /** The sort yields every node once, in ranked order. */
  lemma {:induction false} RankPrefixRanked(xs: seq<int>, k: nat)
    requires k <= |xs|
    ensures RankedSeq(xs, RankPrefix(xs, k))
  {
    if k > 0 {
      RankPrefixRanked(xs, k - 1);
      var s := RankPrefix(xs, k - 1);
      MultisetPermutation(s, k - 1);
      InsertRanked(xs, s, k - 1);
    }
  }

  /** `top_indices`: the first `min(5, n)` indices of the sorted list. */
  function TopIndices(xs: seq<int>): (r: seq<nat>)
    ensures |r| == (if |xs| < 5 then |xs| else 5)
    ensures InRange(r, |xs|)
  {
    var full := RankPrefix(xs, |xs|);
    full[..if |xs| < 5 then |xs| else 5]
  }

  /**
   * The top list is in ranked order (descending count, ties by ascending
   * node), has no node twice, and outranks every node it leaves out.
   */
  lemma TopIndicesRanked(xs: seq<int>)
    ensures RankedSeq(xs, TopIndices(xs))
    ensures Distinct(TopIndices(xs))
    ensures forall j, i | 0 <= j < |xs| && 0 <= i < |TopIndices(xs)| && j !in TopIndices(xs) ::
      Ranked(xs, TopIndices(xs)[i], j)
  {
    var full := RankPrefix(xs, |xs|);
    RankPrefixRanked(xs, |xs|);
    MultisetPermutation(full, |xs|);
    PermutationDistinct(full, |xs|);
    var top := TopIndices(xs);
    assert forall q | 0 <= q < |top| :: top[q] == full[q];
    forall j, i | 0 <= j < |xs| && 0 <= i < |top| && j !in top ensures Ranked(xs, top[i], j) {
      IotaCount(|xs|, j);
      assert j in multiset(full);
      var p :| 0 <= p < |full| && full[p] == j;
      assert p >= |top|;
    }
  }

  /** A node that outranks every other node is the one the statistics report as most visited. */
  lemma OutranksAllIsMostVisited(xs: seq<int>, t: nat)
    requires t < |xs| && forall j | 0 <= j < |xs| && j != t :: Ranked(xs, t, j)
    ensures t == MostVisited(xs).0
  {
    var idx := MostVisited(xs).0;
    assert idx != t ==> Ranked(xs, t, idx);
  }

  /** The ranking's first node is the most-visited node the statistics report. */
  lemma TopIsMostVisited(xs: seq<int>)
    requires |xs| >= 1
    ensures TopIndices(xs)[0] == MostVisited(xs).0
  {
    var top := TopIndices(xs);
    TopIndicesRanked(xs);
    forall j | 0 <= j < |xs| && j != top[0] ensures Ranked(xs, top[0], j) {
      if j in top {
        var i :| 0 <= i < |top| && top[i] == j;
        assert i != 0;
        assert Ranked(xs, top[0], top[i]);
      } else {
        assert Ranked(xs, top[0], j);
      }
    }
    OutranksAllIsMostVisited(xs, top[0]);
  }
}
