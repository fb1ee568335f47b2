/** The selections the console reports make from an analysis before any
    formatting: the ten most frequent headings of `print_summary`, the
    per-day rate guard of the same function, and the rows of
    `print_timeline`. Bars, padding, dates and the rate's float value are
    formatting and are not modelled. */
module Report {
  import opened Options
  import opened Text
  import opened OrderedMaps
  import opened Sections
  import opened Aggregate

  // ----- `sections_frequency.most_common(10)` -----

  datatype Item = Item(name: string, count: nat)

  /** The counter's items in insertion order. */
  function Items(freq: OMap<string, nat>): (r: seq<Item>)
    ensures |r| == |freq.keys|
    ensures forall i :: 0 <= i < |r| ==> r[i] == Item(freq.keys[i], Get(freq, freq.keys[i], 0))
  {
    seq(|freq.keys|, i requires 0 <= i < |freq.keys| => Item(freq.keys[i], Get(freq, freq.keys[i], 0)))
  }

  /** Counts never increase along the sequence. */
  predicate Descending(s: seq<Item>) {
    forall i, j :: 0 <= i < j < |s| ==> s[i].count >= s[j].count
  }

  /** The items with count `c`, in their order. */
  function WithCount(s: seq<Item>, c: nat): seq<Item>
    decreases |s|
  {
    if |s| == 0 then []
    else (if s[0].count == c then [s[0]] else []) + WithCount(s[1..], c)
  }

  lemma DescendingTail(s: seq<Item>)
    requires |s| > 0 && Descending(s)
    ensures Descending(s[1..])
  {
    forall i, j | 0 <= i < j < |s[1..]| ensures s[1..][i].count >= s[1..][j].count {
      assert s[1..][i] == s[i + 1] && s[1..][j] == s[j + 1];
    }
  }

  lemma ConsDescending(h: Item, s: seq<Item>)
    requires Descending(s) && (|s| == 0 || s[0].count <= h.count)
    ensures Descending([h] + s)
  {
    var r := [h] + s;
    forall i, j | 0 <= i < j < |r| ensures r[i].count >= r[j].count {
      if i == 0 {
        assert r[j] == s[j - 1];
        assert s[0].count >= s[j - 1].count;
      } else {
        assert r[i] == s[i - 1] && r[j] == s[j - 1];
      }
    }
  }

  /** Places `x` in front of the first item whose count is not larger, so
      ahead of the items it ties with. */
  function Insert(x: Item, s: seq<Item>): (r: seq<Item>)
    ensures multiset(r) == multiset{x} + multiset(s)
    ensures |r| == |s| + 1
    ensures r[0] == x || (|s| > 0 && r[0] == s[0])
    ensures Descending(s) ==> Descending(r)
    decreases |s|
  {
    if |s| == 0 || s[0].count <= x.count then
      assert Descending(s) ==> Descending([x] + s) by {
        if Descending(s) {
          ConsDescending(x, s);
        }
      }
      [x] + s
    else
      var rest := Insert(x, s[1..]);
      assert s == [s[0]] + s[1..];
      assert Descending(s) ==> Descending([s[0]] + rest) by {
        if Descending(s) {
          DescendingTail(s);
          ConsDescending(s[0], rest);
        }
      }
      [s[0]] + rest
  }

  /** `sorted(items, key=count, reverse=True)`: a stable sort by count,
      largest first. */
  function SortDesc(xs: seq<Item>): (r: seq<Item>)
    ensures multiset(r) == multiset(xs)
    ensures |r| == |xs|
    ensures Descending(r)
    decreases |xs|
  {
    if |xs| == 0 then []
    else
      assert xs == [xs[0]] + xs[1..];
      Insert(xs[0], SortDesc(xs[1..]))
  }

  /** Inserting into a descending sequence puts `x` first among its ties. */
  lemma {:induction false} InsertWithCount(x: Item, s: seq<Item>, c: nat)
    requires Descending(s)
    ensures WithCount(Insert(x, s), c) == (if x.count == c then [x] else []) + WithCount(s, c)
    decreases |s|
  {
    if |s| > 0 && s[0].count > x.count {
      DescendingTail(s);
      InsertWithCount(x, s[1..], c);
      var r := Insert(x, s);
      assert r[0] == s[0] && r[1..] == Insert(x, s[1..]);
    }
  }

  /** The sort is stable: the items sharing any one count keep their
      relative order. */
  lemma {:induction false} SortStable(xs: seq<Item>, c: nat)
    ensures WithCount(SortDesc(xs), c) == WithCount(xs, c)
    decreases |xs|
  {
    if |xs| > 0 {
      SortStable(xs[1..], c);
      InsertWithCount(xs[0], SortDesc(xs[1..]), c);
    }
  }

  /** How many sections the summary lists. */
  const TopCount: nat := 10

  /** `most_common(n)`: the first `n` items of the stable descending sort. */
  function MostCommon(freq: OMap<string, nat>, n: nat): (r: seq<Item>)
    ensures |r| == if n <= |freq.keys| then n else |freq.keys|
    ensures Descending(r)
    ensures r == SortDesc(Items(freq))[..|r|]
  {
    var sorted := SortDesc(Items(freq));
    if n <= |sorted| then sorted[..n] else sorted
  }

  /** An item left out of `most_common(n)` counts no more than any item
      listed. */
  lemma MostCommonDominates(freq: OMap<string, nat>, n: nat, x: Item, i: int)
    requires x in Items(freq) && x !in MostCommon(freq, n)
    requires 0 <= i < |MostCommon(freq, n)|
    ensures x.count <= MostCommon(freq, n)[i].count
  {
    var sorted := SortDesc(Items(freq));
    var top := MostCommon(freq, n);
    assert x in multiset(Items(freq));
    assert x in multiset(sorted);
    var j :| 0 <= j < |sorted| && sorted[j] == x;
    assert top[i] == sorted[i];
  }

  /** Every listed item is an entry of the counter, with its count. */
  lemma MostCommonEntries(freq: OMap<string, nat>, n: nat, i: int)
    requires 0 <= i < |MostCommon(freq, n)|
    ensures MostCommon(freq, n)[i].name in freq.keys
    ensures MostCommon(freq, n)[i].count == Get(freq, MostCommon(freq, n)[i].name, 0)
  {
    var sorted := SortDesc(Items(freq));
    var y := MostCommon(freq, n)[i];
    assert y == sorted[i];
    assert y in multiset(Items(freq));
    var j :| 0 <= j < |Items(freq)| && Items(freq)[j] == y;
  }

  /** The summary's section list. */
  function TopSections(a: Analysis): seq<Item> {
    MostCommon(a.frequency, TopCount)
  }

  // ----- The per-day rate of the summary -----

  /** `total_handoffs / duration_days`, as numerator and denominator, shown
      only when there is a span and it lasts at least a whole day. */
  function DailyRate(a: Analysis): (r: Option<(nat, nat)>)
    ensures r.Some? <==> a.timeSpan.Some? && a.timeSpan.value.durationDays > 0
    ensures r.Some? ==> r.value.0 == a.total && r.value.1 > 0
  {
    match a.timeSpan
    case None => None
    case Some(span) => if span.durationDays > 0 then Some((a.total, span.durationDays)) else None
  }

  /** The documents' span lasts a whole day or more exactly when two of
      their times are at least a day apart. */
  lemma SpanHasDays(docs: seq<Document>)
    requires |docs| > 0
    ensures SpanOf(Mtimes(docs)).durationDays > 0 <==>
            exists i, j :: 0 <= i < |docs| && 0 <= j < |docs| && docs[j].mtime - docs[i].mtime >= MicrosPerDay
  {
    var times := Mtimes(docs);
    assert forall i :: 0 <= i < |docs| ==> times[i] == docs[i].mtime;
  }

  /** The rate is shown exactly when the documents' times are at least a
      day apart; a shorter spread never reaches the division. */
  lemma DailyRateShown(docs: seq<Document>)
    ensures DailyRate(Analyze(docs)).Some? <==>
            |docs| > 0 && exists i, j :: 0 <= i < |docs| && 0 <= j < |docs| && docs[j].mtime - docs[i].mtime >= MicrosPerDay
  {
    if |docs| > 0 {
      SpanHasDays(docs);
    }
  }

  // ----- `print_timeline` -----

  /** How many handoffs the timeline lists. */
  const TimelineLimit: nat := 20
  /** How many characters of the identity line it shows. */
  const DescriptionWidth: nat := 50
  const IdentitySection: string := "Project Identity"
  const NoDescription: string := "No description"

  /** The first line of the "Project Identity" section cut to 50
      characters, or "No description" when the section is missing or
      empty. */
  function TimelineDescription(sections: SectionMap): (r: string)
    ensures Get(sections, IdentitySection, "") == "" ==> r == NoDescription
    ensures Get(sections, IdentitySection, "") != "" ==>
              var identity := Get(sections, IdentitySection, "");
              && |r| <= DescriptionWidth && |r| <= |identity|
              && '\n' !in r
              && r == identity[..|r|]
              && (|r| == DescriptionWidth || |r| == |identity| || identity[|r|] == '\n')
  {
    var identity := Get(sections, IdentitySection, "");
    if identity != "" then
      FirstLine(identity);
      Take(Lines(identity)[0], DescriptionWidth)
    else
      NoDescription
  }

  /** A parsed document always gets a visible description: its identity
      body, when present, is stripped, so its first line is not empty. */
  lemma TimelineDescriptionNotBlank(sections: SectionMap)
    requires WellFormed(sections)
    ensures TimelineDescription(sections) != ""
  {
    var identity := Get(sections, IdentitySection, "");
    if identity != "" {
      assert IsStripped(identity);
      assert !IsSpace(identity[0]);
      FirstLine(identity);
    }
  }

  /** One printed line: its number, the handoff's time and description. */
  datatype Row = Row(number: nat, modified: int, description: string)

  /** The timeline: the exit status, the listed rows, and the count in the
      trailing "... and N more" line (0 when that line is not printed). */
  datatype Timeline = Timeline(status: nat, rows: seq<Row>, more: nat)

  function TimelineOf(hs: seq<Handoff>): (t: Timeline)
    ensures t.status == 1 <==> |hs| == 0
    ensures t.status == 0 <==> |hs| > 0
    ensures |t.rows| + t.more == |hs|
    ensures |t.rows| <= TimelineLimit
    ensures t.more > 0 <==> |hs| > TimelineLimit
    ensures forall i :: 0 <= i < |t.rows| ==> t.rows[i].number == i + 1 && t.rows[i].modified == hs[i].modified
    ensures forall i :: 0 <= i < |t.rows| ==> t.rows[i].description == TimelineDescription(hs[i].sections)
  {
    if |hs| == 0 then Timeline(1, [], 0)
    else
      var shown := if |hs| <= TimelineLimit then |hs| else TimelineLimit;
      var rows := seq(shown, i requires 0 <= i < shown => Row(i + 1, hs[i].modified, TimelineDescription(hs[i].sections)));
      Timeline(0, rows, |hs| - shown)
  }

}
