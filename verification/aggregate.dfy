/** `analyze_handoffs`: one pass over the documents, newest first as the
    locator hands them over, that collects the parsed handoffs, the tagged
    issues, per-heading confidence counts and per-heading document counts,
    followed by the time span of the modification times.

    A document is its file name, its text and its modification time. The
    time is the naive local datetime `datetime.fromtimestamp` gives, counted
    in microseconds; reading the file and the clock stays outside the
    model. */
module Aggregate {
  import opened Options
  import opened OrderedMaps
  import opened Sections
  import opened Timestamp
  import opened Confidence
  import opened Issues

  datatype Document = Document(filename: string, text: string, mtime: int)

  /** The dict `parse_handoff` returns, less the `Path` object. */
  datatype Handoff = Handoff(filename: string, timestamp: string, sections: SectionMap, modified: int)

  /** `parse_handoff` once the text and the time have been read. */
  function ParseHandoff(d: Document): (h: Handoff)
    ensures h.filename == d.filename && h.modified == d.mtime
    ensures WellFormed(h.sections)
    ensures h.timestamp == NoToken || IsToken(h.timestamp)
  {
    Handoff(d.filename, ExtractToken(d.filename), ParseSections(d.text), d.mtime)
  }

  /** An issue with the `handoff` and `timestamp` keys added. */
  datatype TaggedIssue = TaggedIssue(issue: Issue, handoff: string, timestamp: int)

  /** A document's issues, each tagged with its file name and time. */
  function Tagged(h: Handoff): (r: seq<TaggedIssue>)
    ensures |r| == |ExtractIssues(h.sections)|
    ensures forall i :: 0 <= i < |r| ==>
              r[i] == TaggedIssue(ExtractIssues(h.sections)[i], h.filename, h.modified)
    ensures forall t: TaggedIssue :: t in r <==>
              t.handoff == h.filename && t.timestamp == h.modified && t.issue in ExtractIssues(h.sections)
  {
    var found := ExtractIssues(h.sections);
    var r := seq(|found|, i requires 0 <= i < |found| => TaggedIssue(found[i], h.filename, h.modified));
    assert forall t: TaggedIssue :: t.handoff == h.filename && t.timestamp == h.modified && t.issue in found ==> t in r by {
      forall t: TaggedIssue | t.handoff == h.filename && t.timestamp == h.modified && t.issue in found
        ensures t in r
      {
        var i :| 0 <= i < |found| && found[i] == t.issue;
        assert r[i] == t;
      }
    }
    r
  }

  // ----- Confidence trends -----

  datatype Counts = Counts(high: nat, medium: nat, low: nat)

  /** What `defaultdict` creates on first access. */
  const Zero: Counts := Counts(0, 0, 0)

  function Sum(c: Counts): nat {
    c.high + c.medium + c.low
  }

  /** `counts[level] += 1`; `unknown` is not counted. */
  function Tally(c: Counts, level: Level): (r: Counts)
    ensures Sum(r) == Sum(c) + (if level == Unknown then 0 else 1)
  {
    match level
    case High => c.(high := c.high + 1)
    case Medium => c.(medium := c.medium + 1)
    case Low => c.(low := c.low + 1)
    case Unknown => c
  }

  /** One step of the trends loop. The defaultdict entry is only touched,
      and so only created, for a counted level. */
  function Bump(trends: OMap<string, Counts>, k: string, level: Level): OMap<string, Counts> {
    if level == Unknown then trends else Put(trends, k, Tally(Get(trends, k, Zero), level))
  }

  /** Dropping the head of a sequence of distinct elements. */
  lemma DistinctTail(ks: seq<string>)
    requires |ks| > 0 && Distinct(ks)
    ensures Distinct(ks[1..])
    ensures forall k :: k in ks <==> k == ks[0] || k in ks[1..]
    ensures ks[0] !in ks[1..]
  {
    assert ks == [ks[0]] + ks[1..];
  }

  /** One bump moves only its own heading, and adds it only for a counted
      level. */
  lemma BumpGet(trends: OMap<string, Counts>, key: string, level: Level, k: string)
    ensures Get(Bump(trends, key, level), k, Zero) == if k == key then Tally(Get(trends, k, Zero), level) else Get(trends, k, Zero)
    ensures k in Bump(trends, key, level).entries <==> k in trends.entries || (k == key && level != Unknown)
  {
    if level != Unknown {
      GetPut(trends, key, Tally(Get(trends, key, Zero), level), k, Zero);
    }
  }

  /** The trends loop of one document, `for section, level in
      confidences.items()`, over the dict `extract_confidence_levels`
      returned. */
  function TallyLabels(trends: OMap<string, Counts>, labels: OMap<string, Level>, ks: seq<string>): OMap<string, Counts>
    requires forall i :: 0 <= i < |ks| ==> ks[i] in labels.entries
    decreases |ks|
  {
    if |ks| == 0 then trends
    else TallyLabels(Bump(trends, ks[0], labels.entries[ks[0]]), labels, ks[1..])
  }

  /** The same loop with each body classified as it is reached. */
  function AddLevels(trends: OMap<string, Counts>, sections: OMap<string, string>, ks: seq<string>): (r: OMap<string, Counts>)
    ensures Valid(trends) ==> Valid(r)
    decreases |ks|
  {
    if |ks| == 0 then trends
    else AddLevels(Bump(trends, ks[0], Classify(Get(sections, ks[0], ""))), sections, ks[1..])
  }

  /** Tallying the labels `extract_confidence_levels` returns, in its key
      order, is tallying each section's classification in the sections'
      key order. */
  lemma {:induction false} TallyLabelsAgree(trends: OMap<string, Counts>, sections: OMap<string, string>, ks: seq<string>)
    requires Valid(sections)
    requires forall i :: 0 <= i < |ks| ==> ks[i] in sections.entries
    ensures forall i :: 0 <= i < |ks| ==> ks[i] in Confidences(sections).entries
    ensures TallyLabels(trends, Confidences(sections), ks) == AddLevels(trends, sections, ks)
    decreases |ks|
  {
    var labels := Confidences(sections);
    if |ks| > 0 {
      var rest := ks[1..];
      assert forall i :: 0 <= i < |rest| ==> rest[i] in sections.entries by {
        forall i | 0 <= i < |rest| ensures rest[i] in sections.entries {
          assert rest[i] == ks[i + 1];
        }
      }
      assert labels.entries[ks[0]] == Classify(Get(sections, ks[0], ""));
      TallyLabelsAgree(Bump(trends, ks[0], labels.entries[ks[0]]), sections, rest);
    }
  }

  /** With no repeated heading, each heading's counts move by its own label
      only, and a heading enters the trends only with a counted label. */
  lemma {:induction false} AddLevelsGet(trends: OMap<string, Counts>, sections: OMap<string, string>, ks: seq<string>, k: string)
    requires Distinct(ks)
    ensures Get(AddLevels(trends, sections, ks), k, Zero)
         == if k in ks then Tally(Get(trends, k, Zero), Classify(Get(sections, k, ""))) else Get(trends, k, Zero)
    ensures k in AddLevels(trends, sections, ks).entries <==>
            k in trends.entries || (k in ks && Classify(Get(sections, k, "")) != Unknown)
    decreases |ks|
  {
    if |ks| > 0 {
      var rest := ks[1..];
      DistinctTail(ks);
      var level := Classify(Get(sections, ks[0], ""));
      var mid := Bump(trends, ks[0], level);
      AddLevelsGet(mid, sections, rest, k);
      BumpGet(trends, ks[0], level, k);
    }
  }

  /** The label `extract_confidence_levels` gives heading `k`, or `Unknown`
      when the document has no section `k`. */
  function LevelAt(sections: OMap<string, string>, k: string): Level {
    if k in sections.entries then Classify(sections.entries[k]) else Unknown
  }

  /** The fused walk over all of a document's headings, per heading. */
  lemma AddLevelsAll(trends: OMap<string, Counts>, sections: OMap<string, string>)
    requires Valid(sections)
    ensures forall k :: Get(AddLevels(trends, sections, sections.keys), k, Zero) == Tally(Get(trends, k, Zero), LevelAt(sections, k))
    ensures forall k :: k in AddLevels(trends, sections, sections.keys).entries <==> k in trends.entries || LevelAt(sections, k) != Unknown
  {
    forall k
      ensures Get(AddLevels(trends, sections, sections.keys), k, Zero) == Tally(Get(trends, k, Zero), LevelAt(sections, k))
      ensures k in AddLevels(trends, sections, sections.keys).entries <==> k in trends.entries || LevelAt(sections, k) != Unknown
    {
      AddLevelsGet(trends, sections, sections.keys, k);
      if k in sections.entries {
        assert Get(sections, k, "") == sections.entries[k];
      }
    }
  }

  /** The trends loop of one document as the source writes it: over the
      dict `extract_confidence_levels` returns, in its key order. Every
      heading's counts move by its own label only, and a heading enters the
      trends only with a counted label. */
  function DocumentTrends(trends: OMap<string, Counts>, sections: OMap<string, string>): (r: OMap<string, Counts>)
    requires Valid(sections)
    ensures Valid(trends) ==> Valid(r)
    ensures forall k :: Get(r, k, Zero) == Tally(Get(trends, k, Zero), LevelAt(sections, k))
    ensures forall k :: k in r.entries <==> k in trends.entries || LevelAt(sections, k) != Unknown
  {
    TallyLabelsAgree(trends, sections, sections.keys);
    AddLevelsAll(trends, sections);
    TallyLabels(trends, Confidences(sections), sections.keys)
  }

  // ----- Section frequency -----

  /** `counter[name] += 1`. */
  function Increment(freq: OMap<string, nat>, name: string): OMap<string, nat> {
    Put(freq, name, Get(freq, name, 0) + 1)
  }

  /** An increment adds one to its own name only. */
  lemma IncrementGet(freq: OMap<string, nat>, name: string, k: string)
    ensures Get(Increment(freq, name), k, 0) == Get(freq, k, 0) + (if k == name then 1 else 0)
    ensures k in Increment(freq, name).entries <==> k in freq.entries || k == name
  {
    GetPut(freq, name, Get(freq, name, 0) + 1, k, 0);
  }

  /** `counter[name] += 1` for every name, in order. */
  function CountNames(freq: OMap<string, nat>, names: seq<string>): (r: OMap<string, nat>)
    ensures Valid(freq) ==> Valid(r)
    decreases |names|
  {
    if |names| == 0 then freq
    else CountNames(Increment(freq, names[0]), names[1..])
  }

  /** With no repeated name, each name gains exactly one. */
  lemma {:induction false} CountNamesGet(freq: OMap<string, nat>, names: seq<string>, k: string)
    requires Distinct(names)
    ensures Get(CountNames(freq, names), k, 0) == Get(freq, k, 0) + (if k in names then 1 else 0)
    ensures k in CountNames(freq, names).entries <==> k in freq.entries || k in names
    decreases |names|
  {
    if |names| > 0 {
      var rest := names[1..];
      DistinctTail(names);
      CountNamesGet(Increment(freq, names[0]), rest, k);
      IncrementGet(freq, names[0], k);
    }
  }

  /** An increment appends its name only when the name is new. */
  lemma IncrementKeys(freq: OMap<string, nat>, name: string)
    requires Valid(freq)
    ensures Valid(Increment(freq, name))
    ensures Increment(freq, name).keys == if name in freq.keys then freq.keys else freq.keys + [name]
  {
  }

  lemma {:induction false} CountNamesKeys(freq: OMap<string, nat>, names: seq<string>)
    requires Valid(freq) && "" !in names
    ensures CountNames(freq, names).keys == AddKeys(freq.keys, names)
    decreases |names|
  {
    if |names| > 0 {
      IncrementKeys(freq, names[0]);
      assert "" !in names[1..];
      CountNamesKeys(Increment(freq, names[0]), names[1..]);
    }
  }

  /** The keys `counter[name] += 1` leaves: the old ones in place, then each
      new name at its first increment. */
  lemma CountNamesOrder(freq: OMap<string, nat>, names: seq<string>)
    requires Valid(freq) && "" !in names
    ensures CountNames(freq, names).keys == freq.keys + FirstSeen(names, freq.keys)
  {
    CountNamesKeys(freq, names);
    AddKeysFirstSeen(freq.keys, names);
  }

  // ----- The fold -----

  datatype TimeSpan = TimeSpan(start: int, end: int, durationDays: int)

  /** The `data` dict. `project_phases` is always empty and is left out. */
  datatype Analysis = Analysis(
    total: nat,
    timeSpan: Option<TimeSpan>,
    handoffs: seq<Handoff>,
    issues: seq<TaggedIssue>,
    trends: OMap<string, Counts>,
    frequency: OMap<string, nat>)

  function Initial(total: nat): (a: Analysis)
    ensures Valid(a.trends) && Valid(a.frequency)
  {
    Analysis(total, None, [], [], Empty(), Empty())
  }

  /** Every handoff's sections form a proper dict. */
  ghost predicate AllValid(hs: seq<Handoff>) {
    forall i :: 0 <= i < |hs| ==> Valid(hs[i].sections)
  }

  /** No document has a section with the empty heading. */
  ghost predicate NoEmptyHeading(hs: seq<Handoff>) {
    forall i :: 0 <= i < |hs| ==> "" !in hs[i].sections.entries
  }

  /** The loop body for one parsed document. */
  function Step(a: Analysis, h: Handoff): (r: Analysis)
    requires Valid(h.sections)
    ensures r.total == a.total && r.timeSpan == a.timeSpan
    ensures r.handoffs == a.handoffs + [h]
    ensures r.issues == a.issues + Tagged(h)
    ensures Valid(a.trends) ==> Valid(r.trends)
    ensures Valid(a.frequency) ==> Valid(r.frequency)
  {
    a.(handoffs := a.handoffs + [h],
       issues := a.issues + Tagged(h),
       trends := DocumentTrends(a.trends, h.sections),
       frequency := CountNames(a.frequency, h.sections.keys))
  }

  function Init<T>(s: seq<T>): seq<T>
    requires |s| > 0
  {
    s[..|s| - 1]
  }

  function Last<T>(s: seq<T>): T
    requires |s| > 0
  {
    s[|s| - 1]
  }

  lemma AppendEmpty<T>(xs: seq<T>, ys: seq<T>)
    requires |ys| == 0
    ensures xs + ys == xs
  {
  }

  lemma AppendSnoc<T>(xs: seq<T>, ys: seq<T>)
    requires |ys| > 0
    ensures xs + ys == xs + Init(ys) + [Last(ys)]
  {
    assert ys == Init(ys) + [Last(ys)];
  }

  lemma PrependEmpty<T>(xs: seq<T>, ys: seq<T>)
    requires |xs| == 0
    ensures xs + ys == ys
  {
  }

  lemma Assoc<T>(xs: seq<T>, ys: seq<T>, zs: seq<T>)
    ensures xs + (ys + zs) == (xs + ys) + zs
  {
  }

  lemma InitTail<T>(s: seq<T>)
    requires |s| > 1
    ensures |Init(s)| > 0 && Init(s)[0] == s[0]
    ensures Init(s[1..]) == Init(s)[1..] && Last(s[1..]) == Last(s)
  {
  }

  lemma AllValidInit(hs: seq<Handoff>)
    requires |hs| > 0 && AllValid(hs)
    ensures AllValid(Init(hs)) && Valid(Last(hs).sections)
  {
    assert forall i :: 0 <= i < |hs| - 1 ==> Init(hs)[i] == hs[i];
  }

  /** The loop over the parsed documents, as the state after each prefix. */
  function Loop(a: Analysis, hs: seq<Handoff>): (r: Analysis)
    requires AllValid(hs)
    ensures r.total == a.total && r.timeSpan == a.timeSpan
    ensures r.handoffs == a.handoffs + hs
    ensures r.issues == a.issues + AllTagged(hs)
    ensures Valid(a.trends) ==> Valid(r.trends)
    ensures Valid(a.frequency) ==> Valid(r.frequency)
    decreases |hs|
  {
    if |hs| == 0 then
      AppendEmpty(a.handoffs, hs);
      AppendEmpty(a.issues, AllTagged(hs));
      a
    else
      AllValidInit(hs);
      AppendSnoc(a.handoffs, hs);
      AllTaggedSnoc(hs);
      Assoc(a.issues, AllTagged(Init(hs)), Tagged(Last(hs)));
      Step(Loop(a, Init(hs)), Last(hs))
  }

  /** The loop's last step. */
  lemma LoopSnoc(a: Analysis, hs: seq<Handoff>)
    requires |hs| > 0 && AllValid(hs)
    ensures AllValid(Init(hs)) && Valid(Last(hs).sections)
    ensures Loop(a, hs) == Step(Loop(a, Init(hs)), Last(hs))
  {
    AllValidInit(hs);
  }

  /** A day of `timedelta`, in microseconds. */
  const MicrosPerDay: int := 86_400_000_000

  function MinOf(xs: seq<int>): (m: int)
    requires |xs| > 0
    ensures m in xs && forall i :: 0 <= i < |xs| ==> m <= xs[i]
    decreases |xs|
  {
    if |xs| == 1 then xs[0]
    else
      var m := MinOf(xs[1..]);
      assert forall i :: 1 <= i < |xs| ==> xs[1..][i - 1] == xs[i];
      if xs[0] <= m then xs[0] else m
  }

  function MaxOf(xs: seq<int>): (m: int)
    requires |xs| > 0
    ensures m in xs && forall i :: 0 <= i < |xs| ==> xs[i] <= m
    decreases |xs|
  {
    if |xs| == 1 then xs[0]
    else
      var m := MaxOf(xs[1..]);
      assert forall i :: 1 <= i < |xs| ==> xs[1..][i - 1] == xs[i];
      if xs[0] >= m then xs[0] else m
  }

  /** `{'start': min, 'end': max, 'duration_days': (max - min).days}`.
      `timedelta.days` rounds down; the spread is never negative, so Dafny's
      division agrees with it. */
  function SpanOf(times: seq<int>): (s: TimeSpan)
    requires |times| > 0
    ensures s.start in times && s.end in times
    ensures forall i :: 0 <= i < |times| ==> s.start <= times[i] <= s.end
    ensures 0 <= s.durationDays
    ensures s.durationDays * MicrosPerDay <= s.end - s.start < (s.durationDays + 1) * MicrosPerDay
    ensures s.durationDays > 0 <==>
            exists i, j :: 0 <= i < |times| && 0 <= j < |times| && times[j] - times[i] >= MicrosPerDay
  {
    var lo := MinOf(times);
    var hi := MaxOf(times);
    var days := (hi - lo) / MicrosPerDay;
    assert days > 0 ==> exists i, j :: 0 <= i < |times| && 0 <= j < |times| && times[j] - times[i] >= MicrosPerDay by {
      if days > 0 {
        var i :| 0 <= i < |times| && times[i] == lo;
        var j :| 0 <= j < |times| && times[j] == hi;
        assert days * MicrosPerDay >= MicrosPerDay;
      }
    }
    TimeSpan(lo, hi, days)
  }

  function Modified(hs: seq<Handoff>): (r: seq<int>)
    ensures |r| == |hs|
    ensures forall i :: 0 <= i < |hs| ==> r[i] == hs[i].modified
  {
    seq(|hs|, i requires 0 <= i < |hs| => hs[i].modified)
  }

  /** `parse_handoff` on every document, in order. */
  function Parsed(docs: seq<Document>): (r: seq<Handoff>)
    ensures |r| == |docs|
    ensures forall i :: 0 <= i < |docs| ==> r[i] == ParseHandoff(docs[i])
    ensures AllValid(r) && NoEmptyHeading(r)
  {
    seq(|docs|, i requires 0 <= i < |docs| => ParseHandoff(docs[i]))
  }

  /** `analyze_handoffs` on documents already read: the documents counted,
      parsed and tagged in order; per heading, the number of documents that
      have it and, per level, the number that label it so; the span of the
      modification times. */
  function Analyze(docs: seq<Document>): (r: Analysis)
    ensures r.total == |docs|
    ensures r.handoffs == Parsed(docs)
    ensures r.issues == AllTagged(Parsed(docs))
    ensures r.timeSpan == if |docs| == 0 then None else Some(SpanOf(Mtimes(docs)))
    ensures Valid(r.trends) && Valid(r.frequency)
    ensures forall k :: Get(r.frequency, k, 0) == Holding(Parsed(docs), k)
    ensures forall k :: k in r.frequency.entries <==> Holding(Parsed(docs), k) > 0
    ensures "" !in r.frequency.entries
    ensures r.frequency.keys == FirstSeen(AllKeys(Parsed(docs)), [])
    ensures forall k :: Get(r.trends, k, Zero) == LevelsOf(Parsed(docs), k)
    ensures forall k :: k in r.trends.entries <==> Sum(LevelsOf(Parsed(docs), k)) > 0
    ensures forall k :: Sum(Get(r.trends, k, Zero)) <= Get(r.frequency, k, 0)
  {
    var hs := Parsed(docs);
    if |docs| == 0 then
      assert forall k :: Holding(hs, k) == 0 && LevelsOf(hs, k) == Zero;
      Initial(0)
    else
      var a := Loop(Initial(|docs|), hs);
      LoopFromEmpty(docs);
      ModifiedParsed(docs);
      a.(timeSpan := Some(SpanOf(Modified(a.handoffs))))
  }

  // ----- What the fold computes, stated per heading and per document -----

  /** The number of documents that have a section named `k`. */
  function Holding(hs: seq<Handoff>, k: string): (n: nat)
    ensures n <= |hs|
    decreases |hs|
  {
    if |hs| == 0 then 0
    else Holding(Init(hs), k) + (if k in Last(hs).sections.entries then 1 else 0)
  }

  /** The number of documents whose section `k` is labelled `level`. */
  function Labelled(hs: seq<Handoff>, k: string, level: Level): nat
    decreases |hs|
  {
    if |hs| == 0 then 0
    else
      var h := Last(hs);
      Labelled(Init(hs), k, level) + (if k in h.sections.entries && Classify(h.sections.entries[k]) == level then 1 else 0)
  }

  /** The three counted labels of heading `k` across the documents. */
  function LevelsOf(hs: seq<Handoff>, k: string): Counts {
    Counts(Labelled(hs, k, High), Labelled(hs, k, Medium), Labelled(hs, k, Low))
  }

  function Plus(c: Counts, d: Counts): Counts {
    Counts(c.high + d.high, c.medium + d.medium, c.low + d.low)
  }

  /** A heading is labelled at most once per document that has it. */
  lemma {:induction false} LabelledWithinHolding(hs: seq<Handoff>, k: string)
    ensures Sum(LevelsOf(hs, k)) <= Holding(hs, k)
    decreases |hs|
  {
    if |hs| > 0 {
      LabelledWithinHolding(Init(hs), k);
    }
  }

  /** The counts of the last document's heading extend those of the rest by
      its label. */
  lemma LevelsOfSnoc(hs: seq<Handoff>, k: string)
    requires |hs| > 0
    ensures LevelsOf(hs, k) == if k in Last(hs).sections.entries
                              then Tally(LevelsOf(Init(hs), k), Classify(Last(hs).sections.entries[k]))
                              else LevelsOf(Init(hs), k)
  {
  }

  /** The frequency accumulator alone, document by document. */
  function FrequencyOver(freq: OMap<string, nat>, hs: seq<Handoff>): OMap<string, nat>
    decreases |hs|
  {
    if |hs| == 0 then freq
    else CountNames(FrequencyOver(freq, Init(hs)), Last(hs).sections.keys)
  }

  /** Every section name of every document, document after document, in
      each document's own key order. */
  function AllKeys(hs: seq<Handoff>): seq<string>
    decreases |hs|
  {
    if |hs| == 0 then [] else AllKeys(Init(hs)) + Last(hs).sections.keys
  }

  /** The frequency fold from empty lists each heading once, at the first
      document and position where it occurs: the order `most_common` falls
      back on between equal counts. */
  lemma {:induction false} FrequencyOrder(hs: seq<Handoff>)
    requires AllValid(hs) && NoEmptyHeading(hs)
    ensures Valid(FrequencyOver(Empty(), hs))
    ensures FrequencyOver(Empty(), hs).keys == FirstSeen(AllKeys(hs), [])
    decreases |hs|
  {
    if |hs| > 0 {
      AllValidInit(hs);
      assert forall i :: 0 <= i < |hs| - 1 ==> Init(hs)[i] == hs[i];
      FrequencyOrder(Init(hs));
      var before := FrequencyOver(Empty(), Init(hs));
      var names := Last(hs).sections.keys;
      assert "" !in Last(hs).sections.entries;
      CountNamesOrder(before, names);
      FirstSeenAppend(AllKeys(Init(hs)), names, []);
      assert [] + FirstSeen(AllKeys(Init(hs)), []) == before.keys;
    }
  }

  /** The trends accumulator alone, document by document. */
  function TrendsOver(trends: OMap<string, Counts>, hs: seq<Handoff>): OMap<string, Counts>
    requires AllValid(hs)
    decreases |hs|
  {
    if |hs| == 0 then trends
    else
      AllValidInit(hs);
      DocumentTrends(TrendsOver(trends, Init(hs)), Last(hs).sections)
  }

  /** The loop's accumulators do not read each other: each ends as its own
      fold over the documents. */
  lemma {:induction false} LoopFields(a: Analysis, hs: seq<Handoff>)
    requires AllValid(hs)
    ensures Loop(a, hs).frequency == FrequencyOver(a.frequency, hs)
    ensures Loop(a, hs).trends == TrendsOver(a.trends, hs)
    decreases |hs|
  {
    if |hs| > 0 {
      LoopSnoc(a, hs);
      LoopFields(a, Init(hs));
    }
  }

  /** After the loop, `sections_frequency[k]` has grown by the number of
      documents with a section `k`; `k` is a key exactly when it was one
      before or some document has that section. */
  lemma {:induction false} FrequencyOverGet(freq: OMap<string, nat>, hs: seq<Handoff>, k: string)
    requires AllValid(hs)
    ensures Get(FrequencyOver(freq, hs), k, 0) == Get<string, nat>(freq, k, 0) + Holding(hs, k)
    ensures k in FrequencyOver(freq, hs).entries <==> k in freq.entries || Holding(hs, k) > 0
    decreases |hs|
  {
    if |hs| > 0 {
      AllValidInit(hs);
      var h := Last(hs);
      FrequencyOverGet(freq, Init(hs), k);
      CountNamesGet(FrequencyOver(freq, Init(hs)), h.sections.keys, k);
    }
  }

  /** After the loop, the counts of heading `k` have grown by the labels its
      sections carry; `k` is a key exactly when it was one before or some
      document labels it high, medium or low. */
  lemma {:induction false} TrendsOverGet(trends: OMap<string, Counts>, hs: seq<Handoff>, k: string)
    requires AllValid(hs)
    ensures Get(TrendsOver(trends, hs), k, Zero) == Plus(Get(trends, k, Zero), LevelsOf(hs, k))
    ensures k in TrendsOver(trends, hs).entries <==> k in trends.entries || Sum(LevelsOf(hs, k)) > 0
    decreases |hs|
  {
    var g := Get(trends, k, Zero);
    if |hs| == 0 {
      assert TrendsOver(trends, hs) == trends;
      assert LevelsOf(hs, k) == Zero;
      PlusZero(g);
    } else {
      var before := LevelsOf(Init(hs), k);
      var level := LevelAt(Last(hs).sections, k);
      TrendsOverStep(trends, hs, k);
      assert Get(TrendsOver(trends, Init(hs)), k, Zero) == Plus(g, before)
          && (k in TrendsOver(trends, Init(hs)).entries <==> k in trends.entries || Sum(before) > 0) by {
        AllValidInit(hs);
        TrendsOverGet(trends, Init(hs), k);
      }
      TallyPlus(g, before, level);
    }
  }

  /** The last document moves the trends, and the reference counts, of
      heading `k` by its own label. */
  lemma TrendsOverStep(trends: OMap<string, Counts>, hs: seq<Handoff>, k: string)
    requires |hs| > 0 && AllValid(hs)
    ensures AllValid(Init(hs))
    ensures Get(TrendsOver(trends, hs), k, Zero) == Tally(Get(TrendsOver(trends, Init(hs)), k, Zero), LevelAt(Last(hs).sections, k))
    ensures k in TrendsOver(trends, hs).entries <==>
            k in TrendsOver(trends, Init(hs)).entries || LevelAt(Last(hs).sections, k) != Unknown
    ensures LevelsOf(hs, k) == Tally(LevelsOf(Init(hs), k), LevelAt(Last(hs).sections, k))
  {
    AllValidInit(hs);
    LevelsOfSnoc(hs, k);
  }

  lemma PlusZero(c: Counts)
    ensures Plus(c, Zero) == c
  {
  }

  lemma TallyPlus(c: Counts, d: Counts, level: Level)
    ensures Tally(Plus(c, d), level) == Plus(c, Tally(d, level))
    ensures Sum(Tally(d, level)) > 0 <==> Sum(d) > 0 || level != Unknown
  {
  }

  /** Every document's tagged issues, in document order. */
  function AllTagged(hs: seq<Handoff>): seq<TaggedIssue>
    decreases |hs|
  {
    if |hs| == 0 then [] else Tagged(hs[0]) + AllTagged(hs[1..])
  }

  lemma {:induction false} AllTaggedSnoc(hs: seq<Handoff>)
    requires |hs| > 0
    ensures AllTagged(hs) == AllTagged(Init(hs)) + Tagged(Last(hs))
    decreases |hs|
  {
    if |hs| == 1 {
      AppendEmpty(Tagged(hs[0]), AllTagged(hs[1..]));
      PrependEmpty(AllTagged(Init(hs)), Tagged(Last(hs)));
    } else {
      var tail := hs[1..];
      InitTail(hs);
      calc {
        AllTagged(hs);
        ==
        Tagged(hs[0]) + AllTagged(tail);
        == { AllTaggedSnoc(tail); }
        Tagged(hs[0]) + (AllTagged(Init(tail)) + Tagged(Last(tail)));
        == { Assoc(Tagged(hs[0]), AllTagged(Init(tail)), Tagged(Last(tail))); }
        (Tagged(hs[0]) + AllTagged(Init(hs)[1..])) + Tagged(Last(hs));
        ==
        AllTagged(Init(hs)) + Tagged(Last(hs));
      }
    }
  }

  /** An issue is reported exactly when some document reports it. */
  lemma {:induction false} AllTaggedMember(hs: seq<Handoff>, t: TaggedIssue)
    ensures t in AllTagged(hs) <==> exists j :: 0 <= j < |hs| && t in Tagged(hs[j])
    decreases |hs|
  {
    if |hs| > 0 {
      AllTaggedMember(hs[1..], t);
      if exists j :: 0 <= j < |hs[1..]| && t in Tagged(hs[1..][j]) {
        var j :| 0 <= j < |hs[1..]| && t in Tagged(hs[1..][j]);
        assert t in Tagged(hs[j + 1]);
      }
      if exists j :: 0 <= j < |hs| && t in Tagged(hs[j]) {
        var j :| 0 <= j < |hs| && t in Tagged(hs[j]);
        if j > 0 {
          assert hs[1..][j - 1] == hs[j];
        }
      }
    }
  }

  // ----- What `analyze_handoffs` returns -----

  lemma HoldingNoEmpty(hs: seq<Handoff>)
    requires NoEmptyHeading(hs)
    ensures Holding(hs, "") == 0
    decreases |hs|
  {
    if |hs| > 0 {
      assert forall i :: 0 <= i < |hs| - 1 ==> Init(hs)[i] == hs[i];
      HoldingNoEmpty(Init(hs));
    }
  }

  /** The frequency fold from empty counts the documents holding each
      heading, and never the empty heading. */
  lemma FrequencyFromEmpty(hs: seq<Handoff>, k: string)
    requires AllValid(hs) && NoEmptyHeading(hs)
    ensures Get(FrequencyOver(Empty(), hs), k, 0) == Holding(hs, k)
    ensures k in FrequencyOver(Empty(), hs).entries <==> Holding(hs, k) > 0
    ensures "" !in FrequencyOver(Empty(), hs).entries
  {
    HoldingNoEmpty(hs);
    FrequencyOverGet(Empty(), hs, k);
    FrequencyOverGet(Empty(), hs, "");
  }

  /** The trends fold from empty holds exactly the labels counted. */
  lemma TrendsFromEmpty(hs: seq<Handoff>, k: string)
    requires AllValid(hs)
    ensures Get(TrendsOver(Empty(), hs), k, Zero) == LevelsOf(hs, k)
    ensures k in TrendsOver(Empty(), hs).entries <==> Sum(LevelsOf(hs, k)) > 0
  {
    TrendsOverGet(Empty(), hs, k);
    assert Plus(Zero, LevelsOf(hs, k)) == LevelsOf(hs, k);
  }

  /** From the initial state, the loop leaves each accumulator holding its
      reference count. */
  lemma LoopFromEmpty(docs: seq<Document>)
    requires |docs| > 0
    ensures var a := Loop(Initial(|docs|), Parsed(docs));
            && a.issues == AllTagged(Parsed(docs))
            && (forall k :: Get(a.frequency, k, 0) == Holding(Parsed(docs), k))
            && (forall k :: k in a.frequency.entries <==> Holding(Parsed(docs), k) > 0)
            && "" !in a.frequency.entries
            && a.frequency.keys == FirstSeen(AllKeys(Parsed(docs)), [])
            && (forall k :: Get(a.trends, k, Zero) == LevelsOf(Parsed(docs), k))
            && (forall k :: k in a.trends.entries <==> Sum(LevelsOf(Parsed(docs), k)) > 0)
            && (forall k :: Sum(Get(a.trends, k, Zero)) <= Get(a.frequency, k, 0))
  {
    var hs := Parsed(docs);
    var init := Initial(|docs|);
    LoopFields(init, hs);
    PrependEmpty(init.issues, AllTagged(hs));
    FrequencyOrder(hs);
    forall k
      ensures Get(FrequencyOver(Empty(), hs), k, 0) == Holding(hs, k)
      ensures k in FrequencyOver(Empty(), hs).entries <==> Holding(hs, k) > 0
      ensures "" !in FrequencyOver(Empty(), hs).entries
      ensures Get(TrendsOver(Empty(), hs), k, Zero) == LevelsOf(hs, k)
      ensures k in TrendsOver(Empty(), hs).entries <==> Sum(LevelsOf(hs, k)) > 0
      ensures Sum(LevelsOf(hs, k)) <= Holding(hs, k)
    {
      FrequencyFromEmpty(hs, k);
      TrendsFromEmpty(hs, k);
      LabelledWithinHolding(hs, k);
    }
  }

  /** The modification times of the documents, in order. */
  function Mtimes(docs: seq<Document>): (r: seq<int>)
    ensures |r| == |docs|
    ensures forall i :: 0 <= i < |docs| ==> r[i] == docs[i].mtime
  {
    seq(|docs|, i requires 0 <= i < |docs| => docs[i].mtime)
  }

  lemma ModifiedParsed(docs: seq<Document>)
    ensures Modified(Parsed(docs)) == Mtimes(docs)
  {
  }

  /** The span of some times starts and ends at one of them, covers all of
      them, and counts the whole days between its ends. */
  lemma SpanOfTimes(docs: seq<Document>)
    requires |docs| > 0
    ensures exists i :: 0 <= i < |docs| && SpanOf(Mtimes(docs)).start == docs[i].mtime
    ensures exists i :: 0 <= i < |docs| && SpanOf(Mtimes(docs)).end == docs[i].mtime
    ensures forall i :: 0 <= i < |docs| ==> SpanOf(Mtimes(docs)).start <= docs[i].mtime <= SpanOf(Mtimes(docs)).end
  {
    var times := Mtimes(docs);
    var s := SpanOf(times);
    var i :| 0 <= i < |times| && times[i] == s.start;
    var j :| 0 <= j < |times| && times[j] == s.end;
  }

  /** Documents all written on the same day give a duration of zero days. */
  lemma SameDayNoDuration(docs: seq<Document>)
    requires |docs| > 0
    requires forall i :: 0 <= i < |docs| ==> docs[i].mtime / MicrosPerDay == docs[0].mtime / MicrosPerDay
    ensures Analyze(docs).timeSpan.Some? && Analyze(docs).timeSpan.value.durationDays == 0
  {
    assert Analyze(docs).timeSpan == Some(SpanOf(Mtimes(docs)));
    SpanOfTimes(docs);
    var s := SpanOf(Mtimes(docs));
    var i :| 0 <= i < |docs| && s.start == docs[i].mtime;
    var j :| 0 <= j < |docs| && s.end == docs[j].mtime;
    SameDayGap(s.start, s.end);
  }

  /** Two instants in the same day are less than a day apart. */
  lemma SameDayGap(x: int, y: int)
    requires x <= y && x / MicrosPerDay == y / MicrosPerDay
    ensures y - x < MicrosPerDay
  {
    var d := x / MicrosPerDay;
    assert d * MicrosPerDay <= x;
    assert y < (d + 1) * MicrosPerDay;
  }

}
