/** The text half of `parse_handoff`: a handoff document is cut into sections
    at every line that starts with "## ". The heading is the rest of that line,
    stripped. The body is the lines up to the next heading, joined with '\n'
    and stripped.

    `Scan` follows the source loop line by line. `SplitBlocks` is an
    independent, structural description of the same cut: an unnamed preamble
    followed by blocks, each a heading line and its body lines. Each block
    becomes one assignment `sections[name] = text`. The lemmas below show
    that the loop performs exactly these assignments, in order, skipping the
    empty name, so a later block overwrites an earlier one with the same
    name. */
module Sections {
  import opened Text
  import opened OrderedMaps

  /** The `sections` dict: heading -> stripped body, in insertion order. */
  type SectionMap = OMap<string, string>

  /** What every parsed section map satisfies: no key is the empty heading and
      every body is stripped. */
  ghost predicate WellFormed(m: SectionMap) {
    && Valid(m)
    && "" !in m.entries
    && forall k :: k in m.entries ==> IsStripped(m.entries[k])
  }

  const Marker: string := "## "

  predicate IsHeading(line: string) {
    StartsWith(line, Marker)
  }

  /** `line[3:].strip()`. */
  function HeadingName(line: string): string {
    Strip(DropFirst(line, |Marker|))
  }

  predicate NoHeadings(lines: seq<string>) {
    forall i :: 0 <= i < |lines| ==> !IsHeading(lines[i])
  }

  /** `'\n'.join(current_content).strip()`. */
  function BodyText(content: seq<string>): string {
    Strip(Join(content))
  }

  /** `if current_section: sections[current_section] = text`. The text is
      stored only when the heading is truthy. Before the first heading the
      source holds `None`, which is modelled as "": both are falsy, so the
      two behave alike. */
  function Store(acc: SectionMap, current: string, text: string): SectionMap {
    if current != "" then Put(acc, current, text) else acc
  }

  /** Closing the open section when the next heading or the end arrives. */
  function Close(acc: SectionMap, current: string, content: seq<string>): SectionMap {
    Store(acc, current, BodyText(content))
  }

  lemma CloseKeepsWellFormed(acc: SectionMap, current: string, content: seq<string>)
    requires WellFormed(acc)
    ensures WellFormed(Close(acc, current, content))
  {
    if current != "" {
      var body := BodyText(content);
      StripSpec(Join(content));
      PutKeepsWellFormed(acc, current, body);
    }
  }

  lemma PutKeepsWellFormed(acc: SectionMap, heading: string, body: string)
    requires WellFormed(acc) && heading != "" && IsStripped(body)
    ensures WellFormed(Put(acc, heading, body))
  {
  }

  /** The source loop over `content.split('\n')`, one line at a time. */
  function Scan(lines: seq<string>, current: string, content: seq<string>, acc: SectionMap): SectionMap
    decreases |lines|
  {
    if |lines| == 0 then
      Close(acc, current, content)
    else if IsHeading(lines[0]) then
      Scan(lines[1..], HeadingName(lines[0]), [], Close(acc, current, content))
    else
      Scan(lines[1..], current, content + [lines[0]], acc)
  }

  lemma {:induction false} ScanKeepsWellFormed(lines: seq<string>, current: string, content: seq<string>, acc: SectionMap)
    requires WellFormed(acc)
    ensures WellFormed(Scan(lines, current, content, acc))
    decreases |lines|
  {
    if |lines| == 0 {
      CloseKeepsWellFormed(acc, current, content);
    } else if IsHeading(lines[0]) {
      CloseKeepsWellFormed(acc, current, content);
      ScanKeepsWellFormed(lines[1..], HeadingName(lines[0]), [], Close(acc, current, content));
    } else {
      ScanKeepsWellFormed(lines[1..], current, content + [lines[0]], acc);
    }
  }

  function ParseLines(lines: seq<string>): SectionMap {
    Scan(lines, "", [], Empty())
  }

  /** The `sections` part of `parse_handoff`, given the file's text: keys
      unique and in order, never the empty heading, every body stripped. */
  function ParseSections(text: string): (r: SectionMap)
    ensures WellFormed(r)
  {
    ScanKeepsWellFormed(Lines(text), "", [], Empty());
    ParseLines(Lines(text))
  }

  // ----- The reference cut: preamble and blocks -----

  /** A heading line, kept verbatim, and the body lines under it. */
  datatype Block = Block(heading: string, body: seq<string>)

  /** Every block starts at a heading line and holds no further one. */
  predicate WellCut(blocks: seq<Block>) {
    forall i :: 0 <= i < |blocks| ==> IsHeading(blocks[i].heading) && NoHeadings(blocks[i].body)
  }

  /** Cuts `lines` into the lines before the first heading and one block per
      heading line. */
  function SplitBlocks(lines: seq<string>): (r: (seq<string>, seq<Block>))
    ensures NoHeadings(r.0)
    ensures WellCut(r.1)
    decreases |lines|
  {
    if |lines| == 0 then
      ([], [])
    else
      var (pre, blocks) := SplitBlocks(lines[1..]);
      if IsHeading(lines[0]) then ([], [Block(lines[0], pre)] + blocks)
      else ([lines[0]] + pre, blocks)
  }

  function Flatten(blocks: seq<Block>): seq<string>
    decreases |blocks|
  {
    if |blocks| == 0 then [] else [blocks[0].heading] + blocks[0].body + Flatten(blocks[1..])
  }

  /** The cut loses no line and reorders nothing. */
  lemma {:induction false} SplitBlocksFlatten(lines: seq<string>)
    ensures SplitBlocks(lines).0 + Flatten(SplitBlocks(lines).1) == lines
    decreases |lines|
  {
    if |lines| > 0 {
      SplitBlocksFlatten(lines[1..]);
      var (pre, blocks) := SplitBlocks(lines[1..]);
      if IsHeading(lines[0]) {
        var b := Block(lines[0], pre);
        assert ([b] + blocks)[1..] == blocks;
        assert Flatten([b] + blocks) == [lines[0]] + pre + Flatten(blocks);
      }
      assert lines == [lines[0]] + lines[1..];
    }
  }

  /** A heading-free prefix only lengthens the preamble. */
  lemma {:induction false} SplitAfterPlainLines(x: seq<string>, y: seq<string>)
    requires NoHeadings(x)
    ensures SplitBlocks(x + y) == (x + SplitBlocks(y).0, SplitBlocks(y).1)
    decreases |x|
  {
    if |x| > 0 {
      assert (x + y)[1..] == x[1..] + y;
      SplitAfterPlainLines(x[1..], y);
      assert !IsHeading((x + y)[0]);
      assert [x[0]] + (x[1..] + SplitBlocks(y).0) == x + SplitBlocks(y).0;
    } else {
      assert x + y == y;
      assert x + SplitBlocks(y).0 == SplitBlocks(y).0;
    }
  }

  /** `SplitBlocks` on a heading line followed by the rest. */
  lemma SplitAtHeading(h: string, rest: seq<string>)
    requires IsHeading(h)
    ensures SplitBlocks([h] + rest) == ([], [Block(h, SplitBlocks(rest).0)] + SplitBlocks(rest).1)
  {
    assert ([h] + rest)[0] == h;
    assert ([h] + rest)[1..] == rest;
  }

  /** The converse of `SplitBlocksFlatten`: any heading-free preamble and
      well-cut blocks are exactly what `SplitBlocks` recovers from their
      concatenation, so the cut is the only one with these properties. */
  lemma {:induction false} FlattenSplitBlocks(pre: seq<string>, blocks: seq<Block>)
    requires NoHeadings(pre)
    requires WellCut(blocks)
    ensures SplitBlocks(pre + Flatten(blocks)) == (pre, blocks)
    decreases |blocks|
  {
    if |blocks| == 0 {
      SplitAfterPlainLines(pre, []);
      assert pre + [] == pre;
    } else {
      var b := blocks[0];
      var rest := blocks[1..];
      var tail := Flatten(rest);
      assert WellCut(rest) by {
        forall i | 0 <= i < |rest|
          ensures IsHeading(rest[i].heading) && NoHeadings(rest[i].body)
        {
          assert rest[i] == blocks[i + 1];
        }
      }
      assert SplitBlocks(b.body + tail) == (b.body, rest) by {
        FlattenSplitBlocks([], rest);
        assert [] + tail == tail;
        SplitAfterPlainLines(b.body, tail);
        assert b.body + [] == b.body;
      }
      assert SplitBlocks(Flatten(blocks)) == ([], blocks) by {
        assert Flatten(blocks) == [b.heading] + (b.body + tail);
        SplitAtHeading(b.heading, b.body + tail);
        assert blocks == [b] + rest;
      }
      SplitAfterPlainLines(pre, Flatten(blocks));
      assert pre + [] == pre;
    }
  }

  /** A line is a heading line of `lines` exactly when it heads some block. */
  lemma {:induction false} HeadingLinesAreBlocks(lines: seq<string>, l: string)
    ensures (l in lines && IsHeading(l)) <==>
            (exists i :: 0 <= i < |SplitBlocks(lines).1| && SplitBlocks(lines).1[i].heading == l)
    decreases |lines|
  {
    if |lines| > 0 {
      var rest := lines[1..];
      HeadingLinesAreBlocks(rest, l);
      var (pre, blocks) := SplitBlocks(rest);
      assert lines == [lines[0]] + rest;
      assert l in lines <==> (l == lines[0] || l in rest);
      if IsHeading(lines[0]) {
        var bs := [Block(lines[0], pre)] + blocks;
        assert SplitBlocks(lines).1 == bs;
        assert bs[0].heading == lines[0];
        if l in rest && IsHeading(l) {
          var i :| 0 <= i < |blocks| && blocks[i].heading == l;
          assert bs[i + 1].heading == l;
        }
        if exists i :: 0 <= i < |bs| && bs[i].heading == l {
          var i :| 0 <= i < |bs| && bs[i].heading == l;
          if i > 0 {
            assert blocks[i - 1].heading == l;
          }
        }
      } else {
        assert SplitBlocks(lines).1 == blocks;
      }
    }
  }

  /** Splitting in front of a heading line splits the blocks too. */
  lemma {:induction false} SplitBeforeHeading(a: seq<string>, x: seq<string>)
    requires |x| > 0 && IsHeading(x[0])
    ensures SplitBlocks(a + x) == (SplitBlocks(a).0, SplitBlocks(a).1 + SplitBlocks(x).1)
    decreases |a|
  {
    if |a| == 0 {
      assert a + x == x;
      assert SplitBlocks(x).0 == [] by {
        SplitAtHeading(x[0], x[1..]);
        assert x == [x[0]] + x[1..];
      }
      assert SplitBlocks(a).1 + SplitBlocks(x).1 == SplitBlocks(x).1;
    } else {
      assert (a + x)[1..] == a[1..] + x;
      assert (a + x)[0] == a[0];
      SplitBeforeHeading(a[1..], x);
      var (pre, bs) := SplitBlocks(a[1..]);
      if IsHeading(a[0]) {
        var b := Block(a[0], pre);
        assert [b] + (bs + SplitBlocks(x).1) == ([b] + bs) + SplitBlocks(x).1;
      }
    }
  }

  // ----- Blocks as assignments -----

  /** One `sections[name] = text` the loop performs (or skips, when the name
      is empty). */
  datatype Assignment = Assignment(name: string, text: string)

  function Stored(b: Block): Assignment {
    Assignment(HeadingName(b.heading), BodyText(b.body))
  }

  function Assignments(blocks: seq<Block>): (r: seq<Assignment>)
    ensures |r| == |blocks|
    decreases |blocks|
  {
    if |blocks| == 0 then [] else [Stored(blocks[0])] + Assignments(blocks[1..])
  }

  /** The assignment at position `i` is that of block `i`. */
  lemma {:induction false} AssignmentsAt(blocks: seq<Block>, i: int)
    requires 0 <= i < |blocks|
    ensures Assignments(blocks)[i] == Stored(blocks[i])
    decreases |blocks|
  {
    if i > 0 {
      AssignmentsAt(blocks[1..], i - 1);
    }
  }

  lemma {:induction false} AssignmentsAppend(a: seq<Block>, b: seq<Block>)
    ensures Assignments(a + b) == Assignments(a) + Assignments(b)
    decreases |a|
  {
    if |a| == 0 {
      assert a + b == b;
    } else {
      assert (a + b)[0] == a[0];
      assert (a + b)[1..] == a[1..] + b;
      AssignmentsAppend(a[1..], b);
    }
  }

  /** Performs the assignments one after another. */
  function ApplyAll(acc: SectionMap, asg: seq<Assignment>): SectionMap
    decreases |asg|
  {
    if |asg| == 0 then acc
    else ApplyAll(Store(acc, asg[0].name, asg[0].text), asg[1..])
  }

  lemma {:induction false} ApplyAllAppend(acc: SectionMap, a: seq<Assignment>, b: seq<Assignment>)
    ensures ApplyAll(acc, a + b) == ApplyAll(ApplyAll(acc, a), b)
    decreases |a|
  {
    if |a| == 0 {
      assert a + b == b;
    } else {
      assert (a + b)[0] == a[0];
      assert (a + b)[1..] == a[1..] + b;
      ApplyAllAppend(Store(acc, a[0].name, a[0].text), a[1..], b);
    }
  }

  /** Which names end up stored: those already present, plus every assigned
      name except the empty one. */
  lemma {:induction false} ApplyAllKeys(acc: SectionMap, asg: seq<Assignment>, k: string)
    ensures k in ApplyAll(acc, asg).entries <==>
            (k in acc.entries || (k != "" && exists i :: 0 <= i < |asg| && asg[i].name == k))
    decreases |asg|
  {
    if |asg| > 0 {
      var mid := Store(acc, asg[0].name, asg[0].text);
      var rest := asg[1..];
      ApplyAllKeys(mid, rest, k);
      assert k in mid.entries <==> (k in acc.entries || (k != "" && asg[0].name == k));
      if exists i :: 0 <= i < |rest| && rest[i].name == k {
        var i :| 0 <= i < |rest| && rest[i].name == k;
        assert asg[i + 1].name == k;
      }
      if exists i :: 0 <= i < |asg| && asg[i].name == k {
        var i :| 0 <= i < |asg| && asg[i].name == k;
        if i > 0 {
          assert rest[i - 1].name == k;
        }
      }
    }
  }

  /** A name no assignment mentions keeps whatever it had before. */
  lemma {:induction false} ApplyAllUntouched(acc: SectionMap, asg: seq<Assignment>, k: string)
    requires forall i :: 0 <= i < |asg| ==> asg[i].name != k
    ensures k in ApplyAll(acc, asg).entries <==> k in acc.entries
    ensures k in acc.entries ==> ApplyAll(acc, asg).entries[k] == acc.entries[k]
    decreases |asg|
  {
    if |asg| > 0 {
      var rest := asg[1..];
      assert forall i :: 0 <= i < |rest| ==> rest[i].name != k by {
        forall i | 0 <= i < |rest| ensures rest[i].name != k {
          assert rest[i] == asg[i + 1];
        }
      }
      ApplyAllUntouched(Store(acc, asg[0].name, asg[0].text), rest, k);
    }
  }

  /** Last write wins: a non-empty name holds the text of the last
      assignment to it. */
  lemma {:induction false} ApplyAllLastWins(acc: SectionMap, asg: seq<Assignment>, i: int)
    requires 0 <= i < |asg| && asg[i].name != ""
    requires forall j :: i < j < |asg| ==> asg[j].name != asg[i].name
    ensures asg[i].name in ApplyAll(acc, asg).entries
    ensures ApplyAll(acc, asg).entries[asg[i].name] == asg[i].text
    decreases |asg|
  {
    var mid := Store(acc, asg[0].name, asg[0].text);
    var rest := asg[1..];
    assert ApplyAll(acc, asg) == ApplyAll(mid, rest);
    if i == 0 {
      var n := asg[0].name;
      assert n in mid.entries && mid.entries[n] == asg[0].text;
      assert forall j :: 0 <= j < |rest| ==> rest[j].name != n by {
        forall j | 0 <= j < |rest| ensures rest[j].name != n {
          assert rest[j] == asg[j + 1];
        }
      }
      ApplyAllUntouched(mid, rest, n);
    } else {
      assert rest[i - 1] == asg[i];
      assert forall j :: i - 1 < j < |rest| ==> rest[j].name != rest[i - 1].name by {
        forall j | i - 1 < j < |rest| ensures rest[j].name != rest[i - 1].name {
          assert rest[j] == asg[j + 1];
        }
      }
      ApplyAllLastWins(mid, rest, i - 1);
    }
  }

  /** The names in first-appearance order, skipping "" and names already in
      `seen`: the key order a dict gets from these assignments. */
  function FirstSeen(names: seq<string>, seen: seq<string>): seq<string>
    decreases |names|
  {
    if |names| == 0 then []
    else if names[0] == "" || names[0] in seen then FirstSeen(names[1..], seen)
    else [names[0]] + FirstSeen(names[1..], seen + [names[0]])
  }

  function Names(asg: seq<Assignment>): (r: seq<string>)
    ensures |r| == |asg|
    ensures forall i :: 0 <= i < |asg| ==> r[i] == asg[i].name
  {
    seq(|asg|, i requires 0 <= i < |asg| => asg[i].name)
  }

  lemma StoreKeys(acc: SectionMap, n: string, text: string)
    requires Valid(acc)
    ensures Valid(Store(acc, n, text))
    ensures Store(acc, n, text).keys == if n == "" || n in acc.keys then acc.keys else acc.keys + [n]
  {
  }

  lemma NamesCons(asg: seq<Assignment>)
    requires |asg| > 0
    ensures Names(asg) == [asg[0].name] + Names(asg[1..])
  {
  }

  lemma FirstSeenCons(n: string, tail: seq<string>, seen: seq<string>)
    ensures FirstSeen([n] + tail, seen)
         == if n == "" || n in seen then FirstSeen(tail, seen) else [n] + FirstSeen(tail, seen + [n])
  {
    assert ([n] + tail)[0] == n && ([n] + tail)[1..] == tail;
  }

  /** Reading two runs of names one after the other: the second run skips
      whatever the first already brought in. */
  lemma {:induction false} FirstSeenAppend(a: seq<string>, b: seq<string>, seen: seq<string>)
    ensures FirstSeen(a + b, seen) == FirstSeen(a, seen) + FirstSeen(b, seen + FirstSeen(a, seen))
    decreases |a|
  {
    if |a| == 0 {
      assert a + b == b;
      assert seen + [] == seen;
    } else {
      var n := a[0];
      assert (a + b)[0] == n && (a + b)[1..] == a[1..] + b;
      if n == "" || n in seen {
        FirstSeenAppend(a[1..], b, seen);
      } else {
        FirstSeenAppend(a[1..], b, seen + [n]);
        var tail := FirstSeen(a[1..], seen + [n]);
        assert seen + [n] + tail == seen + ([n] + tail);
      }
    }
  }

  /** The key sequence after storing names one by one: a non-empty name is
      appended when it is not yet present. */
  function AddKeys(keys: seq<string>, names: seq<string>): seq<string>
    decreases |names|
  {
    if |names| == 0 then keys
    else AddKeys(if names[0] == "" || names[0] in keys then keys else keys + [names[0]], names[1..])
  }

  /** Adding names one by one keeps the old keys in place and appends each
      new non-empty name at its first appearance. */
  lemma {:induction false} AddKeysFirstSeen(keys: seq<string>, names: seq<string>)
    ensures AddKeys(keys, names) == keys + FirstSeen(names, keys)
    decreases |names|
  {
    if |names| == 0 {
      assert keys + [] == keys;
    } else {
      var n := names[0];
      var rest := names[1..];
      assert names == [n] + rest;
      FirstSeenCons(n, rest, keys);
      if n == "" || n in keys {
        AddKeysFirstSeen(keys, rest);
      } else {
        AddKeysFirstSeen(keys + [n], rest);
        var tail := FirstSeen(rest, keys + [n]);
        assert keys + [n] + tail == keys + ([n] + tail);
      }
    }
  }

  lemma {:induction false} ApplyAllKeySeq(acc: SectionMap, asg: seq<Assignment>)
    requires Valid(acc)
    ensures ApplyAll(acc, asg).keys == AddKeys(acc.keys, Names(asg))
    decreases |asg|
  {
    if |asg| > 0 {
      StoreKeys(acc, asg[0].name, asg[0].text);
      NamesCons(asg);
      ApplyAllKeySeq(Store(acc, asg[0].name, asg[0].text), asg[1..]);
    }
  }

  /** Key order: existing keys first, then each new non-empty name at its
      first assignment. */
  lemma ApplyAllOrder(acc: SectionMap, asg: seq<Assignment>)
    requires Valid(acc)
    ensures ApplyAll(acc, asg).keys == acc.keys + FirstSeen(Names(asg), acc.keys)
  {
    ApplyAllKeySeq(acc, asg);
    AddKeysFirstSeen(acc.keys, Names(asg));
  }

  // ----- The loop performs the blocks' assignments -----

  /** The loop's invariant: the state after any prefix of the lines is
      the open section extended by the preamble still to come, closed, then
      followed by the blocks' assignments. */
  ghost predicate FoldsAt(lines: seq<string>, current: string, content: seq<string>, acc: SectionMap) {
    Scan(lines, current, content, acc)
      == ApplyAll(Close(acc, current, content + SplitBlocks(lines).0), Assignments(SplitBlocks(lines).1))
  }

  lemma FoldsAtHeading(lines: seq<string>, current: string, content: seq<string>, acc: SectionMap)
    requires |lines| > 0 && IsHeading(lines[0])
    requires FoldsAt(lines[1..], HeadingName(lines[0]), [], Close(acc, current, content))
    ensures FoldsAt(lines, current, content, acc)
  {
    var (pre, blocks) := SplitBlocks(lines[1..]);
    var mid := Close(acc, current, content);
    var b := Block(lines[0], pre);
    var asg := [Stored(b)] + Assignments(blocks);
    assert [] + pre == pre;
    assert Scan(lines, current, content, acc) == ApplyAll(Close(mid, HeadingName(lines[0]), pre), Assignments(blocks));
    assert asg[0] == Stored(b) && asg[1..] == Assignments(blocks);
    assert ApplyAll(mid, asg) == ApplyAll(Close(mid, HeadingName(lines[0]), pre), Assignments(blocks));
    SplitAtHeading(lines[0], lines[1..]);
    assert lines == [lines[0]] + lines[1..];
    assert ([b] + blocks)[0] == b && ([b] + blocks)[1..] == blocks;
    assert content + [] == content;
  }

  lemma FoldsAtPlain(lines: seq<string>, current: string, content: seq<string>, acc: SectionMap)
    requires |lines| > 0 && !IsHeading(lines[0])
    requires FoldsAt(lines[1..], current, content + [lines[0]], acc)
    ensures FoldsAt(lines, current, content, acc)
  {
    var pre := SplitBlocks(lines[1..]).0;
    assert SplitBlocks(lines) == ([lines[0]] + pre, SplitBlocks(lines[1..]).1);
    assert content + [lines[0]] + pre == content + ([lines[0]] + pre);
  }

  /** The loop from any state equals closing the open section, extended by
      the preamble still to come, followed by the blocks' assignments. */
  lemma {:induction false} ScanIsBlockFold(lines: seq<string>, current: string, content: seq<string>, acc: SectionMap)
    ensures FoldsAt(lines, current, content, acc)
    decreases |lines|
  {
    if |lines| == 0 {
      assert content + [] == content;
    } else if IsHeading(lines[0]) {
      ScanIsBlockFold(lines[1..], HeadingName(lines[0]), [], Close(acc, current, content));
      FoldsAtHeading(lines, current, content, acc);
    } else {
      ScanIsBlockFold(lines[1..], current, content + [lines[0]], acc);
      FoldsAtPlain(lines, current, content, acc);
    }
  }

  lemma ParseIsBlockFold(lines: seq<string>)
    ensures ParseLines(lines) == ApplyAll(Empty(), Assignments(SplitBlocks(lines).1))
  {
    ScanIsBlockFold(lines, "", [], Empty());
  }

  /** The names of the heading lines, in order, repeats included: a
      reference read straight off the lines. */
  function HeadingNames(lines: seq<string>): seq<string>
    decreases |lines|
  {
    if |lines| == 0 then []
    else if IsHeading(lines[0]) then [HeadingName(lines[0])] + HeadingNames(lines[1..])
    else HeadingNames(lines[1..])
  }

  lemma {:induction false} BlockNames(lines: seq<string>)
    ensures Names(Assignments(SplitBlocks(lines).1)) == HeadingNames(lines)
    decreases |lines|
  {
    if |lines| > 0 {
      BlockNames(lines[1..]);
      var (pre, blocks) := SplitBlocks(lines[1..]);
      if IsHeading(lines[0]) {
        var b := Block(lines[0], pre);
        assert SplitBlocks(lines).1 == [b] + blocks;
        assert ([b] + blocks)[0] == b && ([b] + blocks)[1..] == blocks;
        var asg := Assignments([b] + blocks);
        assert asg == [Stored(b)] + Assignments(blocks);
        NamesCons(asg);
        assert asg[1..] == Assignments(blocks);
      }
    }
  }

  // ----- Properties of the parser -----

  /** A heading is stored exactly when some heading line strips to it and it
      is not empty: an empty heading is falsy and never becomes a key. */
  lemma SectionKeys(lines: seq<string>, k: string)
    ensures k in ParseLines(lines).entries <==>
            (k != "" && exists l :: l in lines && IsHeading(l) && HeadingName(l) == k)
  {
    var blocks := SplitBlocks(lines).1;
    var asg := Assignments(blocks);
    ParseIsBlockFold(lines);
    ApplyAllKeys(Empty(), asg, k);
    if k != "" && exists i :: 0 <= i < |asg| && asg[i].name == k {
      var i :| 0 <= i < |asg| && asg[i].name == k;
      AssignmentsAt(blocks, i);
      HeadingLinesAreBlocks(lines, blocks[i].heading);
    }
    if exists l :: l in lines && IsHeading(l) && HeadingName(l) == k {
      var l :| l in lines && IsHeading(l) && HeadingName(l) == k;
      HeadingLinesAreBlocks(lines, l);
      var i :| 0 <= i < |blocks| && blocks[i].heading == l;
      AssignmentsAt(blocks, i);
      assert asg[i].name == k;
    }
  }

  /** Last write wins: a repeated heading keeps the body of its last block. */
  lemma LastWriteWins(lines: seq<string>, i: int)
    requires 0 <= i < |SplitBlocks(lines).1|
    requires HeadingName(SplitBlocks(lines).1[i].heading) != ""
    requires forall j :: i < j < |SplitBlocks(lines).1| ==>
               HeadingName(SplitBlocks(lines).1[j].heading) != HeadingName(SplitBlocks(lines).1[i].heading)
    ensures HeadingName(SplitBlocks(lines).1[i].heading) in ParseLines(lines).entries
    ensures ParseLines(lines).entries[HeadingName(SplitBlocks(lines).1[i].heading)]
         == BodyText(SplitBlocks(lines).1[i].body)
  {
    var blocks := SplitBlocks(lines).1;
    var asg := Assignments(blocks);
    ParseIsBlockFold(lines);
    AssignmentsAt(blocks, i);
    forall j | i < j < |asg| ensures asg[j].name != asg[i].name {
      AssignmentsAt(blocks, j);
    }
    ApplyAllLastWins(Empty(), asg, i);
  }

  /** The keys come in the order their headings first appear. */
  lemma SectionOrder(lines: seq<string>)
    ensures ParseLines(lines).keys == FirstSeen(HeadingNames(lines), [])
  {
    var e: SectionMap := Empty();
    var asg := Assignments(SplitBlocks(lines).1);
    ParseIsBlockFold(lines);
    ApplyAllOrder(e, asg);
    BlockNames(lines);
    assert e.keys + FirstSeen(Names(asg), e.keys) == FirstSeen(HeadingNames(lines), []);
  }

  /** Lines before the first heading are discarded. */
  lemma PreambleDiscarded(pre: seq<string>, rest: seq<string>)
    requires NoHeadings(pre)
    ensures ParseLines(pre + rest) == ParseLines(rest)
  {
    SplitAfterPlainLines(pre, rest);
    ParseIsBlockFold(pre + rest);
    ParseIsBlockFold(rest);
  }

  /** A heading that strips to "" stores nothing. The lines under it are
      lost: they are not added to the section before it. */
  /** A tail that is empty or opens with a heading has no preamble, so it
      adds its blocks unchanged after whatever comes before it. */
  lemma HeadingTailBlocks(a: seq<string>, rest: seq<string>)
    requires |rest| == 0 || IsHeading(rest[0])
    ensures SplitBlocks(rest).0 == []
    ensures SplitBlocks(a + rest).1 == SplitBlocks(a).1 + SplitBlocks(rest).1
  {
    if |rest| == 0 {
      assert a + rest == a;
    } else {
      SplitAtHeading(rest[0], rest[1..]);
      assert [rest[0]] + rest[1..] == rest;
      SplitBeforeHeading(a, rest);
    }
  }

  /** A heading that strips to "" opens a block that is never stored: its
      lines vanish, and are not added to the section before it. */
  lemma EmptyHeadingLosesLines(before: seq<string>, h: string, body: seq<string>, rest: seq<string>)
    requires IsHeading(h) && HeadingName(h) == ""
    requires NoHeadings(body)
    requires |rest| == 0 || IsHeading(rest[0])
    ensures ParseLines(before + [h] + body + rest) == ParseLines(before + rest)
  {
    var x := [h] + (body + rest);
    assert before + [h] + body + rest == before + x;
    assert x[0] == h;
    SplitBeforeHeading(before, x);
    SplitAtHeading(h, body + rest);
    SplitAfterPlainLines(body, rest);
    HeadingTailBlocks(before, rest);
    assert body + [] == body;
    var b := Block(h, body);
    var bs := SplitBlocks(before).1;
    var rs := SplitBlocks(rest).1;
    assert SplitBlocks(x).1 == [b] + rs;
    ParseIsBlockFold(before + x);
    ParseIsBlockFold(before + rest);
    AssignmentsAppend(bs, [b] + rs);
    AssignmentsAppend([b], rs);
    AssignmentsAppend(bs, rs);
    assert Assignments([b]) == [Stored(b)];
    var m := ApplyAll(Empty(), Assignments(bs));
    ApplyAllAppend(Empty(), Assignments(bs), [Stored(b)] + Assignments(rs));
    ApplyAllAppend(m, [Stored(b)], Assignments(rs));
    ApplyAllAppend(Empty(), Assignments(bs), Assignments(rs));
    assert ApplyAll(m, [Stored(b)]) == m;
  }

}
