/** `extract_issues`: risks are the bulleted lines of the "What Could Go
    Wrong" section. Bugs are the bulleted lines of the "Current System State"
    section that mention one of five problem keywords. All risks of a
    document come before all its bugs. */
module Issues {
  import opened Text
  import opened OrderedMaps

  datatype Kind = Risk | Bug

  datatype Issue = Issue(kind: Kind, description: string)

  const RiskSection: string := "What Could Go Wrong"
  const StateSection: string := "Current System State"

  /** Looked for in the lower-cased, unstripped line. */
  const Keywords: seq<string> := ["broken", "bug", "issue", "error", "doesnt work"]

  /** The stripped line starts with '-' or '*'. */
  predicate IsBullet(line: string) {
    StartsWith(Strip(line), "-") || StartsWith(Strip(line), "*")
  }

  /** `line.strip()[1:].strip()`: the stripped line without its bullet. */
  function Description(line: string): string {
    Strip(DropFirst(Strip(line), 1))
  }

  /** `any(keyword in line.lower() for keyword in Keywords)`. */
  predicate MentionsProblem(line: string) {
    exists i :: 0 <= i < |Keywords| && Contains(Lower(line), Keywords[i])
  }

  predicate IsBugLine(line: string) {
    MentionsProblem(line) && IsBullet(line)
  }

  /** The risk loop: one risk per bulleted line, in order. */
  function Risks(lines: seq<string>): (r: seq<Issue>)
    ensures |r| <= |lines|
    ensures forall i :: 0 <= i < |r| ==> r[i].kind == Risk
    decreases |lines|
  {
    if |lines| == 0 then []
    else
      var rest := Risks(lines[1..]);
      if IsBullet(lines[0]) then [Issue(Risk, Description(lines[0]))] + rest else rest
  }

  /** The bug loop: one bug per bulleted line that mentions a keyword. */
  function Bugs(lines: seq<string>): (r: seq<Issue>)
    ensures |r| <= |lines|
    ensures forall i :: 0 <= i < |r| ==> r[i].kind == Bug
    decreases |lines|
  {
    if |lines| == 0 then []
    else
      var rest := Bugs(lines[1..]);
      if IsBugLine(lines[0]) then [Issue(Bug, Description(lines[0]))] + rest else rest
  }

  /** `extract_issues`: a missing section reads as "" and so yields nothing. */
  function ExtractIssues(sections: OMap<string, string>): (r: seq<Issue>)
    ensures forall i, j :: 0 <= i < j < |r| && r[i].kind == Bug ==> r[j].kind == Bug
    ensures RiskSection !in sections.entries ==> forall i :: 0 <= i < |r| ==> r[i].kind == Bug
    ensures StateSection !in sections.entries ==> forall i :: 0 <= i < |r| ==> r[i].kind == Risk
  {
    var risks := Risks(Lines(Get(sections, RiskSection, "")));
    var bugs := Bugs(Lines(Get(sections, StateSection, "")));
    assert Lines("") == [""];
    assert !IsBullet("") by {
      StripOfStripped("");
    }
    risks + bugs
  }

  // ----- The loops are determined line by line -----

  /** Each line contributes on its own: the risks of two runs of lines are
      the risks of each, in order. */
  lemma {:induction false} RisksAppend(a: seq<string>, b: seq<string>)
    ensures Risks(a + b) == Risks(a) + Risks(b)
    decreases |a|
  {
    if |a| == 0 {
      assert a + b == b;
    } else {
      assert (a + b)[0] == a[0];
      assert (a + b)[1..] == a[1..] + b;
      RisksAppend(a[1..], b);
    }
  }

  lemma {:induction false} BugsAppend(a: seq<string>, b: seq<string>)
    ensures Bugs(a + b) == Bugs(a) + Bugs(b)
    decreases |a|
  {
    if |a| == 0 {
      assert a + b == b;
    } else {
      assert (a + b)[0] == a[0];
      assert (a + b)[1..] == a[1..] + b;
      BugsAppend(a[1..], b);
    }
  }

  /** A bulleted line is exactly one risk; any other line is none. */
  lemma RiskOfLine(line: string)
    ensures Risks([line]) == if IsBullet(line) then [Issue(Risk, Description(line))] else []
  {
    assert [line][1..] == [];
  }

  /** A line is one bug exactly when it is bulleted and names a keyword. A
      keyword line without a bullet yields nothing. */
  lemma BugOfLine(line: string)
    ensures Bugs([line]) == if MentionsProblem(line) && IsBullet(line) then [Issue(Bug, Description(line))] else []
  {
    assert [line][1..] == [];
  }

  /** An issue is a risk of some lines exactly when one of them is
      bulleted and gives that description. */
  lemma {:induction false} RisksMember(lines: seq<string>, x: Issue)
    ensures x in Risks(lines) <==>
            exists j :: 0 <= j < |lines| && IsBullet(lines[j]) && x == Issue(Risk, Description(lines[j]))
    decreases |lines|
  {
    if |lines| > 0 {
      var rest := lines[1..];
      RisksMember(rest, x);
      if exists j :: 0 <= j < |rest| && IsBullet(rest[j]) && x == Issue(Risk, Description(rest[j])) {
        var j :| 0 <= j < |rest| && IsBullet(rest[j]) && x == Issue(Risk, Description(rest[j]));
        assert rest[j] == lines[j + 1];
      }
      if exists j :: 0 <= j < |lines| && IsBullet(lines[j]) && x == Issue(Risk, Description(lines[j])) {
        var j :| 0 <= j < |lines| && IsBullet(lines[j]) && x == Issue(Risk, Description(lines[j]));
        if j > 0 {
          assert rest[j - 1] == lines[j];
        }
      }
    }
  }

  /** An issue is a bug of some lines exactly when one of them is bulleted,
      names a keyword, and gives that description. */
  lemma {:induction false} BugsMember(lines: seq<string>, x: Issue)
    ensures x in Bugs(lines) <==>
            exists j :: 0 <= j < |lines| && IsBullet(lines[j]) && MentionsProblem(lines[j])
                        && x == Issue(Bug, Description(lines[j]))
    decreases |lines|
  {
    if |lines| > 0 {
      var rest := lines[1..];
      BugsMember(rest, x);
      if exists j :: 0 <= j < |rest| && IsBullet(rest[j]) && MentionsProblem(rest[j]) && x == Issue(Bug, Description(rest[j])) {
        var j :| 0 <= j < |rest| && IsBullet(rest[j]) && MentionsProblem(rest[j]) && x == Issue(Bug, Description(rest[j]));
        assert rest[j] == lines[j + 1];
      }
      if exists j :: 0 <= j < |lines| && IsBullet(lines[j]) && MentionsProblem(lines[j]) && x == Issue(Bug, Description(lines[j])) {
        var j :| 0 <= j < |lines| && IsBullet(lines[j]) && MentionsProblem(lines[j]) && x == Issue(Bug, Description(lines[j]));
        if j > 0 {
          assert rest[j - 1] == lines[j];
        }
      }
    }
  }

  /** Every description is stripped. */
  lemma {:induction false} RisksStripped(lines: seq<string>)
    ensures forall i :: 0 <= i < |Risks(lines)| ==> IsStripped(Risks(lines)[i].description)
    decreases |lines|
  {
    if |lines| > 0 {
      RisksStripped(lines[1..]);
      StripSpec(DropFirst(Strip(lines[0]), 1));
    }
  }

  lemma {:induction false} BugsStripped(lines: seq<string>)
    ensures forall i :: 0 <= i < |Bugs(lines)| ==> IsStripped(Bugs(lines)[i].description)
    decreases |lines|
  {
    if |lines| > 0 {
      BugsStripped(lines[1..]);
      StripSpec(DropFirst(Strip(lines[0]), 1));
    }
  }

  /** The number of risks is the number of bulleted lines. */
  function CountBullets(lines: seq<string>): nat
    decreases |lines|
  {
    if |lines| == 0 then 0 else (if IsBullet(lines[0]) then 1 else 0) + CountBullets(lines[1..])
  }

  lemma {:induction false} RisksCount(lines: seq<string>)
    ensures |Risks(lines)| == CountBullets(lines)
    decreases |lines|
  {
    if |lines| > 0 {
      RisksCount(lines[1..]);
    }
  }

  // ----- Worked examples -----

  /** A stripped, non-empty text after "- " is a bullet with that text as
      its description. */
  lemma DashBullet(d: string)
    requires |d| > 0 && IsStripped(d)
    ensures IsBullet("- " + d)
    ensures Description("- " + d) == d
  {
    var line := "- " + d;
    assert IsStripped(line);
    StripOfStripped(line);
    assert DropFirst(line, 1) == [' '] + d;
    assert TrimStart([' '] + d) == TrimStart(d) by {
      assert ([' '] + d)[1..] == d;
    }
    assert TrimStart(d) == d;
    StripOfStripped(d);
  }

  /** A "What Could Go Wrong" body of two dash bullets gives two risks, in
      order. */
  lemma TwoRisks(d1: string, d2: string)
    requires |d1| > 0 && IsStripped(d1) && '\n' !in d1
    requires |d2| > 0 && IsStripped(d2) && '\n' !in d2
    ensures Risks(Lines("- " + d1 + "\n- " + d2)) == [Issue(Risk, d1), Issue(Risk, d2)]
  {
    var a := "- " + d1;
    var b := "- " + d2;
    assert "- " + d1 + "\n- " + d2 == a + "\n" + b;
    assert Lines(a + "\n" + b) == [a, b] by {
      LinesOfTwo(a, b);
    }
    assert Risks([a, b]) == Risks([a]) + Risks([b]) by {
      assert [a, b] == [a] + [b];
      RisksAppend([a], [b]);
    }
    assert Risks([a]) == [Issue(Risk, d1)] by {
      DashBullet(d1);
      RiskOfLine(a);
    }
    assert Risks([b]) == [Issue(Risk, d2)] by {
      DashBullet(d2);
      RiskOfLine(b);
    }
  }

  lemma StaleDataAndFullDisk()
    ensures Risks(Lines("- Data may be stale\n- Disk could fill up"))
         == [Issue(Risk, "Data may be stale"), Issue(Risk, "Disk could fill up")]
  {
    var d1 := "Data may be stale";
    var d2 := "Disk could fill up";
    assert IsStripped(d1) && IsStripped(d2);
    assert "- " + d1 + "\n- " + d2 == "- Data may be stale\n- Disk could fill up";
    TwoRisks(d1, d2);
  }

  /** A keyword found anywhere in the lower-cased line counts. */
  lemma KeywordAt(line: string, k: int, i: int)
    requires 0 <= k < |Keywords| && OccursAt(Lower(line), Keywords[k], i)
    ensures MentionsProblem(line)
  {
    ContainsAt(Lower(line), Keywords[k]);
  }

  /** A dash bullet whose text names a keyword is one bug. */
  lemma KeywordBullet(d: string, k: int, i: int)
    requires |d| > 0 && IsStripped(d)
    requires 0 <= k < |Keywords| && OccursAt(Lower(d), Keywords[k], i)
    ensures Bugs(["- " + d]) == [Issue(Bug, d)]
  {
    var line := "- " + d;
    assert MentionsProblem(line) by {
      assert line[2..] == d;
      LowerSlice(line, 2, |line|);
      assert Lower(line)[i + 2..i + 2 + |Keywords[k]|] == Lower(d)[i..i + |Keywords[k]|];
      KeywordAt(line, k, i + 2);
    }
    DashBullet(d);
    BugOfLine(line);
  }

  const SampleState: string := "API endpoint returns error intermittently"

  /** A bulleted state line naming "error" is one bug. */
  lemma ErrorBullet()
    ensures Bugs(["- " + SampleState]) == [Issue(Bug, SampleState)]
  {
    var before := "API endpoint returns ";
    var d := SampleState;
    assert d == before + "error" + " intermittently";
    assert |before| == 21;
    assert IsStripped(d);
    assert OccursAt(Lower(d), Keywords[3], 21) by {
      assert d[21..26] == "error";
      LowerSlice(d, 21, 26);
      LowerOfLowercase("error");
    }
    KeywordBullet(d, 3, 21);
  }

  /** The same words without a bullet are no bug. */
  lemma PlainErrorLine()
    ensures Bugs(["API endpoint returns error"]) == []
  {
    var plain := "API endpoint returns error";
    assert !IsBullet(plain) by {
      StripOfStripped(plain);
    }
    BugOfLine(plain);
  }

}
