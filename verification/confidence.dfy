/** `extract_confidence_levels`: every section body gets exactly one label,
    chosen by the first rule of a fixed, ordered list that fires. A rule
    fires when the body contains its marker character, or when the
    lower-cased body contains its phrase. */
module Confidence {
  import opened Text
  import opened OrderedMaps

  datatype Level = High | Medium | Low | Unknown

  datatype Rule = Rule(marker: string, phrase: string, level: Level)

  /** U+2705 WHITE HEAVY CHECK MARK. */
  const HighMarker: string := "\U{2705}"
  /** U+2753 BLACK QUESTION MARK ORNAMENT. */
  const LowMarker: string := "\U{2753}"
  /** U+26A0 WARNING SIGN followed by U+FE0F VARIATION SELECTOR-16: the
      marker is two code points, so it is a substring test. */
  const MediumMarker: string := "\U{26A0}\U{FE0F}"

  /** The rules in the order the source tests them: high, then low, then
      medium. */
  const Rules: seq<Rule> := [
    Rule(HighMarker, "high confidence", High),
    Rule(LowMarker, "low confidence", Low),
    Rule(MediumMarker, "medium confidence", Medium)
  ]

  predicate Fires(rule: Rule, content: string) {
    Contains(content, rule.marker) || Contains(Lower(content), rule.phrase)
  }

  /** No rule in front of position `i` fires. */
  predicate NoneFiresBefore(rules: seq<Rule>, i: int, content: string)
    requires 0 <= i <= |rules|
  {
    forall j :: 0 <= j < i ==> !Fires(rules[j], content)
  }

  /** The level of the first rule that fires, or `Unknown` when none does. */
  function FirstFiring(rules: seq<Rule>, content: string): (l: Level)
    ensures l == Unknown || exists i :: 0 <= i < |rules| && Fires(rules[i], content) && rules[i].level == l
    ensures (forall i :: 0 <= i < |rules| ==> !Fires(rules[i], content)) ==> l == Unknown
    ensures forall i :: 0 <= i < |rules| && Fires(rules[i], content) && NoneFiresBefore(rules, i, content) ==>
              l == rules[i].level
    decreases |rules|
  {
    if |rules| == 0 then Unknown
    else if Fires(rules[0], content) then rules[0].level
    else
      var l := FirstFiring(rules[1..], content);
      assert forall i :: 1 <= i < |rules| ==> rules[1..][i - 1] == rules[i];
      l
  }

  function Classify(content: string): Level {
    FirstFiring(Rules, content)
  }

  // ----- An independent statement of the three tests -----

  predicate HasHigh(content: string) {
    Contains(content, "\U{2705}") || Contains(Lower(content), "high confidence")
  }

  predicate HasLow(content: string) {
    Contains(content, "\U{2753}") || Contains(Lower(content), "low confidence")
  }

  predicate HasMedium(content: string) {
    Contains(content, "\U{26A0}\U{FE0F}") || Contains(Lower(content), "medium confidence")
  }

  /** The label is decided by the if/elif chain: high first, then low, then
      medium, and `Unknown` only when no test passes. */
  lemma ClassifySpec(content: string)
    ensures Classify(content) == High <==> HasHigh(content)
    ensures Classify(content) == Low <==> !HasHigh(content) && HasLow(content)
    ensures Classify(content) == Medium <==> !HasHigh(content) && !HasLow(content) && HasMedium(content)
    ensures Classify(content) == Unknown <==> !HasHigh(content) && !HasLow(content) && !HasMedium(content)
  {
    assert Fires(Rules[0], content) <==> HasHigh(content);
    assert Fires(Rules[1], content) <==> HasLow(content);
    assert Fires(Rules[2], content) <==> HasMedium(content);
  }

  /** A body carrying both the high and the low marker is labelled high. */
  lemma HighBeatsLow(content: string)
    requires Contains(content, HighMarker) && Contains(content, LowMarker)
    ensures Classify(content) == High
  {
    ClassifySpec(content);
  }

  // ----- The label of every section -----

  /** `extract_confidence_levels`: the same headings, in the same order, each
      with the label of its body. */
  function Confidences(sections: OMap<string, string>): (r: OMap<string, Level>)
    requires Valid(sections)
    ensures Valid(r)
    ensures r.keys == sections.keys
    ensures forall k :: k in r.entries <==> k in sections.entries
    ensures forall k :: k in r.entries ==> r.entries[k] == Classify(sections.entries[k])
  {
    MapValues(sections, Classify)
  }

}
