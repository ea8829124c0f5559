/** The keyword heuristic that flags a request or a command as high risk. */
module RiskEvaluator {
  import opened Text

  const HighRiskKeywords: seq<string> :=
    ["uninstall", "registry", "delete", "format", "shutdown", "firewall"]

  /** `keywords.Any(k => lower.Contains(k))`, tried in order. */
  function AnyContained(lower: string, keywords: seq<string>): (r: bool)
    ensures r <==> exists k :: k in keywords && Contains(lower, k)
  {
    if keywords == [] then false
    else if Contains(lower, keywords[0]) then assert keywords[0] in keywords; true
    else
      var rest := AnyContained(lower, keywords[1..]);
      assert forall k :: k in keywords && k != keywords[0] <==> k in keywords[1..] && k != keywords[0];
      rest
  }

  /**
   * True exactly when the lower-cased text has one of the keywords somewhere
   * in it, as a plain substring.
   */
  function IsHighRisk(text: string): (r: bool)
    ensures r <==> exists k, i :: k in HighRiskKeywords && OccursAt(Lower(text), k, i)
  {
    var lower := Lower(text);
    forall k | k in HighRiskKeywords ensures Contains(lower, k) <==> exists i :: OccursAt(lower, k, i) {
      ContainsIff(lower, k);
    }
    AnyContained(lower, HighRiskKeywords)
  }

  /** The letter case of the input does not matter. */
  lemma UpperCaseDoesNotMatter(text: string)
    ensures IsHighRisk(Upper(text)) == IsHighRisk(text)
  {
    LowerOfUpper(text);
  }

  /** Matching ignores word boundaries: "reformat" is flagged through "format". */
  lemma ReformatIsHighRisk()
    ensures IsHighRisk("reformat")
  {
    assert Lower("reformat")[2..8] == "format";
    assert OccursAt(Lower("reformat"), "format", 2);
  }

  /** Any text that contains a high-risk text is high risk itself. */
  lemma Monotone(inner: string, outer: string)
    requires Contains(outer, inner) && IsHighRisk(inner)
    ensures IsHighRisk(outer)
  {
    var k, i :| k in HighRiskKeywords && OccursAt(Lower(inner), k, i);
    ContainsIff(outer, inner);
    var j :| OccursAt(outer, inner, j);
    LowerOccurs(outer, inner, j);
    OccursAtNested(Lower(outer), Lower(inner), k, j, i);
    assert k in HighRiskKeywords && OccursAt(Lower(outer), k, j + i);
  }

  lemma LowerOccurs(s: string, p: string, j: int)
    requires OccursAt(s, p, j)
    ensures OccursAt(Lower(s), Lower(p), j)
  {
    LowerSlice(s, j, j + |p|);
  }

  lemma EmptyIsNotHighRisk()
    ensures !IsHighRisk("")
  {
  }

  lemma PleaseUninstallIsHighRisk()
    ensures IsHighRisk("Please uninstall FooApp")
  {
    assert Lower("Please uninstall FooApp")[7..16] == "uninstall";
    assert OccursAt(Lower("Please uninstall FooApp"), "uninstall", 7);
  }
}
