/**
 * Reduction of an engine's failure text to a short category tag, with a
 * running count per engine and tag (utils/__init__.py).
 */
module ErrorClassifier {
  import opened Wrappers
  import opened Strings
  import opened Patterns

  /** One entry of an engine's category table: a regular expression and its tag. */
  datatype Rule = Rule(pattern: string, tag: string)

  /**
   * The tellurium rules, in their declared order. Each pattern is its
   * literal text, after a `^` anchor and before a final `.` where the
   * source's pattern has them.
   */
  const AlgebraicRule := Rule("^" + AlgebraicText + ".", "algebraic")
  const DelayRule := Rule("^" + DelayText + ".", "delay")
  const AstNodeRule := Rule("^" + AstNodeText, "ASTNode")
  const StochiometryRule := Rule("^" + StochiometryText, "stochiometry")
  const FloatRule := Rule("^" + FloatText, "float")
  const SpeciesRefRule := Rule(SpeciesRefText, "SpeciesRef")
  const ResetRule := Rule(ResetText, "reset")

  /*
   * The literal texts of the rules. The longer ones are written as a few
   * pieces, so that the proofs that they hold no `.` and no `[` go piece by
   * piece.
   */
  const AlgebraicText := "Unable to " + "support " + "algebraic rules"
  const DelayText := "Unable to " + "support " + "delay " + "differential " + "equations"
  const AstNodeText := "Unknown " + "ASTNode type of"
  const StochiometryText := "Mutable " + "stochiometry " + "for species " + "which appear "
    + "multiple " + "times in " + "a single " + "reaction"
  const FloatText := "'float' object " + "is not callable"
  const SpeciesRefText := "is not a named " + "SpeciesReference"
  const ResetText := "reset"

  const TelluriumRules: seq<Rule> :=
    [AlgebraicRule, DelayRule, AstNodeRule, StochiometryRule, FloatRule, SpeciesRefRule, ResetRule]

  /** The category tables, per engine, in their declared (search) order. */
  const ErrorCategories: map<string, seq<Rule>> := map["tellurium" := TelluriumRules]

  /** The tag counted when no rule matches. */
  const OtherTag := "other"

  /**
   * Makes an error text safe to put in one cell of a markdown table: newlines
   * and tabs become spaces, carriage returns go, and runs of three and then
   * of two spaces are shortened.
   */
  function MakeMdErrorString(error: string): string {
    ReplaceAll(ReplaceAll(ReplaceAll(ReplaceAll(ReplaceAll(
      error, "\n", " "), "\r", ""), "\t", " "), "   ", " "), "  ", " ")
  }

  /**
   * The result has no newline, carriage return or tab, is never longer than
   * the input, and keeps every other non-space character in order.
   */
  lemma MdErrorStringIsSafe(error: string)
    ensures var r := MakeMdErrorString(error);
      && '\n' !in r && '\r' !in r && '\t' !in r
      && |r| <= |error|
      && EraseBlanks(r) == EraseBlanks(error)
  {
    var s1 := ReplaceAll(error, "\n", " ");
    var s2 := ReplaceAll(s1, "\r", "");
    var s3 := ReplaceAll(s2, "\t", " ");
    var s4 := ReplaceAll(s3, "   ", " ");
    var r := ReplaceAll(s4, "  ", " ");
    ReplaceRemovesChar(error, '\n', " ");
    ReplaceKeepsOut(s1, "\r", "", '\n');
    ReplaceRemovesChar(s1, '\r', "");
    ReplaceKeepsOut(s2, "\t", " ", '\n');
    ReplaceKeepsOut(s2, "\t", " ", '\r');
    ReplaceRemovesChar(s2, '\t', " ");
    ReplaceKeepsOut(s3, "   ", " ", '\n');
    ReplaceKeepsOut(s3, "   ", " ", '\r');
    ReplaceKeepsOut(s3, "   ", " ", '\t');
    ReplaceKeepsOut(s4, "  ", " ", '\n');
    ReplaceKeepsOut(s4, "  ", " ", '\r');
    ReplaceKeepsOut(s4, "  ", " ", '\t');
    ReplaceNoLonger(error, "\n", " ");
    ReplaceNoLonger(s1, "\r", "");
    ReplaceNoLonger(s2, "\t", " ");
    ReplaceNoLonger(s3, "   ", " ");
    ReplaceNoLonger(s4, "  ", " ");
    assert EraseBlanks("\n") == EraseBlanks(" ") == EraseBlanks("\r") == EraseBlanks("") == EraseBlanks("\t");
    assert EraseBlanks("   ") == "" by {
      assert "   "[1..] == "  " && "  "[1..] == " ";
    }
    assert EraseBlanks("  ") == "" by {
      assert "  "[1..] == " ";
    }
    ReplaceKeepsNonBlank(error, "\n", " ");
    ReplaceKeepsNonBlank(s1, "\r", "");
    ReplaceKeepsNonBlank(s2, "\t", " ");
    ReplaceKeepsNonBlank(s3, "   ", " ");
    ReplaceKeepsNonBlank(s4, "  ", " ");
  }

  /** The whitespace is not fully collapsed: five spaces come out as two. */
  lemma MdErrorStringKeepsDoubleSpace()
    ensures MakeMdErrorString("     ") == "  "
  {
    var five := "     ";
    assert ReplaceAll(five, "\n", " ") == five by {
      NotContainsWithoutHead(five, "\n");
      ReplaceAbsent(five, "\n", " ");
    }
    assert ReplaceAll(five, "\r", "") == five by {
      NotContainsWithoutHead(five, "\r");
      ReplaceAbsent(five, "\r", "");
    }
    assert ReplaceAll(five, "\t", " ") == five by {
      NotContainsWithoutHead(five, "\t");
      ReplaceAbsent(five, "\t", " ");
    }
    assert ReplaceAll(five, "   ", " ") == "   " by {
      assert StartsWith(five, "   ");
      assert five[3..] == "  ";
      assert !StartsWith("  ", "   ");
      assert "  "[1..] == " " && " "[1..] == "";
    }
    assert ReplaceAll("   ", "  ", " ") == "  " by {
      assert StartsWith("   ", "  ");
      assert "   "[2..] == " ";
      assert !StartsWith(" ", "  ");
      assert " "[1..] == "";
    }
  }

  predicate RuleMatches(rule: Rule, text: string) {
    Search(rule.pattern, text)
  }

  /** The rule texts hold no `.` and no `[`: every character stands for itself. */
  lemma AlgebraicTextPlain()
    ensures IsPlain(AlgebraicText)
  {
    assert IsPlain("Unable to ");
    assert IsPlain("support ");
    PlainConcat("Unable to ", "support ");
    assert IsPlain("algebraic rules");
    PlainConcat("Unable to " + "support ", "algebraic rules");
  }

  lemma DelayTextPlain()
    ensures IsPlain(DelayText)
  {
    assert IsPlain("Unable to ");
    assert IsPlain("support ");
    PlainConcat("Unable to ", "support ");
    assert IsPlain("delay ");
    PlainConcat("Unable to " + "support ", "delay ");
    assert IsPlain("differential ");
    PlainConcat("Unable to " + "support " + "delay ", "differential ");
    assert IsPlain("equations");
    PlainConcat("Unable to " + "support " + "delay " + "differential ", "equations");
  }

  lemma AstNodeTextPlain()
    ensures IsPlain(AstNodeText)
  {
    assert IsPlain("Unknown ");
    assert IsPlain("ASTNode type of");
    PlainConcat("Unknown ", "ASTNode type of");
  }

  lemma StochiometryTextPlain()
    ensures IsPlain(StochiometryText)
  {
    assert IsPlain("Mutable ");
    assert IsPlain("stochiometry ");
    PlainConcat("Mutable ", "stochiometry ");
    assert IsPlain("for species ");
    PlainConcat("Mutable " + "stochiometry ", "for species ");
    assert IsPlain("which appear ");
    PlainConcat("Mutable " + "stochiometry " + "for species ", "which appear ");
    assert IsPlain("multiple ");
    PlainConcat("Mutable " + "stochiometry " + "for species " + "which appear ", "multiple ");
    assert IsPlain("times in ");
    PlainConcat("Mutable " + "stochiometry " + "for species " + "which appear " + "multiple ", "times in ");
    assert IsPlain("a single ");
    PlainConcat("Mutable " + "stochiometry " + "for species " + "which appear " + "multiple " + "times in ", "a single ");
    assert IsPlain("reaction");
    PlainConcat("Mutable " + "stochiometry " + "for species " + "which appear " + "multiple " + "times in " + "a single ", "reaction");
  }

  lemma FloatTextPlain()
    ensures IsPlain(FloatText)
  {
    assert IsPlain("'float' object ");
    assert IsPlain("is not callable");
    PlainConcat("'float' object ", "is not callable");
  }

  lemma SpeciesRefTextPlain()
    ensures IsPlain(SpeciesRefText)
  {
    assert IsPlain("is not a named ");
    assert IsPlain("SpeciesReference");
    PlainConcat("is not a named ", "SpeciesReference");
  }

  /** `^Unable to support algebraic rules.`: that text and then any character but a newline. */
  lemma AlgebraicRuleMeaning(t: string)
    ensures RuleMatches(AlgebraicRule, t)
      <==> StartsWith(t, AlgebraicText) && |t| > |AlgebraicText| && t[|AlgebraicText|] != '\n'
  {
    var lit := AlgebraicText;
    AlgebraicTextPlain();
    assert ("^" + lit + ".")[1..|lit| + 1] == lit;
    AnchoredWildcardSearch("^" + lit + ".", t);
  }

  /** `^Unable to support delay differential equations.`: that text and then any character but a newline. */
  lemma DelayRuleMeaning(t: string)
    ensures RuleMatches(DelayRule, t)
      <==> StartsWith(t, DelayText) && |t| > |DelayText| && t[|DelayText|] != '\n'
  {
    var lit := DelayText;
    DelayTextPlain();
    assert ("^" + lit + ".")[1..|lit| + 1] == lit;
    AnchoredWildcardSearch("^" + lit + ".", t);
  }

  /** `^Unknown ASTNode type of`: the error text starts with it. */
  lemma AstNodeRuleMeaning(t: string)
    ensures RuleMatches(AstNodeRule, t) <==> StartsWith(t, AstNodeText)
  {
    var lit := AstNodeText;
    AstNodeTextPlain();
    assert ("^" + lit)[1..] == lit;
    AnchoredPlainSearch("^" + lit, t);
  }

  /** `^Mutable stochiometry …`: the error text starts with it. */
  lemma StochiometryRuleMeaning(t: string)
    ensures RuleMatches(StochiometryRule, t)
      <==> StartsWith(t, StochiometryText)
  {
    var lit := StochiometryText;
    StochiometryTextPlain();
    assert ("^" + lit)[1..] == lit;
    AnchoredPlainSearch("^" + lit, t);
  }

  /** `^'float' object is not callable`: the error text starts with it. */
  lemma FloatRuleMeaning(t: string)
    ensures RuleMatches(FloatRule, t) <==> StartsWith(t, FloatText)
  {
    var lit := FloatText;
    FloatTextPlain();
    assert ("^" + lit)[1..] == lit;
    AnchoredPlainSearch("^" + lit, t);
  }

  /** `is not a named SpeciesReference`: found anywhere in the error text. */
  lemma SpeciesRefRuleMeaning(t: string)
    ensures RuleMatches(SpeciesRefRule, t) <==> Contains(t, SpeciesRefText)
  {
    SpeciesRefTextPlain();
    UnanchoredPlainSearch(SpeciesRefRule.pattern, t);
  }

  /** `reset`: found anywhere in the error text. */
  lemma ResetRuleMeaning(t: string)
    ensures RuleMatches(ResetRule, t) <==> Contains(t, ResetText)
  {
    UnanchoredPlainSearch(ResetRule.pattern, t);
  }

  /**
   * The tag `process_error` gives a tellurium failure, written with the
   * string tests each rule amounts to, in the table's order.
   */
  function TelluriumTag(t: string): string {
    if StartsWith(t, AlgebraicText) && |t| > |AlgebraicText| && t[|AlgebraicText|] != '\n' then "algebraic"
    else if StartsWith(t, DelayText) && |t| > |DelayText| && t[|DelayText|] != '\n' then "delay"
    else if StartsWith(t, AstNodeText) then "ASTNode"
    else if StartsWith(t, StochiometryText)
    then "stochiometry"
    else if StartsWith(t, FloatText) then "float"
    else if Contains(t, SpeciesRefText) then "SpeciesRef"
    else if Contains(t, ResetText) then "reset"
    else OtherTag
  }

  /** The tellurium table tried rule by rule, in order. */
  lemma ClassifyTelluriumRules(t: string)
    ensures Classify(TelluriumRules, t) ==
      if RuleMatches(AlgebraicRule, t) then "algebraic"
      else if RuleMatches(DelayRule, t) then "delay"
      else if RuleMatches(AstNodeRule, t) then "ASTNode"
      else if RuleMatches(StochiometryRule, t) then "stochiometry"
      else if RuleMatches(FloatRule, t) then "float"
      else if RuleMatches(SpeciesRefRule, t) then "SpeciesRef"
      else if RuleMatches(ResetRule, t) then "reset"
      else OtherTag
  {
    var r0 := TelluriumRules;
    var r1 := [DelayRule, AstNodeRule, StochiometryRule, FloatRule, SpeciesRefRule, ResetRule];
    var r2 := [AstNodeRule, StochiometryRule, FloatRule, SpeciesRefRule, ResetRule];
    var r3 := [StochiometryRule, FloatRule, SpeciesRefRule, ResetRule];
    var r4 := [FloatRule, SpeciesRefRule, ResetRule];
    var r5 := [SpeciesRefRule, ResetRule];
    var r6 := [ResetRule];
    assert r0[1..] == r1 && r1[1..] == r2 && r2[1..] == r3;
    assert r3[1..] == r4 && r4[1..] == r5 && r5[1..] == r6 && r6[1..] == [];
    assert Classify(r6, t) == if RuleMatches(ResetRule, t) then "reset" else OtherTag;
    assert Classify(r5, t) == if RuleMatches(SpeciesRefRule, t) then "SpeciesRef" else Classify(r6, t);
    assert Classify(r4, t) == if RuleMatches(FloatRule, t) then "float" else Classify(r5, t);
    assert Classify(r3, t) == if RuleMatches(StochiometryRule, t) then "stochiometry" else Classify(r4, t);
    assert Classify(r2, t) == if RuleMatches(AstNodeRule, t) then "ASTNode" else Classify(r3, t);
    assert Classify(r1, t) == if RuleMatches(DelayRule, t) then "delay" else Classify(r2, t);
  }

  /** Classifying with the tellurium table gives the tag of the string tests. */
  lemma ClassifyTellurium(t: string)
    ensures Classify(ErrorCategories["tellurium"], t) == TelluriumTag(t)
  {
    ClassifyTelluriumRules(t);
    AlgebraicRuleMeaning(t);
    DelayRuleMeaning(t);
    AstNodeRuleMeaning(t);
    StochiometryRuleMeaning(t);
    FloatRuleMeaning(t);
    SpeciesRefRuleMeaning(t);
    ResetRuleMeaning(t);
  }

  /** The tag of the first rule whose pattern is found in `text`, or `other`. */
  function Classify(rules: seq<Rule>, text: string): string
    decreases |rules|
  {
    if rules == [] then OtherTag
    else if RuleMatches(rules[0], text) then rules[0].tag
    else Classify(rules[1..], text)
  }

  /** Rule `i` matches `text` and no earlier rule does. */
  predicate FirstMatchAt(rules: seq<Rule>, text: string, i: int) {
    0 <= i < |rules| && RuleMatches(rules[i], text)
    && forall j :: 0 <= j < i ==> !RuleMatches(rules[j], text)
  }

  /**
   * First match wins: the tag is that of the earliest matching rule, later
   * matching rules are ignored, and `other` is the tag when no rule matches;
   * otherwise the tag is that of some matching rule.
   */
  lemma {:induction false} ClassifyFirstMatch(rules: seq<Rule>, text: string)
    ensures forall i :: FirstMatchAt(rules, text, i) ==> Classify(rules, text) == rules[i].tag
    ensures (forall i :: 0 <= i < |rules| ==> !RuleMatches(rules[i], text))
      ==> Classify(rules, text) == OtherTag
    ensures Classify(rules, text) == OtherTag
      || exists i :: 0 <= i < |rules| && RuleMatches(rules[i], text) && Classify(rules, text) == rules[i].tag
    decreases |rules|
  {
    if rules != [] {
      ClassifyFirstMatch(rules[1..], text);
      assert forall i :: 1 <= i < |rules| ==> rules[1..][i - 1] == rules[i];
      if !RuleMatches(rules[0], text) {
        forall i | FirstMatchAt(rules, text, i)
          ensures Classify(rules, text) == rules[i].tag
        {
          assert i >= 1;
          assert forall j :: 0 <= j < i - 1 ==> rules[1..][j] == rules[j + 1];
          assert FirstMatchAt(rules[1..], text, i - 1);
        }
        if Classify(rules, text) != OtherTag {
          var k :| 0 <= k < |rules[1..]| && RuleMatches(rules[1..][k], text)
            && Classify(rules[1..], text) == rules[1..][k].tag;
          assert rules[1..][k] == rules[k + 1];
        }
      }
    }
  }

  /** The HTML snippet that shows a failure in the table, marked with `fail`. */
  function CellText(fail: string, tag: string, text: string): string {
    "<details><summary>" + fail + " (" + tag + ")</summary>```" + text + "```</details>"
  }

  /** The cell shows the tag in parentheses and the whole normalised error text. */
  lemma CellTextShows(fail: string, tag: string, text: string)
    ensures Contains(CellText(fail, tag, text), "(" + tag + ")")
    ensures Contains(CellText(fail, tag, text), text)
  {
    var cell := CellText(fail, tag, text);
    var before := "<details><summary>" + fail + " ";
    var after := "</summary>```" + text + "```</details>";
    assert cell == before + ("(" + tag + ")") + after;
    ContainsInfix(before, "(" + tag + ")", after);
    var head := "<details><summary>" + fail + " (" + tag + ")</summary>```";
    assert cell == head + text + "```</details>";
    ContainsInfix(head, text, "```</details>");
  }

  /** The counts with the one for (`engine`, `tag`) raised by one. */
  function Bump(counts: map<string, map<string, int>>, engine: string, tag: string): map<string, map<string, int>>
    requires engine in counts && tag in counts[engine]
  {
    counts[engine := counts[engine][tag := counts[engine][tag] + 1]]
  }

  /** Bumping raises exactly one count by exactly one and keeps every key. */
  lemma BumpChangesOneCount(counts: map<string, map<string, int>>, engine: string, tag: string)
    requires engine in counts && tag in counts[engine]
    ensures var after := Bump(counts, engine, tag);
      && after.Keys == counts.Keys
      && (forall e :: e in counts ==> after[e].Keys == counts[e].Keys)
      && after[engine][tag] == counts[engine][tag] + 1
      && (forall e, t :: e in counts && t in counts[e] && (e != engine || t != tag)
            ==> after[e][t] == counts[e][t])
  {
  }

  datatype TallyError = UnknownEngine(engine: string) | MissingCounter(engine: string, tag: string)

  /** The per-engine, per-tag failure counts that `process_error` updates. */
  class ErrorTally {
    var counts: map<string, map<string, int>>

    constructor(initial: map<string, map<string, int>>)
      ensures counts == initial
    {
      counts := initial;
    }

    /**
     * `process_error(engine, error, counts)`: normalises the error text,
     * classifies it with the engine's rules (first match wins, `other` when
     * none matches), bumps that one count and returns the table cell. An
     * engine without a category table, or a count that does not exist, is an
     * error and changes nothing.
     */
    method ProcessError(engine: string, error: string, fail: string) returns (r: Result<string, TallyError>)
      modifies this
      ensures engine !in ErrorCategories ==> r == Failure(UnknownEngine(engine)) && counts == old(counts)
      ensures engine in ErrorCategories ==>
        var text := MakeMdErrorString(error);
        var tag := Classify(ErrorCategories[engine], text);
        if engine in old(counts) && tag in old(counts)[engine] then
          r == Success(CellText(fail, tag, text)) && counts == Bump(old(counts), engine, tag)
        else
          r == Failure(MissingCounter(engine, tag)) && counts == old(counts)
    {
      var text := MakeMdErrorString(error);
      if engine !in ErrorCategories {
        return Failure(UnknownEngine(engine));
      }
      var rules := ErrorCategories[engine];
      var tag := OtherTag;
      var i := 0;
      while i < |rules|
        invariant 0 <= i <= |rules|
        invariant Classify(rules[i..], text) == Classify(rules, text)
      {
        if RuleMatches(rules[i], text) {
          tag := rules[i].tag;
          break;
        }
        assert rules[i..][1..] == rules[i + 1..];
        i := i + 1;
      }
      assert tag == Classify(rules, text);
      if engine !in counts || tag !in counts[engine] {
        return Failure(MissingCounter(engine, tag));
      }
      counts := Bump(counts, engine, tag);
      r := Success(CellText(fail, tag, text));
    }
  }
}
