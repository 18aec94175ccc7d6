/** The tag stripper of the message fetcher (pkg/worker/fetcher.go). */
module Html {
  import opened Common
  import opened Text

  datatype Rule = Rule(tag: string, replacement: string)

  const RULES := [Rule("<br>", "\n"), Rule("<br/>", "\n"), Rule("<br />", "\n"), Rule("</p>", "\n\n")]

  /** A tag that opens with its only '<' and contains no line feed, replaced by line feeds. */
  ghost predicate Proper(r: Rule) {
    && r.tag != "" && r.tag[0] == '<' && '<' !in r.tag[1..] && '\n' !in r.tag
    && forall c | c in r.replacement :: c == '\n'
  }

  ghost predicate AllProper(rules: seq<Rule>) {
    forall r | r in rules :: Proper(r)
  }

  /** The index of the first rule whose tag starts `s`; |rules| when there is none. */
  function Matching(rules: seq<Rule>, s: string): (n: nat)
    ensures n <= |rules|
    ensures n < |rules| ==> rules[n].tag <= s
  {
    if rules == [] || rules[0].tag <= s then 0 else 1 + Matching(rules[1..], s)
  }

  /** One pass over the text: a tag with a rule emits its replacement, or nothing inside an open '<',
      which it leaves open; any other '<' opens, '>' closes, and text is kept outside of tags. */
  function OnePass(rules: seq<Rule>, s: string, inTag: bool): string
    requires forall r | r in rules :: r.tag != ""
    decreases |s|
  {
    if s == "" then ""
    else
      var n := Matching(rules, s);
      if n < |rules| then
        (if inTag then "" else rules[n].replacement) + OnePass(rules, s[|rules[n].tag|..], inTag)
      else if s[0] == '<' then OnePass(rules, s[1..], true)
      else if s[0] == '>' then OnePass(rules, s[1..], false)
      else (if inTag then "" else [s[0]]) + OnePass(rules, s[1..], inTag)
  }

  function Strip(html: string): string {
    TrimSpace(OnePass(RULES, html, false))
  }

  /** stripBasicHTML: four replacements, the tag-dropping loop, a trim. */
  method StripBasicHTML(html: string) returns (stripped: string)
    ensures stripped == Strip(html)
  {
    var text := html;
    text := ReplaceAll(text, "<br>", "\n");
    text := ReplaceAll(text, "<br/>", "\n");
    text := ReplaceAll(text, "<br />", "\n");
    text := ReplaceAll(text, "</p>", "\n\n");
    FourPassesInOne(html);

    var result := "";
    var inTag := false;
    var n := 0;
    assert text[0..] == text;
    while n < |text|
      invariant n <= |text|
      invariant result + OnePass([], text[n..], inTag) == OnePass([], text, false)
    {
      var r := text[n];
      DropOne(result, text, n, inTag);
      n := n + 1;
      if r == '<' {
        inTag := true;
        continue;
      }
      if r == '>' {
        inTag := false;
        continue;
      }
      if !inTag {
        result := result + [r];
      }
    }
    assert text[n..] == "" && result + "" == result;
    stripped := TrimSpace(result);
  }

  /** One turn of the tag-dropping loop. */
  lemma DropOne(result: string, text: string, n: nat, inTag: bool)
    requires n < |text|
    ensures result + OnePass([], text[n..], inTag)
         == (if text[n] == '<' || text[n] == '>' || inTag then result else result + [text[n]])
          + OnePass([], text[n + 1..], if text[n] == '<' then true else if text[n] == '>' then false else inTag)
  {
    assert text[n..][1..] == text[n + 1..];
    assert result + ([text[n]] + OnePass([], text[n + 1..], inTag))
        == result + [text[n]] + OnePass([], text[n + 1..], inTag);
  }

  // ------------------------------------------------------------------ what the loop keeps

  /** The character at i is no angle bracket, and every '<' before it (and the one that is open at the
      start, if any) is closed by a later '>' before it. */
  ghost predicate Outside(s: string, inTag: bool, i: nat) {
    && i < |s| && s[i] != '<' && s[i] != '>'
    && (forall j | 0 <= j < i && s[j] == '<' :: exists k :: j < k < i && s[k] == '>')
    && (inTag ==> exists k :: 0 <= k < i && s[k] == '>')
  }

  ghost function AllOutside(s: string, inTag: bool): set<nat> {
    set i: nat | i < |s| && Outside(s, inTag, i)
  }

  /** The tag-dropping loop keeps exactly the text outside of tags, character by character. */
  lemma {:induction false} LoopKeepsOutside(s: string, inTag: bool)
    ensures Picked(s, AllOutside(s, inTag), OnePass([], s, inTag))
  {
    if s == "" {
      assert Lists([], AllOutside(s, inTag));
    } else {
      var open := if s[0] == '<' then true else if s[0] == '>' then false else inTag;
      LoopKeepsOutside(s[1..], open);
      forall i: nat
        ensures i + 1 in AllOutside(s, inTag) <==> i in AllOutside(s[1..], open)
      {
        OutsideShifts(s, inTag, i);
      }
      PickedWithHead(s[0], s[1..], AllOutside(s[1..], open), AllOutside(s, inTag), OnePass([], s[1..], open));
      assert [s[0]] + s[1..] == s;
      assert 0 in AllOutside(s, inTag) <==> s[0] != '<' && s[0] != '>' && !inTag;
    }
  }

  lemma OutsideShifts(s: string, inTag: bool, i: nat)
    requires s != ""
    ensures var open := if s[0] == '<' then true else if s[0] == '>' then false else inTag;
            Outside(s, inTag, i + 1) <==> Outside(s[1..], open, i)
  {
    var open := if s[0] == '<' then true else if s[0] == '>' then false else inTag;
    var t := s[1..];
    assert forall k | 0 <= k < |t| :: t[k] == s[k + 1];
    if Outside(s, inTag, i + 1) {
      forall j | 0 <= j < i && t[j] == '<'
        ensures exists k :: j < k < i && t[k] == '>'
      {
        var k :| j + 1 < k < i + 1 && s[k] == '>';
        assert t[k - 1] == '>';
      }
      if open {
        var k :| 0 < k < i + 1 && s[k] == '>' && true;
        assert t[k - 1] == '>';
      }
    }
    if Outside(t, open, i) {
      forall j | 0 <= j < i + 1 && s[j] == '<'
        ensures exists k :: j < k < i + 1 && s[k] == '>'
      {
        var k :| (if j == 0 then 0 else j) <= k < i && (j > 0 ==> j - 1 < k) && t[k] == '>';
        assert s[k + 1] == '>';
      }
      if inTag && s[0] != '>' {
        var k :| 0 <= k < i && t[k] == '>';
        assert s[k + 1] == '>';
      }
    }
  }

  // ------------------------------------------------------------------ five passes are one pass

  lemma {:induction false} NoRuleHere(rules: seq<Rule>, s: string)
    requires AllProper(rules) && s != "" && s[0] != '<'
    ensures Matching(rules, s) == |rules|
  {
    if rules != [] {
      assert rules[0] in rules;
      NoRuleHere(rules[1..], s);
    }
  }

  lemma PassPlain(rules: seq<Rule>, s: string, inTag: bool)
    requires AllProper(rules) && s != "" && s[0] != '<' && s[0] != '>'
    ensures OnePass(rules, s, inTag) == (if inTag then "" else [s[0]]) + OnePass(rules, s[1..], inTag)
  {
    NoRuleHere(rules, s);
  }

  /** A replacement is seen by the later passes as plain text. */
  lemma {:induction false} PassReplacement(rules: seq<Rule>, replacement: string, rest: string, inTag: bool)
    requires AllProper(rules) && forall c | c in replacement :: c == '\n'
    ensures OnePass(rules, replacement + rest, inTag)
         == (if inTag then "" else replacement) + OnePass(rules, rest, inTag)
  {
    if replacement == "" {
      assert replacement + rest == rest;
    } else {
      var s := replacement + rest;
      assert replacement[0] in replacement && forall c | c in replacement[1..] :: c in replacement;
      assert s[0] == '\n' && s[1..] == replacement[1..] + rest;
      PassPlain(rules, s, inTag);
      PassReplacement(rules, replacement[1..], rest, inTag);
      assert [s[0]] + replacement[1..] == replacement;
      Regroup([s[0]], replacement[1..], OnePass(rules, rest, inTag));
    }
  }

  /** Replacing one tag neither makes nor breaks an occurrence of text that has no '<' and no line feed. */
  lemma {:induction false} ReplaceKeepsPlain(t: string, rule: Rule, plain: string)
    requires Proper(rule) && rule.replacement != "" && '<' !in plain && '\n' !in plain
    ensures var u := ReplaceAll(t, rule.tag, rule.replacement);
            && (plain <= t <==> plain <= u)
            && (plain <= t ==> u[|plain|..] == ReplaceAll(t[|plain|..], rule.tag, rule.replacement))
    decreases |plain|
  {
    var u := ReplaceAll(t, rule.tag, rule.replacement);
    if plain != "" && t != "" {
      assert plain[0] in plain;
      if rule.tag <= t {
        assert t[0] == '<' && u[0] == '\n' by {
          assert rule.replacement[0] in rule.replacement;
        }
      } else {
        assert u == [t[0]] + ReplaceAll(t[1..], rule.tag, rule.replacement);
        ReplaceKeepsPlain(t[1..], rule, plain[1..]);
        PrefixByHead(plain, t);
        PrefixByHead(plain, u);
        if plain <= t {
          assert t[1..][|plain| - 1..] == t[|plain|..] && u[1..][|plain| - 1..] == u[|plain|..];
        }
      }
    }
  }

  lemma PrefixByHead(p: string, s: string)
    requires p != "" && s != ""
    ensures p <= s <==> p[0] == s[0] && p[1..] <= s[1..]
  {
    if p[0] == s[0] && p[1..] <= s[1..] {
      assert p == [p[0]] + p[1..] && s == [s[0]] + s[1..];
    }
  }

  /** Away from an occurrence of `rule`, the other rules match before and after its replacement alike. */
  lemma {:induction false} SameMatch(rules: seq<Rule>, rule: Rule, s: string)
    requires AllProper(rules) && Proper(rule) && rule.replacement != "" && s != "" && !(rule.tag <= s)
    ensures var u := ReplaceAll(s, rule.tag, rule.replacement);
            && u != "" && u[0] == s[0] && u[1..] == ReplaceAll(s[1..], rule.tag, rule.replacement)
            && Matching(rules, s) == Matching(rules, u)
            && (Matching(rules, s) < |rules| ==>
                  var n := |rules[Matching(rules, s)].tag|;
                  u[n..] == ReplaceAll(s[n..], rule.tag, rule.replacement))
  {
    var u := ReplaceAll(s, rule.tag, rule.replacement);
    if rules != [] {
      var tag := rules[0].tag;
      assert rules[0] in rules;
      ReplaceKeepsPlain(s[1..], rule, tag[1..]);
      PrefixByHead(tag, s);
      PrefixByHead(tag, u);
      if tag <= s {
        assert s[1..][|tag| - 1..] == s[|tag|..] && u[1..][|tag| - 1..] == u[|tag|..];
      } else {
        SameMatch(rules[1..], rule, s);
      }
    }
  }

  /** A replacement pass followed by a pass with the remaining rules is one pass with all of them. */
  lemma {:induction false} MergePass(rule: Rule, rules: seq<Rule>, s: string, inTag: bool)
    requires AllProper([rule] + rules) && rule.replacement != ""
    ensures rule in [rule] + rules && Proper(rule) && AllProper(rules)
    ensures OnePass(rules, ReplaceAll(s, rule.tag, rule.replacement), inTag) == OnePass([rule] + rules, s, inTag)
    decreases |s|
  {
    var all := [rule] + rules;
    assert all[0] == rule && rule in all && forall r | r in rules :: r in all;
    if s == "" {
    } else if rule.tag <= s {
      var rest := s[|rule.tag|..];
      PassReplacement(rules, rule.replacement, ReplaceAll(rest, rule.tag, rule.replacement), inTag);
      MergePass(rule, rules, rest, inTag);
    } else {
      assert all[1..] == rules;
      SameMatch(rules, rule, s);
      var n := Matching(rules, s);
      if n < |rules| {
        assert rules[n] in rules;
        MergePass(rule, rules, s[|rules[n].tag|..], inTag);
      } else {
        MergePass(rule, rules, s[1..], if s[0] == '<' then true else if s[0] == '>' then false else inTag);
      }
    }
  }

  lemma RuleIsProper(r: Rule)
    requires r in RULES
    ensures Proper(r) && r.replacement != ""
  {
    var n :| 0 <= n < 4 && r == RULES[n];
    match n
    case 0 => assert r.tag[1..] == "br>";
    case 1 => assert r.tag[1..] == "br/>";
    case 2 => assert r.tag[1..] == "br />";
    case _ => assert r.tag[1..] == "/p>";
  }

  lemma RulesAreProper(rules: seq<Rule>)
    requires forall r | r in rules :: r in RULES
    ensures AllProper(rules)
  {
    forall r | r in rules
      ensures Proper(r)
    {
      RuleIsProper(r);
    }
  }

  /** MergePass for the n-th rule. */
  lemma MergeRule(n: nat, s: string)
    requires n < |RULES|
    ensures RULES[n].tag != ""
    ensures forall r | r in RULES[n..] :: r.tag != ""
    ensures OnePass(RULES[n + 1..], ReplaceAll(s, RULES[n].tag, RULES[n].replacement), false)
         == OnePass(RULES[n..], s, false)
  {
    var all := [RULES[n]] + RULES[n + 1..];
    assert all == RULES[n..];
    RulesAreProper(all);
    assert RULES[n] in all;
    RuleIsProper(RULES[n]);
    MergePass(RULES[n], RULES[n + 1..], s, false);
  }

  /** The four replacement passes and the tag-dropping pass equal the single pass. */
  lemma FourPassesInOne(html: string)
    ensures var s1 := ReplaceAll(html, "<br>", "\n");
            var s2 := ReplaceAll(s1, "<br/>", "\n");
            var s3 := ReplaceAll(s2, "<br />", "\n");
            var s4 := ReplaceAll(s3, "</p>", "\n\n");
            OnePass([], s4, false) == OnePass(RULES, html, false)
  {
    var s1 := ReplaceAll(html, "<br>", "\n");
    var s2 := ReplaceAll(s1, "<br/>", "\n");
    var s3 := ReplaceAll(s2, "<br />", "\n");
    MergeRule(0, html);
    MergeRule(1, s1);
    MergeRule(2, s2);
    MergeRule(3, s3);
    assert RULES[4..] == [] && RULES[0..] == RULES;
  }

  // ------------------------------------------------------------------ what is left, and doing it twice

  predicate NoAngle(s: string) {
    '<' !in s && '>' !in s
  }

  lemma {:induction false} PassLeavesNoAngle(rules: seq<Rule>, s: string, inTag: bool)
    requires AllProper(rules)
    ensures NoAngle(OnePass(rules, s, inTag))
    decreases |s|
  {
    if s != "" {
      var n := Matching(rules, s);
      if n < |rules| {
        assert rules[n] in rules;
        PassLeavesNoAngle(rules, s[|rules[n].tag|..], inTag);
      } else {
        PassLeavesNoAngle(rules, s[1..], if s[0] == '<' then true else if s[0] == '>' then false else inTag);
      }
    }
  }

  lemma {:induction false} PassKeepsPlainText(rules: seq<Rule>, s: string)
    requires AllProper(rules) && NoAngle(s)
    ensures OnePass(rules, s, false) == s
    decreases |s|
  {
    if s != "" {
      assert s[0] in s;
      NoRuleHere(rules, s);
      PassKeepsPlainText(rules, s[1..]);
      assert s == [s[0]] + s[1..];
    }
  }

  /** The result has no angle bracket and no outer white space, and stripping it again changes nothing. */
  lemma StripIsIdempotent(html: string)
    ensures NoAngle(Strip(html)) && Bare(Strip(html)) && Strip(Strip(html)) == Strip(html)
  {
    RulesAreProper(RULES);
    var kept := OnePass(RULES, html, false);
    PassLeavesNoAngle(RULES, html, false);
    var a, b := TrimSpaceSplits(kept);
    forall c | c in TrimSpace(kept)
      ensures c in kept
    {
      assert c in a + TrimSpace(kept) + b;
    }
    PassKeepsPlainText(RULES, TrimSpace(kept));
    TrimSpaceIdempotent(kept);
  }
}
