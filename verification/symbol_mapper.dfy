/** The line classifier: one line of contract text to at most one section symbol,
    by an ordered table of keyword patterns. */
module SymbolMapper {
  import opened Symbols
  import opened Text

  /** A keyword pattern. All patterns are lower-case. A WholeWord pattern matches only
      where it is not preceded or followed by a word character (a regular expression
      written with \b on both sides). */
  datatype Pattern = Literal(text: string) | WholeWord(text: string)

  /** The patterns tried for one symbol, in order. */
  datatype Rule = Rule(symbol: Symbol, patterns: seq<Pattern>)

  /** The patterns of each symbol, in the order they are tried. */
  const HeaderPatterns: seq<Pattern> :=
    [Literal("employment agreement"), Literal("contract of employment"), Literal("know all men"),
     Literal("service agreement"), Literal("letter of offer")]
  const RolePatterns: seq<Pattern> :=
    [Literal("position"), Literal("job title"), Literal("designation"), Literal("hired as"), WholeWord("rank")]
  const DurationPatterns: seq<Pattern> :=
    [Literal("term of employment"), Literal("effective date"), Literal("probationary"), Literal("start date"),
     Literal("period of employment"), WholeWord("duration")]
  const ScopePatterns: seq<Pattern> :=
    [Literal("duties"), Literal("responsibilities"), Literal("functions"), Literal("deliverables"),
     Literal("scope of work"), Literal("obligations"), Literal("job description")]
  const PayPatterns: seq<Pattern> :=
    [Literal("basic pay"), Literal("monthly rate"), Literal("gross salary"), Literal("remuneration"),
     Literal("hourly rate"), Literal("compensation"), WholeWord("salary")]
  const BenefitsPatterns: seq<Pattern> :=
    [Literal("allowance"), Literal("13th month"), Literal("hmo"), Literal("incentives"), Literal("sss"),
     Literal("philhealth"), Literal("pag-ibig"), Literal("insurance"), Literal("benefits")]
  const ConfidentialityPatterns: seq<Pattern> :=
    [Literal("confidentiality"), Literal("non-disclosure"), Literal("data privacy"), Literal("proprietary"),
     Literal("intellectual property")]
  const TerminationPatterns: seq<Pattern> :=
    [Literal("resignation"), Literal("termination"), Literal("notice period"), Literal("breach"),
     Literal("separation"), Literal("end of contract")]
  const SignaturePatterns: seq<Pattern> :=
    [Literal("signed"), Literal("witness"), Literal("conforme"), Literal("accepted by"), Literal("signature")]

  /** The rule table, in the order the symbols are tried. */
  const Rules: seq<Rule> := [
    Rule(H, HeaderPatterns), Rule(R, RolePatterns), Rule(D, DurationPatterns), Rule(S, ScopePatterns),
    Rule(C, PayPatterns), Rule(B, BenefitsPatterns), Rule(F, ConfidentialityPatterns),
    Rule(T, TerminationPatterns), Rule(X, SignaturePatterns)
  ]

  /** The table lists every symbol once, in canonical order, so the rule for s sits at Rank(s). */
  lemma RulesInCanonicalOrder()
    ensures Canonical(Rules)
  {
  }

  // ---------------------------------------------------------------- matching

  /** The pattern occurs in text starting at position j (re.search finds it there). */
  predicate MatchAt(text: string, p: Pattern, j: nat)
  {
    && j + |p.text| <= |text|
    && text[j..j + |p.text|] == p.text
    && (p.WholeWord? ==>
          && (j == 0 || !IsWordChar(text[j - 1]))
          && (j + |p.text| == |text| || !IsWordChar(text[j + |p.text|])))
  }

  /** Scans text for p from position i onwards, leftmost first. */
  function SearchFrom(text: string, p: Pattern, i: nat): (found: bool)
    ensures found <==> exists j :: i <= j && MatchAt(text, p, j)
    decreases |text| - i
  {
    if i + |p.text| > |text| then false
    else MatchAt(text, p, i) || SearchFrom(text, p, i + 1)
  }

  /** re.search(pattern, text) is not None. */
  function Search(text: string, p: Pattern): (found: bool)
    ensures found <==> exists j :: MatchAt(text, p, j)
  {
    SearchFrom(text, p, 0)
  }

  /** Some pattern of the list is found in text (the inner loop over one symbol's patterns). */
  function AnyPatternFrom(text: string, ps: seq<Pattern>, m: nat): (found: bool)
    ensures found <==> exists n :: m <= n < |ps| && Search(text, ps[n])
    decreases |ps| - m
  {
    if m >= |ps| then false
    else Search(text, ps[m]) || AnyPatternFrom(text, ps, m + 1)
  }

  predicate RuleMatches(text: string, rule: Rule)
  {
    exists n :: 0 <= n < |rule.patterns| && Search(text, rule.patterns[n])
  }

  /** The outer loop over the rule table: the symbol of the first rule, from position k on,
      with a pattern found in text. */
  function FirstMatchFrom(text: string, rules: seq<Rule>, k: nat): Option<Symbol>
    decreases |rules| - k
  {
    if k >= |rules| then None
    else if AnyPatternFrom(text, rules[k].patterns, 0) then Some(rules[k].symbol)
    else FirstMatchFrom(text, rules, k + 1)
  }

  /** The outer loop finds nothing exactly when no rule from k on matches; what it finds is
      the symbol of a matching rule with no matching rule between k and it. */
  lemma {:induction false} FirstMatchFromSpec(text: string, rules: seq<Rule>, k: nat)
    ensures var r := FirstMatchFrom(text, rules, k);
      && (r.None? <==> forall n | k <= n < |rules| :: !RuleMatches(text, rules[n]))
      && (r.Some? ==> exists n :: k <= n < |rules| && rules[n].symbol == r.value
                        && RuleMatches(text, rules[n])
                        && forall n' | k <= n' < n :: !RuleMatches(text, rules[n']))
    decreases |rules| - k
  {
    if k < |rules| {
      if AnyPatternFrom(text, rules[k].patterns, 0) {
        assert RuleMatches(text, rules[k]);
        assert FirstMatchFrom(text, rules, k) == Some(rules[k].symbol);
      } else {
        assert !RuleMatches(text, rules[k]);
        FirstMatchFromSpec(text, rules, k + 1);
        var r := FirstMatchFrom(text, rules, k + 1);
        assert FirstMatchFrom(text, rules, k) == r;
        if r.Some? {
          var n :| k + 1 <= n < |rules| && rules[n].symbol == r.value && RuleMatches(text, rules[n])
                   && forall n' | k + 1 <= n' < n :: !RuleMatches(text, rules[n']);
          assert forall n' | k <= n' < n :: !RuleMatches(text, rules[n']);
        }
      }
    }
  }

  // ---------------------------------------------------------------- the classifier

  /** line.strip().lower() */
  function Normalize(line: string): string
  {
    Lower(Strip(line))
  }

  /** The text searched: a line of 20 or more words is cut to its first 15 words,
      joined by single spaces; a shorter line is searched whole. */
  function SearchText(clean: string): (r: string)
    ensures |Words(clean)| >= 20 ==> Words(r) == Words(clean)[..15] && SingleSpaced(r)
    ensures |Words(clean)| < 20 ==> r == clean
  {
    var words := Words(clean);
    if |words| >= 20 then
      WordsAreWords(clean);
      WordsJoin(words[..15]);
      JoinSingleSpaced(words[..15]);
      Join(words[..15])
    else clean
  }

  /** SymbolMapper.get_symbol */
  function GetSymbol(line: string): Option<Symbol>
  {
    var clean := Normalize(line);
    if clean == [] then None
    else FirstMatchFrom(SearchText(clean), Rules, 0)
  }

  // ---------------------------------------------------------------- properties

  /** The rules list the symbols once each, in canonical order. */
  predicate Canonical(rules: seq<Rule>)
  {
    |rules| == 9 && forall s: Symbol :: rules[Rank(s)].symbol == s
  }

  /** Over a canonical table, the first matching rule is the matching symbol of lowest rank. */
  lemma FirstMatchByRank(text: string, rules: seq<Rule>, s: Symbol)
    requires Canonical(rules)
    ensures FirstMatchFrom(text, rules, 0) == Some(s) <==>
      && RuleMatches(text, rules[Rank(s)])
      && forall s' | Rank(s') < Rank(s) :: !RuleMatches(text, rules[Rank(s')])
  {
    FirstMatchFromSpec(text, rules, 0);
    var r := FirstMatchFrom(text, rules, 0);
    if r.Some? {
      var n :| 0 <= n < |rules| && rules[n].symbol == r.value && RuleMatches(text, rules[n])
               && forall n' | 0 <= n' < n :: !RuleMatches(text, rules[n']);
      var v := SymbolOfRank(n);
      assert rules[Rank(v)].symbol == v;
      assert v == r.value;
      if Rank(s) < n {
        assert r != Some(s);
      } else if n < Rank(s) {
        assert r != Some(s);
      }
    }
  }

  /** Over a canonical table, no rule matches exactly when no symbol does. */
  lemma FirstMatchNone(text: string, rules: seq<Rule>)
    requires Canonical(rules)
    ensures FirstMatchFrom(text, rules, 0) == None <==>
      forall s: Symbol :: !RuleMatches(text, rules[Rank(s)])
  {
    FirstMatchFromSpec(text, rules, 0);
    if forall s: Symbol :: !RuleMatches(text, rules[Rank(s)]) {
      forall n | 0 <= n < |rules| ensures !RuleMatches(text, rules[n]) {
        assert Rank(SymbolOfRank(n)) == n;
      }
    }
  }

  /** get_symbol returns s exactly when the line is not blank, a pattern of s is found in
      the searched text, and no pattern of a symbol tried earlier is. */
  lemma GetSymbolIsFirstMatch(line: string, s: Symbol)
    ensures GetSymbol(line) == Some(s) <==>
      && Normalize(line) != []
      && RuleMatches(SearchText(Normalize(line)), Rules[Rank(s)])
      && forall s' | Rank(s') < Rank(s) :: !RuleMatches(SearchText(Normalize(line)), Rules[Rank(s')])
  {
    RulesInCanonicalOrder();
    FirstMatchByRank(SearchText(Normalize(line)), Rules, s);
  }

  /** get_symbol returns None exactly for a blank line or a line where no pattern of any
      symbol is found. */
  lemma GetSymbolNone(line: string)
    ensures GetSymbol(line) == None <==>
      Normalize(line) == [] || forall s: Symbol :: !RuleMatches(SearchText(Normalize(line)), Rules[Rank(s)])
  {
    var clean := Normalize(line);
    if clean != [] {
      var text := SearchText(clean);
      RulesInCanonicalOrder();
      FirstMatchNone(text, Rules);
      assert GetSymbol(line) == FirstMatchFrom(text, Rules, 0);
    }
  }

  /** An empty or whitespace-only line has no symbol. */
  lemma BlankLineHasNoSymbol(line: string)
    requires AllSpace(line)
    ensures GetSymbol(line) == None
  {
    LeadingSpacesOfSpaces(line, []);
    assert line + [] == line;
    assert Strip(line) == [];
  }

  /** The letter case of a line does not change its symbol. */
  lemma CaseInsensitive(a: string, b: string)
    requires Lower(a) == Lower(b)
    ensures GetSymbol(a) == GetSymbol(b)
  {
    LowerStripCommute(a);
    LowerStripCommute(b);
  }

  /** Whitespace before or after a line does not change its symbol. */
  lemma PaddingIrrelevant(ws: string, line: string, ws': string)
    requires AllSpace(ws) && AllSpace(ws')
    ensures GetSymbol(ws + line + ws') == GetSymbol(line)
  {
    StripPadding(ws, line, ws');
  }

  /** Two lines of 20 or more words whose first 15 words agree get the same symbol:
      words 16 onwards are never searched. */
  lemma LongLineFirstFifteenWords(a: string, b: string)
    requires |Words(Normalize(a))| >= 20 && |Words(Normalize(b))| >= 20
    requires Words(Normalize(a))[..15] == Words(Normalize(b))[..15]
    ensures GetSymbol(a) == GetSymbol(b)
  {
    assert Normalize(a) != [] && Normalize(b) != [];
  }
}
