/** Worked examples of the classifier on concrete lines: the expectations written next to
    symbol_mapper.py's self-test, and further lines on whole-word matching and on the
    confidentiality rule. */
module MapperExamples {
  import opened Symbols
  import opened Text
  import opened SymbolMapper

  // ---------------------------------------------------------------- proof tools

  /** A case split on a small index; it lets the solver evaluate a fact about a
      literal string at each position in turn. */
  lemma IndexCases(i: nat)
    requires i < 40
    ensures i == 0 || i == 1 || i == 2 || i == 3 || i == 4 || i == 5 || i == 6 || i == 7
         || i == 8 || i == 9 || i == 10 || i == 11 || i == 12 || i == 13 || i == 14 || i == 15
         || i == 16 || i == 17 || i == 18 || i == 19 || i == 20 || i == 21 || i == 22 || i == 23
         || i == 24 || i == 25 || i == 26 || i == 27 || i == 28 || i == 29 || i == 30 || i == 31
         || i == 32 || i == 33 || i == 34 || i == 35 || i == 36 || i == 37 || i == 38 || i == 39
  {
  }

  /** A pattern holding a character outside the text's alphabet is not found in it. */
  lemma NoMatchOutside(text: string, p: Pattern, k: nat, alphabet: set<char>)
    requires forall i | 0 <= i < |text| :: text[i] in alphabet
    requires k < |p.text| && p.text[k] !in alphabet
    ensures !Search(text, p)
  {
    forall j: nat ensures !MatchAt(text, p, j) {
      if j + |p.text| <= |text| {
        assert text[j..j + |p.text|][k] == text[j + k];
      }
    }
  }

  /** A match at j agrees with the pattern's k-th character. */
  lemma MatchAtChar(text: string, p: Pattern, j: nat, k: nat)
    requires k < |p.text|
    ensures MatchAt(text, p, j) ==> text[j + k] == p.text[k]
  {
    if MatchAt(text, p, j) {
      assert text[j..j + |p.text|][k] == text[j + k];
    }
  }

  /** A match at j agrees with the pattern's first three characters. */
  lemma MatchAtHead(text: string, p: Pattern, j: nat)
    requires |p.text| >= 3
    ensures MatchAt(text, p, j) ==>
      text[j] == p.text[0] && text[j + 1] == p.text[1] && text[j + 2] == p.text[2]
  {
    MatchAtChar(text, p, j, 0);
    MatchAtChar(text, p, j, 1);
    MatchAtChar(text, p, j, 2);
  }

  /** A pattern whose first three characters occur together nowhere in the text is not
      found in it. */
  lemma NoMatchByHead(text: string, p: Pattern)
    requires |p.text| >= 3
    requires forall j | 0 <= j && j + 2 < |text| ::
      !(text[j] == p.text[0] && text[j + 1] == p.text[1] && text[j + 2] == p.text[2])
    ensures !Search(text, p)
  {
    forall j: nat ensures !MatchAt(text, p, j) {
      MatchAtHead(text, p, j);
    }
  }

  /** A pattern whose first three characters occur together only at position q, where
      its k-th character is missing, is not found in text. */
  lemma NoMatchButMismatch(text: string, p: Pattern, q: nat, k: nat)
    requires 3 <= |p.text| && k < |p.text|
    requires forall j | 0 <= j && j + 2 < |text| ::
      j == q || !(text[j] == p.text[0] && text[j + 1] == p.text[1] && text[j + 2] == p.text[2])
    requires q + k < |text| && text[q + k] != p.text[k]
    ensures !Search(text, p)
  {
    forall j: nat ensures !MatchAt(text, p, j) {
      MatchAtHead(text, p, j);
      if j == q { MatchAtChar(text, p, q, k); }
    }
  }

  /** A whole-word pattern whose first three characters occur together only at position
      q, right after a word character, is not found in text. */
  lemma NoWholeWordButGlued(text: string, p: Pattern, q: nat)
    requires p.WholeWord? && 3 <= |p.text|
    requires forall j | 0 <= j && j + 2 < |text| ::
      j == q || !(text[j] == p.text[0] && text[j + 1] == p.text[1] && text[j + 2] == p.text[2])
    requires 0 < q <= |text| && IsWordChar(text[q - 1])
    ensures !Search(text, p)
  {
    forall j: nat ensures !MatchAt(text, p, j) {
      if j != q {
        MatchAtHead(text, p, j);
      }
    }
  }

  /** A rule matches when one of its patterns is found. */
  lemma RuleByPattern(t: string, r: nat, i: nat, p: Pattern)
    requires r < |Rules| && i < |Rules[r].patterns| && Rules[r].patterns[i] == p
    requires Search(t, p)
    ensures RuleMatches(t, Rules[r])
  {
  }

  /** A pattern whose characters stand in text from position j on, with the word boundaries
      a whole-word pattern needs, is found in text. */
  lemma FoundAt(text: string, p: Pattern, j: nat)
    requires j + |p.text| <= |text|
    requires forall k | 0 <= k < |p.text| :: text[j + k] == p.text[k]
    requires p.WholeWord? ==>
      && (j == 0 || !IsWordChar(text[j - 1]))
      && (j + |p.text| == |text| || !IsWordChar(text[j + |p.text|]))
    ensures Search(text, p)
  {
    assert text[j..j + |p.text|] == p.text;
    assert MatchAt(text, p, j);
  }

  /** A line without surrounding whitespace normalizes to t when t has no upper-case
      letter and the line agrees with t outside the positions exc and lower-cases to t at
      those. */
  lemma NormalizeTo(line: string, t: string, exc: set<nat>, alphabet: set<char>)
    requires |line| == |t| > 0
    requires !IsSpace(line[0]) && !IsSpace(line[|line| - 1])
    requires forall i | 0 <= i < |line| :: i in exc || line[i] == t[i]
    requires forall i | 0 <= i < |t| :: t[i] in alphabet
    requires forall c | c in alphabet :: !('A' <= c <= 'Z')
    requires forall i | i in exc :: i < |line| && LowerChar(line[i]) == t[i]
    ensures Normalize(line) == t
  {
    assert LeadingSpaces(line) == 0 && line[0..] == line;
    assert TrailingSpaces(line) == 0 && line[..|line| - 0] == line;
  }

  /** Rounding: 2x <= 2y + 1 bounds x by y. */
  lemma HalfBound(x: int, y: int)
    requires 2 * x <= 2 * y + 1
    ensures x <= y
  {
  }

  /** Each side of a whitespace character at position k holds at most half its length
      in words, rounded up. */
  lemma FewWords(s: string, k: nat)
    requires k < |s| && IsSpace(s[k])
    ensures 2 * (|Words(s)| - |Words(s[k + 1..])|) <= k + 1
    ensures 2 * |Words(s[k + 1..])| <= |s| - k
  {
    WordsSplitAt(s, k);
    WordsBound(s[..k]);
    WordsBound(s[k + 1..]);
  }

  /** A word count bound from one whitespace position. */
  lemma WordsAtMost(s: string, k: nat, a: nat, b: nat)
    requires k < |s| && IsSpace(s[k]) && k <= 2 * a && |s| - k - 1 <= 2 * b
    ensures |Words(s)| <= a + b
  {
    FewWords(s, k);
    HalfBound(|Words(s)| - |Words(s[k + 1..])|, a);
    HalfBound(|Words(s[k + 1..])|, b);
  }

  /** A word count bound from two whitespace positions. */
  lemma WordsAtMost2(s: string, k: nat, k': nat, a: nat, a': nat, b: nat)
    requires k < k' < |s| && IsSpace(s[k]) && IsSpace(s[k'])
    requires k <= 2 * a && k' - k - 1 <= 2 * a' && |s| - k' - 1 <= 2 * b
    ensures |Words(s)| <= a + a' + b
  {
    FewWords(s, k);
    HalfBound(|Words(s)| - |Words(s[k + 1..])|, a);
    WordsAtMost(s[k + 1..], k' - k - 1, a', b);
  }

  /** A line that normalizes to the non-empty t, searched whole, gets s when the rule for s
      matches t and no rule tried before it does. */
  lemma SymbolFound(line: string, t: string, s: Symbol)
    requires Normalize(line) == t && t != [] && SearchText(t) == t
    requires RuleMatches(t, Rules[Rank(s)])
    requires forall s' | Rank(s') < Rank(s) :: !RuleMatches(t, Rules[Rank(s')])
    ensures GetSymbol(line) == Some(s)
  {
    GetSymbolIsFirstMatch(line, s);
  }

  /** A line that normalizes to t, searched whole, has no symbol when no rule matches t. */
  lemma NoSymbolFound(line: string, t: string)
    requires Normalize(line) == t && SearchText(t) == t
    requires forall s: Symbol :: !RuleMatches(t, Rules[Rank(s)])
    ensures GetSymbol(line) == None
  {
    GetSymbolNone(line);
  }

  /** The rule for header fails on a text in which none of its patterns is found. */
  lemma NoHeaderPattern(t: string)
    requires !Search(t, Literal("employment agreement"))
    requires !Search(t, Literal("contract of employment"))
    requires !Search(t, Literal("know all men"))
    requires !Search(t, Literal("service agreement"))
    requires !Search(t, Literal("letter of offer"))
    ensures !RuleMatches(t, Rules[0])
  {
    var ps := HeaderPatterns;
    forall n | 0 <= n < |ps| ensures !Search(t, ps[n]) {
    }
  }

  /** The rule for role fails on a text in which none of its patterns is found. */
  lemma NoRolePattern(t: string)
    requires !Search(t, Literal("position"))
    requires !Search(t, Literal("job title"))
    requires !Search(t, Literal("designation"))
    requires !Search(t, Literal("hired as"))
    requires !Search(t, WholeWord("rank"))
    ensures !RuleMatches(t, Rules[1])
  {
    var ps := RolePatterns;
    forall n | 0 <= n < |ps| ensures !Search(t, ps[n]) {
    }
  }

  /** The rule for duration fails on a text in which none of its patterns is found. */
  lemma NoDurationPattern(t: string)
    requires !Search(t, Literal("term of employment"))
    requires !Search(t, Literal("effective date"))
    requires !Search(t, Literal("probationary"))
    requires !Search(t, Literal("start date"))
    requires !Search(t, Literal("period of employment"))
    requires !Search(t, WholeWord("duration"))
    ensures !RuleMatches(t, Rules[2])
  {
    var ps := DurationPatterns;
    forall n | 0 <= n < |ps| ensures !Search(t, ps[n]) {
    }
  }

  /** The rule for scope fails on a text in which none of its patterns is found. */
  lemma NoScopePattern(t: string)
    requires !Search(t, Literal("duties"))
    requires !Search(t, Literal("responsibilities"))
    requires !Search(t, Literal("functions"))
    requires !Search(t, Literal("deliverables"))
    requires !Search(t, Literal("scope of work"))
    requires !Search(t, Literal("obligations"))
    requires !Search(t, Literal("job description"))
    ensures !RuleMatches(t, Rules[3])
  {
    var ps := ScopePatterns;
    forall n | 0 <= n < |ps| ensures !Search(t, ps[n]) {
    }
  }

  /** The rule for pay fails on a text in which none of its patterns is found. */
  lemma NoPayPattern(t: string)
    requires !Search(t, Literal("basic pay"))
    requires !Search(t, Literal("monthly rate"))
    requires !Search(t, Literal("gross salary"))
    requires !Search(t, Literal("remuneration"))
    requires !Search(t, Literal("hourly rate"))
    requires !Search(t, Literal("compensation"))
    requires !Search(t, WholeWord("salary"))
    ensures !RuleMatches(t, Rules[4])
  {
    var ps := PayPatterns;
    forall n | 0 <= n < |ps| ensures !Search(t, ps[n]) {
    }
  }

  /** The rule for benefits fails on a text in which none of its patterns is found. */
  lemma NoBenefitsPattern(t: string)
    requires !Search(t, Literal("allowance"))
    requires !Search(t, Literal("13th month"))
    requires !Search(t, Literal("hmo"))
    requires !Search(t, Literal("incentives"))
    requires !Search(t, Literal("sss"))
    requires !Search(t, Literal("philhealth"))
    requires !Search(t, Literal("pag-ibig"))
    requires !Search(t, Literal("insurance"))
    requires !Search(t, Literal("benefits"))
    ensures !RuleMatches(t, Rules[5])
  {
    var ps := BenefitsPatterns;
    forall n | 0 <= n < |ps| ensures !Search(t, ps[n]) {
    }
  }

  /** The rule for confidentiality fails on a text in which none of its patterns is found. */
  lemma NoConfidentialityPattern(t: string)
    requires !Search(t, Literal("confidentiality"))
    requires !Search(t, Literal("non-disclosure"))
    requires !Search(t, Literal("data privacy"))
    requires !Search(t, Literal("proprietary"))
    requires !Search(t, Literal("intellectual property"))
    ensures !RuleMatches(t, Rules[6])
  {
    var ps := ConfidentialityPatterns;
    forall n | 0 <= n < |ps| ensures !Search(t, ps[n]) {
    }
  }

  /** The rule for termination fails on a text in which none of its patterns is found. */
  lemma NoTerminationPattern(t: string)
    requires !Search(t, Literal("resignation"))
    requires !Search(t, Literal("termination"))
    requires !Search(t, Literal("notice period"))
    requires !Search(t, Literal("breach"))
    requires !Search(t, Literal("separation"))
    requires !Search(t, Literal("end of contract"))
    ensures !RuleMatches(t, Rules[7])
  {
    var ps := TerminationPatterns;
    forall n | 0 <= n < |ps| ensures !Search(t, ps[n]) {
    }
  }

  /** The rule for signature fails on a text in which none of its patterns is found. */
  lemma NoSignaturePattern(t: string)
    requires !Search(t, Literal("signed"))
    requires !Search(t, Literal("witness"))
    requires !Search(t, Literal("conforme"))
    requires !Search(t, Literal("accepted by"))
    requires !Search(t, Literal("signature"))
    ensures !RuleMatches(t, Rules[8])
  {
    var ps := SignaturePatterns;
    forall n | 0 <= n < |ps| ensures !Search(t, ps[n]) {
    }
  }

  /** Finding "position" makes the role rule match. */
  lemma PositionMatchesRule(t: string)
    requires Search(t, Literal("position"))
    ensures RuleMatches(t, Rules[1])
  {
    RuleByPattern(t, 1, 0, Literal("position"));
  }

  /** Finding "duration" makes the duration rule match. */
  lemma DurationMatchesRule(t: string)
    requires Search(t, WholeWord("duration"))
    ensures RuleMatches(t, Rules[2])
  {
    RuleByPattern(t, 2, 5, WholeWord("duration"));
  }

  /** Finding "rank" makes the role rule match. */
  lemma RankMatchesRule(t: string)
    requires Search(t, WholeWord("rank"))
    ensures RuleMatches(t, Rules[1])
  {
    RuleByPattern(t, 1, 4, WholeWord("rank"));
  }

  /** Finding "employment agreement" makes the header rule match. */
  lemma EmploymentAgreementMatchesRule(t: string)
    requires Search(t, Literal("employment agreement"))
    ensures RuleMatches(t, Rules[0])
  {
    RuleByPattern(t, 0, 0, Literal("employment agreement"));
  }

  /** Finding "salary" makes the pay rule match. */
  lemma SalaryMatchesRule(t: string)
    requires Search(t, WholeWord("salary"))
    ensures RuleMatches(t, Rules[4])
  {
    RuleByPattern(t, 4, 6, WholeWord("salary"));
  }

  // ---------------------------------------------------------------- "Frankly, I think this is a good idea."

  const FranklyLine: string := "Frankly, I think this is a good idea."
  const FranklyText: string := "frankly, i think this is a good idea."

  /** "rank" does occur inside "frankly"; only the whole-word pattern keeps it from counting. */
  lemma RankInsideFrankly()
    ensures Search(FranklyText, Literal("rank"))
  {
    FranklySpellsRank();
    FoundAt(FranklyText, Literal("rank"), 1);
  }

  lemma FranklySpellsRank()
    ensures forall k | 0 <= k < 4 :: FranklyText[1 + k] == "rank"[k]
  {
    var t := FranklyText;
    forall k | 0 <= k < 4 ensures t[1 + k] == "rank"[k] {
      assert k == 0 || k == 1 || k == 2 || k == 3;
    }
  }

  lemma FranklyAgrees1()
    ensures forall i | 0 <= i < 10 :: i == 0 || i == 9 || FranklyLine[i] == FranklyText[i]
  {
    var line, t := FranklyLine, FranklyText;
    forall i | 0 <= i < 10 ensures i == 0 || i == 9 || line[i] == t[i] {
      assert i == 0 || i == 1 || i == 2 || i == 3 || i == 4 || i == 5 || i == 6 || i == 7 || i == 8 || i == 9;
    }
  }

  lemma FranklyAgrees2()
    ensures forall i | 10 <= i < 20 :: FranklyLine[i] == FranklyText[i]
  {
    var line, t := FranklyLine, FranklyText;
    forall i | 10 <= i < 20 ensures line[i] == t[i] {
      assert i == 10 || i == 11 || i == 12 || i == 13 || i == 14 || i == 15 || i == 16 || i == 17 || i == 18 || i == 19;
    }
  }

  lemma FranklyAgrees3()
    ensures forall i | 20 <= i < 30 :: FranklyLine[i] == FranklyText[i]
  {
    var line, t := FranklyLine, FranklyText;
    forall i | 20 <= i < 30 ensures line[i] == t[i] {
      assert i == 20 || i == 21 || i == 22 || i == 23 || i == 24 || i == 25 || i == 26 || i == 27 || i == 28 || i == 29;
    }
  }

  lemma FranklyAgrees4()
    ensures forall i | 30 <= i < 37 :: FranklyLine[i] == FranklyText[i]
  {
    var line, t := FranklyLine, FranklyText;
    forall i | 30 <= i < 37 ensures line[i] == t[i] {
      assert i == 30 || i == 31 || i == 32 || i == 33 || i == 34 || i == 35 || i == 36;
    }
  }

  /** Line and text agree except where the line has a capital letter. */
  lemma FranklyAgrees()
    ensures forall i | 0 <= i < |FranklyLine| :: i == 0 || i == 9 || FranklyLine[i] == FranklyText[i]
  {
    assert |FranklyLine| == 37;
    FranklyAgrees1();
    FranklyAgrees2();
    FranklyAgrees3();
    FranklyAgrees4();
  }

  /** The characters FranklyText is made of. */
  const FranklyLetters: set<char> := {' ', ',', '.', 'a', 'd', 'e', 'f', 'g', 'h', 'i', 'k', 'l', 'n', 'o', 'r', 's', 't', 'y'}

  lemma FranklyAlphabet()
    ensures forall i | 0 <= i < |FranklyText| :: FranklyText[i] in FranklyLetters
  {
    var t := FranklyText;
    forall i | 0 <= i < |t| ensures t[i] in FranklyLetters {
      IndexCases(i);
    }
  }


  lemma FranklyNormalized()
    ensures Normalize(FranklyLine) == FranklyText
  {
    FranklyAgrees();
    FranklyAlphabet();
    NormalizeTo(FranklyLine, FranklyText, {0, 9}, FranklyLetters);
  }

  lemma FranklySearchedWhole()
    ensures SearchText(FranklyText) == FranklyText
  {
    WordsBound(FranklyText);
  }

  lemma FranklyLacksEmploymentAgreement()
    ensures !Search(FranklyText, Literal("employment agreement"))
  {
    FranklyAlphabet();
    NoMatchOutside(FranklyText, Literal("employment agreement"), 1, FranklyLetters);
  }

  lemma FranklyLacksContractOfEmployment()
    ensures !Search(FranklyText, Literal("contract of employment"))
  {
    FranklyAlphabet();
    NoMatchOutside(FranklyText, Literal("contract of employment"), 0, FranklyLetters);
  }

  lemma FranklyLacksKnowAllMen()
    ensures !Search(FranklyText, Literal("know all men"))
  {
    FranklyAlphabet();
    NoMatchOutside(FranklyText, Literal("know all men"), 3, FranklyLetters);
  }

  lemma FranklyLacksServiceAgreement()
    ensures !Search(FranklyText, Literal("service agreement"))
  {
    FranklyAlphabet();
    NoMatchOutside(FranklyText, Literal("service agreement"), 3, FranklyLetters);
  }

  lemma FranklyHeadLetLow()
    ensures forall j | 0 <= j < 20 && j + 2 < |FranklyText| ::
      !(FranklyText[j] == 'l' && FranklyText[j + 1] == 'e' && FranklyText[j + 2] == 't')
  {
    var t := FranklyText;
    forall j | 0 <= j < 20 && j + 2 < |t| ensures !(t[j] == 'l' && t[j + 1] == 'e' && t[j + 2] == 't') {
      IndexCases(j);
    }
  }

  lemma FranklyHeadLetHigh()
    ensures forall j | 20 <= j && j + 2 < |FranklyText| ::
      !(FranklyText[j] == 'l' && FranklyText[j + 1] == 'e' && FranklyText[j + 2] == 't')
  {
    var t := FranklyText;
    forall j | 20 <= j && j + 2 < |t| ensures !(t[j] == 'l' && t[j + 1] == 'e' && t[j + 2] == 't') {
      IndexCases(j);
    }
  }

  lemma FranklyLacksLetterOfOffer()
    ensures !Search(FranklyText, Literal("letter of offer"))
  {
    var t := FranklyText;
    FranklyHeadLetLow();
    FranklyHeadLetHigh();
    NoMatchByHead(t, Literal("letter of offer"));
  }

  lemma FranklyNoHeader()
    ensures !RuleMatches(FranklyText, Rules[0])
  {
    FranklyLacksEmploymentAgreement();
    FranklyLacksContractOfEmployment();
    FranklyLacksKnowAllMen();
    FranklyLacksServiceAgreement();
    FranklyLacksLetterOfOffer();
    NoHeaderPattern(FranklyText);
  }

  lemma FranklyLacksPosition()
    ensures !Search(FranklyText, Literal("position"))
  {
    FranklyAlphabet();
    NoMatchOutside(FranklyText, Literal("position"), 0, FranklyLetters);
  }

  lemma FranklyLacksJobTitle()
    ensures !Search(FranklyText, Literal("job title"))
  {
    FranklyAlphabet();
    NoMatchOutside(FranklyText, Literal("job title"), 0, FranklyLetters);
  }

  lemma FranklyHeadDesLow()
    ensures forall j | 0 <= j < 20 && j + 2 < |FranklyText| ::
      !(FranklyText[j] == 'd' && FranklyText[j + 1] == 'e' && FranklyText[j + 2] == 's')
  {
    var t := FranklyText;
    forall j | 0 <= j < 20 && j + 2 < |t| ensures !(t[j] == 'd' && t[j + 1] == 'e' && t[j + 2] == 's') {
      IndexCases(j);
    }
  }

  lemma FranklyHeadDesHigh()
    ensures forall j | 20 <= j && j + 2 < |FranklyText| ::
      !(FranklyText[j] == 'd' && FranklyText[j + 1] == 'e' && FranklyText[j + 2] == 's')
  {
    var t := FranklyText;
    forall j | 20 <= j && j + 2 < |t| ensures !(t[j] == 'd' && t[j + 1] == 'e' && t[j + 2] == 's') {
      IndexCases(j);
    }
  }

  lemma FranklyLacksDesignation()
    ensures !Search(FranklyText, Literal("designation"))
  {
    var t := FranklyText;
    FranklyHeadDesLow();
    FranklyHeadDesHigh();
    NoMatchByHead(t, Literal("designation"));
  }

  lemma FranklyHeadHirLow()
    ensures forall j | 0 <= j < 20 && j + 2 < |FranklyText| ::
      !(FranklyText[j] == 'h' && FranklyText[j + 1] == 'i' && FranklyText[j + 2] == 'r')
  {
    var t := FranklyText;
    forall j | 0 <= j < 20 && j + 2 < |t| ensures !(t[j] == 'h' && t[j + 1] == 'i' && t[j + 2] == 'r') {
      IndexCases(j);
    }
  }

  lemma FranklyHeadHirHigh()
    ensures forall j | 20 <= j && j + 2 < |FranklyText| ::
      !(FranklyText[j] == 'h' && FranklyText[j + 1] == 'i' && FranklyText[j + 2] == 'r')
  {
    var t := FranklyText;
    forall j | 20 <= j && j + 2 < |t| ensures !(t[j] == 'h' && t[j + 1] == 'i' && t[j + 2] == 'r') {
      IndexCases(j);
    }
  }

  lemma FranklyLacksHiredAs()
    ensures !Search(FranklyText, Literal("hired as"))
  {
    var t := FranklyText;
    FranklyHeadHirLow();
    FranklyHeadHirHigh();
    NoMatchByHead(t, Literal("hired as"));
  }

  lemma FranklyHeadRanLow()
    ensures forall j | 0 <= j < 20 && j + 2 < |FranklyText| ::
      j == 1 || !(FranklyText[j] == 'r' && FranklyText[j + 1] == 'a' && FranklyText[j + 2] == 'n')
  {
    var t := FranklyText;
    forall j | 0 <= j < 20 && j + 2 < |t| ensures j == 1 || !(t[j] == 'r' && t[j + 1] == 'a' && t[j + 2] == 'n') {
      IndexCases(j);
    }
  }

  lemma FranklyHeadRanHigh()
    ensures forall j | 20 <= j && j + 2 < |FranklyText| ::
      !(FranklyText[j] == 'r' && FranklyText[j + 1] == 'a' && FranklyText[j + 2] == 'n')
  {
    var t := FranklyText;
    forall j | 20 <= j && j + 2 < |t| ensures !(t[j] == 'r' && t[j + 1] == 'a' && t[j + 2] == 'n') {
      IndexCases(j);
    }
  }

  lemma FranklyLacksRank()
    ensures !Search(FranklyText, WholeWord("rank"))
  {
    var t := FranklyText;
    FranklyHeadRanLow();
    FranklyHeadRanHigh();
    assert IsWordChar(t[0]);
    NoWholeWordButGlued(t, WholeWord("rank"), 1);
  }

  lemma FranklyNoRole()
    ensures !RuleMatches(FranklyText, Rules[1])
  {
    FranklyLacksPosition();
    FranklyLacksJobTitle();
    FranklyLacksDesignation();
    FranklyLacksHiredAs();
    FranklyLacksRank();
    NoRolePattern(FranklyText);
  }

  lemma FranklyLacksTermOfEmployment()
    ensures !Search(FranklyText, Literal("term of employment"))
  {
    FranklyAlphabet();
    NoMatchOutside(FranklyText, Literal("term of employment"), 3, FranklyLetters);
  }

  lemma FranklyLacksEffectiveDate()
    ensures !Search(FranklyText, Literal("effective date"))
  {
    FranklyAlphabet();
    NoMatchOutside(FranklyText, Literal("effective date"), 4, FranklyLetters);
  }

  lemma FranklyLacksProbationary()
    ensures !Search(FranklyText, Literal("probationary"))
  {
    FranklyAlphabet();
    NoMatchOutside(FranklyText, Literal("probationary"), 0, FranklyLetters);
  }

  lemma FranklyHeadStaLow()
    ensures forall j | 0 <= j < 20 && j + 2 < |FranklyText| ::
      !(FranklyText[j] == 's' && FranklyText[j + 1] == 't' && FranklyText[j + 2] == 'a')
  {
    var t := FranklyText;
    forall j | 0 <= j < 20 && j + 2 < |t| ensures !(t[j] == 's' && t[j + 1] == 't' && t[j + 2] == 'a') {
      IndexCases(j);
    }
  }

  lemma FranklyHeadStaHigh()
    ensures forall j | 20 <= j && j + 2 < |FranklyText| ::
      !(FranklyText[j] == 's' && FranklyText[j + 1] == 't' && FranklyText[j + 2] == 'a')
  {
    var t := FranklyText;
    forall j | 20 <= j && j + 2 < |t| ensures !(t[j] == 's' && t[j + 1] == 't' && t[j + 2] == 'a') {
      IndexCases(j);
    }
  }

  lemma FranklyLacksStartDate()
    ensures !Search(FranklyText, Literal("start date"))
  {
    var t := FranklyText;
    FranklyHeadStaLow();
    FranklyHeadStaHigh();
    NoMatchByHead(t, Literal("start date"));
  }

  lemma FranklyLacksPeriodOfEmployment()
    ensures !Search(FranklyText, Literal("period of employment"))
  {
    FranklyAlphabet();
    NoMatchOutside(FranklyText, Literal("period of employment"), 0, FranklyLetters);
  }

  lemma FranklyLacksDuration()
    ensures !Search(FranklyText, WholeWord("duration"))
  {
    FranklyAlphabet();
    NoMatchOutside(FranklyText, WholeWord("duration"), 1, FranklyLetters);
  }

  lemma FranklyNoDuration()
    ensures !RuleMatches(FranklyText, Rules[2])
  {
    FranklyLacksTermOfEmployment();
    FranklyLacksEffectiveDate();
    FranklyLacksProbationary();
    FranklyLacksStartDate();
    FranklyLacksPeriodOfEmployment();
    FranklyLacksDuration();
    NoDurationPattern(FranklyText);
  }

  lemma FranklyLacksDuties()
    ensures !Search(FranklyText, Literal("duties"))
  {
    FranklyAlphabet();
    NoMatchOutside(FranklyText, Literal("duties"), 1, FranklyLetters);
  }

  lemma FranklyLacksResponsibilities()
    ensures !Search(FranklyText, Literal("responsibilities"))
  {
    FranklyAlphabet();
    NoMatchOutside(FranklyText, Literal("responsibilities"), 3, FranklyLetters);
  }

  lemma FranklyLacksFunctions()
    ensures !Search(FranklyText, Literal("functions"))
  {
    FranklyAlphabet();
    NoMatchOutside(FranklyText, Literal("functions"), 1, FranklyLetters);
  }

  lemma FranklyLacksDeliverables()
    ensures !Search(FranklyText, Literal("deliverables"))
  {
    FranklyAlphabet();
    NoMatchOutside(FranklyText, Literal("deliverables"), 4, FranklyLetters);
  }

  lemma FranklyLacksScopeOfWork()
    ensures !Search(FranklyText, Literal("scope of work"))
  {
    FranklyAlphabet();
    NoMatchOutside(FranklyText, Literal("scope of work"), 1, FranklyLetters);
  }

  lemma FranklyLacksObligations()
    ensures !Search(FranklyText, Literal("obligations"))
  {
    FranklyAlphabet();
    NoMatchOutside(FranklyText, Literal("obligations"), 1, FranklyLetters);
  }

  lemma FranklyLacksJobDescription()
    ensures !Search(FranklyText, Literal("job description"))
  {
    FranklyAlphabet();
    NoMatchOutside(FranklyText, Literal("job description"), 0, FranklyLetters);
  }

  lemma FranklyNoScope()
    ensures !RuleMatches(FranklyText, Rules[3])
  {
    FranklyLacksDuties();
    FranklyLacksResponsibilities();
    FranklyLacksFunctions();
    FranklyLacksDeliverables();
    FranklyLacksScopeOfWork();
    FranklyLacksObligations();
    FranklyLacksJobDescription();
    NoScopePattern(FranklyText);
  }

  lemma FranklyLacksBasicPay()
    ensures !Search(FranklyText, Literal("basic pay"))
  {
    FranklyAlphabet();
    NoMatchOutside(FranklyText, Literal("basic pay"), 0, FranklyLetters);
  }

  lemma FranklyLacksMonthlyRate()
    ensures !Search(FranklyText, Literal("monthly rate"))
  {
    FranklyAlphabet();
    NoMatchOutside(FranklyText, Literal("monthly rate"), 0, FranklyLetters);
  }

  lemma FranklyHeadGroLow()
    ensures forall j | 0 <= j < 20 && j + 2 < |FranklyText| ::
      !(FranklyText[j] == 'g' && FranklyText[j + 1] == 'r' && FranklyText[j + 2] == 'o')
  {
    var t := FranklyText;
    forall j | 0 <= j < 20 && j + 2 < |t| ensures !(t[j] == 'g' && t[j + 1] == 'r' && t[j + 2] == 'o') {
      IndexCases(j);
    }
  }

  lemma FranklyHeadGroHigh()
    ensures forall j | 20 <= j && j + 2 < |FranklyText| ::
      !(FranklyText[j] == 'g' && FranklyText[j + 1] == 'r' && FranklyText[j + 2] == 'o')
  {
    var t := FranklyText;
    forall j | 20 <= j && j + 2 < |t| ensures !(t[j] == 'g' && t[j + 1] == 'r' && t[j + 2] == 'o') {
      IndexCases(j);
    }
  }

  lemma FranklyLacksGrossSalary()
    ensures !Search(FranklyText, Literal("gross salary"))
  {
    var t := FranklyText;
    FranklyHeadGroLow();
    FranklyHeadGroHigh();
    NoMatchByHead(t, Literal("gross salary"));
  }

  lemma FranklyLacksRemuneration()
    ensures !Search(FranklyText, Literal("remuneration"))
  {
    FranklyAlphabet();
    NoMatchOutside(FranklyText, Literal("remuneration"), 2, FranklyLetters);
  }

  lemma FranklyLacksHourlyRate()
    ensures !Search(FranklyText, Literal("hourly rate"))
  {
    FranklyAlphabet();
    NoMatchOutside(FranklyText, Literal("hourly rate"), 2, FranklyLetters);
  }

  lemma FranklyLacksCompensation()
    ensures !Search(FranklyText, Literal("compensation"))
  {
    FranklyAlphabet();
    NoMatchOutside(FranklyText, Literal("compensation"), 0, FranklyLetters);
  }

  lemma FranklyHeadSalLow()
    ensures forall j | 0 <= j < 20 && j + 2 < |FranklyText| ::
      !(FranklyText[j] == 's' && FranklyText[j + 1] == 'a' && FranklyText[j + 2] == 'l')
  {
    var t := FranklyText;
    forall j | 0 <= j < 20 && j + 2 < |t| ensures !(t[j] == 's' && t[j + 1] == 'a' && t[j + 2] == 'l') {
      IndexCases(j);
    }
  }

  lemma FranklyHeadSalHigh()
    ensures forall j | 20 <= j && j + 2 < |FranklyText| ::
      !(FranklyText[j] == 's' && FranklyText[j + 1] == 'a' && FranklyText[j + 2] == 'l')
  {
    var t := FranklyText;
    forall j | 20 <= j && j + 2 < |t| ensures !(t[j] == 's' && t[j + 1] == 'a' && t[j + 2] == 'l') {
      IndexCases(j);
    }
  }

  lemma FranklyLacksSalary()
    ensures !Search(FranklyText, WholeWord("salary"))
  {
    var t := FranklyText;
    FranklyHeadSalLow();
    FranklyHeadSalHigh();
    NoMatchByHead(t, WholeWord("salary"));
  }

  lemma FranklyNoPay()
    ensures !RuleMatches(FranklyText, Rules[4])
  {
    FranklyLacksBasicPay();
    FranklyLacksMonthlyRate();
    FranklyLacksGrossSalary();
    FranklyLacksRemuneration();
    FranklyLacksHourlyRate();
    FranklyLacksCompensation();
    FranklyLacksSalary();
    NoPayPattern(FranklyText);
  }

  lemma FranklyLacksAllowance()
    ensures !Search(FranklyText, Literal("allowance"))
  {
    FranklyAlphabet();
    NoMatchOutside(FranklyText, Literal("allowance"), 4, FranklyLetters);
  }

  lemma FranklyLacksThirteenthMonth()
    ensures !Search(FranklyText, Literal("13th month"))
  {
    FranklyAlphabet();
    NoMatchOutside(FranklyText, Literal("13th month"), 0, FranklyLetters);
  }

  lemma FranklyLacksHmo()
    ensures !Search(FranklyText, Literal("hmo"))
  {
    FranklyAlphabet();
    NoMatchOutside(FranklyText, Literal("hmo"), 1, FranklyLetters);
  }

  lemma FranklyLacksIncentives()
    ensures !Search(FranklyText, Literal("incentives"))
  {
    FranklyAlphabet();
    NoMatchOutside(FranklyText, Literal("incentives"), 2, FranklyLetters);
  }

  lemma FranklyHeadSssLow()
    ensures forall j | 0 <= j < 20 && j + 2 < |FranklyText| ::
      !(FranklyText[j] == 's' && FranklyText[j + 1] == 's' && FranklyText[j + 2] == 's')
  {
    var t := FranklyText;
    forall j | 0 <= j < 20 && j + 2 < |t| ensures !(t[j] == 's' && t[j + 1] == 's' && t[j + 2] == 's') {
      IndexCases(j);
    }
  }

  lemma FranklyHeadSssHigh()
    ensures forall j | 20 <= j && j + 2 < |FranklyText| ::
      !(FranklyText[j] == 's' && FranklyText[j + 1] == 's' && FranklyText[j + 2] == 's')
  {
    var t := FranklyText;
    forall j | 20 <= j && j + 2 < |t| ensures !(t[j] == 's' && t[j + 1] == 's' && t[j + 2] == 's') {
      IndexCases(j);
    }
  }

  lemma FranklyLacksSss()
    ensures !Search(FranklyText, Literal("sss"))
  {
    var t := FranklyText;
    FranklyHeadSssLow();
    FranklyHeadSssHigh();
    NoMatchByHead(t, Literal("sss"));
  }

  lemma FranklyLacksPhilhealth()
    ensures !Search(FranklyText, Literal("philhealth"))
  {
    FranklyAlphabet();
    NoMatchOutside(FranklyText, Literal("philhealth"), 0, FranklyLetters);
  }

  lemma FranklyLacksPagIbig()
    ensures !Search(FranklyText, Literal("pag-ibig"))
  {
    FranklyAlphabet();
    NoMatchOutside(FranklyText, Literal("pag-ibig"), 0, FranklyLetters);
  }

  lemma FranklyLacksInsurance()
    ensures !Search(FranklyText, Literal("insurance"))
  {
    FranklyAlphabet();
    NoMatchOutside(FranklyText, Literal("insurance"), 3, FranklyLetters);
  }

  lemma FranklyLacksBenefits()
    ensures !Search(FranklyText, Literal("benefits"))
  {
    FranklyAlphabet();
    NoMatchOutside(FranklyText, Literal("benefits"), 0, FranklyLetters);
  }

  lemma FranklyNoBenefits()
    ensures !RuleMatches(FranklyText, Rules[5])
  {
    FranklyLacksAllowance();
    FranklyLacksThirteenthMonth();
    FranklyLacksHmo();
    FranklyLacksIncentives();
    FranklyLacksSss();
    FranklyLacksPhilhealth();
    FranklyLacksPagIbig();
    FranklyLacksInsurance();
    FranklyLacksBenefits();
    NoBenefitsPattern(FranklyText);
  }

  lemma FranklyLacksConfidentiality()
    ensures !Search(FranklyText, Literal("confidentiality"))
  {
    FranklyAlphabet();
    NoMatchOutside(FranklyText, Literal("confidentiality"), 0, FranklyLetters);
  }

  lemma FranklyLacksNonDisclosure()
    ensures !Search(FranklyText, Literal("non-disclosure"))
  {
    FranklyAlphabet();
    NoMatchOutside(FranklyText, Literal("non-disclosure"), 3, FranklyLetters);
  }

  lemma FranklyLacksDataPrivacy()
    ensures !Search(FranklyText, Literal("data privacy"))
  {
    FranklyAlphabet();
    NoMatchOutside(FranklyText, Literal("data privacy"), 5, FranklyLetters);
  }

  lemma FranklyLacksProprietary()
    ensures !Search(FranklyText, Literal("proprietary"))
  {
    FranklyAlphabet();
    NoMatchOutside(FranklyText, Literal("proprietary"), 0, FranklyLetters);
  }

  lemma FranklyLacksIntellectualProperty()
    ensures !Search(FranklyText, Literal("intellectual property"))
  {
    FranklyAlphabet();
    NoMatchOutside(FranklyText, Literal("intellectual property"), 7, FranklyLetters);
  }

  lemma FranklyNoConfidentiality()
    ensures !RuleMatches(FranklyText, Rules[6])
  {
    FranklyLacksConfidentiality();
    FranklyLacksNonDisclosure();
    FranklyLacksDataPrivacy();
    FranklyLacksProprietary();
    FranklyLacksIntellectualProperty();
    NoConfidentialityPattern(FranklyText);
  }

  lemma FranklyHeadResLow()
    ensures forall j | 0 <= j < 20 && j + 2 < |FranklyText| ::
      !(FranklyText[j] == 'r' && FranklyText[j + 1] == 'e' && FranklyText[j + 2] == 's')
  {
    var t := FranklyText;
    forall j | 0 <= j < 20 && j + 2 < |t| ensures !(t[j] == 'r' && t[j + 1] == 'e' && t[j + 2] == 's') {
      IndexCases(j);
    }
  }

  lemma FranklyHeadResHigh()
    ensures forall j | 20 <= j && j + 2 < |FranklyText| ::
      !(FranklyText[j] == 'r' && FranklyText[j + 1] == 'e' && FranklyText[j + 2] == 's')
  {
    var t := FranklyText;
    forall j | 20 <= j && j + 2 < |t| ensures !(t[j] == 'r' && t[j + 1] == 'e' && t[j + 2] == 's') {
      IndexCases(j);
    }
  }

  lemma FranklyLacksResignation()
    ensures !Search(FranklyText, Literal("resignation"))
  {
    var t := FranklyText;
    FranklyHeadResLow();
    FranklyHeadResHigh();
    NoMatchByHead(t, Literal("resignation"));
  }

  lemma FranklyLacksTermination()
    ensures !Search(FranklyText, Literal("termination"))
  {
    FranklyAlphabet();
    NoMatchOutside(FranklyText, Literal("termination"), 3, FranklyLetters);
  }

  lemma FranklyLacksNoticePeriod()
    ensures !Search(FranklyText, Literal("notice period"))
  {
    FranklyAlphabet();
    NoMatchOutside(FranklyText, Literal("notice period"), 4, FranklyLetters);
  }

  lemma FranklyLacksBreach()
    ensures !Search(FranklyText, Literal("breach"))
  {
    FranklyAlphabet();
    NoMatchOutside(FranklyText, Literal("breach"), 0, FranklyLetters);
  }

  lemma FranklyLacksSeparation()
    ensures !Search(FranklyText, Literal("separation"))
  {
    FranklyAlphabet();
    NoMatchOutside(FranklyText, Literal("separation"), 2, FranklyLetters);
  }

  lemma FranklyLacksEndOfContract()
    ensures !Search(FranklyText, Literal("end of contract"))
  {
    FranklyAlphabet();
    NoMatchOutside(FranklyText, Literal("end of contract"), 7, FranklyLetters);
  }

  lemma FranklyNoTermination()
    ensures !RuleMatches(FranklyText, Rules[7])
  {
    FranklyLacksResignation();
    FranklyLacksTermination();
    FranklyLacksNoticePeriod();
    FranklyLacksBreach();
    FranklyLacksSeparation();
    FranklyLacksEndOfContract();
    NoTerminationPattern(FranklyText);
  }

  lemma FranklyHeadSigLow()
    ensures forall j | 0 <= j < 20 && j + 2 < |FranklyText| ::
      !(FranklyText[j] == 's' && FranklyText[j + 1] == 'i' && FranklyText[j + 2] == 'g')
  {
    var t := FranklyText;
    forall j | 0 <= j < 20 && j + 2 < |t| ensures !(t[j] == 's' && t[j + 1] == 'i' && t[j + 2] == 'g') {
      IndexCases(j);
    }
  }

  lemma FranklyHeadSigHigh()
    ensures forall j | 20 <= j && j + 2 < |FranklyText| ::
      !(FranklyText[j] == 's' && FranklyText[j + 1] == 'i' && FranklyText[j + 2] == 'g')
  {
    var t := FranklyText;
    forall j | 20 <= j && j + 2 < |t| ensures !(t[j] == 's' && t[j + 1] == 'i' && t[j + 2] == 'g') {
      IndexCases(j);
    }
  }

  lemma FranklyLacksSigned()
    ensures !Search(FranklyText, Literal("signed"))
  {
    var t := FranklyText;
    FranklyHeadSigLow();
    FranklyHeadSigHigh();
    NoMatchByHead(t, Literal("signed"));
  }

  lemma FranklyLacksWitness()
    ensures !Search(FranklyText, Literal("witness"))
  {
    FranklyAlphabet();
    NoMatchOutside(FranklyText, Literal("witness"), 0, FranklyLetters);
  }

  lemma FranklyLacksConforme()
    ensures !Search(FranklyText, Literal("conforme"))
  {
    FranklyAlphabet();
    NoMatchOutside(FranklyText, Literal("conforme"), 0, FranklyLetters);
  }

  lemma FranklyLacksAcceptedBy()
    ensures !Search(FranklyText, Literal("accepted by"))
  {
    FranklyAlphabet();
    NoMatchOutside(FranklyText, Literal("accepted by"), 1, FranklyLetters);
  }

  lemma FranklyLacksSignature()
    ensures !Search(FranklyText, Literal("signature"))
  {
    FranklyAlphabet();
    NoMatchOutside(FranklyText, Literal("signature"), 6, FranklyLetters);
  }

  lemma FranklyNoSignature()
    ensures !RuleMatches(FranklyText, Rules[8])
  {
    FranklyLacksSigned();
    FranklyLacksWitness();
    FranklyLacksConforme();
    FranklyLacksAcceptedBy();
    FranklyLacksSignature();
    NoSignaturePattern(FranklyText);
  }

  /** Neither header, role nor duration patterns occur. */
  lemma FranklyNoEarlyRule()
    ensures forall s | Rank(s) < 3 :: !RuleMatches(FranklyText, Rules[Rank(s)])
  {
    forall s | Rank(s) < 3 ensures !RuleMatches(FranklyText, Rules[Rank(s)]) {
      if s == H { FranklyNoHeader(); }
      else if s == R { FranklyNoRole(); }
      else { FranklyNoDuration(); }
    }
  }

  /** Neither scope, pay nor benefits patterns occur. */
  lemma FranklyNoMiddleRule()
    ensures forall s | 3 <= Rank(s) < 6 :: !RuleMatches(FranklyText, Rules[Rank(s)])
  {
    forall s | 3 <= Rank(s) < 6 ensures !RuleMatches(FranklyText, Rules[Rank(s)]) {
      if s == S { FranklyNoScope(); }
      else if s == C { FranklyNoPay(); }
      else { FranklyNoBenefits(); }
    }
  }

  /** Neither confidentiality, termination nor signature patterns occur. */
  lemma FranklyNoLateRule()
    ensures forall s | 6 <= Rank(s) :: !RuleMatches(FranklyText, Rules[Rank(s)])
  {
    forall s | 6 <= Rank(s) ensures !RuleMatches(FranklyText, Rules[Rank(s)]) {
      if s == F { FranklyNoConfidentiality(); }
      else if s == T { FranklyNoTermination(); }
      else { FranklyNoSignature(); }
    }
  }

  /** "rank" hides inside "Frankly", but not as a whole word: the line has no symbol. */
  lemma FranklyHasNoSymbol()
    ensures GetSymbol(FranklyLine) == None
  {
    FranklyNormalized();
    FranklySearchedWhole();
    FranklyNoEarlyRule();
    FranklyNoMiddleRule();
    FranklyNoLateRule();
    NoSymbolFound(FranklyLine, FranklyText);
  }

  // ---------------------------------------------------------------- "The Position is Junior Dev"

  const PositionLine: string := "The Position is Junior Dev"
  const PositionText: string := "the position is junior dev"

  lemma PositionAgrees1()
    ensures forall i | 0 <= i < 10 :: i == 0 || i == 4 || PositionLine[i] == PositionText[i]
  {
    var line, t := PositionLine, PositionText;
    forall i | 0 <= i < 10 ensures i == 0 || i == 4 || line[i] == t[i] {
      assert i == 0 || i == 1 || i == 2 || i == 3 || i == 4 || i == 5 || i == 6 || i == 7 || i == 8 || i == 9;
    }
  }

  lemma PositionAgrees2()
    ensures forall i | 10 <= i < 20 :: i == 16 || PositionLine[i] == PositionText[i]
  {
    var line, t := PositionLine, PositionText;
    forall i | 10 <= i < 20 ensures i == 16 || line[i] == t[i] {
      assert i == 10 || i == 11 || i == 12 || i == 13 || i == 14 || i == 15 || i == 16 || i == 17 || i == 18 || i == 19;
    }
  }

  lemma PositionAgrees3()
    ensures forall i | 20 <= i < 26 :: i == 23 || PositionLine[i] == PositionText[i]
  {
    var line, t := PositionLine, PositionText;
    forall i | 20 <= i < 26 ensures i == 23 || line[i] == t[i] {
      assert i == 20 || i == 21 || i == 22 || i == 23 || i == 24 || i == 25;
    }
  }

  /** Line and text agree except where the line has a capital letter. */
  lemma PositionAgrees()
    ensures forall i | 0 <= i < |PositionLine| :: i == 0 || i == 4 || i == 16 || i == 23 || PositionLine[i] == PositionText[i]
  {
    assert |PositionLine| == 26;
    PositionAgrees1();
    PositionAgrees2();
    PositionAgrees3();
  }

  /** The characters PositionText is made of. */
  const PositionLetters: set<char> := {' ', 'd', 'e', 'h', 'i', 'j', 'n', 'o', 'p', 'r', 's', 't', 'u', 'v'}

  lemma PositionAlphabet()
    ensures forall i | 0 <= i < |PositionText| :: PositionText[i] in PositionLetters
  {
    var t := PositionText;
    forall i | 0 <= i < |t| ensures t[i] in PositionLetters {
      IndexCases(i);
    }
  }


  lemma PositionNormalized()
    ensures Normalize(PositionLine) == PositionText
  {
    PositionAgrees();
    PositionAlphabet();
    NormalizeTo(PositionLine, PositionText, {0, 4, 16, 23}, PositionLetters);
  }

  lemma PositionSearchedWhole()
    ensures SearchText(PositionText) == PositionText
  {
    WordsBound(PositionText);
  }

  lemma PositionLacksEmploymentAgreement()
    ensures !Search(PositionText, Literal("employment agreement"))
  {
    PositionAlphabet();
    NoMatchOutside(PositionText, Literal("employment agreement"), 1, PositionLetters);
  }

  lemma PositionLacksContractOfEmployment()
    ensures !Search(PositionText, Literal("contract of employment"))
  {
    PositionAlphabet();
    NoMatchOutside(PositionText, Literal("contract of employment"), 0, PositionLetters);
  }

  lemma PositionLacksKnowAllMen()
    ensures !Search(PositionText, Literal("know all men"))
  {
    PositionAlphabet();
    NoMatchOutside(PositionText, Literal("know all men"), 0, PositionLetters);
  }

  lemma PositionLacksServiceAgreement()
    ensures !Search(PositionText, Literal("service agreement"))
  {
    PositionAlphabet();
    NoMatchOutside(PositionText, Literal("service agreement"), 5, PositionLetters);
  }

  lemma PositionLacksLetterOfOffer()
    ensures !Search(PositionText, Literal("letter of offer"))
  {
    PositionAlphabet();
    NoMatchOutside(PositionText, Literal("letter of offer"), 0, PositionLetters);
  }

  lemma PositionNoHeader()
    ensures !RuleMatches(PositionText, Rules[0])
  {
    PositionLacksEmploymentAgreement();
    PositionLacksContractOfEmployment();
    PositionLacksKnowAllMen();
    PositionLacksServiceAgreement();
    PositionLacksLetterOfOffer();
    NoHeaderPattern(PositionText);
  }

  lemma PositionSpellsPosition()
    ensures forall k | 0 <= k < 8 :: PositionText[4 + k] == "position"[k]
  {
    var t := PositionText;
    forall k | 0 <= k < 8 ensures t[4 + k] == "position"[k] {
      assert k == 0 || k == 1 || k == 2 || k == 3 || k == 4 || k == 5 || k == 6 || k == 7;
    }
  }

  lemma PositionHasPosition()
    ensures Search(PositionText, Literal("position"))
  {
    PositionSpellsPosition();
    FoundAt(PositionText, Literal("position"), 4);
  }

  lemma PositionFindsRole()
    ensures RuleMatches(PositionText, Rules[1])
  {
    PositionHasPosition();
    PositionMatchesRule(PositionText);
  }

  /** No rule tried before the one that matches finds anything. */
  lemma PositionNoEarlierRule()
    ensures forall s | Rank(s) < 1 :: !RuleMatches(PositionText, Rules[Rank(s)])
  {
    forall s | Rank(s) < 1 ensures !RuleMatches(PositionText, Rules[Rank(s)]) {
      PositionNoHeader();
    }
  }

  /** A line naming the position is a role line. */
  lemma PositionIsRole()
    ensures GetSymbol(PositionLine) == Some(R)
  {
    PositionNormalized();
    PositionSearchedWhole();
    PositionFindsRole();
    PositionNoEarlierRule();
    SymbolFound(PositionLine, PositionText, R);
  }

  // ---------------------------------------------------------------- "This contract has a long term duration."

  const TermLine: string := "This contract has a long term duration."
  const TermText: string := "this contract has a long term duration."

  lemma TermAgrees1()
    ensures forall i | 0 <= i < 10 :: i == 0 || TermLine[i] == TermText[i]
  {
    var line, t := TermLine, TermText;
    forall i | 0 <= i < 10 ensures i == 0 || line[i] == t[i] {
      assert i == 0 || i == 1 || i == 2 || i == 3 || i == 4 || i == 5 || i == 6 || i == 7 || i == 8 || i == 9;
    }
  }

  lemma TermAgrees2()
    ensures forall i | 10 <= i < 20 :: TermLine[i] == TermText[i]
  {
    var line, t := TermLine, TermText;
    forall i | 10 <= i < 20 ensures line[i] == t[i] {
      assert i == 10 || i == 11 || i == 12 || i == 13 || i == 14 || i == 15 || i == 16 || i == 17 || i == 18 || i == 19;
    }
  }

  lemma TermAgrees3()
    ensures forall i | 20 <= i < 30 :: TermLine[i] == TermText[i]
  {
    var line, t := TermLine, TermText;
    forall i | 20 <= i < 30 ensures line[i] == t[i] {
      assert i == 20 || i == 21 || i == 22 || i == 23 || i == 24 || i == 25 || i == 26 || i == 27 || i == 28 || i == 29;
    }
  }

  lemma TermAgrees4()
    ensures forall i | 30 <= i < 39 :: TermLine[i] == TermText[i]
  {
    var line, t := TermLine, TermText;
    forall i | 30 <= i < 39 ensures line[i] == t[i] {
      assert i == 30 || i == 31 || i == 32 || i == 33 || i == 34 || i == 35 || i == 36 || i == 37 || i == 38;
    }
  }

  /** Line and text agree except where the line has a capital letter. */
  lemma TermAgrees()
    ensures forall i | 0 <= i < |TermLine| :: i == 0 || TermLine[i] == TermText[i]
  {
    assert |TermLine| == 39;
    TermAgrees1();
    TermAgrees2();
    TermAgrees3();
    TermAgrees4();
  }

  /** The characters TermText is made of. */
  const TermLetters: set<char> := {' ', '.', 'a', 'c', 'd', 'e', 'g', 'h', 'i', 'l', 'm', 'n', 'o', 'r', 's', 't', 'u'}

  lemma TermAlphabet()
    ensures forall i | 0 <= i < |TermText| :: TermText[i] in TermLetters
  {
    var t := TermText;
    forall i | 0 <= i < |t| ensures t[i] in TermLetters {
      IndexCases(i);
    }
  }


  lemma TermNormalized()
    ensures Normalize(TermLine) == TermText
  {
    TermAgrees();
    TermAlphabet();
    NormalizeTo(TermLine, TermText, {0}, TermLetters);
  }

  lemma TermSearchedWhole()
    ensures SearchText(TermText) == TermText
  {
    WordsAtMost(TermText, 4, 2, 17);
  }

  lemma TermLacksEmploymentAgreement()
    ensures !Search(TermText, Literal("employment agreement"))
  {
    TermAlphabet();
    NoMatchOutside(TermText, Literal("employment agreement"), 2, TermLetters);
  }

  lemma TermLacksContractOfEmployment()
    ensures !Search(TermText, Literal("contract of employment"))
  {
    TermAlphabet();
    NoMatchOutside(TermText, Literal("contract of employment"), 10, TermLetters);
  }

  lemma TermLacksKnowAllMen()
    ensures !Search(TermText, Literal("know all men"))
  {
    TermAlphabet();
    NoMatchOutside(TermText, Literal("know all men"), 0, TermLetters);
  }

  lemma TermLacksServiceAgreement()
    ensures !Search(TermText, Literal("service agreement"))
  {
    TermAlphabet();
    NoMatchOutside(TermText, Literal("service agreement"), 3, TermLetters);
  }

  lemma TermLacksLetterOfOffer()
    ensures !Search(TermText, Literal("letter of offer"))
  {
    TermAlphabet();
    NoMatchOutside(TermText, Literal("letter of offer"), 8, TermLetters);
  }

  lemma TermNoHeader()
    ensures !RuleMatches(TermText, Rules[0])
  {
    TermLacksEmploymentAgreement();
    TermLacksContractOfEmployment();
    TermLacksKnowAllMen();
    TermLacksServiceAgreement();
    TermLacksLetterOfOffer();
    NoHeaderPattern(TermText);
  }

  lemma TermLacksPosition()
    ensures !Search(TermText, Literal("position"))
  {
    TermAlphabet();
    NoMatchOutside(TermText, Literal("position"), 0, TermLetters);
  }

  lemma TermLacksJobTitle()
    ensures !Search(TermText, Literal("job title"))
  {
    TermAlphabet();
    NoMatchOutside(TermText, Literal("job title"), 0, TermLetters);
  }

  lemma TermHeadDesLow()
    ensures forall j | 0 <= j < 20 && j + 2 < |TermText| ::
      !(TermText[j] == 'd' && TermText[j + 1] == 'e' && TermText[j + 2] == 's')
  {
    var t := TermText;
    forall j | 0 <= j < 20 && j + 2 < |t| ensures !(t[j] == 'd' && t[j + 1] == 'e' && t[j + 2] == 's') {
      IndexCases(j);
    }
  }

  lemma TermHeadDesHigh()
    ensures forall j | 20 <= j && j + 2 < |TermText| ::
      !(TermText[j] == 'd' && TermText[j + 1] == 'e' && TermText[j + 2] == 's')
  {
    var t := TermText;
    forall j | 20 <= j && j + 2 < |t| ensures !(t[j] == 'd' && t[j + 1] == 'e' && t[j + 2] == 's') {
      IndexCases(j);
    }
  }

  lemma TermLacksDesignation()
    ensures !Search(TermText, Literal("designation"))
  {
    var t := TermText;
    TermHeadDesLow();
    TermHeadDesHigh();
    NoMatchByHead(t, Literal("designation"));
  }

  lemma TermHeadHirLow()
    ensures forall j | 0 <= j < 20 && j + 2 < |TermText| ::
      !(TermText[j] == 'h' && TermText[j + 1] == 'i' && TermText[j + 2] == 'r')
  {
    var t := TermText;
    forall j | 0 <= j < 20 && j + 2 < |t| ensures !(t[j] == 'h' && t[j + 1] == 'i' && t[j + 2] == 'r') {
      IndexCases(j);
    }
  }

  lemma TermHeadHirHigh()
    ensures forall j | 20 <= j && j + 2 < |TermText| ::
      !(TermText[j] == 'h' && TermText[j + 1] == 'i' && TermText[j + 2] == 'r')
  {
    var t := TermText;
    forall j | 20 <= j && j + 2 < |t| ensures !(t[j] == 'h' && t[j + 1] == 'i' && t[j + 2] == 'r') {
      IndexCases(j);
    }
  }

  lemma TermLacksHiredAs()
    ensures !Search(TermText, Literal("hired as"))
  {
    var t := TermText;
    TermHeadHirLow();
    TermHeadHirHigh();
    NoMatchByHead(t, Literal("hired as"));
  }

  lemma TermLacksRank()
    ensures !Search(TermText, WholeWord("rank"))
  {
    TermAlphabet();
    NoMatchOutside(TermText, WholeWord("rank"), 3, TermLetters);
  }

  lemma TermNoRole()
    ensures !RuleMatches(TermText, Rules[1])
  {
    TermLacksPosition();
    TermLacksJobTitle();
    TermLacksDesignation();
    TermLacksHiredAs();
    TermLacksRank();
    NoRolePattern(TermText);
  }

  lemma TermSpellsDuration()
    ensures forall k | 0 <= k < 8 :: TermText[30 + k] == "duration"[k]
  {
    var t := TermText;
    forall k | 0 <= k < 8 ensures t[30 + k] == "duration"[k] {
      assert k == 0 || k == 1 || k == 2 || k == 3 || k == 4 || k == 5 || k == 6 || k == 7;
    }
  }

  lemma TermBoundsDuration()
    ensures TermText[29] == ' '
    ensures TermText[38] == '.'
  {
    var t := TermText;
    assert t[29] == ' ';
    assert t[38] == '.';
  }

  lemma TermHasDuration()
    ensures Search(TermText, WholeWord("duration"))
  {
    TermSpellsDuration();
    TermBoundsDuration();
    FoundAt(TermText, WholeWord("duration"), 30);
  }

  lemma TermFindsDuration()
    ensures RuleMatches(TermText, Rules[2])
  {
    TermHasDuration();
    DurationMatchesRule(TermText);
  }

  /** No rule tried before the one that matches finds anything. */
  lemma TermNoEarlierRule()
    ensures forall s | Rank(s) < 2 :: !RuleMatches(TermText, Rules[Rank(s)])
  {
    forall s | Rank(s) < 2 ensures !RuleMatches(TermText, Rules[Rank(s)]) {
      if s == H { TermNoHeader(); }
      else { TermNoRole(); }
    }
  }

  /** "duration" as a whole word makes a duration line. */
  lemma TermIsDuration()
    ensures GetSymbol(TermLine) == Some(D)
  {
    TermNormalized();
    TermSearchedWhole();
    TermFindsDuration();
    TermNoEarlierRule();
    SymbolFound(TermLine, TermText, D);
  }

  // ---------------------------------------------------------------- "He holds the rank of supervisor."

  const RankLine: string := "He holds the rank of supervisor."
  const RankText: string := "he holds the rank of supervisor."

  lemma RankAgrees1()
    ensures forall i | 0 <= i < 10 :: i == 0 || RankLine[i] == RankText[i]
  {
    var line, t := RankLine, RankText;
    forall i | 0 <= i < 10 ensures i == 0 || line[i] == t[i] {
      assert i == 0 || i == 1 || i == 2 || i == 3 || i == 4 || i == 5 || i == 6 || i == 7 || i == 8 || i == 9;
    }
  }

  lemma RankAgrees2()
    ensures forall i | 10 <= i < 20 :: RankLine[i] == RankText[i]
  {
    var line, t := RankLine, RankText;
    forall i | 10 <= i < 20 ensures line[i] == t[i] {
      assert i == 10 || i == 11 || i == 12 || i == 13 || i == 14 || i == 15 || i == 16 || i == 17 || i == 18 || i == 19;
    }
  }

  lemma RankAgrees3()
    ensures forall i | 20 <= i < 30 :: RankLine[i] == RankText[i]
  {
    var line, t := RankLine, RankText;
    forall i | 20 <= i < 30 ensures line[i] == t[i] {
      assert i == 20 || i == 21 || i == 22 || i == 23 || i == 24 || i == 25 || i == 26 || i == 27 || i == 28 || i == 29;
    }
  }

  lemma RankAgrees4()
    ensures forall i | 30 <= i < 32 :: RankLine[i] == RankText[i]
  {
    var line, t := RankLine, RankText;
    forall i | 30 <= i < 32 ensures line[i] == t[i] {
      assert i == 30 || i == 31;
    }
  }

  /** Line and text agree except where the line has a capital letter. */
  lemma RankAgrees()
    ensures forall i | 0 <= i < |RankLine| :: i == 0 || RankLine[i] == RankText[i]
  {
    assert |RankLine| == 32;
    RankAgrees1();
    RankAgrees2();
    RankAgrees3();
    RankAgrees4();
  }

  /** The characters RankText is made of. */
  const RankLetters: set<char> := {' ', '.', 'a', 'd', 'e', 'f', 'h', 'i', 'k', 'l', 'n', 'o', 'p', 'r', 's', 't', 'u', 'v'}

  lemma RankAlphabet()
    ensures forall i | 0 <= i < |RankText| :: RankText[i] in RankLetters
  {
    var t := RankText;
    forall i | 0 <= i < |t| ensures t[i] in RankLetters {
      IndexCases(i);
    }
  }


  lemma RankNormalized()
    ensures Normalize(RankLine) == RankText
  {
    RankAgrees();
    RankAlphabet();
    NormalizeTo(RankLine, RankText, {0}, RankLetters);
  }

  lemma RankSearchedWhole()
    ensures SearchText(RankText) == RankText
  {
    WordsBound(RankText);
  }

  lemma RankLacksEmploymentAgreement()
    ensures !Search(RankText, Literal("employment agreement"))
  {
    RankAlphabet();
    NoMatchOutside(RankText, Literal("employment agreement"), 1, RankLetters);
  }

  lemma RankLacksContractOfEmployment()
    ensures !Search(RankText, Literal("contract of employment"))
  {
    RankAlphabet();
    NoMatchOutside(RankText, Literal("contract of employment"), 0, RankLetters);
  }

  lemma RankLacksKnowAllMen()
    ensures !Search(RankText, Literal("know all men"))
  {
    RankAlphabet();
    NoMatchOutside(RankText, Literal("know all men"), 3, RankLetters);
  }

  lemma RankLacksServiceAgreement()
    ensures !Search(RankText, Literal("service agreement"))
  {
    RankAlphabet();
    NoMatchOutside(RankText, Literal("service agreement"), 5, RankLetters);
  }

  lemma RankHeadLetLow()
    ensures forall j | 0 <= j < 20 && j + 2 < |RankText| ::
      !(RankText[j] == 'l' && RankText[j + 1] == 'e' && RankText[j + 2] == 't')
  {
    var t := RankText;
    forall j | 0 <= j < 20 && j + 2 < |t| ensures !(t[j] == 'l' && t[j + 1] == 'e' && t[j + 2] == 't') {
      IndexCases(j);
    }
  }

  lemma RankHeadLetHigh()
    ensures forall j | 20 <= j && j + 2 < |RankText| ::
      !(RankText[j] == 'l' && RankText[j + 1] == 'e' && RankText[j + 2] == 't')
  {
    var t := RankText;
    forall j | 20 <= j && j + 2 < |t| ensures !(t[j] == 'l' && t[j + 1] == 'e' && t[j + 2] == 't') {
      IndexCases(j);
    }
  }

  lemma RankLacksLetterOfOffer()
    ensures !Search(RankText, Literal("letter of offer"))
  {
    var t := RankText;
    RankHeadLetLow();
    RankHeadLetHigh();
    NoMatchByHead(t, Literal("letter of offer"));
  }

  lemma RankNoHeader()
    ensures !RuleMatches(RankText, Rules[0])
  {
    RankLacksEmploymentAgreement();
    RankLacksContractOfEmployment();
    RankLacksKnowAllMen();
    RankLacksServiceAgreement();
    RankLacksLetterOfOffer();
    NoHeaderPattern(RankText);
  }

  lemma RankSpellsRank()
    ensures forall k | 0 <= k < 4 :: RankText[13 + k] == "rank"[k]
  {
    var t := RankText;
    forall k | 0 <= k < 4 ensures t[13 + k] == "rank"[k] {
      assert k == 0 || k == 1 || k == 2 || k == 3;
    }
  }

  lemma RankBoundsRank()
    ensures RankText[12] == ' '
    ensures RankText[17] == ' '
  {
    var t := RankText;
    assert t[12] == ' ';
    assert t[17] == ' ';
  }

  lemma RankHasRank()
    ensures Search(RankText, WholeWord("rank"))
  {
    RankSpellsRank();
    RankBoundsRank();
    FoundAt(RankText, WholeWord("rank"), 13);
  }

  lemma RankFindsRole()
    ensures RuleMatches(RankText, Rules[1])
  {
    RankHasRank();
    RankMatchesRule(RankText);
  }

  /** No rule tried before the one that matches finds anything. */
  lemma RankNoEarlierRule()
    ensures forall s | Rank(s) < 1 :: !RuleMatches(RankText, Rules[Rank(s)])
  {
    forall s | Rank(s) < 1 ensures !RuleMatches(RankText, Rules[Rank(s)]) {
      RankNoHeader();
    }
  }

  /** "rank" as a whole word makes a role line. */
  lemma RankIsRole()
    ensures GetSymbol(RankLine) == Some(R)
  {
    RankNormalized();
    RankSearchedWhole();
    RankFindsRole();
    RankNoEarlierRule();
    SymbolFound(RankLine, RankText, R);
  }

  // ---------------------------------------------------------------- "Employment Agreement and salary"

  const PriorityLine: string := "Employment Agreement and salary"
  const PriorityText: string := "employment agreement and salary"

  lemma PriorityAgrees1()
    ensures forall i | 0 <= i < 10 :: i == 0 || PriorityLine[i] == PriorityText[i]
  {
    var line, t := PriorityLine, PriorityText;
    forall i | 0 <= i < 10 ensures i == 0 || line[i] == t[i] {
      assert i == 0 || i == 1 || i == 2 || i == 3 || i == 4 || i == 5 || i == 6 || i == 7 || i == 8 || i == 9;
    }
  }

  lemma PriorityAgrees2()
    ensures forall i | 10 <= i < 20 :: i == 11 || PriorityLine[i] == PriorityText[i]
  {
    var line, t := PriorityLine, PriorityText;
    forall i | 10 <= i < 20 ensures i == 11 || line[i] == t[i] {
      assert i == 10 || i == 11 || i == 12 || i == 13 || i == 14 || i == 15 || i == 16 || i == 17 || i == 18 || i == 19;
    }
  }

  lemma PriorityAgrees3()
    ensures forall i | 20 <= i < 30 :: PriorityLine[i] == PriorityText[i]
  {
    var line, t := PriorityLine, PriorityText;
    forall i | 20 <= i < 30 ensures line[i] == t[i] {
      assert i == 20 || i == 21 || i == 22 || i == 23 || i == 24 || i == 25 || i == 26 || i == 27 || i == 28 || i == 29;
    }
  }

  lemma PriorityAgrees4()
    ensures forall i | 30 <= i < 31 :: PriorityLine[i] == PriorityText[i]
  {
    var line, t := PriorityLine, PriorityText;
    forall i | 30 <= i < 31 ensures line[i] == t[i] {
      assert i == 30;
    }
  }

  /** Line and text agree except where the line has a capital letter. */
  lemma PriorityAgrees()
    ensures forall i | 0 <= i < |PriorityLine| :: i == 0 || i == 11 || PriorityLine[i] == PriorityText[i]
  {
    assert |PriorityLine| == 31;
    PriorityAgrees1();
    PriorityAgrees2();
    PriorityAgrees3();
    PriorityAgrees4();
  }

  /** The characters PriorityText is made of. */
  const PriorityLetters: set<char> := {' ', 'a', 'd', 'e', 'g', 'l', 'm', 'n', 'o', 'p', 'r', 's', 't', 'y'}

  lemma PriorityAlphabet()
    ensures forall i | 0 <= i < |PriorityText| :: PriorityText[i] in PriorityLetters
  {
    var t := PriorityText;
    forall i | 0 <= i < |t| ensures t[i] in PriorityLetters {
      IndexCases(i);
    }
  }


  lemma PriorityNormalized()
    ensures Normalize(PriorityLine) == PriorityText
  {
    PriorityAgrees();
    PriorityAlphabet();
    NormalizeTo(PriorityLine, PriorityText, {0, 11}, PriorityLetters);
  }

  lemma PrioritySearchedWhole()
    ensures SearchText(PriorityText) == PriorityText
  {
    WordsBound(PriorityText);
  }

  lemma PrioritySpellsEmploymentAgreement1()
    ensures forall k | 0 <= k < 10 :: PriorityText[0 + k] == "employment agreement"[k]
  {
    var t := PriorityText;
    forall k | 0 <= k < 10 ensures t[0 + k] == "employment agreement"[k] {
      assert k == 0 || k == 1 || k == 2 || k == 3 || k == 4 || k == 5 || k == 6 || k == 7 || k == 8 || k == 9;
    }
  }

  lemma PrioritySpellsEmploymentAgreement2()
    ensures forall k | 10 <= k < 20 :: PriorityText[0 + k] == "employment agreement"[k]
  {
    var t := PriorityText;
    forall k | 10 <= k < 20 ensures t[0 + k] == "employment agreement"[k] {
      assert k == 10 || k == 11 || k == 12 || k == 13 || k == 14 || k == 15 || k == 16 || k == 17 || k == 18 || k == 19;
    }
  }

  lemma PriorityHasEmploymentAgreement()
    ensures Search(PriorityText, Literal("employment agreement"))
  {
    PrioritySpellsEmploymentAgreement1();
    PrioritySpellsEmploymentAgreement2();
    FoundAt(PriorityText, Literal("employment agreement"), 0);
  }

  lemma PriorityFindsHeader()
    ensures RuleMatches(PriorityText, Rules[0])
  {
    PriorityHasEmploymentAgreement();
    EmploymentAgreementMatchesRule(PriorityText);
  }

  lemma PrioritySpellsSalary()
    ensures forall k | 0 <= k < 6 :: PriorityText[25 + k] == "salary"[k]
  {
    var t := PriorityText;
    forall k | 0 <= k < 6 ensures t[25 + k] == "salary"[k] {
      assert k == 0 || k == 1 || k == 2 || k == 3 || k == 4 || k == 5;
    }
  }

  lemma PriorityBoundsSalary()
    ensures PriorityText[24] == ' '
  {
    var t := PriorityText;
    assert t[24] == ' ';
  }

  lemma PriorityHasSalary()
    ensures Search(PriorityText, WholeWord("salary"))
  {
    PrioritySpellsSalary();
    PriorityBoundsSalary();
    FoundAt(PriorityText, WholeWord("salary"), 25);
  }

  lemma PriorityFindsPay()
    ensures RuleMatches(PriorityText, Rules[4])
  {
    PriorityHasSalary();
    SalaryMatchesRule(PriorityText);
  }

  /** A line naming both the agreement and the salary is a header line: the header rule is tried first. */
  lemma PriorityIsHeader()
    ensures GetSymbol(PriorityLine) == Some(H)
    ensures RuleMatches(SearchText(Normalize(PriorityLine)), Rules[Rank(C)])
  {
    PriorityNormalized();
    PrioritySearchedWhole();
    PriorityFindsHeader();
    SymbolFound(PriorityLine, PriorityText, H);
    PriorityFindsPay();
  }

  // ---------------------------------------------------------------- "We need strictly confidential treatment."

  const ConfidentialLine: string := "We need strictly confidential treatment."
  const ConfidentialText: string := "we need strictly confidential treatment."

  lemma ConfidentialAgrees1()
    ensures forall i | 0 <= i < 10 :: i == 0 || ConfidentialLine[i] == ConfidentialText[i]
  {
    var line, t := ConfidentialLine, ConfidentialText;
    forall i | 0 <= i < 10 ensures i == 0 || line[i] == t[i] {
      assert i == 0 || i == 1 || i == 2 || i == 3 || i == 4 || i == 5 || i == 6 || i == 7 || i == 8 || i == 9;
    }
  }

  lemma ConfidentialAgrees2()
    ensures forall i | 10 <= i < 20 :: ConfidentialLine[i] == ConfidentialText[i]
  {
    var line, t := ConfidentialLine, ConfidentialText;
    forall i | 10 <= i < 20 ensures line[i] == t[i] {
      assert i == 10 || i == 11 || i == 12 || i == 13 || i == 14 || i == 15 || i == 16 || i == 17 || i == 18 || i == 19;
    }
  }

  lemma ConfidentialAgrees3()
    ensures forall i | 20 <= i < 30 :: ConfidentialLine[i] == ConfidentialText[i]
  {
    var line, t := ConfidentialLine, ConfidentialText;
    forall i | 20 <= i < 30 ensures line[i] == t[i] {
      assert i == 20 || i == 21 || i == 22 || i == 23 || i == 24 || i == 25 || i == 26 || i == 27 || i == 28 || i == 29;
    }
  }

  lemma ConfidentialAgrees4()
    ensures forall i | 30 <= i < 40 :: ConfidentialLine[i] == ConfidentialText[i]
  {
    var line, t := ConfidentialLine, ConfidentialText;
    forall i | 30 <= i < 40 ensures line[i] == t[i] {
      assert i == 30 || i == 31 || i == 32 || i == 33 || i == 34 || i == 35 || i == 36 || i == 37 || i == 38 || i == 39;
    }
  }

  /** Line and text agree except where the line has a capital letter. */
  lemma ConfidentialAgrees()
    ensures forall i | 0 <= i < |ConfidentialLine| :: i == 0 || ConfidentialLine[i] == ConfidentialText[i]
  {
    assert |ConfidentialLine| == 40;
    ConfidentialAgrees1();
    ConfidentialAgrees2();
    ConfidentialAgrees3();
    ConfidentialAgrees4();
  }

  /** The characters ConfidentialText is made of. */
  const ConfidentialLetters: set<char> := {' ', '.', 'a', 'c', 'd', 'e', 'f', 'i', 'l', 'm', 'n', 'o', 'r', 's', 't', 'w', 'y'}

  lemma ConfidentialAlphabet()
    ensures forall i | 0 <= i < |ConfidentialText| :: ConfidentialText[i] in ConfidentialLetters
  {
    var t := ConfidentialText;
    forall i | 0 <= i < |t| ensures t[i] in ConfidentialLetters {
      IndexCases(i);
    }
  }


  lemma ConfidentialNormalized()
    ensures Normalize(ConfidentialLine) == ConfidentialText
  {
    ConfidentialAgrees();
    ConfidentialAlphabet();
    NormalizeTo(ConfidentialLine, ConfidentialText, {0}, ConfidentialLetters);
  }

  lemma ConfidentialSearchedWhole()
    ensures SearchText(ConfidentialText) == ConfidentialText
  {
    WordsAtMost2(ConfidentialText, 2, 7, 1, 2, 16);
  }

  lemma ConfidentialLacksEmploymentAgreement()
    ensures !Search(ConfidentialText, Literal("employment agreement"))
  {
    ConfidentialAlphabet();
    NoMatchOutside(ConfidentialText, Literal("employment agreement"), 2, ConfidentialLetters);
  }

  lemma ConfidentialLacksContractOfEmployment()
    ensures !Search(ConfidentialText, Literal("contract of employment"))
  {
    ConfidentialAlphabet();
    NoMatchOutside(ConfidentialText, Literal("contract of employment"), 14, ConfidentialLetters);
  }

  lemma ConfidentialLacksKnowAllMen()
    ensures !Search(ConfidentialText, Literal("know all men"))
  {
    ConfidentialAlphabet();
    NoMatchOutside(ConfidentialText, Literal("know all men"), 0, ConfidentialLetters);
  }

  lemma ConfidentialLacksServiceAgreement()
    ensures !Search(ConfidentialText, Literal("service agreement"))
  {
    ConfidentialAlphabet();
    NoMatchOutside(ConfidentialText, Literal("service agreement"), 3, ConfidentialLetters);
  }

  lemma ConfidentialHeadLetLow()
    ensures forall j | 0 <= j < 20 && j + 2 < |ConfidentialText| ::
      !(ConfidentialText[j] == 'l' && ConfidentialText[j + 1] == 'e' && ConfidentialText[j + 2] == 't')
  {
    var t := ConfidentialText;
    forall j | 0 <= j < 20 && j + 2 < |t| ensures !(t[j] == 'l' && t[j + 1] == 'e' && t[j + 2] == 't') {
      IndexCases(j);
    }
  }

  lemma ConfidentialHeadLetHigh()
    ensures forall j | 20 <= j && j + 2 < |ConfidentialText| ::
      !(ConfidentialText[j] == 'l' && ConfidentialText[j + 1] == 'e' && ConfidentialText[j + 2] == 't')
  {
    var t := ConfidentialText;
    forall j | 20 <= j && j + 2 < |t| ensures !(t[j] == 'l' && t[j + 1] == 'e' && t[j + 2] == 't') {
      IndexCases(j);
    }
  }

  lemma ConfidentialLacksLetterOfOffer()
    ensures !Search(ConfidentialText, Literal("letter of offer"))
  {
    var t := ConfidentialText;
    ConfidentialHeadLetLow();
    ConfidentialHeadLetHigh();
    NoMatchByHead(t, Literal("letter of offer"));
  }

  lemma ConfidentialNoHeader()
    ensures !RuleMatches(ConfidentialText, Rules[0])
  {
    ConfidentialLacksEmploymentAgreement();
    ConfidentialLacksContractOfEmployment();
    ConfidentialLacksKnowAllMen();
    ConfidentialLacksServiceAgreement();
    ConfidentialLacksLetterOfOffer();
    NoHeaderPattern(ConfidentialText);
  }

  lemma ConfidentialLacksPosition()
    ensures !Search(ConfidentialText, Literal("position"))
  {
    ConfidentialAlphabet();
    NoMatchOutside(ConfidentialText, Literal("position"), 0, ConfidentialLetters);
  }

  lemma ConfidentialLacksJobTitle()
    ensures !Search(ConfidentialText, Literal("job title"))
  {
    ConfidentialAlphabet();
    NoMatchOutside(ConfidentialText, Literal("job title"), 0, ConfidentialLetters);
  }

  lemma ConfidentialLacksDesignation()
    ensures !Search(ConfidentialText, Literal("designation"))
  {
    ConfidentialAlphabet();
    NoMatchOutside(ConfidentialText, Literal("designation"), 4, ConfidentialLetters);
  }

  lemma ConfidentialLacksHiredAs()
    ensures !Search(ConfidentialText, Literal("hired as"))
  {
    ConfidentialAlphabet();
    NoMatchOutside(ConfidentialText, Literal("hired as"), 0, ConfidentialLetters);
  }

  lemma ConfidentialLacksRank()
    ensures !Search(ConfidentialText, WholeWord("rank"))
  {
    ConfidentialAlphabet();
    NoMatchOutside(ConfidentialText, WholeWord("rank"), 3, ConfidentialLetters);
  }

  lemma ConfidentialNoRole()
    ensures !RuleMatches(ConfidentialText, Rules[1])
  {
    ConfidentialLacksPosition();
    ConfidentialLacksJobTitle();
    ConfidentialLacksDesignation();
    ConfidentialLacksHiredAs();
    ConfidentialLacksRank();
    NoRolePattern(ConfidentialText);
  }

  lemma ConfidentialLacksTermOfEmployment()
    ensures !Search(ConfidentialText, Literal("term of employment"))
  {
    ConfidentialAlphabet();
    NoMatchOutside(ConfidentialText, Literal("term of employment"), 10, ConfidentialLetters);
  }

  lemma ConfidentialLacksEffectiveDate()
    ensures !Search(ConfidentialText, Literal("effective date"))
  {
    ConfidentialAlphabet();
    NoMatchOutside(ConfidentialText, Literal("effective date"), 7, ConfidentialLetters);
  }

  lemma ConfidentialLacksProbationary()
    ensures !Search(ConfidentialText, Literal("probationary"))
  {
    ConfidentialAlphabet();
    NoMatchOutside(ConfidentialText, Literal("probationary"), 0, ConfidentialLetters);
  }

  lemma ConfidentialHeadStaLow()
    ensures forall j | 0 <= j < 20 && j + 2 < |ConfidentialText| ::
      !(ConfidentialText[j] == 's' && ConfidentialText[j + 1] == 't' && ConfidentialText[j + 2] == 'a')
  {
    var t := ConfidentialText;
    forall j | 0 <= j < 20 && j + 2 < |t| ensures !(t[j] == 's' && t[j + 1] == 't' && t[j + 2] == 'a') {
      IndexCases(j);
    }
  }

  lemma ConfidentialHeadStaHigh()
    ensures forall j | 20 <= j && j + 2 < |ConfidentialText| ::
      !(ConfidentialText[j] == 's' && ConfidentialText[j + 1] == 't' && ConfidentialText[j + 2] == 'a')
  {
    var t := ConfidentialText;
    forall j | 20 <= j && j + 2 < |t| ensures !(t[j] == 's' && t[j + 1] == 't' && t[j + 2] == 'a') {
      IndexCases(j);
    }
  }

  lemma ConfidentialLacksStartDate()
    ensures !Search(ConfidentialText, Literal("start date"))
  {
    var t := ConfidentialText;
    ConfidentialHeadStaLow();
    ConfidentialHeadStaHigh();
    NoMatchByHead(t, Literal("start date"));
  }

  lemma ConfidentialLacksPeriodOfEmployment()
    ensures !Search(ConfidentialText, Literal("period of employment"))
  {
    ConfidentialAlphabet();
    NoMatchOutside(ConfidentialText, Literal("period of employment"), 0, ConfidentialLetters);
  }

  lemma ConfidentialLacksDuration()
    ensures !Search(ConfidentialText, WholeWord("duration"))
  {
    ConfidentialAlphabet();
    NoMatchOutside(ConfidentialText, WholeWord("duration"), 1, ConfidentialLetters);
  }

  lemma ConfidentialNoDuration()
    ensures !RuleMatches(ConfidentialText, Rules[2])
  {
    ConfidentialLacksTermOfEmployment();
    ConfidentialLacksEffectiveDate();
    ConfidentialLacksProbationary();
    ConfidentialLacksStartDate();
    ConfidentialLacksPeriodOfEmployment();
    ConfidentialLacksDuration();
    NoDurationPattern(ConfidentialText);
  }

  lemma ConfidentialLacksDuties()
    ensures !Search(ConfidentialText, Literal("duties"))
  {
    ConfidentialAlphabet();
    NoMatchOutside(ConfidentialText, Literal("duties"), 1, ConfidentialLetters);
  }

  lemma ConfidentialLacksResponsibilities()
    ensures !Search(ConfidentialText, Literal("responsibilities"))
  {
    ConfidentialAlphabet();
    NoMatchOutside(ConfidentialText, Literal("responsibilities"), 3, ConfidentialLetters);
  }

  lemma ConfidentialLacksFunctions()
    ensures !Search(ConfidentialText, Literal("functions"))
  {
    ConfidentialAlphabet();
    NoMatchOutside(ConfidentialText, Literal("functions"), 1, ConfidentialLetters);
  }

  lemma ConfidentialLacksDeliverables()
    ensures !Search(ConfidentialText, Literal("deliverables"))
  {
    ConfidentialAlphabet();
    NoMatchOutside(ConfidentialText, Literal("deliverables"), 4, ConfidentialLetters);
  }

  lemma ConfidentialLacksScopeOfWork()
    ensures !Search(ConfidentialText, Literal("scope of work"))
  {
    ConfidentialAlphabet();
    NoMatchOutside(ConfidentialText, Literal("scope of work"), 3, ConfidentialLetters);
  }

  lemma ConfidentialLacksObligations()
    ensures !Search(ConfidentialText, Literal("obligations"))
  {
    ConfidentialAlphabet();
    NoMatchOutside(ConfidentialText, Literal("obligations"), 1, ConfidentialLetters);
  }

  lemma ConfidentialLacksJobDescription()
    ensures !Search(ConfidentialText, Literal("job description"))
  {
    ConfidentialAlphabet();
    NoMatchOutside(ConfidentialText, Literal("job description"), 0, ConfidentialLetters);
  }

  lemma ConfidentialNoScope()
    ensures !RuleMatches(ConfidentialText, Rules[3])
  {
    ConfidentialLacksDuties();
    ConfidentialLacksResponsibilities();
    ConfidentialLacksFunctions();
    ConfidentialLacksDeliverables();
    ConfidentialLacksScopeOfWork();
    ConfidentialLacksObligations();
    ConfidentialLacksJobDescription();
    NoScopePattern(ConfidentialText);
  }

  lemma ConfidentialLacksBasicPay()
    ensures !Search(ConfidentialText, Literal("basic pay"))
  {
    ConfidentialAlphabet();
    NoMatchOutside(ConfidentialText, Literal("basic pay"), 0, ConfidentialLetters);
  }

  lemma ConfidentialLacksMonthlyRate()
    ensures !Search(ConfidentialText, Literal("monthly rate"))
  {
    ConfidentialAlphabet();
    NoMatchOutside(ConfidentialText, Literal("monthly rate"), 4, ConfidentialLetters);
  }

  lemma ConfidentialLacksGrossSalary()
    ensures !Search(ConfidentialText, Literal("gross salary"))
  {
    ConfidentialAlphabet();
    NoMatchOutside(ConfidentialText, Literal("gross salary"), 0, ConfidentialLetters);
  }

  lemma ConfidentialLacksRemuneration()
    ensures !Search(ConfidentialText, Literal("remuneration"))
  {
    ConfidentialAlphabet();
    NoMatchOutside(ConfidentialText, Literal("remuneration"), 3, ConfidentialLetters);
  }

  lemma ConfidentialLacksHourlyRate()
    ensures !Search(ConfidentialText, Literal("hourly rate"))
  {
    ConfidentialAlphabet();
    NoMatchOutside(ConfidentialText, Literal("hourly rate"), 0, ConfidentialLetters);
  }

  lemma ConfidentialLacksCompensation()
    ensures !Search(ConfidentialText, Literal("compensation"))
  {
    ConfidentialAlphabet();
    NoMatchOutside(ConfidentialText, Literal("compensation"), 3, ConfidentialLetters);
  }

  lemma ConfidentialHeadSalLow()
    ensures forall j | 0 <= j < 20 && j + 2 < |ConfidentialText| ::
      !(ConfidentialText[j] == 's' && ConfidentialText[j + 1] == 'a' && ConfidentialText[j + 2] == 'l')
  {
    var t := ConfidentialText;
    forall j | 0 <= j < 20 && j + 2 < |t| ensures !(t[j] == 's' && t[j + 1] == 'a' && t[j + 2] == 'l') {
      IndexCases(j);
    }
  }

  lemma ConfidentialHeadSalHigh()
    ensures forall j | 20 <= j && j + 2 < |ConfidentialText| ::
      !(ConfidentialText[j] == 's' && ConfidentialText[j + 1] == 'a' && ConfidentialText[j + 2] == 'l')
  {
    var t := ConfidentialText;
    forall j | 20 <= j && j + 2 < |t| ensures !(t[j] == 's' && t[j + 1] == 'a' && t[j + 2] == 'l') {
      IndexCases(j);
    }
  }

  lemma ConfidentialLacksSalary()
    ensures !Search(ConfidentialText, WholeWord("salary"))
  {
    var t := ConfidentialText;
    ConfidentialHeadSalLow();
    ConfidentialHeadSalHigh();
    NoMatchByHead(t, WholeWord("salary"));
  }

  lemma ConfidentialNoPay()
    ensures !RuleMatches(ConfidentialText, Rules[4])
  {
    ConfidentialLacksBasicPay();
    ConfidentialLacksMonthlyRate();
    ConfidentialLacksGrossSalary();
    ConfidentialLacksRemuneration();
    ConfidentialLacksHourlyRate();
    ConfidentialLacksCompensation();
    ConfidentialLacksSalary();
    NoPayPattern(ConfidentialText);
  }

  lemma ConfidentialHeadAllLow()
    ensures forall j | 0 <= j < 20 && j + 2 < |ConfidentialText| ::
      !(ConfidentialText[j] == 'a' && ConfidentialText[j + 1] == 'l' && ConfidentialText[j + 2] == 'l')
  {
    var t := ConfidentialText;
    forall j | 0 <= j < 20 && j + 2 < |t| ensures !(t[j] == 'a' && t[j + 1] == 'l' && t[j + 2] == 'l') {
      IndexCases(j);
    }
  }

  lemma ConfidentialHeadAllHigh()
    ensures forall j | 20 <= j && j + 2 < |ConfidentialText| ::
      !(ConfidentialText[j] == 'a' && ConfidentialText[j + 1] == 'l' && ConfidentialText[j + 2] == 'l')
  {
    var t := ConfidentialText;
    forall j | 20 <= j && j + 2 < |t| ensures !(t[j] == 'a' && t[j + 1] == 'l' && t[j + 2] == 'l') {
      IndexCases(j);
    }
  }

  lemma ConfidentialLacksAllowance()
    ensures !Search(ConfidentialText, Literal("allowance"))
  {
    var t := ConfidentialText;
    ConfidentialHeadAllLow();
    ConfidentialHeadAllHigh();
    NoMatchByHead(t, Literal("allowance"));
  }

  lemma ConfidentialLacksThirteenthMonth()
    ensures !Search(ConfidentialText, Literal("13th month"))
  {
    ConfidentialAlphabet();
    NoMatchOutside(ConfidentialText, Literal("13th month"), 0, ConfidentialLetters);
  }

  lemma ConfidentialLacksHmo()
    ensures !Search(ConfidentialText, Literal("hmo"))
  {
    ConfidentialAlphabet();
    NoMatchOutside(ConfidentialText, Literal("hmo"), 0, ConfidentialLetters);
  }

  lemma ConfidentialLacksIncentives()
    ensures !Search(ConfidentialText, Literal("incentives"))
  {
    ConfidentialAlphabet();
    NoMatchOutside(ConfidentialText, Literal("incentives"), 7, ConfidentialLetters);
  }

  lemma ConfidentialHeadSssLow()
    ensures forall j | 0 <= j < 20 && j + 2 < |ConfidentialText| ::
      !(ConfidentialText[j] == 's' && ConfidentialText[j + 1] == 's' && ConfidentialText[j + 2] == 's')
  {
    var t := ConfidentialText;
    forall j | 0 <= j < 20 && j + 2 < |t| ensures !(t[j] == 's' && t[j + 1] == 's' && t[j + 2] == 's') {
      IndexCases(j);
    }
  }

  lemma ConfidentialHeadSssHigh()
    ensures forall j | 20 <= j && j + 2 < |ConfidentialText| ::
      !(ConfidentialText[j] == 's' && ConfidentialText[j + 1] == 's' && ConfidentialText[j + 2] == 's')
  {
    var t := ConfidentialText;
    forall j | 20 <= j && j + 2 < |t| ensures !(t[j] == 's' && t[j + 1] == 's' && t[j + 2] == 's') {
      IndexCases(j);
    }
  }

  lemma ConfidentialLacksSss()
    ensures !Search(ConfidentialText, Literal("sss"))
  {
    var t := ConfidentialText;
    ConfidentialHeadSssLow();
    ConfidentialHeadSssHigh();
    NoMatchByHead(t, Literal("sss"));
  }

  lemma ConfidentialLacksPhilhealth()
    ensures !Search(ConfidentialText, Literal("philhealth"))
  {
    ConfidentialAlphabet();
    NoMatchOutside(ConfidentialText, Literal("philhealth"), 0, ConfidentialLetters);
  }

  lemma ConfidentialLacksPagIbig()
    ensures !Search(ConfidentialText, Literal("pag-ibig"))
  {
    ConfidentialAlphabet();
    NoMatchOutside(ConfidentialText, Literal("pag-ibig"), 0, ConfidentialLetters);
  }

  lemma ConfidentialLacksInsurance()
    ensures !Search(ConfidentialText, Literal("insurance"))
  {
    ConfidentialAlphabet();
    NoMatchOutside(ConfidentialText, Literal("insurance"), 3, ConfidentialLetters);
  }

  lemma ConfidentialLacksBenefits()
    ensures !Search(ConfidentialText, Literal("benefits"))
  {
    ConfidentialAlphabet();
    NoMatchOutside(ConfidentialText, Literal("benefits"), 0, ConfidentialLetters);
  }

  lemma ConfidentialNoBenefits()
    ensures !RuleMatches(ConfidentialText, Rules[5])
  {
    ConfidentialLacksAllowance();
    ConfidentialLacksThirteenthMonth();
    ConfidentialLacksHmo();
    ConfidentialLacksIncentives();
    ConfidentialLacksSss();
    ConfidentialLacksPhilhealth();
    ConfidentialLacksPagIbig();
    ConfidentialLacksInsurance();
    ConfidentialLacksBenefits();
    NoBenefitsPattern(ConfidentialText);
  }

  lemma ConfidentialHeadConLow()
    ensures forall j | 0 <= j < 20 && j + 2 < |ConfidentialText| ::
      j == 17 || !(ConfidentialText[j] == 'c' && ConfidentialText[j + 1] == 'o' && ConfidentialText[j + 2] == 'n')
  {
    var t := ConfidentialText;
    forall j | 0 <= j < 20 && j + 2 < |t| ensures j == 17 || !(t[j] == 'c' && t[j + 1] == 'o' && t[j + 2] == 'n') {
      IndexCases(j);
    }
  }

  lemma ConfidentialHeadConHigh()
    ensures forall j | 20 <= j && j + 2 < |ConfidentialText| ::
      !(ConfidentialText[j] == 'c' && ConfidentialText[j + 1] == 'o' && ConfidentialText[j + 2] == 'n')
  {
    var t := ConfidentialText;
    forall j | 20 <= j && j + 2 < |t| ensures !(t[j] == 'c' && t[j + 1] == 'o' && t[j + 2] == 'n') {
      IndexCases(j);
    }
  }

  lemma ConfidentialLacksConfidentiality()
    ensures !Search(ConfidentialText, Literal("confidentiality"))
  {
    var t := ConfidentialText;
    ConfidentialHeadConLow();
    ConfidentialHeadConHigh();
    assert t[29] == ' ';
    NoMatchButMismatch(t, Literal("confidentiality"), 17, 12);
  }

  lemma ConfidentialLacksNonDisclosure()
    ensures !Search(ConfidentialText, Literal("non-disclosure"))
  {
    ConfidentialAlphabet();
    NoMatchOutside(ConfidentialText, Literal("non-disclosure"), 3, ConfidentialLetters);
  }

  lemma ConfidentialLacksDataPrivacy()
    ensures !Search(ConfidentialText, Literal("data privacy"))
  {
    ConfidentialAlphabet();
    NoMatchOutside(ConfidentialText, Literal("data privacy"), 5, ConfidentialLetters);
  }

  lemma ConfidentialLacksProprietary()
    ensures !Search(ConfidentialText, Literal("proprietary"))
  {
    ConfidentialAlphabet();
    NoMatchOutside(ConfidentialText, Literal("proprietary"), 0, ConfidentialLetters);
  }

  lemma ConfidentialLacksIntellectualProperty()
    ensures !Search(ConfidentialText, Literal("intellectual property"))
  {
    ConfidentialAlphabet();
    NoMatchOutside(ConfidentialText, Literal("intellectual property"), 9, ConfidentialLetters);
  }

  lemma ConfidentialNoConfidentiality()
    ensures !RuleMatches(ConfidentialText, Rules[6])
  {
    ConfidentialLacksConfidentiality();
    ConfidentialLacksNonDisclosure();
    ConfidentialLacksDataPrivacy();
    ConfidentialLacksProprietary();
    ConfidentialLacksIntellectualProperty();
    NoConfidentialityPattern(ConfidentialText);
  }

  lemma ConfidentialLacksResignation()
    ensures !Search(ConfidentialText, Literal("resignation"))
  {
    ConfidentialAlphabet();
    NoMatchOutside(ConfidentialText, Literal("resignation"), 4, ConfidentialLetters);
  }

  lemma ConfidentialHeadTerLow()
    ensures forall j | 0 <= j < 20 && j + 2 < |ConfidentialText| ::
      !(ConfidentialText[j] == 't' && ConfidentialText[j + 1] == 'e' && ConfidentialText[j + 2] == 'r')
  {
    var t := ConfidentialText;
    forall j | 0 <= j < 20 && j + 2 < |t| ensures !(t[j] == 't' && t[j + 1] == 'e' && t[j + 2] == 'r') {
      IndexCases(j);
    }
  }

  lemma ConfidentialHeadTerHigh()
    ensures forall j | 20 <= j && j + 2 < |ConfidentialText| ::
      !(ConfidentialText[j] == 't' && ConfidentialText[j + 1] == 'e' && ConfidentialText[j + 2] == 'r')
  {
    var t := ConfidentialText;
    forall j | 20 <= j && j + 2 < |t| ensures !(t[j] == 't' && t[j + 1] == 'e' && t[j + 2] == 'r') {
      IndexCases(j);
    }
  }

  lemma ConfidentialLacksTermination()
    ensures !Search(ConfidentialText, Literal("termination"))
  {
    var t := ConfidentialText;
    ConfidentialHeadTerLow();
    ConfidentialHeadTerHigh();
    NoMatchByHead(t, Literal("termination"));
  }

  lemma ConfidentialLacksNoticePeriod()
    ensures !Search(ConfidentialText, Literal("notice period"))
  {
    ConfidentialAlphabet();
    NoMatchOutside(ConfidentialText, Literal("notice period"), 7, ConfidentialLetters);
  }

  lemma ConfidentialLacksBreach()
    ensures !Search(ConfidentialText, Literal("breach"))
  {
    ConfidentialAlphabet();
    NoMatchOutside(ConfidentialText, Literal("breach"), 0, ConfidentialLetters);
  }

  lemma ConfidentialLacksSeparation()
    ensures !Search(ConfidentialText, Literal("separation"))
  {
    ConfidentialAlphabet();
    NoMatchOutside(ConfidentialText, Literal("separation"), 2, ConfidentialLetters);
  }

  lemma ConfidentialHeadEndLow()
    ensures forall j | 0 <= j < 20 && j + 2 < |ConfidentialText| ::
      !(ConfidentialText[j] == 'e' && ConfidentialText[j + 1] == 'n' && ConfidentialText[j + 2] == 'd')
  {
    var t := ConfidentialText;
    forall j | 0 <= j < 20 && j + 2 < |t| ensures !(t[j] == 'e' && t[j + 1] == 'n' && t[j + 2] == 'd') {
      IndexCases(j);
    }
  }

  lemma ConfidentialHeadEndHigh()
    ensures forall j | 20 <= j && j + 2 < |ConfidentialText| ::
      !(ConfidentialText[j] == 'e' && ConfidentialText[j + 1] == 'n' && ConfidentialText[j + 2] == 'd')
  {
    var t := ConfidentialText;
    forall j | 20 <= j && j + 2 < |t| ensures !(t[j] == 'e' && t[j + 1] == 'n' && t[j + 2] == 'd') {
      IndexCases(j);
    }
  }

  lemma ConfidentialLacksEndOfContract()
    ensures !Search(ConfidentialText, Literal("end of contract"))
  {
    var t := ConfidentialText;
    ConfidentialHeadEndLow();
    ConfidentialHeadEndHigh();
    NoMatchByHead(t, Literal("end of contract"));
  }

  lemma ConfidentialNoTermination()
    ensures !RuleMatches(ConfidentialText, Rules[7])
  {
    ConfidentialLacksResignation();
    ConfidentialLacksTermination();
    ConfidentialLacksNoticePeriod();
    ConfidentialLacksBreach();
    ConfidentialLacksSeparation();
    ConfidentialLacksEndOfContract();
    NoTerminationPattern(ConfidentialText);
  }

  lemma ConfidentialLacksSigned()
    ensures !Search(ConfidentialText, Literal("signed"))
  {
    ConfidentialAlphabet();
    NoMatchOutside(ConfidentialText, Literal("signed"), 2, ConfidentialLetters);
  }

  lemma ConfidentialHeadWitLow()
    ensures forall j | 0 <= j < 20 && j + 2 < |ConfidentialText| ::
      !(ConfidentialText[j] == 'w' && ConfidentialText[j + 1] == 'i' && ConfidentialText[j + 2] == 't')
  {
    var t := ConfidentialText;
    forall j | 0 <= j < 20 && j + 2 < |t| ensures !(t[j] == 'w' && t[j + 1] == 'i' && t[j + 2] == 't') {
      IndexCases(j);
    }
  }

  lemma ConfidentialHeadWitHigh()
    ensures forall j | 20 <= j && j + 2 < |ConfidentialText| ::
      !(ConfidentialText[j] == 'w' && ConfidentialText[j + 1] == 'i' && ConfidentialText[j + 2] == 't')
  {
    var t := ConfidentialText;
    forall j | 20 <= j && j + 2 < |t| ensures !(t[j] == 'w' && t[j + 1] == 'i' && t[j + 2] == 't') {
      IndexCases(j);
    }
  }

  lemma ConfidentialLacksWitness()
    ensures !Search(ConfidentialText, Literal("witness"))
  {
    var t := ConfidentialText;
    ConfidentialHeadWitLow();
    ConfidentialHeadWitHigh();
    NoMatchByHead(t, Literal("witness"));
  }

  lemma ConfidentialLacksConforme()
    ensures !Search(ConfidentialText, Literal("conforme"))
  {
    var t := ConfidentialText;
    ConfidentialHeadConLow();
    ConfidentialHeadConHigh();
    assert t[21] == 'i';
    NoMatchButMismatch(t, Literal("conforme"), 17, 4);
  }

  lemma ConfidentialLacksAcceptedBy()
    ensures !Search(ConfidentialText, Literal("accepted by"))
  {
    ConfidentialAlphabet();
    NoMatchOutside(ConfidentialText, Literal("accepted by"), 4, ConfidentialLetters);
  }

  lemma ConfidentialLacksSignature()
    ensures !Search(ConfidentialText, Literal("signature"))
  {
    ConfidentialAlphabet();
    NoMatchOutside(ConfidentialText, Literal("signature"), 2, ConfidentialLetters);
  }

  lemma ConfidentialNoSignature()
    ensures !RuleMatches(ConfidentialText, Rules[8])
  {
    ConfidentialLacksSigned();
    ConfidentialLacksWitness();
    ConfidentialLacksConforme();
    ConfidentialLacksAcceptedBy();
    ConfidentialLacksSignature();
    NoSignaturePattern(ConfidentialText);
  }

  /** Neither header, role nor duration patterns occur. */
  lemma ConfidentialNoEarlyRule()
    ensures forall s | Rank(s) < 3 :: !RuleMatches(ConfidentialText, Rules[Rank(s)])
  {
    forall s | Rank(s) < 3 ensures !RuleMatches(ConfidentialText, Rules[Rank(s)]) {
      if s == H { ConfidentialNoHeader(); }
      else if s == R { ConfidentialNoRole(); }
      else { ConfidentialNoDuration(); }
    }
  }

  /** Neither scope, pay nor benefits patterns occur. */
  lemma ConfidentialNoMiddleRule()
    ensures forall s | 3 <= Rank(s) < 6 :: !RuleMatches(ConfidentialText, Rules[Rank(s)])
  {
    forall s | 3 <= Rank(s) < 6 ensures !RuleMatches(ConfidentialText, Rules[Rank(s)]) {
      if s == S { ConfidentialNoScope(); }
      else if s == C { ConfidentialNoPay(); }
      else { ConfidentialNoBenefits(); }
    }
  }

  /** Neither confidentiality, termination nor signature patterns occur. */
  lemma ConfidentialNoLateRule()
    ensures forall s | 6 <= Rank(s) :: !RuleMatches(ConfidentialText, Rules[Rank(s)])
  {
    forall s | 6 <= Rank(s) ensures !RuleMatches(ConfidentialText, Rules[Rank(s)]) {
      if s == F { ConfidentialNoConfidentiality(); }
      else if s == T { ConfidentialNoTermination(); }
      else { ConfidentialNoSignature(); }
    }
  }

  /** "confidential" alone matches no pattern: the confidentiality rule needs the full string "confidentiality",
      of which "confidential" is only a prefix. */
  lemma ConfidentialHasNoSymbol()
    ensures GetSymbol(ConfidentialLine) == None
  {
    ConfidentialNormalized();
    ConfidentialSearchedWhole();
    ConfidentialNoEarlyRule();
    ConfidentialNoMiddleRule();
    ConfidentialNoLateRule();
    NoSymbolFound(ConfidentialLine, ConfidentialText);
  }
}
