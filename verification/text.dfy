/** The Python string built-ins the classifier relies on: str.isspace, str.strip,
    str.lower, str.split() (no argument), " ".join and str.split('\n'). */
module Text {

  /** str.isspace() for one character: the characters Python treats as whitespace. */
  predicate IsSpace(c: char)
  {
    ('\t' <= c <= '\r') || ('\U{1C}' <= c <= '\U{1F}') || c == ' '
    || c == '\U{85}' || c == '\U{A0}' || c == '\U{1680}'
    || ('\U{2000}' <= c <= '\U{200A}') || c == '\U{2028}' || c == '\U{2029}'
    || c == '\U{202F}' || c == '\U{205F}' || c == '\U{3000}'
  }

  predicate AllSpace(s: string)
  {
    forall i | 0 <= i < |s| :: IsSpace(s[i])
  }

  /** A regular-expression word character (\w), restricted to ASCII. */
  predicate IsWordChar(c: char)
  {
    ('a' <= c <= 'z') || ('A' <= c <= 'Z') || ('0' <= c <= '9') || c == '_'
  }

  // ---------------------------------------------------------------- strip

  /** Number of whitespace characters in s from position i on, up to the first other one. */
  function SpacesFrom(s: string, i: nat): (k: nat)
    requires i <= |s|
    ensures i + k <= |s|
    decreases |s| - i
  {
    if i < |s| && IsSpace(s[i]) then 1 + SpacesFrom(s, i + 1) else 0
  }

  /** Number of whitespace characters in s just before position n. */
  function SpacesBefore(s: string, n: nat): (k: nat)
    requires n <= |s|
    ensures k <= n
  {
    if n > 0 && IsSpace(s[n - 1]) then 1 + SpacesBefore(s, n - 1) else 0
  }

  /** Number of whitespace characters at the start of s. */
  function LeadingSpaces(s: string): (k: nat)
    ensures k <= |s|
  {
    SpacesFrom(s, 0)
  }

  /** Number of whitespace characters at the end of s. */
  function TrailingSpaces(s: string): (k: nat)
    ensures k <= |s|
  {
    SpacesBefore(s, |s|)
  }

  /** The run counted from i is whitespace, and it stops at the end of s or at a
      character that is not. */
  lemma {:induction false} SpacesFromAreSpaces(s: string, i: nat)
    requires i <= |s|
    ensures forall j | i <= j < i + SpacesFrom(s, i) :: IsSpace(s[j])
    ensures i + SpacesFrom(s, i) == |s| || !IsSpace(s[i + SpacesFrom(s, i)])
    decreases |s| - i
  {
    if i < |s| && IsSpace(s[i]) {
      SpacesFromAreSpaces(s, i + 1);
    }
  }

  /** The run counted back from n is whitespace, and it stops at the start of s or at a
      character that is not. */
  lemma {:induction false} SpacesBeforeAreSpaces(s: string, n: nat)
    requires n <= |s|
    ensures forall j | n - SpacesBefore(s, n) <= j < n :: IsSpace(s[j])
    ensures SpacesBefore(s, n) == n || !IsSpace(s[n - 1 - SpacesBefore(s, n)])
  {
    if n > 0 && IsSpace(s[n - 1]) {
      SpacesBeforeAreSpaces(s, n - 1);
    }
  }

  /** str.lstrip() */
  function TrimStart(s: string): string
  {
    s[LeadingSpaces(s)..]
  }

  /** str.rstrip() */
  function TrimEnd(s: string): string
  {
    s[..|s| - TrailingSpaces(s)]
  }

  /** r is what remains of s once its leading and trailing whitespace is removed. */
  ghost predicate IsStripOf(r: string, s: string)
  {
    && (r == [] || (!IsSpace(r[0]) && !IsSpace(r[|r| - 1])))
    && exists i :: 0 <= i <= |s| - |r| && s[i..i + |r|] == r
                   && AllSpace(s[..i]) && AllSpace(s[i + |r|..])
  }

  /** str.strip() */
  function Strip(s: string): string
  {
    TrimEnd(TrimStart(s))
  }

  /** strip() removes exactly the leading and trailing whitespace. */
  lemma StripRemovesPadding(s: string)
    ensures IsStripOf(Strip(s), s)
  {
    StripEnds(s);
    var k, r := LeadingSpaces(s), Strip(s);
    StripBetweenSpaces(s);
    assert 0 <= k <= |s| - |r| && s[k..k + |r|] == r && AllSpace(s[..k]) && AllSpace(s[k + |r|..]);
  }

  /** What strip() leaves neither starts nor ends with whitespace. */
  lemma StripEnds(s: string)
    ensures var r := Strip(s); r == [] || (!IsSpace(r[0]) && !IsSpace(r[|r| - 1]))
  {
    var k := LeadingSpaces(s);
    var t := s[k..];
    var n := |t| - TrailingSpaces(t);
    assert Strip(s) == t[..n];
    SpacesFromAreSpaces(s, 0);
    SpacesBeforeAreSpaces(t, |t|);
    if n > 0 {
      assert t[..n][0] == s[k];
      assert t[..n][n - 1] == t[n - 1];
    }
  }

  /** What strip() leaves stands in s right after the leading whitespace, and only
      whitespace surrounds it. */
  lemma StripBetweenSpaces(s: string)
    ensures var k, r := LeadingSpaces(s), Strip(s);
      && k + |r| <= |s| && s[k..k + |r|] == r
      && AllSpace(s[..k]) && AllSpace(s[k + |r|..])
  {
    StripInPlace(s);
    LeadingAllSpace(s);
    TrailingAllSpace(s);
  }

  lemma StripInPlace(s: string)
    ensures var k, r := LeadingSpaces(s), Strip(s); k + |r| <= |s| && s[k..k + |r|] == r
  {
    var k := LeadingSpaces(s);
    var t := s[k..];
    var n := |t| - TrailingSpaces(t);
    assert Strip(s) == t[..n];
    assert s[k..k + n] == t[..n];
  }

  lemma LeadingAllSpace(s: string)
    ensures AllSpace(s[..LeadingSpaces(s)])
  {
    var k := LeadingSpaces(s);
    SpacesFromAreSpaces(s, 0);
    assert forall j | 0 <= j < k :: s[..k][j] == s[j];
  }

  lemma TrailingAllSpace(s: string)
    ensures AllSpace(s[LeadingSpaces(s) + |Strip(s)|..])
  {
    var k := LeadingSpaces(s);
    var t := s[k..];
    var n := |t| - TrailingSpaces(t);
    assert |Strip(s)| == n;
    SpacesBeforeAreSpaces(t, |t|);
    var u := s[k + n..];
    forall j | 0 <= j < |u| ensures IsSpace(u[j]) {
      assert u[j] == t[n + j];
    }
  }

  /** Counting from inside the second part of a + b counts in b. */
  lemma {:induction false} SpacesFromShift(a: string, b: string, j: nat)
    requires j <= |b|
    ensures SpacesFrom(a + b, |a| + j) == SpacesFrom(b, j)
    decreases |b| - j
  {
    if j < |b| {
      assert (a + b)[|a| + j] == b[j];
      SpacesFromShift(a, b, j + 1);
    }
  }

  lemma {:induction false} SpacesFromOfSpaces(ws: string, s: string, i: nat)
    requires AllSpace(ws) && i <= |ws|
    ensures SpacesFrom(ws + s, i) == |ws| - i + SpacesFrom(s, 0)
    decreases |ws| - i
  {
    if i == |ws| {
      SpacesFromShift(ws, s, 0);
    } else {
      assert (ws + s)[i] == ws[i];
      SpacesFromOfSpaces(ws, s, i + 1);
    }
  }

  lemma LeadingSpacesOfSpaces(ws: string, s: string)
    requires AllSpace(ws)
    ensures LeadingSpaces(ws + s) == |ws| + LeadingSpaces(s)
  {
    SpacesFromOfSpaces(ws, s, 0);
  }

  lemma TrimStartOfSpaces(ws: string, s: string)
    requires AllSpace(ws)
    ensures TrimStart(ws + s) == TrimStart(s)
  {
    LeadingSpacesOfSpaces(ws, s);
    assert (ws + s)[|ws| + LeadingSpaces(s)..] == s[LeadingSpaces(s)..];
  }

  /** Counting back from inside the first part of a + b counts in a. */
  lemma {:induction false} SpacesBeforePrefix(a: string, b: string, n: nat)
    requires n <= |a|
    ensures SpacesBefore(a + b, n) == SpacesBefore(a, n)
  {
    if n > 0 {
      assert (a + b)[n - 1] == a[n - 1];
      SpacesBeforePrefix(a, b, n - 1);
    }
  }

  lemma {:induction false} SpacesBeforeOfSpaces(s: string, ws: string, n: nat)
    requires AllSpace(ws) && n <= |ws|
    ensures SpacesBefore(s + ws, |s| + n) == SpacesBefore(s, |s|) + n
  {
    if n == 0 {
      SpacesBeforePrefix(s, ws, |s|);
    } else {
      assert (s + ws)[|s| + n - 1] == ws[n - 1];
      SpacesBeforeOfSpaces(s, ws, n - 1);
    }
  }

  lemma TrailingSpacesOfSpaces(s: string, ws: string)
    requires AllSpace(ws)
    ensures TrailingSpaces(s + ws) == TrailingSpaces(s) + |ws|
  {
    SpacesBeforeOfSpaces(s, ws, |ws|);
  }

  lemma {:induction false} SpacesFromAppend(s: string, t: string, i: nat)
    requires i <= |s| && i + SpacesFrom(s, i) < |s|
    ensures SpacesFrom(s + t, i) == SpacesFrom(s, i)
    decreases |s| - i
  {
    assert (s + t)[i] == s[i];
    if IsSpace(s[i]) {
      SpacesFromAppend(s, t, i + 1);
    }
  }

  lemma TrimEndOfSpaces(t: string, ws: string)
    requires AllSpace(ws)
    ensures TrimEnd(t + ws) == TrimEnd(t)
  {
    TrailingSpacesOfSpaces(t, ws);
    assert (t + ws)[..|t| - TrailingSpaces(t)] == t[..|t| - TrailingSpaces(t)];
  }

  lemma DropAppend(s: string, t: string, k: nat)
    requires k <= |s|
    ensures (s + t)[k..] == s[k..] + t
  {
  }

  lemma TrimStartAppend(s: string, ws: string)
    requires LeadingSpaces(s) < |s|
    ensures TrimStart(s + ws) == TrimStart(s) + ws
  {
    SpacesFromAppend(s, ws, 0);
    DropAppend(s, ws, LeadingSpaces(s));
  }

  /** Whitespace added before or after a line does not change what strip() leaves. */
  lemma StripPadding(ws: string, s: string, ws': string)
    requires AllSpace(ws) && AllSpace(ws')
    ensures Strip(ws + s + ws') == Strip(s)
  {
    assert ws + s + ws' == ws + (s + ws');
    TrimStartOfSpaces(ws, s + ws');
    assert Strip(ws + s + ws') == TrimEnd(TrimStart(s + ws'));
    if LeadingSpaces(s) < |s| {
      TrimStartAppend(s, ws');
      TrimEndOfSpaces(TrimStart(s), ws');
    } else {
      SpacesFromAreSpaces(s, 0);
      assert AllSpace(s + ws');
      LeadingSpacesOfSpaces(s + ws', []);
      assert s + ws' + [] == s + ws';
      assert TrimStart(s + ws') == [];
      assert TrimStart(s) == [];
    }
  }

  // ---------------------------------------------------------------- lower

  /** str.lower() on one character, for the ASCII letters. */
  function LowerChar(c: char): (r: char)
    ensures !('A' <= r <= 'Z')
    ensures !('A' <= c <= 'Z') ==> r == c
  {
    if 'A' <= c <= 'Z' then (c as int - 'A' as int + 'a' as int) as char else c
  }

  /** str.lower(), ASCII letters only. */
  function Lower(s: string): (r: string)
    ensures |r| == |s|
    ensures forall i | 0 <= i < |s| :: r[i] == LowerChar(s[i])
  {
    if s == [] then [] else [LowerChar(s[0])] + Lower(s[1..])
  }

  lemma LowerIdempotent(s: string)
    ensures Lower(Lower(s)) == Lower(s)
  {
    assert forall i | 0 <= i < |s| :: Lower(Lower(s))[i] == Lower(s)[i];
  }

  lemma LowerTake(s: string, m: nat)
    requires m <= |s|
    ensures Lower(s)[..m] == Lower(s[..m])
  {
    assert forall i | 0 <= i < m :: Lower(s)[..m][i] == Lower(s[..m])[i];
  }

  lemma LowerDrop(s: string, k: nat)
    requires k <= |s|
    ensures Lower(s)[k..] == Lower(s[k..])
  {
    assert forall i | 0 <= i < |s| - k :: Lower(s)[k..][i] == Lower(s[k..])[i];
  }

  /** lower() leaves whitespace whitespace and everything else non-whitespace. */
  lemma LowerCharSpace(c: char)
    ensures IsSpace(LowerChar(c)) == IsSpace(c)
  {
  }

  /** a and b have whitespace at the same positions. */
  predicate SameSpacing(a: string, b: string)
  {
    |a| == |b| && forall j | 0 <= j < |a| :: IsSpace(a[j]) == IsSpace(b[j])
  }

  lemma LowerSameSpacing(s: string)
    ensures SameSpacing(Lower(s), s)
  {
    forall j | 0 <= j < |s| ensures IsSpace(Lower(s)[j]) == IsSpace(s[j]) {
      LowerCharSpace(s[j]);
    }
  }

  lemma {:induction false} SpacesFromSame(a: string, b: string, i: nat)
    requires SameSpacing(a, b) && i <= |a|
    ensures SpacesFrom(a, i) == SpacesFrom(b, i)
    decreases |a| - i
  {
    if i < |a| && IsSpace(a[i]) {
      SpacesFromSame(a, b, i + 1);
    }
  }

  lemma {:induction false} SpacesBeforeSame(a: string, b: string, n: nat)
    requires SameSpacing(a, b) && n <= |a|
    ensures SpacesBefore(a, n) == SpacesBefore(b, n)
  {
    if n > 0 && IsSpace(a[n - 1]) {
      SpacesBeforeSame(a, b, n - 1);
    }
  }

  lemma TrimStartLower(s: string)
    ensures TrimStart(Lower(s)) == Lower(TrimStart(s))
  {
    LowerSameSpacing(s);
    SpacesFromSame(Lower(s), s, 0);
    LowerDrop(s, LeadingSpaces(s));
  }

  lemma TrimEndLower(s: string)
    ensures TrimEnd(Lower(s)) == Lower(TrimEnd(s))
  {
    LowerSameSpacing(s);
    SpacesBeforeSame(Lower(s), s, |s|);
    LowerTake(s, |s| - TrailingSpaces(s));
  }

  /** Lower-casing and stripping commute, because lower() never turns whitespace
      into a letter or the other way round. */
  lemma LowerStripCommute(s: string)
    ensures Lower(Strip(s)) == Strip(Lower(s))
  {
    TrimStartLower(s);
    TrimEndLower(TrimStart(s));
  }

  // ---------------------------------------------------------------- split / join

  predicate IsWord(w: string)
  {
    w != [] && forall i | 0 <= i < |w| :: !IsSpace(w[i])
  }

  predicate AllWords(ws: seq<string>)
  {
    forall k | 0 <= k < |ws| :: IsWord(ws[k])
  }

  /** Length of the leading run of non-whitespace characters. */
  function WordLength(s: string): (n: nat)
    ensures n <= |s|
    ensures n == |s| || IsSpace(s[n])
  {
    if s == [] || IsSpace(s[0]) then 0 else 1 + WordLength(s[1..])
  }

  lemma {:induction false} WordLengthNoSpace(s: string)
    ensures forall i | 0 <= i < WordLength(s) :: !IsSpace(s[i])
    decreases |s|
  {
    if s != [] && !IsSpace(s[0]) {
      WordLengthNoSpace(s[1..]);
      forall i | 1 <= i < WordLength(s) ensures !IsSpace(s[i]) {
        assert s[i] == s[1..][i - 1];
      }
    }
  }

  /** str.split() with no argument: the maximal runs of non-whitespace characters, in order. */
  function Words(s: string): (ws: seq<string>)
    decreases |s|
  {
    if s == [] then []
    else if IsSpace(s[0]) then Words(s[1..])
    else
      var n := WordLength(s);
      [s[..n]] + Words(s[n..])
  }

  /** " ".join(ws) */
  function Join(ws: seq<string>): string
  {
    if ws == [] then []
    else if |ws| == 1 then ws[0]
    else ws[0] + " " + Join(ws[1..])
  }

  lemma {:induction false} WordsAreWords(s: string)
    ensures AllWords(Words(s))
    decreases |s|
  {
    if s != [] {
      if IsSpace(s[0]) {
        WordsAreWords(s[1..]);
      } else {
        WordLengthNoSpace(s);
        WordsAreWords(s[WordLength(s)..]);
      }
    }
  }

  lemma {:induction false} WordLengthAppend(w: string, c: char, s: string)
    requires IsWord(w) && IsSpace(c)
    ensures WordLength(w + [c] + s) == |w|
    decreases |w|
  {
    assert (w + [c] + s)[0] == w[0];
    if |w| == 1 {
      assert (w + [c] + s)[1..] == [c] + s;
    } else {
      assert (w + [c] + s)[1..] == w[1..] + [c] + s;
      WordLengthAppend(w[1..], c, s);
    }
  }

  /** Leading whitespace contributes no word. */
  lemma {:induction false} WordsAfterSpaces(sp: string, b: string)
    requires AllSpace(sp)
    ensures Words(sp + b) == Words(b)
    decreases |sp|
  {
    if sp == [] {
      assert sp + b == b;
    } else {
      assert (sp + b)[0] == sp[0];
      assert (sp + b)[1..] == sp[1..] + b;
      WordsAfterSpaces(sp[1..], b);
    }
  }

  /** A word followed by whitespace is the first word of the split. */
  lemma WordsCons(w: string, c: char, b: string)
    requires IsWord(w) && IsSpace(c)
    ensures Words(w + [c] + b) == [w] + Words(b)
  {
    var u := w + [c] + b;
    assert u[0] == w[0];
    WordLengthAppend(w, c, b);
    assert u[..|w|] == w;
    assert u[|w|..] == [c] + b;
    assert ([c] + b)[1..] == b;
  }

  lemma {:induction false} WordLengthWhole(w: string)
    requires IsWord(w)
    ensures WordLength(w) == |w|
    decreases |w|
  {
    if |w| > 1 {
      WordLengthWhole(w[1..]);
    }
  }

  lemma WordsSingle(w: string)
    requires IsWord(w)
    ensures Words(w) == [w]
  {
    WordLengthWhole(w);
    assert w[..|w|] == w;
    assert Words(w[|w|..]) == [];
  }

  /** Splitting what " ".join produced gives back the words. */
  lemma {:induction false} WordsJoin(ws: seq<string>)
    requires AllWords(ws)
    ensures Words(Join(ws)) == ws
    decreases |ws|
  {
    if ws == [] {
    } else if |ws| == 1 {
      WordsSingle(ws[0]);
    } else {
      WordsCons(ws[0], ' ', Join(ws[1..]));
      WordsJoin(ws[1..]);
    }
  }

  /** Every whitespace character of s is a plain space with a non-whitespace character on
      each side: the shape of `" ".join` applied to words. */
  predicate SingleSpaced(s: string)
  {
    forall i | 0 <= i < |s| && IsSpace(s[i]) ::
      s[i] == ' ' && 0 < i < |s| - 1 && !IsSpace(s[i - 1]) && !IsSpace(s[i + 1])
  }

  /** Joining words with single spaces leaves no other whitespace and no space at either
      end. */
  lemma {:induction false} JoinSingleSpaced(ws: seq<string>)
    requires AllWords(ws)
    ensures SingleSpaced(Join(ws))
    ensures ws != [] ==> Join(ws) != [] && !IsSpace(Join(ws)[0]) && !IsSpace(Join(ws)[|Join(ws)| - 1])
    decreases |ws|
  {
    if |ws| == 1 {
      assert IsWord(ws[0]);
    } else if |ws| > 1 {
      var w, rest := ws[0], Join(ws[1..]);
      assert IsWord(w);
      assert AllWords(ws[1..]) by {
        forall k | 0 <= k < |ws[1..]| ensures IsWord(ws[1..][k]) {
          assert ws[1..][k] == ws[k + 1];
        }
      }
      JoinSingleSpaced(ws[1..]);
      var j := w + " " + rest;
      assert Join(ws) == j;
      forall i | 0 <= i < |j| && IsSpace(j[i])
        ensures j[i] == ' ' && 0 < i < |j| - 1 && !IsSpace(j[i - 1]) && !IsSpace(j[i + 1])
      {
        if i < |w| {
          assert false;
        } else if i > |w| {
          var m := i - |w| - 1;
          assert j[i] == rest[m];
          if m > 0 { assert j[i - 1] == rest[m - 1]; }
          assert j[i + 1] == rest[m + 1];
        } else {
          assert j[i - 1] == w[|w| - 1] && j[i + 1] == rest[0];
        }
      }
      assert j[0] == w[0] && j[|j| - 1] == rest[|rest| - 1];
    }
  }

  /** Every word costs at least one character, and two words need a separator. */
  lemma {:induction false} WordsBound(s: string)
    ensures 2 * |Words(s)| <= |s| + 1
    ensures s != [] && IsSpace(s[0]) ==> 2 * |Words(s)| <= |s|
    decreases |s|
  {
    if s != [] {
      if IsSpace(s[0]) {
        WordsBound(s[1..]);
      } else {
        WordsBound(s[WordLength(s)..]);
      }
    }
  }

  /** A word ends at the first whitespace character, whatever follows it. */
  lemma {:induction false} WordLengthBefore(t: string, c: char, b: string)
    requires IsSpace(c)
    ensures WordLength(t + [c] + b) == WordLength(t)
    decreases |t|
  {
    var u := t + [c] + b;
    if t == [] {
      assert u[0] == c;
    } else {
      assert u[0] == t[0];
      if !IsSpace(t[0]) {
        assert u[1..] == t[1..] + [c] + b;
        WordLengthBefore(t[1..], c, b);
      }
    }
  }

  /** When a starts with a word, the split of a + [c] + b starts with that word, and the
      rest is the split of what follows it. */
  lemma WordsFirstOfSplit(a: string, c: char, b: string)
    requires IsSpace(c) && a != [] && !IsSpace(a[0])
    ensures Words(a + [c] + b) == [a[..WordLength(a)]] + Words(a[WordLength(a)..] + [c] + b)
  {
    var u := a + [c] + b;
    var n := WordLength(a);
    assert u[0] == a[0];
    WordLengthBefore(a, c, b);
    assert u[..n] == a[..n];
    assert u[n..] == a[n..] + [c] + b;
  }

  /** A whitespace character separates the words on its two sides. */
  lemma {:induction false} WordsSplit(a: string, c: char, b: string)
    requires IsSpace(c)
    ensures Words(a + [c] + b) == Words(a) + Words(b)
    decreases |a|
  {
    var u := a + [c] + b;
    if a == [] {
      assert u == [c] + b;
      assert u[1..] == b;
    } else if IsSpace(a[0]) {
      assert u[0] == a[0];
      assert u[1..] == a[1..] + [c] + b;
      WordsSplit(a[1..], c, b);
    } else {
      var w, rest := a[..WordLength(a)], a[WordLength(a)..];
      WordsFirstOfSplit(a, c, b);
      WordsSplit(rest, c, b);
      assert [w] + (Words(rest) + Words(b)) == [w] + Words(rest) + Words(b);
    }
  }

  /** The words of s on either side of a whitespace character at position k. */
  lemma WordsSplitAt(s: string, k: nat)
    requires k < |s| && IsSpace(s[k])
    ensures |Words(s)| == |Words(s[..k])| + |Words(s[k + 1..])|
  {
    assert s == s[..k] + [s[k]] + s[k + 1..];
    WordsSplit(s[..k], s[k], s[k + 1..]);
  }

  // ---------------------------------------------------------------- lines

  /** str.split(sep) for a one-character separator: always at least one piece. */
  function SplitOn(s: string, sep: char): (parts: seq<string>)
    ensures |parts| >= 1
    ensures forall k | 0 <= k < |parts| :: sep !in parts[k]
    decreases |s|
  {
    if sep !in s then [s]
    else
      var i := IndexOf(s, sep);
      [s[..i]] + SplitOn(s[i + 1..], sep)
  }

  function IndexOf(s: string, c: char): (i: nat)
    requires c in s
    ensures i < |s| && s[i] == c && c !in s[..i]
  {
    if s[0] == c then 0 else 1 + IndexOf(s[1..], c)
  }

  /** sep.join(parts) */
  function JoinOn(parts: seq<string>, sep: char): string
  {
    if parts == [] then []
    else if |parts| == 1 then parts[0]
    else parts[0] + [sep] + JoinOn(parts[1..], sep)
  }

  /** Splitting on a separator loses nothing: joining the pieces gives the text back. */
  lemma {:induction false} JoinSplitOn(s: string, sep: char)
    ensures JoinOn(SplitOn(s, sep), sep) == s
    decreases |s|
  {
    if sep in s {
      var i := IndexOf(s, sep);
      var rest := SplitOn(s[i + 1..], sep);
      assert SplitOn(s, sep) == [s[..i]] + rest;
      assert JoinOn([s[..i]] + rest, sep) == s[..i] + [sep] + JoinOn(rest, sep) by {
        assert ([s[..i]] + rest)[1..] == rest;
      }
      JoinSplitOn(s[i + 1..], sep);
      assert s == s[..i] + [sep] + s[i + 1..];
    }
  }
}
