/** From contract text to the token stream the validator reads: the text is stripped and
    split into lines, and each line with a symbol contributes that symbol, in order. */
module Pipeline {
  import opened Symbols
  import opened Text
  import opened SymbolMapper

  /** The symbols that classify gives the lines, in line order, skipping the lines it gives
      none. */
  function Tokens(classify: string -> Option<Symbol>, lines: seq<string>): (ts: seq<Symbol>)
    ensures |ts| <= |lines|
  {
    if lines == [] then []
    else
      var init := Tokens(classify, lines[..|lines| - 1]);
      match classify(lines[|lines| - 1])
      case None => init
      case Some(s) => init + [s]
  }

  /** One more line adds its symbol, if it has one, to the end of the stream. */
  lemma TokensStep(classify: string -> Option<Symbol>, lines: seq<string>, i: nat)
    requires i < |lines|
    ensures Tokens(classify, lines[..i + 1]) ==
      Tokens(classify, lines[..i]) + (if classify(lines[i]).Some? then [classify(lines[i]).value] else [])
  {
    assert lines[..i + 1][..i] == lines[..i];
  }

  /** Building the token stream: the loop over the lines of the stripped text. */
  method TokenStream(rawText: string) returns (stream: seq<Symbol>)
    ensures stream == Tokens(GetSymbol, SplitOn(Strip(rawText), '\n'))
  {
    var classify: string -> Option<Symbol> := GetSymbol;
    var lines := SplitOn(Strip(rawText), '\n');
    stream := [];
    var i := 0;
    while i < |lines|
      invariant 0 <= i <= |lines|
      invariant stream == Tokens(classify, lines[..i])
    {
      TokensStep(classify, lines, i);
      var symbol := classify(lines[i]);
      if symbol.Some? {
        stream := stream + [symbol.value];
      }
      i := i + 1;
    }
    assert lines[..i] == lines;
  }

  /** The positions of the lines that have a symbol, in increasing order. */
  function Positions(classify: string -> Option<Symbol>, lines: seq<string>): (idx: seq<nat>)
    ensures forall k | 0 <= k < |idx| :: idx[k] < |lines|
    ensures forall k | 0 < k < |idx| :: idx[k - 1] < idx[k]
  {
    if lines == [] then []
    else
      var n := |lines| - 1;
      var idx := Positions(classify, lines[..n]);
      if classify(lines[n]).Some? then idx + [n] else idx
  }

  /** The stream keeps exactly the symbols of the lines that have one, in order: the k-th
      token is the symbol of the k-th such line, and every line with a symbol is one of them. */
  lemma PositionsPickTokens(classify: string -> Option<Symbol>, lines: seq<string>)
    ensures var idx, ts := Positions(classify, lines), Tokens(classify, lines);
      && |idx| == |ts|
      && (forall k | 0 <= k < |idx| :: classify(lines[idx[k]]) == Some(ts[k]))
      && (forall i | 0 <= i < |lines| && classify(lines[i]).Some? :: i in idx)
  {
    PositionsSymbols(classify, lines);
    PositionsComplete(classify, lines);
  }

  lemma {:induction false} PositionsSymbols(classify: string -> Option<Symbol>, lines: seq<string>)
    ensures var idx, ts := Positions(classify, lines), Tokens(classify, lines);
      && |idx| == |ts|
      && forall k | 0 <= k < |idx| :: classify(lines[idx[k]]) == Some(ts[k])
  {
    if lines != [] {
      var n := |lines| - 1;
      var init := lines[..n];
      PositionsSymbols(classify, init);
      var idx := Positions(classify, init);
      assert forall k | 0 <= k < |idx| :: lines[idx[k]] == init[idx[k]];
    }
  }

  lemma {:induction false} PositionsComplete(classify: string -> Option<Symbol>, lines: seq<string>)
    ensures forall i | 0 <= i < |lines| && classify(lines[i]).Some? :: i in Positions(classify, lines)
  {
    if lines != [] {
      var n := |lines| - 1;
      var init := lines[..n];
      PositionsComplete(classify, init);
      assert forall i | 0 <= i < n :: lines[i] == init[i];
    }
  }

  /** The stream of two blocks of lines is the stream of the first followed by the stream
      of the second. */
  lemma {:induction false} TokensAppend(classify: string -> Option<Symbol>, a: seq<string>, b: seq<string>)
    ensures Tokens(classify, a + b) == Tokens(classify, a) + Tokens(classify, b)
    decreases |b|
  {
    if b == [] {
      assert a + b == a;
    } else {
      var b' := b[..|b| - 1];
      TokensAppend(classify, a, b');
      assert (a + b)[..|a + b| - 1] == a + b';
      assert (a + b)[|a + b| - 1] == b[|b| - 1];
    }
  }

  /** A blank line adds nothing to the stream, wherever it stands. */
  lemma BlankLineSkipped(a: seq<string>, blank: string, b: seq<string>)
    requires AllSpace(blank)
    ensures Tokens(GetSymbol, a + [blank] + b) == Tokens(GetSymbol, a + b)
  {
    var ta := Tokens(GetSymbol, a);
    assert Tokens(GetSymbol, [blank]) == [] by {
      BlankLineHasNoSymbol(blank);
      assert [blank][..0] == [];
    }
    assert Tokens(GetSymbol, a + [blank]) == ta by {
      TokensAppend(GetSymbol, a, [blank]);
      assert ta + [] == ta;
    }
    TokensAppend(GetSymbol, a + [blank], b);
    TokensAppend(GetSymbol, a, b);
  }
}
