/** `tokenize_relaxed` of read-centerline.cpp: commas, semicolons and tabs are
    blanked out, then the line is split into white-space separated words the way
    `std::istringstream >> std::string` reads them. */
module Tokenize {
  import opened CNumber

  /** The characters `tokenize_relaxed` turns into a space. */
  predicate IsDelimiter(c: char) {
    c == ',' || c == ';' || c == '\t'
  }

  /** A character that can never be part of a relaxed token. */
  predicate IsSeparator(c: char) {
    IsDelimiter(c) || IsSpace(c)
  }

  /** The line after the in-place rewrite: every delimiter replaced by a space. */
  function Blanked(line: string): string {
    seq(|line|, i requires 0 <= i < |line| => if IsDelimiter(line[i]) then ' ' else line[i])
  }

  /** The first index at or after `i` that holds white space, or the length of `s`. */
  function WordEnd(s: string, i: nat): (j: nat)
    requires i <= |s|
    ensures i <= j <= |s|
    ensures forall k :: i <= k < j ==> !IsSpace(s[k])
    ensures j < |s| ==> IsSpace(s[j])
    decreases |s| - i
  {
    if i < |s| && !IsSpace(s[i]) then WordEnd(s, i + 1) else i
  }

  /** The words `std::istringstream >> tok` extracts from `s`, in order: maximal runs
      of characters that are not white space. */
  function Tokens(s: string): seq<string>
    decreases |s|
  {
    if s == [] then []
    else if IsSpace(s[0]) then Tokens(s[1..])
    else
      var j := WordEnd(s, 0);
      [s[..j]] + Tokens(s[j..])
  }

  /** The result of `tokenize_relaxed(line)`. */
  function RelaxedTokens(line: string): seq<string> {
    Tokens(Blanked(line))
  }

  /** A non-empty word without white space. */
  predicate IsWord(t: string) {
    t != [] && forall k :: 0 <= k < |t| ==> !IsSpace(t[k])
  }

  /** The characters of `s` that are not white space, in order. */
  function NonBlank(s: string): string {
    if s == [] then []
    else (if IsSpace(s[0]) then [] else [s[0]]) + NonBlank(s[1..])
  }

  /** The characters of `line` that are neither delimiters nor white space, in order. */
  function NonSeparator(line: string): string {
    if line == [] then []
    else (if IsSeparator(line[0]) then [] else [line[0]]) + NonSeparator(line[1..])
  }

  /** All tokens joined back together. */
  function Concat(ts: seq<string>): string {
    if ts == [] then [] else ts[0] + Concat(ts[1..])
  }

  /** Two strings with white space at the same places and the same characters elsewhere. */
  predicate SameWords(a: string, b: string) {
    |a| == |b| && forall k :: 0 <= k < |a| ==> a[k] == b[k] || (IsSpace(a[k]) && IsSpace(b[k]))
  }

  /** `WordEnd` is determined by its contract. */
  lemma {:induction false} WordEndAt(s: string, i: nat, j: nat)
    requires i <= j <= |s|
    requires forall k :: i <= k < j ==> !IsSpace(s[k])
    requires j < |s| ==> IsSpace(s[j])
    ensures WordEnd(s, i) == j
  {
  }

  /** The in-place rewrite of `tokenize_relaxed`: each delimiter in `buf` becomes a space. */
  method BlankDelimiters(buf: array<char>)
    modifies buf
    ensures buf[..] == Blanked(old(buf[..]))
  {
    ghost var line := buf[..];
    for i := 0 to buf.Length
      invariant forall k :: 0 <= k < i ==> buf[k] == Blanked(line)[k]
      invariant forall k :: i <= k < buf.Length ==> buf[k] == line[k]
    {
      if IsDelimiter(buf[i]) {
        buf[i] := ' ';
      }
    }
  }

  /** A word starting at `i` and ending at white space or the end is the next token. */
  lemma {:induction false} NextToken(s: string, i: nat, j: nat)
    requires i < j <= |s|
    requires forall k :: i <= k < j ==> !IsSpace(s[k])
    requires j < |s| ==> IsSpace(s[j])
    ensures Tokens(s[i..]) == [s[i..j]] + Tokens(s[j..])
  {
    var t := s[i..];
    WordEndAt(t, 0, j - i);
    assert t[..j - i] == s[i..j];
    assert t[j - i..] == s[j..];
  }

  /** White space before the next token is skipped. */
  lemma {:induction false} SkipBlank(s: string, i: nat)
    requires i < |s| && IsSpace(s[i])
    ensures Tokens(s[i..]) == Tokens(s[i + 1..])
  {
    assert s[i..][1..] == s[i + 1..];
  }

  /** The `while (iss >> tok) toks.push_back(tok);` loop over the rewritten line. */
  method ExtractWords(s: string) returns (toks: seq<string>)
    ensures toks == Tokens(s)
  {
    toks := [];
    var i := 0;
    while i < |s|
      invariant 0 <= i <= |s|
      invariant Tokens(s) == toks + Tokens(s[i..])
    {
      if IsSpace(s[i]) {
        SkipBlank(s, i);
        i := i + 1;
      } else {
        var j := i;
        while j < |s| && !IsSpace(s[j])
          invariant i <= j <= |s|
          invariant forall k :: i <= k < j ==> !IsSpace(s[k])
        {
          j := j + 1;
        }
        NextToken(s, i, j);
        toks := toks + [s[i..j]];
        i := j;
      }
    }
    assert s[|s|..] == [];
  }

  /** `tokenize_relaxed` as the source runs it: rewrite a copy of the line in place,
      then extract words one by one from a string stream over it. */
  method TokenizeRelaxed(line: string) returns (toks: seq<string>)
    ensures toks == RelaxedTokens(line)
  {
    var buf := new char[|line|](i requires 0 <= i < |line| => line[i]);
    assert buf[..] == line;
    BlankDelimiters(buf);
    toks := ExtractWords(buf[..]);
  }

  /** Every token is a non-empty word without white space. */
  lemma {:induction false} TokensAreWords(s: string)
    ensures forall k :: 0 <= k < |Tokens(s)| ==> IsWord(Tokens(s)[k])
    decreases |s|
  {
    if s == [] {
    } else if IsSpace(s[0]) {
      TokensAreWords(s[1..]);
    } else {
      var j := WordEnd(s, 0);
      TokensAreWords(s[j..]);
    }
  }

  /** The tokens, joined, are exactly the non-blank characters of `s` in order:
      nothing is lost, duplicated or reordered. */
  lemma {:induction false} TokensKeepNonBlank(s: string)
    ensures Concat(Tokens(s)) == NonBlank(s)
    decreases |s|
  {
    if s == [] {
    } else if IsSpace(s[0]) {
      TokensKeepNonBlank(s[1..]);
    } else {
      var j := WordEnd(s, 0);
      TokensKeepNonBlank(s[j..]);
      assert Tokens(s)[1..] == Tokens(s[j..]);
      WordIsNonBlank(s, j);
    }
  }

  /** A leading word contributes exactly its own characters to `NonBlank`. */
  lemma {:induction false} WordIsNonBlank(s: string, j: nat)
    requires j <= |s|
    requires forall k :: 0 <= k < j ==> !IsSpace(s[k])
    ensures NonBlank(s) == s[..j] + NonBlank(s[j..])
    decreases j
  {
    if j > 0 {
      WordIsNonBlank(s[1..], j - 1);
      assert s[1..][j - 1..] == s[j..];
      assert s[..j] == [s[0]] + s[1..][..j - 1];
    }
  }

  /** Splitting depends only on where the white space is, not on which white space it is. */
  lemma {:induction false} SameWordsSameTokens(a: string, b: string)
    requires SameWords(a, b)
    ensures Tokens(a) == Tokens(b)
    decreases |a|
  {
    if a == [] {
    } else if IsSpace(a[0]) {
      SameWordsSameTokens(a[1..], b[1..]);
    } else {
      var j := WordEnd(a, 0);
      WordEndAt(b, 0, j);
      assert a[..j] == b[..j];
      SameWordsSameTokens(a[j..], b[j..]);
    }
  }

  /** Relaxed tokens are non-empty and hold no comma, semicolon, tab or other white space. */
  lemma {:induction false} RelaxedTokensAreClean(line: string)
    ensures forall k :: 0 <= k < |RelaxedTokens(line)| ==>
      var t := RelaxedTokens(line)[k];
      t != [] && forall i :: 0 <= i < |t| ==> !IsSeparator(t[i])
  {
    var s := Blanked(line);
    TokensAreWords(s);
    TokensKeepNonBlank(s);
    forall k | 0 <= k < |Tokens(s)|
      ensures forall i :: 0 <= i < |Tokens(s)[k]| ==> !IsDelimiter(Tokens(s)[k][i])
    {
      TokenFromBlanked(line, k);
    }
  }

  /** A token of the blanked line is a slice of it, so it holds no delimiter. */
  lemma {:induction false} TokenFromBlanked(line: string, k: nat)
    requires k < |Tokens(Blanked(line))|
    ensures forall i :: 0 <= i < |Tokens(Blanked(line))[k]| ==> !IsDelimiter(Tokens(Blanked(line))[k][i])
  {
    var s := Blanked(line);
    assert forall i :: 0 <= i < |s| ==> !IsDelimiter(s[i]);
    TokensDrawnFrom(s, k);
  }

  /** Every character of every token occurs in the string it came from. */
  lemma {:induction false} TokensDrawnFrom(s: string, k: nat)
    requires k < |Tokens(s)|
    ensures forall i :: 0 <= i < |Tokens(s)[k]| ==> Tokens(s)[k][i] in s
    decreases |s|
  {
    if IsSpace(s[0]) {
      TokensDrawnFrom(s[1..], k);
      forall i | 0 <= i < |Tokens(s)[k]| ensures Tokens(s)[k][i] in s {
        assert Tokens(s)[k][i] in s[1..];
      }
    } else {
      var j := WordEnd(s, 0);
      if k == 0 {
        forall i | 0 <= i < |Tokens(s)[0]| ensures Tokens(s)[0][i] in s {
          assert Tokens(s)[0][i] == s[i];
        }
      } else {
        TokensDrawnFrom(s[j..], k - 1);
        forall i | 0 <= i < |Tokens(s)[k]| ensures Tokens(s)[k][i] in s {
          assert Tokens(s)[k][i] in s[j..];
        }
      }
    }
  }

  /** Joined, the relaxed tokens are the line's characters other than delimiters and
      white space, in line order. */
  lemma {:induction false} RelaxedTokensKeepOrder(line: string)
    ensures Concat(RelaxedTokens(line)) == NonSeparator(line)
  {
    TokensKeepNonBlank(Blanked(line));
    BlankedNonBlank(line);
  }

  lemma {:induction false} BlankedNonBlank(line: string)
    ensures NonBlank(Blanked(line)) == NonSeparator(line)
    decreases |line|
  {
    if line != [] {
      BlankedNonBlank(line[1..]);
      assert Blanked(line)[1..] == Blanked(line[1..]);
    }
  }

  /** Choosing a comma, a semicolon, a tab or a space (or a run of them) between the
      same fields yields the same tokens. */
  lemma {:induction false} DelimiterChoiceIrrelevant(a: string, b: string)
    requires |a| == |b|
    requires forall k :: 0 <= k < |a| ==> a[k] == b[k] || (IsSeparator(a[k]) && IsSeparator(b[k]))
    ensures RelaxedTokens(a) == RelaxedTokens(b)
  {
    SameWordsSameTokens(Blanked(a), Blanked(b));
  }

  /** Blanking works character by character. */
  lemma {:induction false} BlankedConcat(a: string, b: string)
    ensures Blanked(a + b) == Blanked(a) + Blanked(b)
  {
  }

  /** A string of white space holds no token. */
  lemma {:induction false} NoTokensInBlanks(a: string)
    requires forall k :: 0 <= k < |a| ==> IsSpace(a[k])
    ensures Tokens(a) == []
    decreases |a|
  {
    if a != [] {
      NoTokensInBlanks(a[1..]);
    }
  }

  /** White space before a string does not change its tokens. */
  lemma {:induction false} TokensAfterBlanks(a: string, x: string)
    requires forall k :: 0 <= k < |a| ==> IsSpace(a[k])
    ensures Tokens(a + x) == Tokens(x)
    decreases |a|
  {
    if a != [] {
      var s := a + x;
      assert s != [] && IsSpace(s[0]);
      assert Tokens(s) == Tokens(s[1..]);
      assert s[1..] == a[1..] + x;
      TokensAfterBlanks(a[1..], x);
    } else {
      assert a + x == x;
    }
  }

  /** White space after a string does not change its tokens. */
  lemma {:induction false} TokensBeforeBlanks(x: string, b: string)
    requires forall k :: 0 <= k < |b| ==> IsSpace(b[k])
    ensures Tokens(x + b) == Tokens(x)
    decreases |x|
  {
    var s := x + b;
    if x == [] {
      assert s == b;
      NoTokensInBlanks(b);
    } else if IsSpace(x[0]) {
      assert s[1..] == x[1..] + b;
      TokensBeforeBlanks(x[1..], b);
    } else {
      var j := WordEnd(x, 0);
      WordEndAt(s, 0, j);
      assert s[..j] == x[..j];
      assert s[j..] == x[j..] + b;
      TokensBeforeBlanks(x[j..], b);
    }
  }

  /** Delimiters and white space around a line do not change its relaxed tokens. */
  lemma {:induction false} OuterSeparatorsIgnored(a: string, x: string, b: string)
    requires forall k :: 0 <= k < |a| ==> IsSeparator(a[k])
    requires forall k :: 0 <= k < |b| ==> IsSeparator(b[k])
    ensures RelaxedTokens(a + x + b) == RelaxedTokens(x)
  {
    BlanksOfSeparators(a);
    BlanksOfSeparators(b);
    BlankedConcat(a + x, b);
    BlankedConcat(a, x);
    assert Blanked(a + x + b) == Blanked(a) + (Blanked(x) + Blanked(b));
    TokensAfterBlanks(Blanked(a), Blanked(x) + Blanked(b));
    TokensBeforeBlanks(Blanked(x), Blanked(b));
  }

  /** Separators blank out to white space. */
  lemma {:induction false} BlanksOfSeparators(a: string)
    requires forall k :: 0 <= k < |a| ==> IsSeparator(a[k])
    ensures forall k :: 0 <= k < |Blanked(a)| ==> IsSpace(Blanked(a)[k])
  {
  }

  /** A word free of separators, as a CSV writer puts one in a field. */
  predicate IsField(w: string) {
    w != [] && forall k :: 0 <= k < |w| ==> !IsSeparator(w[k])
  }

  /** Words written one after another with `sep` between them. */
  function Join(ws: seq<string>, sep: char): string
    decreases |ws|
  {
    if ws == [] then []
    else if |ws| == 1 then ws[0]
    else ws[0] + [sep] + Join(ws[1..], sep)
  }

  /** A field is left alone by the blanking and is read as one token. */
  lemma {:induction false} FieldIsToken(w: string, rest: string)
    requires IsField(w)
    requires rest == [] || IsSpace(rest[0])
    ensures Blanked(w) == w
    ensures Tokens(w + rest) == [w] + Tokens(rest)
  {
    var s := w + rest;
    WordEndAt(s, 0, |w|);
    assert s[..|w|] == w;
    assert s[|w|..] == rest;
  }

  /** The blanked form of a field, a separator and more text. */
  lemma {:induction false} BlankedAfterField(w: string, sep: char, rest: string)
    requires IsField(w) && IsSeparator(sep)
    ensures Blanked(w + [sep] + rest) == w + (Blanked([sep]) + Blanked(rest))
    ensures IsSpace(Blanked([sep])[0])
  {
    BlankedConcat(w + [sep], rest);
    BlankedConcat(w, [sep]);
    assert Blanked(w) == w;
  }

  /** Round trip: separator-free fields joined by any delimiter or white-space
      character are split back into exactly those fields. */
  lemma {:induction false} JoinedFieldsSplitBack(ws: seq<string>, sep: char)
    requires IsSeparator(sep)
    requires forall i :: 0 <= i < |ws| ==> IsField(ws[i])
    ensures RelaxedTokens(Join(ws, sep)) == ws
    decreases |ws|
  {
    if |ws| == 1 {
      FieldIsToken(ws[0], []);
      assert ws[0] + [] == ws[0];
    } else if |ws| > 1 {
      var w := ws[0];
      var rest := Join(ws[1..], sep);
      var gap := Blanked([sep]);
      assert Tokens(Blanked(rest)) == ws[1..] by {
        JoinedFieldsSplitBack(ws[1..], sep);
      }
      assert Blanked(Join(ws, sep)) == w + (gap + Blanked(rest)) by {
        BlankedAfterField(w, sep, rest);
      }
      assert Tokens(w + (gap + Blanked(rest))) == [w] + Tokens(gap + Blanked(rest)) by {
        BlankedAfterField(w, sep, rest);
        FieldIsToken(w, gap + Blanked(rest));
      }
      assert Tokens(gap + Blanked(rest)) == Tokens(Blanked(rest)) by {
        BlankedAfterField(w, sep, rest);
        TokensAfterBlanks(gap, Blanked(rest));
      }
    }
  }

  /** A line that starts with a character other than a separator has a first
      relaxed token, and that token starts with the line's first character. */
  lemma {:induction false} FirstTokenStart(s: string)
    requires s != [] && !IsSeparator(s[0])
    ensures |RelaxedTokens(s)| > 0 && RelaxedTokens(s)[0] != [] && RelaxedTokens(s)[0][0] == s[0]
  {
    var b := Blanked(s);
    assert b[0] == s[0];
    var j := WordEnd(b, 0);
    assert Tokens(b) == [b[..j]] + Tokens(b[j..]);
  }
}
