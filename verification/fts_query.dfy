/**
 * Turning user input into a full-text MATCH expression in which nothing is syntax:
 * every word becomes a quoted token, and lexing the expression gives the words back.
 */
module FtsQuery {
  import opened Events
  import opened Text

  const QUOTE: char := '"'

  predicate IsWord(w: string) {
    w != "" && forall c :: c in w ==> !IsBlank(c)
  }

  /** Runs of non-blank characters, in order. */
  function Words(s: string): (words: seq<string>)
    ensures forall i :: 0 <= i < |words| ==> IsWord(words[i])
  {
    if s == "" then []
    else
      var c := s[|s| - 1];
      var before := s[..|s| - 1];
      var rest := Words(before);
      if IsBlank(c) then rest
      else if before == "" || IsBlank(before[|before| - 1]) || rest == [] then rest + [[c]]
      else
        var last := rest[|rest| - 1];
        assert forall x :: x in last + [c] ==> x in last || x == c;
        rest[..|rest| - 1] + [last + [c]]
  }

  /** `word` tells letters and digits from the rest. */
  predicate Searchable(token: string, word: char -> bool) {
    exists c :: c in token && word(c)
  }

  function Tokens(words: seq<string>, word: char -> bool): (tokens: seq<string>)
    ensures forall t :: t in tokens <==> t in words && Searchable(t, word)
  {
    if words == [] then []
    else
      var n := |words| - 1;
      var rest := Tokens(words[..n], word);
      assert words == words[..n] + [words[n]];
      if Searchable(words[n], word) then rest + [words[n]] else rest
  }

  function Doubled(token: string): string {
    if token == "" then ""
    else (if token[0] == QUOTE then [QUOTE, QUOTE] else [token[0]]) + Doubled(token[1..])
  }

  function Quoted(token: string): string {
    [QUOTE] + Doubled(token) + [QUOTE]
  }

  const OR: string := " OR "

  function ToFtsMatch(query: string, word: char -> bool): Option<string> {
    var tokens := Tokens(Words(query), word);
    if tokens == [] then None
    else Some(Join(seq(|tokens|, i requires 0 <= i < |tokens| => Quoted(tokens[i])), OR))
  }

  // --- how the engine reads such an expression ----------------------------------------------

  datatype Lexed = Lexed(token: string, rest: string)

  /** The rest of a string literal: a doubled quote is a quote, a single one ends it. */
  function ReadString(s: string): Option<Lexed> {
    if s == "" then None
    else if s[0] != QUOTE then
      var more := ReadString(s[1..]);
      if more.None? then None else Some(Lexed([s[0]] + more.value.token, more.value.rest))
    else if |s| > 1 && s[1] == QUOTE then
      var more := ReadString(s[2..]);
      if more.None? then None else Some(Lexed([QUOTE] + more.value.token, more.value.rest))
    else Some(Lexed("", s[1..]))
  }

  /** String literals with ` OR ` between them; anything else is not read. */
  function ReadAlternatives(s: string): Option<seq<string>>
    decreases |s|
  {
    if s == "" || s[0] != QUOTE then None
    else
      var first := ReadString(s[1..]);
      if first.None? then None
      else
        var rest := first.value.rest;
        if rest == "" then Some([first.value.token])
        else if |rest| < |s| && OR <= rest then
          var more := ReadAlternatives(rest[|OR|..]);
          if more.None? then None else Some([first.value.token] + more.value)
        else None
  }

  lemma ReadOneChar(c: char, tail: string, read: Lexed)
    requires ReadString(tail) == Some(read)
    ensures c != QUOTE ==> ReadString([c] + tail) == Some(Lexed([c] + read.token, read.rest))
    ensures ReadString([QUOTE, QUOTE] + tail) == Some(Lexed([QUOTE] + read.token, read.rest))
  {
    assert ([c] + tail)[1..] == tail && ([QUOTE, QUOTE] + tail)[2..] == tail;
  }

  lemma ReadEnd(rest: string)
    requires rest == "" || rest[0] != QUOTE
    ensures ReadString([QUOTE] + rest) == Some(Lexed("", rest))
  {
    assert ([QUOTE] + rest)[1..] == rest;
  }

  lemma {:induction false} ReadUndoesQuoting(token: string, rest: string)
    requires rest == "" || rest[0] != QUOTE
    ensures ReadString(Doubled(token) + [QUOTE] + rest) == Some(Lexed(token, rest))
    decreases |token|
  {
    hide ReadString;
    if token == "" {
      ReadEnd(rest);
      assert Doubled(token) + [QUOTE] + rest == [QUOTE] + rest;
    } else {
      var tail := Doubled(token[1..]) + [QUOTE] + rest;
      ReadUndoesQuoting(token[1..], rest);
      ReadOneChar(token[0], tail, Lexed(token[1..], rest));
      assert Doubled(token) + [QUOTE] + rest == (if token[0] == QUOTE then [QUOTE, QUOTE] else [token[0]]) + tail;
      assert token == [token[0]] + token[1..];
    }
  }

  lemma {:induction false} ReadUndoesJoin(tokens: seq<string>, quoted: seq<string>)
    requires tokens != [] && |quoted| == |tokens| && forall i :: 0 <= i < |tokens| ==> quoted[i] == Quoted(tokens[i])
    ensures ReadAlternatives(Join(quoted, OR)) == Some(tokens)
    decreases |tokens|
  {
    hide Doubled, ReadString;
    var s := Join(quoted, OR);
    if |tokens| == 1 {
      assert s[1..] == Doubled(tokens[0]) + [QUOTE] + "";
      ReadUndoesQuoting(tokens[0], "");
      assert s == quoted[0] && tokens == [tokens[0]];
    } else {
      var rest := OR + Join(quoted[1..], OR);
      assert s == quoted[0] + rest;
      assert s[1..] == Doubled(tokens[0]) + [QUOTE] + rest;
      ReadUndoesQuoting(tokens[0], rest);
      ReadUndoesJoin(tokens[1..], quoted[1..]);
      assert rest[|OR|..] == Join(quoted[1..], OR);
      assert tokens == [tokens[0]] + tokens[1..];
    }
  }

  /** The engine searches for exactly the searchable words of the query, in order, whatever characters they hold. */
  lemma MatchReadsBackTheWords(query: string, word: char -> bool)
    ensures var tokens := Tokens(Words(query), word); var expression := ToFtsMatch(query, word);
            && (expression.None? <==> forall w :: w in Words(query) ==> !Searchable(w, word))
            && (expression.Some? ==> ReadAlternatives(expression.value) == Some(tokens))
  {
    hide Doubled, ReadString, Words, Searchable, ReadAlternatives, Join;
    var tokens := Tokens(Words(query), word);
    if tokens == [] {
    } else {
      assert tokens[0] in tokens;
      ReadUndoesJoin(tokens, seq(|tokens|, i requires 0 <= i < |tokens| => Quoted(tokens[i])));
    }
  }

  function Flat(words: seq<string>): string {
    if words == [] then "" else Flat(words[..|words| - 1]) + words[|words| - 1]
  }

  function WithoutBlanks(s: string): string {
    if s == "" then ""
    else
      var rest := WithoutBlanks(s[..|s| - 1]);
      if IsBlank(s[|s| - 1]) then rest else rest + [s[|s| - 1]]
  }

  /** Splitting drops blanks and nothing else. */
  lemma {:induction false} WordsHoldEverything(s: string)
    ensures Flat(Words(s)) == WithoutBlanks(s)
  {
    if s != "" {
      var before, c := s[..|s| - 1], s[|s| - 1];
      WordsHoldEverything(before);
      var rest := Words(before);
      if !IsBlank(c) {
        assert (rest + [[c]])[..|rest|] == rest;
        if rest != [] {
          var longer := rest[..|rest| - 1] + [rest[|rest| - 1] + [c]];
          assert longer[..|longer| - 1] == rest[..|rest| - 1];
        }
      }
    }
  }

  // --- which words, and which of them are searched for ------------------------------------------

  ghost function LastLonger(words: seq<string>, c: char): seq<string>
    requires words != []
  {
    words[..|words| - 1] + [words[|words| - 1] + [c]]
  }

  lemma {:induction false} LastWordStands(s: string)
    requires s != "" && !Blank(s[|s| - 1])
    ensures Words(s) != []
  {
  }

  lemma {:induction false} OneMoreChar(s: string, c: char)
    ensures Blank(c) ==> Words(s + [c]) == Words(s)
    ensures !Blank(c) && (s == "" || Blank(s[|s| - 1])) ==> Words(s + [c]) == Words(s) + [[c]]
    ensures !Blank(c) && s != "" && !Blank(s[|s| - 1]) ==>
              Words(s) != [] && Words(s + [c]) == LastLonger(Words(s), c)
  {
    hide IsWord;
    var longer := s + [c];
    assert longer[..|longer| - 1] == s && longer[|longer| - 1] == c;
    if s != "" && !Blank(s[|s| - 1]) { LastWordStands(s); }
  }

  lemma {:induction false} BlanksEndNothing(s: string, b: string)
    requires Blanks(b)
    ensures Words(s + b) == Words(s)
  {
    hide Words;
    if b == "" {
      assert s + b == s;
    } else {
      var n := |b| - 1;
      assert b[n] in b && s + b == (s + b[..n]) + [b[n]];
      assert forall c :: c in b[..n] ==> c in b;
      BlanksEndNothing(s, b[..n]);
      OneMoreChar(s + b[..n], b[n]);
    }
  }

  lemma LongerInBoth(front: seq<string>, words: seq<string>, c: char)
    requires words != []
    ensures LastLonger(front + words, c) == front + LastLonger(words, c)
  {
  }

  /** Blanks separate: the words before them, then the words after them. */
  lemma {:induction false} WordsJoin(s: string, b: string, t: string)
    requires Blanks(b) && b != ""
    ensures Words(s + b + t) == Words(s) + Words(t)
    decreases |t|
  {
    hide Words, LastLonger;
    if t == "" {
      assert s + b + t == s + b;
      BlanksEndNothing(s, b);
      NoWords();
    } else {
      var n := |t| - 1;
      var front, before := t[..n], s + b + t[..n];
      assert t == front + [t[n]] && s + b + t == before + [t[n]];
      WordsJoin(s, b, front);
      OneMoreChar(before, t[n]);
      OneMoreChar(front, t[n]);
      if n == 0 {
        assert b[|b| - 1] in b && before[|before| - 1] == b[|b| - 1];
      } else {
        assert before[|before| - 1] == front[n - 1];
        if !Blank(t[n]) && !Blank(front[n - 1]) { LongerInBoth(Words(s), Words(front), t[n]); }
      }
    }
  }

  lemma {:induction false} WordsOfOne(w: string)
    requires w != "" && forall c :: c in w ==> !Blank(c)
    ensures Words(w) == [w]
  {
    var n := |w| - 1;
    assert w == w[..n] + [w[n]];
    assert w[n] in w;
    if n == 0 {
    } else {
      assert w[n - 1] in w && forall c :: c in w[..n] ==> c in w;
      WordsOfOne(w[..n]);
    }
  }

  lemma {:induction false} TokensJoin(a: seq<string>, b: seq<string>, word: char -> bool)
    ensures Tokens(a + b, word) == Tokens(a, word) + Tokens(b, word)
  {
    if b == [] {
      assert a + b == a;
    } else {
      var n := |b| - 1;
      assert (a + b)[..|a + b| - 1] == a + b[..n];
      TokensJoin(a, b[..n], word);
    }
  }

  /** A query of words with blanks around them and between them. */
  ghost predicate Spaced(query: string, words: seq<string>)
    decreases |words|
  {
    if words == [] then Blanks(query)
    else
      exists lead, gap, rest ::
        && query == lead + words[0] + gap + rest
        && Blanks(lead) && words[0] != "" && (forall c :: c in words[0] ==> !Blank(c)) && Blanks(gap)
        && (if |words| == 1 then rest == "" else gap != "" && Spaced(rest, words[1..]))
  }

  /** Some character of the word counts as a letter or digit. */
  ghost predicate HasLetter(w: string, word: char -> bool) {
    exists i :: 0 <= i < |w| && word(w[i])
  }

  ghost function WithLetters(words: seq<string>, word: char -> bool): seq<string> {
    if words == [] then []
    else (if HasLetter(words[0], word) then [words[0]] else []) + WithLetters(words[1..], word)
  }

  lemma {:induction false} SpacedSplits(query: string, words: seq<string>)
    requires Spaced(query, words)
    ensures Words(query) == words
    decreases |words|
  {
    hide Words;
    if words == [] {
      assert "" + query == query;
      BlanksEndNothing("", query);
      NoWords();
    } else {
      var lead, gap, rest :|
        && query == lead + words[0] + gap + rest
        && Blanks(lead) && words[0] != "" && (forall c :: c in words[0] ==> !Blank(c)) && Blanks(gap)
        && (if |words| == 1 then rest == "" else gap != "" && Spaced(rest, words[1..]));
      WordsOfOne(words[0]);
      LeadingBlanks(lead, words[0]);
      assert words == [words[0]] + words[1..];
      if |words| == 1 {
        assert query == (lead + words[0]) + gap;
        BlanksEndNothing(lead + words[0], gap);
      } else {
        SpacedSplits(rest, words[1..]);
        WordsJoin(lead + words[0], gap, rest);
      }
    }
  }

  lemma NoWords()
    ensures Words("") == []
  {
  }

  lemma LeadingBlanks(lead: string, w: string)
    requires Blanks(lead)
    ensures Words(lead + w) == Words(w)
  {
    hide Words;
    NoWords();
    if lead == "" {
      assert lead + w == w;
    } else {
      assert "" + lead + w == lead + w;
      WordsJoin("", lead, w);
      assert Words("") + Words(w) == Words(w);
    }
  }

  lemma {:induction false} TokensAreTold(words: seq<string>, word: char -> bool)
    ensures Tokens(words, word) == WithLetters(words, word)
  {
    if words != [] {
      TokensAreTold(words[1..], word);
      TokensJoin([words[0]], words[1..], word);
      assert words == [words[0]] + words[1..];
      assert [words[0]][..0] == [] && Tokens([], word) == [];
      assert Searchable(words[0], word) <==> HasLetter(words[0], word);
    }
  }

  /**
   * However its words are spaced, a query asks for those of its words that hold a letter or digit, in
   * order; without any there is no expression.
   */
  lemma QueryAsksForItsWords(query: string, words: seq<string>, word: char -> bool)
    requires Spaced(query, words)
    ensures var asked := WithLetters(words, word); var expression := ToFtsMatch(query, word);
            if asked == [] then expression.None?
            else expression.Some? && ReadAlternatives(expression.value) == Some(asked)
  {
    hide Words, ReadAlternatives, Spaced;
    SpacedSplits(query, words);
    TokensAreTold(words, word);
    MatchReadsBackTheWords(query, word);
  }
}
