/** What a correctly translated production prints, said of the words of its line and of the two tables. */
module ProductionTexts {
  import opened GrammarTranslator
  import opened Wrappers

  ghost function Quotes(n: nat): string {
    seq(n, _ => '\'')
  }

  /** The text of a keyword: between its quotes if it is quoted at both ends, else that of the mapping, else
      the word itself. */
  ghost predicate HasText(c: Config, w: string, text: string) {
    if w != "" && w[0] == '\'' && w[|w| - 1] == '\'' then
      && (exists a: nat, b: nat :: w == Quotes(a) + text + Quotes(b))
      && (text != "" ==> text[0] != '\'' && text[|text| - 1] != '\'')
    else if w in c.mapping then text == c.mapping[w]
    else text == w
  }

  /** Word `w`, the `k`-th one counted from 1: a word that is no keyword stands for its symbol; a keyword
      for its text in upper case, or nothing if that is empty. */
  ghost predicate PrintsAs(c: Config, w: string, k: nat, items: seq<Item>) {
    if '\'' !in w && w !in c.totalKeywords then items == [Sym(k)]
    else exists text: string :: HasText(c, w, text) && items == if text == "" then [] else [Word(c.upper(text))]
  }

  ghost function Joined(parts: seq<seq<Item>>): seq<Item> {
    if parts == [] then [] else parts[0] + Joined(parts[1..])
  }

  // ---------- Stripping ----------

  lemma {:induction false} StripLeftIs(s: string) returns (a: nat)
    ensures s == Quotes(a) + StripLeft(s, IsQuote)
    ensures StripLeft(s, IsQuote) != "" ==> StripLeft(s, IsQuote)[0] != '\''
  {
    if s != "" && s[0] == '\'' {
      var b := StripLeftIs(s[1..]);
      a := b + 1;
      assert Quotes(a) == ['\''] + Quotes(b);
    } else {
      a := 0;
    }
  }

  lemma {:induction false} StripRightIs(s: string) returns (b: nat)
    ensures s == StripRight(s, IsQuote) + Quotes(b)
    ensures var r := StripRight(s, IsQuote); r != "" ==> r[|r| - 1] != '\'' && r[0] == s[0]
  {
    if s != "" && s[|s| - 1] == '\'' {
      var m := |s| - 1;
      var a := StripRightIs(s[..m]);
      b := a + 1;
      assert Quotes(b) == Quotes(a) + ['\''];
      assert s == s[..m] + ['\''];
    } else {
      b := 0;
    }
  }

  lemma TextIs(c: Config, t: Token)
    requires IsKeyword(c, t)
    ensures HasText(c, t.word, Text(c, t))
  {
    var w := t.word;
    if w != "" && w[0] == '\'' && w[|w| - 1] == '\'' {
      var a := StripLeftIs(w);
      var l := StripLeft(w, IsQuote);
      var b := StripRightIs(l);
      assert w == Quotes(a) + (Text(c, t) + Quotes(b)) == Quotes(a) + Text(c, t) + Quotes(b);
    }
  }

  lemma ItemsAre(c: Config, t: Token)
    ensures PrintsAs(c, t.word, t.index + 1, ItemsOf(c, t))
  {
    hide HasText, Text;
    if IsKeyword(c, t) { TextIs(c, t); }
  }

  lemma {:induction false} PrintedParts(c: Config, tokens: seq<Token>, i: nat) returns (parts: seq<seq<Item>>)
    requires Numbered(tokens) && i <= |tokens|
    ensures |parts| == |tokens| - i && Joined(parts) == Printed(c, tokens, i, |tokens|)
    ensures forall k :: 0 <= k < |parts| ==> PrintsAs(c, tokens[i + k].word, i + k + 1, parts[k])
    decreases |tokens| - i
  {
    hide PrintsAs, ItemsOf;
    if i == |tokens| {
      parts := [];
    } else {
      var rest := PrintedParts(c, tokens, i + 1);
      ItemsAre(c, tokens[i]);
      parts := [ItemsOf(c, tokens[i])] + rest;
      assert parts[1..] == rest;
      forall k | 0 <= k < |parts| ensures PrintsAs(c, tokens[i + k].word, i + k + 1, parts[k]) {
        if k > 0 { assert parts[k] == rest[k - 1]; }
      }
    }
  }

  lemma {:induction false} PrecIs(words: seq<string>) returns (n: nat)
    ensures n <= |words| && BeforePrec(words) == words[..n]
    ensures (forall k :: 0 <= k < n ==> words[k] != "%prec") && (n < |words| ==> words[n] == "%prec")
  {
    if words == [] || words[0] == "%prec" {
      n := 0;
    } else {
      var m := PrecIs(words[1..]);
      n := m + 1;
      assert words[..n] == [words[0]] + words[1..][..m];
    }
  }

  /** The IR built for a production that is translated correctly prints nothing for a comment. For a line of
      words it prints the words before `%prec`, one after the other. */
  lemma CorrectlyPrinted(c: Config, line: Line, irType: string, body: seq<Stmt>) returns (n: nat, parts: seq<seq<Item>>)
    requires Translated(c, TokensOf(line), irType, body) && !Mistranslated(c, line)
    ensures Exec(body).Some? && Exec(body).value.result.Some?
    ensures line.Comment? ==> Linear(Exec(body).value.result) == []
    ensures line.Words? ==>
      && n <= |line.words| && |parts| == n && Linear(Exec(body).value.result) == Joined(parts)
      && (forall k :: 0 <= k < n ==> line.words[k] != "%prec" && PrintsAs(c, line.words[k], k + 1, parts[k]))
      && (n < |line.words| ==> line.words[n] == "%prec")
  {
    hide Linear, Exec, PrintsAs, Printed, Mistranslated;
    TranslationIsExact(c, line, irType, body);
    n, parts := 0, [];
    if line.Words? {
      n := PrecIs(line.words);
      parts := PrintedParts(c, TokensOf(line), 0);
    }
  }

  // ---------- The line ----------

  /** A line is a comment exactly if, without the blanks around it, it is enclosed in comment signs; what
      is stripped off a line are blanks, and no blank is left at either end. */
  lemma LineIs(text: string) returns (a: string, line: string, b: string)
    ensures text == a + line + b && (forall ch :: ch in a + b ==> IsBlank(ch))
    ensures line != "" ==> !IsBlank(line[0]) && !IsBlank(line[|line| - 1])
    ensures LineOf(text) ==
      if |line| >= 2 && line[0] == '/' && line[1] == '*' && line[|line| - 2] == '*' && line[|line| - 1] == '/'
      then Comment(line) else Words(Split(line))
  {
    var l;
    a, l := BlanksLeft(text);
    line, b := BlanksRight(l);
    assert |line| >= 2 ==>
      line[..2] == [line[0], line[1]] && line[|line| - 2..] == [line[|line| - 2], line[|line| - 1]];
  }

  lemma {:induction false} BlanksLeft(s: string) returns (a: string, l: string)
    ensures s == a + l && l == StripLeft(s, IsBlank) && (forall ch :: ch in a ==> IsBlank(ch))
    ensures l != "" ==> !IsBlank(l[0])
  {
    hide IsBlank;
    if s != "" && IsBlank(s[0]) {
      var b;
      b, l := BlanksLeft(s[1..]);
      a := [s[0]] + b;
    } else {
      a, l := "", s;
    }
  }

  lemma {:induction false} BlanksRight(s: string) returns (r: string, b: string)
    ensures s == r + b && r == StripRight(s, IsBlank) && (forall ch :: ch in b ==> IsBlank(ch))
    ensures r != "" ==> !IsBlank(r[|r| - 1]) && r[0] == s[0]
  {
    hide IsBlank;
    if s != "" && IsBlank(s[|s| - 1]) {
      var m := |s| - 1;
      var a;
      r, a := BlanksRight(s[..m]);
      b := a + [s[m]];
      assert s == s[..m] + [s[m]];
    } else {
      r, b := s, "";
    }
  }
}
