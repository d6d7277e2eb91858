/** The compiler from yacc productions to actions that build an IR, and the meaning of the code it
    emits. */
module GrammarTranslator {
  import opened Wrappers

  const DEFAULT_IR_TYPE := "kUnknown"

  // ---------- Tokens ----------

  /** A production: one comment, or words separated by blanks. */
  datatype Line = Comment(text: string) | Words(words: seq<string>)

  datatype Token = Token(word: string, index: nat)

  /** The keyword tables, and the upper-casing of keyword texts. */
  datatype Config = Config(totalKeywords: set<string>, mapping: map<string, string>, upper: string -> string)

  predicate IsKeyword(c: Config, t: Token) {
    '\'' in t.word || t.word in c.totalKeywords
  }

  predicate IsQuote(ch: char) {
    ch == '\''
  }

  /** The characters that separate words. */
  predicate IsBlank(ch: char) {
    var k := ch as int;
    || 0x09 <= k <= 0x0d || 0x1c <= k <= 0x20 || k == 0x85 || k == 0xa0 || k == 0x1680
    || 0x2000 <= k <= 0x200a || k == 0x2028 || k == 0x2029 || k == 0x202f || k == 0x205f || k == 0x3000
  }

  function StripLeft(s: string, drop: char -> bool): string {
    if s != [] && drop(s[0]) then StripLeft(s[1..], drop) else s
  }

  function StripRight(s: string, drop: char -> bool): string {
    if s != [] && drop(s[|s| - 1]) then StripRight(s[..|s| - 1], drop) else s
  }

  function Strip(s: string, drop: char -> bool): string {
    StripRight(StripLeft(s, drop), drop)
  }

  predicate IsComment(s: string) {
    |s| >= 2 && s[..2] == "/*" && s[|s| - 2..] == "*/"
  }

  /** The length of the word that `s` starts with. */
  function WordLength(s: string): (n: nat)
    ensures n <= |s| && (forall i :: 0 <= i < n ==> !IsBlank(s[i])) && (n < |s| ==> IsBlank(s[n]))
  {
    if s == [] || IsBlank(s[0]) then 0 else WordLength(s[1..]) + 1
  }

  /** The longest stretches without blanks: they are not empty, and together they hold every character
      that is not a blank, in order. */
  function Split(s: string): (r: seq<string>)
    ensures forall w :: w in r ==> w != [] && forall ch :: ch in w ==> !IsBlank(ch)
    ensures Concat(r) == WithoutBlanks(s)
  {
    if s == [] then []
    else if IsBlank(s[0]) then Split(s[1..])
    else
      var n := WordLength(s);
      WithoutBlanksWord(s, n);
      assert ([s[..n]] + Split(s[n..]))[1..] == Split(s[n..]);
      [s[..n]] + Split(s[n..])
  }

  function Concat(ws: seq<string>): string {
    if ws == [] then "" else ws[0] + Concat(ws[1..])
  }

  function WithoutBlanks(s: string): string {
    if s == [] then "" else (if IsBlank(s[0]) then "" else [s[0]]) + WithoutBlanks(s[1..])
  }

  lemma {:induction false} WithoutBlanksWord(s: string, n: nat)
    requires n <= |s| && forall i :: 0 <= i < n ==> !IsBlank(s[i])
    ensures WithoutBlanks(s) == s[..n] + WithoutBlanks(s[n..])
  {
    if n > 0 {
      WithoutBlanksWord(s[1..], n - 1);
      assert s[1..][n - 1..] == s[n..];
      assert s[..n] == [s[0]] + s[1..][..n - 1];
    }
  }

  /** Words joined by single blanks are split at exactly these blanks. */
  lemma {:induction false} SplitOfJoined(ws: seq<string>)
    requires forall w :: w in ws ==> IsWord(w)
    ensures Split(Join(ws)) == ws
  {
    if |ws| == 1 {
      OneWord(ws[0]);
    } else if |ws| > 1 {
      SplitOfJoined(ws[1..]);
      JoinFront(ws);
      SplitFront(ws[0], Join(ws[1..]));
      assert ws == [ws[0]] + ws[1..];
    }
  }

  predicate IsWord(w: string) {
    w != [] && forall i :: 0 <= i < |w| ==> !IsBlank(w[i])
  }

  lemma {:induction false} JoinFront(ws: seq<string>)
    requires |ws| > 1
    ensures Join(ws) == ws[0] + " " + Join(ws[1..])
  {
    var m := |ws| - 1;
    if m == 1 {
      assert ws[..1] == [ws[0]] && ws[1..] == [ws[1]];
    } else {
      JoinFront(ws[..m]);
      assert ws[..m][1..] == ws[1..][..m - 1] && ws[1..][m - 1] == ws[m];
    }
  }

  lemma SplitFront(w: string, rest: string)
    requires IsWord(w)
    ensures Split(w + " " + rest) == [w] + Split(rest)
  {
    hide WithoutBlanks, Concat;
    var s := w + " " + rest;
    var n := WordLength(s);
    assert s[|w|] == ' ' && forall i :: 0 <= i < |w| ==> s[i] == w[i];
    assert n == |w|;
    assert s[..n] == w && s[n..] == [' '] + rest;
    assert !IsBlank(s[0]);
    assert s[n..][0] == ' ' && s[n..][1..] == rest;
    assert Split(s[n..]) == Split(rest);
  }

  lemma OneWord(w: string)
    requires IsWord(w)
    ensures Split(w) == [w]
  {
    var n := WordLength(w);
    assert n == |w|;
    assert w[..n] == w && w[n..] == [];
    assert Split(w[n..]) == [];
    assert !IsBlank(w[0]);
    calc {
      Split(w);
      [w[..n]] + Split(w[n..]);
      [w];
    }
  }

  function LineOf(text: string): Line {
    var line := Strip(text, IsBlank);
    if IsComment(line) then Comment(line) else Words(Split(line))
  }

  /** The text a token prints as. */
  function Text(c: Config, t: Token): string {
    if !IsKeyword(c, t) then t.word
    else if t.word != [] && t.word[0] == '\'' && t.word[|t.word| - 1] == '\'' then Strip(t.word, IsQuote)
    else if t.word in c.mapping then c.mapping[t.word]
    else t.word
  }

  predicate Numbered(tokens: seq<Token>) {
    forall i :: 0 <= i < |tokens| ==> tokens[i].index == i
  }

  /** The words before `%prec`. */
  function BeforePrec(words: seq<string>): seq<string> {
    if words == [] || words[0] == "%prec" then [] else [words[0]] + BeforePrec(words[1..])
  }

  function TokensOf(line: Line): (r: seq<Token>)
    ensures Numbered(r)
  {
    match line
    case Comment(text) => [Token(text, 0)]
    case Words(words) =>
      var ws := BeforePrec(words);
      seq(|ws|, i requires 0 <= i < |ws| => Token(ws[i], i))
  }

  lemma {:induction false} BeforePrecStep(words: seq<string>, n: nat)
    requires n <= |words| && forall i :: 0 <= i < n ==> words[i] != "%prec"
    ensures n == |words| || words[n] == "%prec" ==> BeforePrec(words) == words[..n]
  {
    if n > 0 {
      BeforePrecStep(words[1..], n - 1);
      assert words[..n] == [words[0]] + words[1..][..n - 1];
    }
  }

  method Tokenize(text: string) returns (tokens: seq<Token>)
    ensures tokens == TokensOf(LineOf(text))
  {
    hide Strip, IsBlank, IsComment, Split, Concat, WithoutBlanks, BeforePrec;
    var line := Strip(text, IsBlank);
    if IsComment(line) {
      return [Token(line, 0)];
    }
    var words := Split(line);
    tokens := [];
    var idx := 0;
    while idx < |words|
      invariant idx <= |words| && |tokens| == idx
      invariant forall i :: 0 <= i < idx ==> words[i] != "%prec" && tokens[i] == Token(words[i], i)
    {
      if words[idx] == "%prec" { break; }
      tokens := tokens + [Token(words[idx], idx)];
      idx := idx + 1;
    }
    BeforePrecStep(words, idx);
    assert BeforePrec(words) == words[..idx];
    assert tokens == TokensOf(Words(words));
  }

  /** The first position from `start` on that holds no keyword. */
  function KeywordEnd(c: Config, tokens: seq<Token>, start: nat): (e: nat)
    requires start <= |tokens|
    ensures start <= e <= |tokens|
    ensures forall k :: start <= k < e ==> IsKeyword(c, tokens[k])
    ensures e < |tokens| ==> !IsKeyword(c, tokens[e])
    decreases |tokens| - start
  {
    if start < |tokens| && IsKeyword(c, tokens[start]) then KeywordEnd(c, tokens, start + 1) else start
  }

  /** The keywords from `start` on, and the last token looked at: the one that ended the run, or the
      last keyword when the production ended first. */
  method SearchNextKeyword(c: Config, tokens: seq<Token>, start: nat)
    returns (curr: Option<Token>, keywords: seq<Token>)
    ensures start > |tokens| ==> curr == None && keywords == []
    ensures start <= |tokens| ==>
      var e := KeywordEnd(c, tokens, start);
      && keywords == tokens[start..e]
      && curr == if start == |tokens| then None else Some(tokens[if e < |tokens| then e else |tokens| - 1])
  {
    curr, keywords := None, [];
    if start > |tokens| { return; }
    var idx := start;
    while idx < |tokens|
      invariant start <= idx <= |tokens|
      invariant keywords == tokens[start..idx]
      invariant KeywordEnd(c, tokens, idx) == KeywordEnd(c, tokens, start)
      invariant curr == if idx == start then None else Some(tokens[idx - 1])
    {
      curr := Some(tokens[idx]);
      if IsKeyword(c, tokens[idx]) {
        keywords := keywords + [tokens[idx]];
      } else {
        break;
      }
      idx := idx + 1;
    }
  }

  // ---------- The emitted code and its meaning ----------

  /** The three texts of an IR node, each kept as the words that are joined by blanks. */
  datatype Op3 = Op3(prefix: seq<string>, middle: seq<string>, suffix: seq<string>)

  datatype Operand = Absent | Res | Tmp(n: nat)

  datatype Stmt =
    | Bind(tmp: nat, sym: nat)                                             // auto tmpN = $k;
    | Build(irType: string, op: Op3, left: Operand, right: Operand)        // res = new IR(...);
    | Yield                                                                // $$ = res;

  datatype IR = Leaf(sym: nat) | Node(irType: string, op: Op3, left: Option<IR>, right: Option<IR>)

  datatype State = State(env: map<nat, IR>, res: Option<IR>, result: Option<IR>)

  predicate Defined(st: State, o: Operand) {
    match o
    case Absent => true
    case Res => st.res.Some?
    case Tmp(n) => n in st.env
  }

  function Value(st: State, o: Operand): Option<IR>
    requires Defined(st, o)
  {
    match o
    case Absent => None
    case Res => st.res
    case Tmp(n) => Some(st.env[n])
  }

  /** One statement; a second declaration of a temporary, or the use of an undeclared one, is an error. */
  function Step(st: State, s: Stmt): Option<State> {
    match s
    case Bind(tmp, sym) => if tmp in st.env then None else Some(st.(env := st.env[tmp := Leaf(sym)]))
    case Build(irType, op, left, right) =>
      if Defined(st, left) && Defined(st, right) then
        Some(st.(res := Some(Node(irType, op, Value(st, left), Value(st, right)))))
      else None
    case Yield => if st.res.Some? then Some(st.(result := st.res)) else None
  }

  function Exec(body: seq<Stmt>): Option<State> {
    if body == [] then Some(State(map[], None, None))
    else
      var before := Exec(body[..|body| - 1]);
      if before.None? then None else Step(before.value, body[|body| - 1])
  }

  lemma ExecSnoc(body: seq<Stmt>, s: Stmt)
    ensures Exec(body + [s]) == if Exec(body).None? then None else Step(Exec(body).value, s)
  {
    assert (body + [s])[..|body + [s]| - 1] == body;
  }

  datatype Item = Word(text: string) | Sym(k: nat)

  function AsWords(texts: seq<string>): seq<Item> {
    seq(|texts|, i requires 0 <= i < |texts| => Word(texts[i]))
  }

  /** What an IR prints as: prefix, left operand, middle, right operand, suffix. */
  function Linear(ir: Option<IR>): seq<Item>
    decreases ir
  {
    match ir
    case None => []
    case Some(Leaf(k)) => [Sym(k)]
    case Some(Node(_, op, l, r)) => AsWords(op.prefix) + Linear(l) + AsWords(op.middle) + Linear(r) + AsWords(op.suffix)
  }

  /** The nodes form a chain to the left. The innermost one holds the first symbols: none, and then only
      keywords in front; one, and then all keywords behind it in the middle; or two. Every other node adds
      one symbol on the right, and the keywords behind that. */
  predicate LeftNested(ir: IR) {
    && ir.Node?
    && if ir.left.None? then ir.right.None? && ir.op.middle == [] && ir.op.suffix == []
       else if ir.left.value.Leaf? then
         if ir.right.None? then ir.op.suffix == [] else ir.right.value.Leaf?
       else
         && ir.op.prefix == [] && ir.op.middle == [] && ir.right.Some? && ir.right.value.Leaf?
         && ir.left.value.right.Some? && LeftNested(ir.left.value)
  }

  /** Every node strictly below the root has the default type. */
  predicate DefaultBelow(ir: IR) {
    match ir
    case Leaf(_) => true
    case Node(_, _, l, r) => AllDefault(l) && AllDefault(r)
  }

  predicate AllDefault(ir: Option<IR>)
    decreases ir
  {
    match ir
    case None => true
    case Some(Leaf(_)) => true
    case Some(Node(t, _, l, r)) => t == DEFAULT_IR_TYPE && AllDefault(l) && AllDefault(r)
  }

  // ---------- What a production should print as ----------

  function ItemsOf(c: Config, t: Token): seq<Item> {
    if !IsKeyword(c, t) then [Sym(t.index + 1)]
    else if Text(c, t) == [] then []
    else [Word(c.upper(Text(c, t)))]
  }

  /** What tokens `i` to `j` print as: keywords as their text, the others as the symbol they stand for. */
  function Printed(c: Config, tokens: seq<Token>, i: nat, j: nat): seq<Item>
    requires i <= j <= |tokens|
    decreases j - i
  {
    if i == j then [] else ItemsOf(c, tokens[i]) + Printed(c, tokens, i + 1, j)
  }

  lemma {:induction false} PrintedSplit(c: Config, tokens: seq<Token>, i: nat, j: nat, k: nat)
    requires i <= j <= k <= |tokens|
    ensures Printed(c, tokens, i, k) == Printed(c, tokens, i, j) + Printed(c, tokens, j, k)
    decreases j - i
  {
    if i < j {
      PrintedSplit(c, tokens, i + 1, j, k);
      assert ItemsOf(c, tokens[i]) + (Printed(c, tokens, i + 1, j) + Printed(c, tokens, j, k))
          == (ItemsOf(c, tokens[i]) + Printed(c, tokens, i + 1, j)) + Printed(c, tokens, j, k);
    }
  }

  /** The texts of a run of keywords, leaving out empty ones. */
  function KeywordTexts(c: Config, keywords: seq<Token>): seq<string> {
    if keywords == [] then []
    else
      var t := keywords[0];
      (if Text(c, t) == [] then [] else [c.upper(Text(c, t))]) + KeywordTexts(c, keywords[1..])
  }

  lemma {:induction false} KeywordsPrinted(c: Config, tokens: seq<Token>, i: nat, j: nat)
    requires i <= j <= |tokens| && AllKeywords(c, tokens[i..j])
    ensures AsWords(KeywordTexts(c, tokens[i..j])) == Printed(c, tokens, i, j)
    decreases j - i
  {
    var run := tokens[i..j];
    if i < j {
      assert run[1..] == tokens[i + 1..j];
      assert IsKeyword(c, run[0]);
      KeywordsPrinted(c, tokens, i + 1, j);
      var t := tokens[i];
      var first := if Text(c, t) == [] then [] else [c.upper(Text(c, t))];
      assert AsWords(first + KeywordTexts(c, run[1..])) == AsWords(first) + AsWords(KeywordTexts(c, run[1..]));
      assert AsWords(first) == ItemsOf(c, t);
    }
  }

  function Join(words: seq<string>): string {
    if words == [] then ""
    else if |words| == 1 then words[0]
    else Join(words[..|words| - 1]) + " " + words[|words| - 1]
  }

  predicate AllKeywords(c: Config, tokens: seq<Token>) {
    forall t :: t in tokens ==> IsKeyword(c, t)
  }

  /** What a production should print as: a comment stands for the empty production. */
  function Expected(c: Config, line: Line): seq<Item> {
    match line
    case Comment(_) => []
    case Words(_) => Printed(c, TokensOf(line), 0, |TokensOf(line)|)
  }

  /** Only keywords, and the last one is a keyword because it is quoted, not because it is listed. */
  predicate Unlisted(c: Config, tokens: seq<Token>) {
    tokens != [] && AllKeywords(c, tokens) && tokens[|tokens| - 1].word !in c.totalKeywords
  }

  /** Only keywords, whose texts together look like a comment. */
  predicate CommentLike(c: Config, tokens: seq<Token>) {
    AllKeywords(c, tokens) && IsComment(Join(KeywordTexts(c, tokens)))
  }

  /** What the emitted code makes of the tokens. */
  function Outcome(c: Config, tokens: seq<Token>): seq<Item> {
    if Unlisted(c, tokens) then Printed(c, tokens, 0, |tokens|) + [Sym(|tokens|)]
    else if CommentLike(c, tokens) then []
    else Printed(c, tokens, 0, |tokens|)
  }

  /** The productions that the translation gets wrong: a comment that is not listed as a keyword, or
      has a text that is not a comment; nothing before `%prec`; and keywords only, either with a last
      one that is not listed, or together looking like a comment. */
  predicate Mistranslated(c: Config, line: Line) {
    var tokens := TokensOf(line);
    match line
    case Comment(text) =>
      text !in c.totalKeywords || (KeywordTexts(c, tokens) != [] && !CommentLike(c, tokens))
    case Words(_) => tokens == [] || Unlisted(c, tokens) || CommentLike(c, tokens)
  }

  // ---------- The translation ----------

  /** The code emitted so far runs, prints as the tokens before `i`, uses temporaries below `tmpNum`,
      and stopped where no keyword is left over. */
  ghost predicate Built(c: Config, tokens: seq<Token>, body: seq<Stmt>, i: nat, tmpNum: nat)
    requires 0 < i <= |tokens|
  {
    && body != [] && body[|body| - 1].Build?
    && Runs(body, tmpNum)
    && Linear(Exec(body).value.res) == Printed(c, tokens, 0, i)
    && KeywordEnd(c, tokens, i) == i
    && (i < |tokens| ==> CanGrow(body))
  }

  ghost predicate Runs(body: seq<Stmt>, tmpNum: nat) {
    && Exec(body).Some?
    && (forall t: nat :: t in Exec(body).value.env ==> t < tmpNum)
    && Exec(body).value.res.Some?
    && AllDefault(Exec(body).value.res) && LeftNested(Exec(body).value.res.value)
  }

  /** There may be more symbols. */
  ghost predicate CanGrow(body: seq<Stmt>)
    requires Exec(body).Some? && Exec(body).value.res.Some?
  {
    var ir := Exec(body).value.res.value;
    ir.Node? && ir.left.Some? && ir.right.Some?
  }

  /** `auto tmpN = $k; res = new IR(OP3("", middle, suffix), res, tmpN);` */
  function More(tmpNum: nat, sym: nat, middle: seq<string>, suffix: seq<string>): seq<Stmt> {
    [Bind(tmpNum, sym)] + [Build(DEFAULT_IR_TYPE, Op3([], middle, suffix), Res, Tmp(tmpNum))]
  }

  lemma MoreRuns(body: seq<Stmt>, tmpNum: nat, sym: nat, suffix: seq<string>)
    requires Runs(body, tmpNum) && CanGrow(body)
    ensures Runs(body + More(tmpNum, sym, [], suffix), tmpNum + 1) && CanGrow(body + More(tmpNum, sym, [], suffix))
    ensures Linear(Exec(body + More(tmpNum, sym, [], suffix)).value.res) ==
      Linear(Exec(body).value.res) + [Sym(sym)] + AsWords(suffix)
  {
    hide AsWords;
    var b, op := Bind(tmpNum, sym), Op3([], [], suffix);
    var s := Build(DEFAULT_IR_TYPE, op, Res, Tmp(tmpNum));
    ExecSnoc(body, b);
    ExecSnoc(body + [b], s);
    assert body + More(tmpNum, sym, [], suffix) == (body + [b]) + [s];
    NoWords();
    var l := Linear(Exec(body).value.res);
    assert [] + l + [] + [Sym(sym)] + AsWords(suffix) == l + [Sym(sym)] + AsWords(suffix);
    var before := Exec(body).value.res.value;
    var after := Node(DEFAULT_IR_TYPE, op, Some(before), Some(Leaf(sym)));
    assert Exec(body + More(tmpNum, sym, [], suffix)).value.res == Some(after);
    assert before.Node? && LeftNested(after);
    var longer := body + More(tmpNum, sym, [], suffix);
    assert Exec(longer).Some? && AllDefault(Exec(longer).value.res) && LeftNested(Exec(longer).value.res.value);
    assert Runs(longer, tmpNum + 1) && CanGrow(longer);
  }

  lemma NoWords()
    ensures AsWords([]) == []
  {
  }

  /** What a symbol followed by a run of keywords prints as. */
  lemma SymbolPrinted(c: Config, tokens: seq<Token>, i: nat, j: nat)
    requires Numbered(tokens) && i < j <= |tokens| && !IsKeyword(c, tokens[i])
    requires AllKeywords(c, tokens[i + 1..j])
    ensures Printed(c, tokens, i, j) == [Sym(i + 1)] + AsWords(KeywordTexts(c, tokens[i + 1..j]))
    ensures Printed(c, tokens, 0, j) == Printed(c, tokens, 0, i) + Printed(c, tokens, i, j)
  {
    KeywordsPrinted(c, tokens, i + 1, j);
    PrintedSplit(c, tokens, 0, i, j);
  }

  lemma ExtendBuilt(c: Config, tokens: seq<Token>, body: seq<Stmt>, i: nat, tmpNum: nat, j: nat)
    requires 0 < i < |tokens| && Built(c, tokens, body, i, tmpNum) && Numbered(tokens)
    requires j == KeywordEnd(c, tokens, i + 1)
    ensures Built(c, tokens, body + More(tmpNum, i + 1, [], KeywordTexts(c, tokens[i + 1..j])), j, tmpNum + 1)
  {
    hide KeywordTexts, Exec, Linear, Printed;
    var texts := KeywordTexts(c, tokens[i + 1..j]);
    MoreRuns(body, tmpNum, i + 1, texts);
    SymbolPrinted(c, tokens, i, j);
    KeywordEndIdle(c, tokens, i + 1);
    var p := Printed(c, tokens, 0, i);
    assert p + [Sym(i + 1)] + AsWords(texts) == p + ([Sym(i + 1)] + AsWords(texts));
  }

  lemma {:induction false} KeywordEndIdle(c: Config, tokens: seq<Token>, start: nat)
    requires start <= |tokens|
    ensures KeywordEnd(c, tokens, KeywordEnd(c, tokens, start)) == KeywordEnd(c, tokens, start)
    decreases |tokens| - start
  {
    if start < |tokens| && IsKeyword(c, tokens[start]) {
      KeywordEndIdle(c, tokens, start + 1);
    }
  }

  /** The first node over one symbol. */
  function StartOne(sym: nat, prefix: seq<string>, middle: seq<string>): seq<Stmt> {
    [Bind(1, sym)] + [Build(DEFAULT_IR_TYPE, Op3(prefix, middle, []), Tmp(1), Absent)]
  }

  lemma StartOneRuns(sym: nat, prefix: seq<string>, middle: seq<string>)
    ensures Runs(StartOne(sym, prefix, middle), 2)
    ensures Linear(Exec(StartOne(sym, prefix, middle)).value.res) == AsWords(prefix) + [Sym(sym)] + AsWords(middle)
  {
    var b := Bind(1, sym);
    var s := Build(DEFAULT_IR_TYPE, Op3(prefix, middle, []), Tmp(1), Absent);
    assert [] + [b] == [b];
    ExecSnoc([], b);
    ExecSnoc([b], s);
    assert AsWords([]) == [];
  }

  /** The first node over two symbols. */
  function StartTwo(sym1: nat, sym2: nat, op: Op3): seq<Stmt> {
    [Bind(1, sym1)] + [Bind(2, sym2)] + [Build(DEFAULT_IR_TYPE, op, Tmp(1), Tmp(2))]
  }

  lemma StartTwoRuns(sym1: nat, sym2: nat, op: Op3)
    ensures Runs(StartTwo(sym1, sym2, op), 3) && CanGrow(StartTwo(sym1, sym2, op))
    ensures Linear(Exec(StartTwo(sym1, sym2, op)).value.res) ==
      AsWords(op.prefix) + [Sym(sym1)] + AsWords(op.middle) + [Sym(sym2)] + AsWords(op.suffix)
  {
    var b1, b2 := Bind(1, sym1), Bind(2, sym2);
    assert [] + [b1] == [b1];
    ExecSnoc([], b1);
    ExecSnoc([b1], b2);
    ExecSnoc([b1] + [b2], Build(DEFAULT_IR_TYPE, op, Tmp(1), Tmp(2)));
  }

  lemma StartOneBuilt(c: Config, tokens: seq<Token>, e: nat)
    requires Numbered(tokens) && e < |tokens| && e == KeywordEnd(c, tokens, 0)
    requires KeywordEnd(c, tokens, e + 1) == |tokens|
    ensures Built(c, tokens,
                  StartOne(e + 1, KeywordTexts(c, tokens[0..e]), KeywordTexts(c, tokens[e + 1..|tokens|])), |tokens|, 2)
  {
    hide AsWords, KeywordTexts, Printed, Exec, Linear, IsKeyword, AllDefault;
    var prefix, middle := KeywordTexts(c, tokens[0..e]), KeywordTexts(c, tokens[e + 1..|tokens|]);
    KeywordsPrinted(c, tokens, 0, e);
    SymbolPrinted(c, tokens, e, |tokens|);
    StartOneRuns(e + 1, prefix, middle);
    assert AsWords(prefix) + [Sym(e + 1)] + AsWords(middle) == AsWords(prefix) + ([Sym(e + 1)] + AsWords(middle));
  }

  lemma StartTwoBuilt(c: Config, tokens: seq<Token>, e1: nat, e2: nat, e3: nat)
    requires Numbered(tokens) && e1 < e2 < e3 <= |tokens| && e1 == KeywordEnd(c, tokens, 0)
    requires e2 == KeywordEnd(c, tokens, e1 + 1) && e3 == KeywordEnd(c, tokens, e2 + 1)
    ensures var op := Op3(KeywordTexts(c, tokens[0..e1]), KeywordTexts(c, tokens[e1 + 1..e2]),
                          KeywordTexts(c, tokens[e2 + 1..e3]));
      Built(c, tokens, StartTwo(e1 + 1, e2 + 1, op), e3, 3)
  {
    hide AsWords, KeywordTexts, Printed, Exec, Linear, IsKeyword, AllDefault;
    var op := Op3(KeywordTexts(c, tokens[0..e1]), KeywordTexts(c, tokens[e1 + 1..e2]),
        KeywordTexts(c, tokens[e2 + 1..e3]));
    var p, m, x := AsWords(op.prefix), AsWords(op.middle), AsWords(op.suffix);
    KeywordsPrinted(c, tokens, 0, e1);
    SymbolPrinted(c, tokens, e1, e2);
    SymbolPrinted(c, tokens, e2, e3);
    KeywordEndIdle(c, tokens, e2 + 1);
    StartTwoRuns(e1 + 1, e2 + 1, op);
    assert p + ([Sym(e1 + 1)] + m) + ([Sym(e2 + 1)] + x) == p + [Sym(e1 + 1)] + m + [Sym(e2 + 1)] + x;
  }

  // ---------- Finishing ----------

  /** The last node gets the type of the rule, and the result is handed to the parser. */
  function Finished(body: seq<Stmt>, irType: string): seq<Stmt>
    requires body != [] && body[|body| - 1].Build?
  {
    body[..|body| - 1] + [body[|body| - 1].(irType := irType)] + [Yield]
  }

  lemma FinishedRuns(body: seq<Stmt>, irType: string)
    requires body != [] && body[|body| - 1].Build? && Exec(body).Some?
    requires Exec(body).value.res.Some? && AllDefault(Exec(body).value.res) && LeftNested(Exec(body).value.res.value)
    ensures var r := Exec(Finished(body, irType));
      && r.Some? && r.value.result.Some? && r.value.result.value.Node?
      && r.value.result.value.irType == irType && DefaultBelow(r.value.result.value)
      && LeftNested(r.value.result.value) && Linear(r.value.result) == Linear(Exec(body).value.res)
  {
    hide Exec, AsWords;
    var n := |body| - 1;
    var init, last := body[..n], body[n];
    assert body == init + [last];
    ExecSnoc(init, last);
    ExecSnoc(init, last.(irType := irType));
    ExecSnoc(init + [last.(irType := irType)], Yield);
  }

  /** A production of listed keywords only: one node without operands. */
  function KeywordNode(texts: seq<string>): seq<Stmt> {
    [Build(DEFAULT_IR_TYPE, Op3(texts, [], []), Absent, Absent)]
  }

  lemma KeywordNodeRuns(texts: seq<string>)
    ensures Runs(KeywordNode(texts), 1)
    ensures Linear(Exec(KeywordNode(texts)).value.res) == AsWords(texts)
  {
    var s := Build(DEFAULT_IR_TYPE, Op3(texts, [], []), Absent, Absent);
    assert [] + [s] == [s];
    ExecSnoc([], s);
    assert AsWords([]) == [];
  }

  // ---------- The translator ----------

  function MaxIndex(ts: seq<Token>): nat
    requires ts != []
  {
    if |ts| == 1 || ts[0].index > MaxIndex(ts[1..]) then ts[0].index else MaxIndex(ts[1..])
  }

  lemma {:induction false} MaxIndexIs(ts: seq<Token>, m: nat)
    requires exists t :: t in ts && t.index == m
    requires forall t :: t in ts ==> t.index <= m
    ensures MaxIndex(ts) == m
  {
    if |ts| > 1 {
      var t :| t in ts && t.index == m;
      assert ts == [ts[0]] + ts[1..];
      if t in ts[1..] {
        MaxIndexIs(ts[1..], m);
      } else {
        MaxIndexBelow(ts[1..], m);
      }
    }
  }

  lemma {:induction false} MaxIndexBelow(ts: seq<Token>, m: nat)
    requires ts != [] && forall t :: t in ts ==> t.index <= m
    ensures MaxIndex(ts) <= m
  {
    if |ts| > 1 {
      MaxIndexBelow(ts[1..], m);
    }
  }

  /** The tokens looked at in one round are those from `i` to `j`. */
  lemma RoundEnds(tokens: seq<Token>, i: nat, j: nat, seen: seq<Token>)
    requires Numbered(tokens) && i < j <= |tokens| && tokens[j - 1] in seen
    requires forall t :: t in seen ==> t in tokens[i..j]
    ensures seen != [] && MaxIndex(seen) == j - 1
  {
    MaxIndexIs(seen, j - 1);
  }

  /** Where the translation loop stands: at the start, or after complete rounds, or past a
      production whose last token was taken for a symbol. */
  ghost predicate Progress(c: Config, tokens: seq<Token>, body: seq<Stmt>, i: nat, tmpNum: nat) {
    && i <= |tokens|
    && (if i == 0 then body == [] && tmpNum == 1
        else if Unlisted(c, tokens) then
          i == |tokens| && body == StartOne(|tokens|, KeywordTexts(c, tokens[0..|tokens|]), [])
        else !AllKeywords(c, tokens) && Built(c, tokens, body, i, tmpNum))
  }

  lemma ProgressStart(c: Config, tokens: seq<Token>)
    ensures Progress(c, tokens, [], 0, 1)
  {
  }

  /** The end of the round that starts at `i`. */
  ghost function RoundEnd(c: Config, tokens: seq<Token>, i: nat): (j: nat)
    requires i < |tokens|
    ensures i < j <= |tokens|
  {
    var e1 := KeywordEnd(c, tokens, i);
    if e1 == |tokens| then e1
    else
      var e2 := KeywordEnd(c, tokens, e1 + 1);
      if e2 == |tokens| then e2 else KeywordEnd(c, tokens, e2 + 1)
  }

  /** What the searches of a round find. */
  datatype Round = Round(left: Token, leftKeywords: seq<Token>, right: Option<Token>, midKeywords: seq<Token>,
                         rightKeywords: seq<Token>) {
    function Seen(): seq<Token> {
      leftKeywords + midKeywords + rightKeywords + [left] + (if right.Some? then [right.value] else [])
    }
  }

  ghost function RoundOf(c: Config, tokens: seq<Token>, i: nat): Round
    requires i < |tokens|
  {
    var n := |tokens|;
    var e1 := KeywordEnd(c, tokens, i);
    if e1 == n then Round(tokens[n - 1], tokens[i..n], None, [], [])
    else if e1 + 1 == n then Round(tokens[e1], tokens[i..e1], None, [], [])
    else
      var e2 := KeywordEnd(c, tokens, e1 + 1);
      if e2 == n then Round(tokens[e1], tokens[i..e1], Some(tokens[n - 1]), tokens[e1 + 1..n], [])
      else Round(tokens[e1], tokens[i..e1], Some(tokens[e2]), tokens[e1 + 1..e2],
                 tokens[e2 + 1..KeywordEnd(c, tokens, e2 + 1)])
  }

  lemma Part<T>(s: seq<T>, i: nat, a: nat, b: nat, j: nat)
    requires i <= a <= b <= j <= |s|
    ensures forall x :: x in s[a..b] ==> x in s[i..j]
  {
    forall x | x in s[a..b] ensures x in s[i..j] {
      var k :| a <= k < b && s[k] == x;
      assert s[i..j][k - i] == x;
    }
  }

  lemma RoundWithin(c: Config, tokens: seq<Token>, i: nat)
    requires i < |tokens|
    ensures var r, j := RoundOf(c, tokens, i), RoundEnd(c, tokens, i);
      && (forall t :: t in r.leftKeywords || t in r.midKeywords || t in r.rightKeywords ==> t in tokens[i..j])
      && r.left in tokens[i..j] && (r.right.Some? ==> r.right.value in tokens[i..j])
  {
    hide IsKeyword, KeywordEnd;
    var n, j := |tokens|, RoundEnd(c, tokens, i);
    var e1 := KeywordEnd(c, tokens, i);
    Part(tokens, i, i, e1, j);
    if e1 < n {
      Part(tokens, i, e1, e1 + 1, j);
      var e2 := KeywordEnd(c, tokens, e1 + 1);
      Part(tokens, i, e1 + 1, e2, j);
      assert tokens[e1] in tokens[e1..e1 + 1];
      if e2 < n {
        Part(tokens, i, e2, e2 + 1, j);
        Part(tokens, i, e2 + 1, j, j);
        assert tokens[e2] in tokens[e2..e2 + 1];
      } else {
        assert n > e1 + 1 ==> tokens[n - 1] in tokens[e1 + 1..n];
      }
    } else {
      assert tokens[n - 1] in tokens[i..n];
    }
  }

  lemma SeenHolds(r: Round, t: Token)
    requires t in r.rightKeywords || t == r.left || Some(t) == r.right
    ensures t in r.Seen()
  {
    var keywords := r.leftKeywords + r.midKeywords + r.rightKeywords;
    var right := if r.right.Some? then [r.right.value] else [];
    if t in r.rightKeywords {
      assert t in keywords;
    } else if t == r.left {
      assert t in keywords + [r.left];
    } else {
      assert t in right;
    }
  }

  lemma RoundReaches(c: Config, tokens: seq<Token>, i: nat)
    requires i < |tokens|
    ensures tokens[RoundEnd(c, tokens, i) - 1] in RoundOf(c, tokens, i).Seen()
  {
    hide IsKeyword, KeywordEnd, Round.Seen;
    var n, j := |tokens|, RoundEnd(c, tokens, i);
    var e1 := KeywordEnd(c, tokens, i);
    if e1 + 1 < n {
      var e2 := KeywordEnd(c, tokens, e1 + 1);
      if e2 + 1 < j {
        assert tokens[e2 + 1..j][j - e2 - 2] == tokens[j - 1];
      }
    }
    SeenHolds(RoundOf(c, tokens, i), tokens[j - 1]);
  }

  lemma RoundSeen(c: Config, tokens: seq<Token>, i: nat)
    requires i < |tokens| && Numbered(tokens)
    ensures RoundOf(c, tokens, i).Seen() != []
    ensures MaxIndex(RoundOf(c, tokens, i).Seen()) == RoundEnd(c, tokens, i) - 1
  {
    hide MaxIndex, IsKeyword, Numbered;
    var r, j := RoundOf(c, tokens, i), RoundEnd(c, tokens, i);
    RoundWithin(c, tokens, i);
    RoundReaches(c, tokens, i);
    assert forall t :: t in r.Seen() ==> t in tokens[i..j];
    RoundEnds(tokens, i, j, r.Seen());
  }

  lemma KeywordEndAtEnd(c: Config, tokens: seq<Token>)
    ensures KeywordEnd(c, tokens, |tokens|) == |tokens|
  {
  }

  method SearchRound(c: Config, tokens: seq<Token>, i: nat) returns (r: Round)
    requires Numbered(tokens) && i < |tokens|
    ensures r == RoundOf(c, tokens, i)
  {
    hide IsKeyword, KeywordEnd;
    KeywordEndAtEnd(c, tokens);
    var left, leftKeywords := SearchNextKeyword(c, tokens, i);
    var right, midKeywords := SearchNextKeyword(c, tokens, left.value.index + 1);
    var rightKeywords := [];
    if right.Some? {
      var _, keywords := SearchNextKeyword(c, tokens, right.value.index + 1);
      rightKeywords := keywords;
    }
    r := Round(left.value, leftKeywords, right, midKeywords, rightKeywords);
  }

  /** A round after the first one adds one or two symbols. */
  lemma LaterRound(c: Config, tokens: seq<Token>, body: seq<Stmt>, i: nat, tmpNum: nat)
    requires Numbered(tokens) && 0 < i < |tokens| && Progress(c, tokens, body, i, tmpNum)
    ensures var r, j := RoundOf(c, tokens, i), RoundEnd(c, tokens, i);
      var body1 :=
          body + More(tmpNum, r.left.index + 1, KeywordTexts(c, r.leftKeywords), KeywordTexts(c, r.midKeywords));
      if r.right.Some? && !IsKeyword(c, r.right.value) then
        Progress(c, tokens, body1 + More(tmpNum + 1, r.right.value.index + 1, [], KeywordTexts(c, r.rightKeywords)), j,
            tmpNum + 2)
      else Progress(c, tokens, body1, j, tmpNum + 1)
  {
    hide KeywordTexts, More, IsKeyword, Built, Unlisted;
    BuiltStop(c, tokens, body, i, tmpNum);
    var r := RoundOf(c, tokens, i);
    assert KeywordEnd(c, tokens, i) == i && !IsKeyword(c, tokens[i]);
    assert tokens[i..i] == [];
    assert KeywordTexts(c, r.leftKeywords) == [] by { NoTexts(c); }
    var e2 := KeywordEnd(c, tokens, i + 1);
    ExtendBuilt(c, tokens, body, i, tmpNum, e2);
    if e2 < |tokens| {
      var body1 := body + More(tmpNum, i + 1, [], KeywordTexts(c, tokens[i + 1..e2]));
      ExtendBuilt(c, tokens, body1, e2, tmpNum + 1, KeywordEnd(c, tokens, e2 + 1));
    } else if i + 1 < |tokens| {
      LastIsKeyword(c, tokens, i + 1);
    } else {
      assert tokens[i + 1..|tokens|] == [];
    }
  }

  lemma BuiltStop(c: Config, tokens: seq<Token>, body: seq<Stmt>, i: nat, tmpNum: nat)
    requires 0 < i <= |tokens| && Built(c, tokens, body, i, tmpNum)
    ensures KeywordEnd(c, tokens, i) == i && body != [] && body[|body| - 1].Build? && Runs(body, tmpNum)
    ensures Linear(Exec(body).value.res) == Printed(c, tokens, 0, i)
  {
  }

  lemma NoTexts(c: Config)
    ensures KeywordTexts(c, []) == []
  {
  }

  /** A run of keywords that reaches the end of the production. */
  lemma LastIsKeyword(c: Config, tokens: seq<Token>, start: nat)
    requires start < |tokens| && KeywordEnd(c, tokens, start) == |tokens|
    ensures IsKeyword(c, tokens[|tokens| - 1])
  {
  }

  /** The first round over a production that has two symbols. */
  lemma FirstRoundTwo(c: Config, tokens: seq<Token>, e1: nat, e2: nat)
    requires Numbered(tokens) && tokens != [] && !AllKeywords(c, tokens)
    requires e1 == KeywordEnd(c, tokens, 0) < |tokens| && e2 == KeywordEnd(c, tokens, e1 + 1) < |tokens|
    ensures var r, j := RoundOf(c, tokens, 0), RoundEnd(c, tokens, 0);
      && r.left == tokens[e1] && r.right == Some(tokens[e2])
      && var pre, mid, post :=
        KeywordTexts(c, r.leftKeywords), KeywordTexts(c, r.midKeywords), KeywordTexts(c, r.rightKeywords);
      Progress(c, tokens, StartTwo(e1 + 1, e2 + 1, Op3(pre, mid, post)), j, 3)
  {
    hide KeywordTexts, StartOne, StartTwo, Built, Exec, Printed, IsKeyword, AllKeywords;
    var e3 := KeywordEnd(c, tokens, e2 + 1);
    StartTwoBuilt(c, tokens, e1, e2, e3);
    assert RoundEnd(c, tokens, 0) == e3;
    assert RoundOf(c, tokens, 0) ==
      Round(tokens[e1], tokens[0..e1], Some(tokens[e2]), tokens[e1 + 1..e2], tokens[e2 + 1..e3]);
    hide KeywordEnd, RoundOf, RoundEnd;
  }

  /** The first round over a production that has one symbol. */
  lemma FirstRoundOne(c: Config, tokens: seq<Token>, e1: nat)
    requires Numbered(tokens) && tokens != [] && !AllKeywords(c, tokens)
    requires e1 == KeywordEnd(c, tokens, 0) < |tokens| && KeywordEnd(c, tokens, e1 + 1) == |tokens|
    ensures var r, j := RoundOf(c, tokens, 0), RoundEnd(c, tokens, 0);
      && r.left == tokens[e1] && (r.right.Some? ==> IsKeyword(c, r.right.value))
      && Progress(c, tokens, StartOne(e1 + 1, KeywordTexts(c, r.leftKeywords), KeywordTexts(c, r.midKeywords)), j, 2)
  {
    hide KeywordTexts, StartOne, StartTwo, Built, Exec, Printed, AllKeywords, IsKeyword;
    StartOneBuilt(c, tokens, e1);
    if e1 + 1 < |tokens| {
      LastIsKeyword(c, tokens, e1 + 1);
    } else {
      assert tokens[e1 + 1..|tokens|] == [];
    }
  }

  /** The first round over a production that has a symbol starts with one or two of them. */
  lemma FirstRound(c: Config, tokens: seq<Token>)
    requires Numbered(tokens) && tokens != [] && KeywordEnd(c, tokens, 0) < |tokens|
    ensures var r, j := RoundOf(c, tokens, 0), RoundEnd(c, tokens, 0);
      && r.left.index < |tokens| && tokens[r.left.index] == r.left && r.left.word !in c.totalKeywords
      && var pre, mid := KeywordTexts(c, r.leftKeywords), KeywordTexts(c, r.midKeywords);
      if r.right.Some? && !IsKeyword(c, r.right.value) then
        Progress(c, tokens,
                 StartTwo(r.left.index + 1, r.right.value.index + 1,
                          Op3(pre, mid, KeywordTexts(c, r.rightKeywords))), j, 3)
      else Progress(c, tokens, StartOne(r.left.index + 1, pre, mid), j, 2)
  {
    hide KeywordTexts, StartOne, StartTwo, Progress, RoundOf, RoundEnd;
    var e1 := KeywordEnd(c, tokens, 0);
    var e2 := KeywordEnd(c, tokens, e1 + 1);
    assert !IsKeyword(c, tokens[e1]) && tokens[e1] in tokens && tokens[e1].word !in c.totalKeywords;
    assert !AllKeywords(c, tokens);
    assert e2 < |tokens| ==> !IsKeyword(c, tokens[e2]);
    hide IsKeyword, AllKeywords, KeywordEnd;
    if e2 < |tokens| {
      FirstRoundTwo(c, tokens, e1, e2);
    } else {
      FirstRoundOne(c, tokens, e1);
    }
  }

  /** The first round over a production of keywords only. */
  lemma KeywordRound(c: Config, tokens: seq<Token>)
    requires Numbered(tokens) && tokens != [] && KeywordEnd(c, tokens, 0) == |tokens|
    ensures var r := RoundOf(c, tokens, 0);
      && AllKeywords(c, tokens) && RoundEnd(c, tokens, 0) == |tokens|
      && r.leftKeywords == tokens && r.right == None && r.midKeywords == [] && r.left == tokens[|tokens| - 1]
      && (r.left.word !in c.totalKeywords ==>
            Progress(c, tokens, StartOne(r.left.index + 1, KeywordTexts(c, tokens), KeywordTexts(c, [])), |tokens|, 2))
  {
    hide KeywordTexts, StartOne;
    assert tokens[0..|tokens|] == tokens;
    NoTexts(c);
  }

  /** What the translation of a production gives: code that runs, whose result has the type of the
      rule at its root and the default type below. */
  ghost predicate Translated(c: Config, tokens: seq<Token>, irType: string, body: seq<Stmt>) {
    if tokens == [] then body == []
    else
      && Exec(body).Some? && Exec(body).value.result.Some?
      && var ir := Exec(body).value.result;
      && ir.value.Node? && ir.value.irType == irType && DefaultBelow(ir.value)
      && LeftNested(ir.value) && Linear(ir) == Outcome(c, tokens)
  }

  lemma ProgressFinished(c: Config, tokens: seq<Token>, body: seq<Stmt>, tmpNum: nat, irType: string)
    requires tokens != [] && Progress(c, tokens, body, |tokens|, tmpNum)
    ensures body != [] && body[|body| - 1].Build?
    ensures Translated(c, tokens, irType, Finished(body, irType))
  {
    hide KeywordTexts, IsKeyword, Printed, Exec, Finished, Linear;
    var n := |tokens|;
    if Unlisted(c, tokens) {
      var texts := KeywordTexts(c, tokens[0..n]);
      assert tokens[0..n] == tokens;
      StartOneRuns(n, texts, []);
      KeywordsPrinted(c, tokens, 0, n);
      assert AsWords(texts) + [Sym(n)] + AsWords([]) == AsWords(texts) + [Sym(n)];
    } else {
      BuiltStop(c, tokens, body, n, tmpNum);
    }
    FinishedRuns(body, irType);
  }

  lemma EmptyTranslated(c: Config, irType: string)
    ensures Translated(c, [], irType, [])
  {
  }

  lemma KeywordsFinished(c: Config, tokens: seq<Token>, texts: seq<string>, irType: string)
    requires tokens != [] && AllKeywords(c, tokens) && tokens[|tokens| - 1].word in c.totalKeywords
    requires var all := KeywordTexts(c, tokens); texts == if IsComment(Join(all)) then [] else all
    ensures KeywordNode(texts) != [] && KeywordNode(texts)[|KeywordNode(texts)| - 1].Build?
    ensures Translated(c, tokens, irType, Finished(KeywordNode(texts), irType))
  {
    hide KeywordTexts, IsKeyword, Printed, Exec, Finished, Linear, Join, IsComment;
    assert tokens[0..|tokens|] == tokens;
    KeywordNodeRuns(texts);
    KeywordsPrinted(c, tokens, 0, |tokens|);
    FinishedRuns(KeywordNode(texts), irType);
    assert AsWords([]) == [];
  }

  method TranslateSingleLine(c: Config, text: string, irType: string) returns (body: seq<Stmt>)
    ensures Translated(c, TokensOf(LineOf(text)), irType, body)
    ensures Exact(c, LineOf(text), body) <==> !Mistranslated(c, LineOf(text))
  {
    hide KeywordTexts, KeywordEnd, IsKeyword, Text, Built, StartOne, StartTwo, More, Finished, Translated, Exec;
    hide Unlisted, RoundEnd, RoundOf, MaxIndex, AllKeywords, Join, Progress, KeywordNode, Exact, Mistranslated;
    hide LineOf, TokensOf;
    ghost var line := LineOf(text);
    var tokens := Tokenize(text);
    var i, tmpNum := 0, 1;
    body := [];
    var needMoreIr := false;
    ghost var listed := false;
    ProgressStart(c, tokens);
    while i < |tokens|
      invariant i <= |tokens| && needMoreIr == (i > 0)
      invariant Progress(c, tokens, body, i, tmpNum)
      invariant !listed && (i == 0 ==> body == [] && tmpNum == 1)
      decreases |tokens| - i
    {
      var r := SearchRound(c, tokens, i);
      RoundSeen(c, tokens, i);
      var leftTexts, midTexts := KeywordTexts(c, r.leftKeywords), KeywordTexts(c, r.midKeywords);
      var rightTexts := KeywordTexts(c, r.rightKeywords);
      if needMoreIr {
        LaterRound(c, tokens, body, i, tmpNum);
        body := body + More(tmpNum, r.left.index + 1, leftTexts, midTexts);
        tmpNum := tmpNum + 1;
        if r.right.Some? && !IsKeyword(c, r.right.value) {
          body := body + More(tmpNum, r.right.value.index + 1, [], rightTexts);
          tmpNum := tmpNum + 1;
        }
      } else {
        if KeywordEnd(c, tokens, 0) < |tokens| { FirstRound(c, tokens); } else { KeywordRound(c, tokens); }
        if r.right.Some? && !IsKeyword(c, r.right.value) {
          body := StartTwo(r.left.index + 1, r.right.value.index + 1, Op3(leftTexts, midTexts, rightTexts));
          tmpNum := tmpNum + 2;
          needMoreIr := true;
        } else {
          if r.left.index == |tokens| - 1 && tokens[r.left.index].word in c.totalKeywords {
            if IsComment(Join(leftTexts)) { leftTexts := []; }
            body := KeywordNode(leftTexts);
            KeywordsFinished(c, tokens, leftTexts, irType);
            listed := true;
            break;
          }
          body := StartOne(r.left.index + 1, leftTexts, midTexts);
          tmpNum := tmpNum + 1;
          needMoreIr := true;
        }
      }
      i := MaxIndex(r.Seen()) + 1;
    }
    if tokens != [] && !listed { ProgressFinished(c, tokens, body, tmpNum, irType); }
    if body != [] {
      body := Finished(body, irType);
    }
    EmptyTranslated(c, irType);
    TranslationIsExact(c, line, irType, body);
  }

  // ---------- What the result says about the symbols of the production ----------

  function Symbols(items: seq<Item>): seq<nat> {
    if items == [] then []
    else (if items[0].Sym? then [items[0].k] else []) + Symbols(items[1..])
  }

  lemma {:induction false} SymbolsSplit(a: seq<Item>, b: seq<Item>)
    ensures Symbols(a + b) == Symbols(a) + Symbols(b)
  {
    if a == [] {
      assert a + b == b;
    } else {
      SymbolsSplit(a[1..], b);
      assert (a + b)[1..] == a[1..] + b && (a + b)[0] == a[0];
      var first := if a[0].Sym? then [a[0].k] else [];
      assert first + (Symbols(a[1..]) + Symbols(b)) == (first + Symbols(a[1..])) + Symbols(b);
    }
  }

  /** `s` lists every symbol of the production from position `i` on, and no keyword, in order. */
  ghost predicate SymbolsFrom(c: Config, tokens: seq<Token>, i: nat, s: seq<nat>) {
    && (forall a, b :: 0 <= a < b < |s| ==> s[a] < s[b])
    && (forall a :: 0 <= a < |s| ==> i < s[a] <= |tokens| && !IsKeyword(c, tokens[s[a] - 1]))
    && (forall k :: i <= k < |tokens| && !IsKeyword(c, tokens[k]) ==> k + 1 in s)
  }

  lemma {:induction false} SymbolsOnceInOrder(c: Config, tokens: seq<Token>, i: nat)
    requires Numbered(tokens) && i <= |tokens|
    ensures SymbolsFrom(c, tokens, i, Symbols(Printed(c, tokens, i, |tokens|)))
    decreases |tokens| - i
  {
    hide SymbolsFrom, IsKeyword, Symbols, ItemsOf;
    if i == |tokens| {
      NoSymbols(c, tokens);
    } else {
      SymbolsOnceInOrder(c, tokens, i + 1);
      SymbolsOfToken(c, tokens[i]);
      SymbolsSplit(ItemsOf(c, tokens[i]), Printed(c, tokens, i + 1, |tokens|));
      SymbolsFromStep(c, tokens, i, Symbols(Printed(c, tokens, i + 1, |tokens|)));
    }
  }

  lemma NoSymbols(c: Config, tokens: seq<Token>)
    ensures SymbolsFrom(c, tokens, |tokens|, Symbols([]))
  {
  }

  lemma SymbolsOfToken(c: Config, t: Token)
    ensures Symbols(ItemsOf(c, t)) == if IsKeyword(c, t) then [] else [t.index + 1]
  {
    var items := ItemsOf(c, t);
    if items != [] {
      assert items[1..] == [];
    }
  }

  lemma SymbolsFromStep(c: Config, tokens: seq<Token>, i: nat, rest: seq<nat>)
    requires i < |tokens| && SymbolsFrom(c, tokens, i + 1, rest)
    ensures SymbolsFrom(c, tokens, i, (if IsKeyword(c, tokens[i]) then [] else [i + 1]) + rest)
  {
    hide IsKeyword;
    var s := (if IsKeyword(c, tokens[i]) then [] else [i + 1]) + rest;
    forall k | i <= k < |tokens| && !IsKeyword(c, tokens[k]) ensures k + 1 in s {
      if k == i {
        assert s[0] == k + 1;
      } else {
        assert k + 1 in rest;
      }
    }
  }

  // ---------- When the translation is exact ----------

  ghost predicate Exact(c: Config, line: Line, body: seq<Stmt>) {
    Exec(body).Some? && Exec(body).value.result.Some? && Linear(Exec(body).value.result) == Expected(c, line)
  }

  lemma {:induction false} KeywordsOnly(c: Config, tokens: seq<Token>)
    requires AllKeywords(c, tokens)
    ensures Printed(c, tokens, 0, |tokens|) == AsWords(KeywordTexts(c, tokens))
    ensures CommentLike(c, tokens) ==> Printed(c, tokens, 0, |tokens|) != []
  {
    assert tokens[0..|tokens|] == tokens;
    KeywordsPrinted(c, tokens, 0, |tokens|);
    if CommentLike(c, tokens) {
      assert KeywordTexts(c, tokens) != [] by { assert Join([]) == ""; }
    }
  }

  /** The code emitted for a production builds an IR that prints as the production, exactly unless the
      production is one of those named. */
  lemma TranslationIsExact(c: Config, line: Line, irType: string, body: seq<Stmt>)
    requires Translated(c, TokensOf(line), irType, body)
    ensures Exact(c, line, body) <==> !Mistranslated(c, line)
  {
    hide KeywordTexts, Text, Linear, Join, IsComment;
    var tokens := TokensOf(line);
    var p := Printed(c, tokens, 0, |tokens|);
    if tokens == [] {
      assert Exec(body).value.result == None;
    } else {
      if AllKeywords(c, tokens) { KeywordsOnly(c, tokens); }
      assert |p + [Sym(|tokens|)]| == |p| + 1;
      if line.Comment? {
        assert tokens[0] in tokens;
        if !IsKeyword(c, tokens[0]) {
          assert Printed(c, tokens, 1, 1) == [];
          assert p == [Sym(1)] + [];
        }
      }
    }
  }

  lemma NothingToStrip(s: string, drop: char -> bool)
    requires s != [] && !drop(s[0]) && !drop(s[|s| - 1])
    ensures Strip(s, drop) == s
  {
  }

  lemma CommentTokens(c: Config)
    ensures LineOf("/* none */") == Comment("/* none */")
    ensures TokensOf(LineOf("/* none */")) == [Token("/* none */", 0)]
    ensures forall i :: 0 <= i < |"/* none */"| ==> "/* none */"[i] != '\''
  {
    hide Strip, Split, Concat, WithoutBlanks, WordLength;
    NothingToStrip("/* none */", IsBlank);
  }

  /** A comment that is not in the table is taken for a symbol, which the empty production does not
      have. */
  lemma UnlistedComment(c: Config, irType: string, body: seq<Stmt>)
    requires "/* none */" !in c.totalKeywords
    requires Translated(c, TokensOf(LineOf("/* none */")), irType, body)
    ensures Linear(Exec(body).value.result) == [Sym(1)] && Expected(c, LineOf("/* none */")) == []
  {
    hide Linear, LineOf, TokensOf, Exec, KeywordTexts;
    CommentTokens(c);
    var t := Token("/* none */", 0);
    assert t in [t] && !IsKeyword(c, t);
    assert Printed(c, [t], 1, 1) == [];
    assert Printed(c, [t], 0, 1) == [Sym(1)] + [];
  }

  lemma CommaTokens(c: Config)
    ensures LineOf("','") == Words(["','"]) && TokensOf(LineOf("','")) == [Token("','", 0)]
  {
    var text := "','";
    hide Strip;
    NothingToStrip(text, IsBlank);
    OneWord(text);
    assert BeforePrec([text]) == [text] + BeforePrec([]);
  }

  lemma CommaPrinted(c: Config)
    requires c.upper(",") == ","
    ensures Printed(c, [Token("','", 0)], 0, 1) == [Word(",")] && IsKeyword(c, Token("','", 0))
  {
    var t := Token("','", 0);
    assert t.word[0] == '\'';
    assert Strip(t.word, IsQuote) == ",";
    assert Printed(c, [t], 1, 1) == [];
    assert [Word(",")] + [] == [Word(",")];
  }

  /** A quoted comma alone, which the shipped table does not list, is printed and then taken for a
      symbol as well. */
  lemma UnlistedComma(c: Config, irType: string, body: seq<Stmt>)
    requires "','" !in c.totalKeywords && c.upper(",") == ","
    requires Translated(c, TokensOf(LineOf("','")), irType, body)
    ensures Linear(Exec(body).value.result) == [Word(","), Sym(1)] && Expected(c, LineOf("','")) == [Word(",")]
  {
    hide IsKeyword, Printed, Linear, LineOf, TokensOf, Exec;
    CommaTokens(c);
    CommaPrinted(c);
    assert [Word(",")] + [Sym(1)] == [Word(","), Sym(1)];
  }

  /** A listed quoted word that looks like a comment is not printed at all. */
  lemma QuotedCommentIsLost(c: Config, irType: string, body: seq<Stmt>)
    requires "'/**/'" in c.totalKeywords && c.upper("/**/") == "/**/"
    requires Translated(c, [Token("'/**/'", 0)], irType, body)
    ensures Expected(c, Words(["'/**/'"])) == [Word("/**/")] && Linear(Exec(body).value.result) == []
  {
    hide Linear, Exec;
    var t := Token("'/**/'", 0);
    QuotedCommentText(c);
    assert BeforePrec(["'/**/'"]) == ["'/**/'"] + BeforePrec([]);
    assert TokensOf(Words(["'/**/'"])) == [t];
    assert Printed(c, [t], 1, 1) == [] && [Word("/**/")] + [] == [Word("/**/")];
    assert KeywordTexts(c, [t]) == ["/**/"] + KeywordTexts(c, []);
    assert IsComment(Join(["/**/"]));
  }

  lemma QuotedCommentText(c: Config)
    ensures IsKeyword(c, Token("'/**/'", 0)) && Text(c, Token("'/**/'", 0)) == "/**/"
  {
    var t := Token("'/**/'", 0);
    assert t.word[0] == '\'';
    assert Strip(t.word, IsQuote) == "/**/";
  }
}
