/** How expressions are printed (the expression visitors of src/ast/TranspilerVisitor.cpp):
    parse trees of names, literals, parentheses, binary operators, `.`, `->` on bases that
    are not classes, indexing, and assignment between operands of one type. The visitors
    add no parentheses, so the C compiler groups the tokens again by its own rules. */
module Printing {
  datatype Op = Mul | Div | Add | Sub | Eq | Ne | Lt | Gt | Le | Ge | Assign

  datatype Expr =
    | Name(word: string)
    | Paren(inner: Expr)
    | Member(base: Expr, field: string)
    | Arrow(base: Expr, field: string)
    | Index(base: Expr, index: Expr)
    | Binary(left: Expr, op: Op, right: Expr)

  /** A token is its spelling. */
  type Token = string

  function Spelling(op: Op): string {
    match op
    case Mul => "*" case Div => "/" case Add => "+" case Sub => "-"
    case Eq => "==" case Ne => "!=" case Lt => "<" case Gt => ">" case Le => "<=" case Ge => ">="
    case Assign => "="
  }

  /** The text the visitors return. */
  function Print(e: Expr): string {
    match e
    case Name(w) => w
    case Paren(x) => "(" + Print(x) + ")"
    case Member(x, f) => Print(x) + "." + f
    case Arrow(x, f) => Print(x) + "->" + f
    case Index(x, i) => Print(x) + "[" + Print(i) + "]"
    case Binary(l, op, r) => Print(l) + " " + Spelling(op) + " " + Print(r)
  }

  /** The source tokens the tree was parsed from. */
  function Tokens(e: Expr): seq<Token> {
    match e
    case Name(w) => [w]
    case Paren(x) => ["("] + Tokens(x) + [")"]
    case Member(x, f) => Tokens(x) + ["."] + [f]
    case Arrow(x, f) => Tokens(x) + ["->"] + [f]
    case Index(x, i) => Tokens(x) + ["["] + Tokens(i) + ["]"]
    case Binary(l, op, r) => Tokens(l) + [Spelling(op)] + Tokens(r)
  }

  predicate WordChar(c: char) {
    'a' <= c <= 'z' || 'A' <= c <= 'Z' || '0' <= c <= '9' || c == '_'
  }

  predicate IsDigit(c: char) { '0' <= c <= '9' }

  /** An integer literal, or an identifier or word such as `true`: IDENTIFIER and INTEGER in
      grammar/JBLang.g4. */
  predicate IsWord(w: string) {
    && w != "" && (forall i :: 0 <= i < |w| ==> WordChar(w[i]))
    && (IsDigit(w[0]) ==> AllDigits(w))
  }

  predicate AllDigits(w: string) { forall i :: 0 <= i < |w| ==> IsDigit(w[i]) }

  /** The lexer gives names and literals as words. */
  predicate WordsOk(e: Expr) {
    match e
    case Name(w) => IsWord(w)
    case Paren(x) => WordsOk(x)
    case Member(x, f) => WordsOk(x) && IsWord(f)
    case Arrow(x, f) => WordsOk(x) && IsWord(f)
    case Index(x, i) => WordsOk(x) && WordsOk(i)
    case Binary(l, _, r) => WordsOk(l) && WordsOk(r)
  }

  // ---------- reading the text back ----------

  function WordLength(s: string): (n: nat)
    ensures n <= |s|
    ensures forall i :: 0 <= i < n ==> WordChar(s[i])
    ensures n < |s| ==> !WordChar(s[n])
  {
    if s != "" && WordChar(s[0]) then
      var n := WordLength(s[1..]);
      assert forall i :: 0 < i <= n ==> s[i] == s[1..][i-1];
      1 + n
    else 0
  }

  predicate TwoChars(s: string) {
    |s| >= 2 && ((s[0] == '-' && s[1] == '>') || (s[0] in {'=', '!', '<', '>'} && s[1] == '='))
  }

  /** How JBLang's own lexer splits the text: longest words, two-character operators first. */
  function Lex(s: string): seq<Token>
    decreases |s|
  {
    if s == "" then []
    else if s[0] == ' ' then Lex(s[1..])
    else
      var n := if WordChar(s[0]) then WordLength(s) else if TwoChars(s) then 2 else 1;
      [s[..n]] + Lex(s[n..])
  }

  /** The text `s` ends a word. */
  predicate Stops(s: string) { s == "" || !WordChar(s[0]) }

  lemma LexWord(w: string, s: string)
    requires IsWord(w) && Stops(s)
    ensures Lex(w + s) == [w] + Lex(s)
  {
    var t := w + s;
    var n := WordLength(t);
    assert forall i :: 0 <= i < |w| ==> t[i] == w[i];
    assert s != "" ==> t[|w|] == s[0];
    assert t[..|w|] == w && t[|w|..] == s;
  }

  lemma LexSymbol(x: string, s: string)
    requires |x| == 1 && x[0] != ' ' && !WordChar(x[0]) && !TwoChars(x + s)
    ensures Lex(x + s) == [x] + Lex(s)
  {
    assert (x + s)[..1] == x && (x + s)[1..] == s;
  }

  lemma LexPair(x: string, s: string)
    requires x in {"->", "==", "!=", "<=", ">="}
    ensures Lex(x + s) == [x] + Lex(s)
  {
    assert (x + s)[..2] == x && (x + s)[2..] == s;
  }

  lemma LexOperator(op: Op, s: string)
    ensures Lex(" " + Spelling(op) + " " + s) == [Spelling(op)] + Lex(s)
  {
    var x := Spelling(op);
    assert (" " + x + " " + s)[1..] == x + (" " + s);
    assert (" " + s)[1..] == s;
    if |x| == 2 {
      LexPair(x, " " + s);
    } else {
      assert (x + (" " + s))[..2] == x + " ";
      assert (x + (" " + s))[1] == ' ';
      LexSymbol(x, " " + s);
    }
  }

  lemma Bracket(x: string, s: string)
    requires x in {"(", ")", ".", "[", "]"}
    ensures Lex(x + s) == [x] + Lex(s)
  {
    LexSymbol(x, s);
  }

  lemma Regroup<T>(a: seq<T>, b: seq<T>, c: seq<T>, d: seq<T>)
    ensures a + b + c + d == a + (b + (c + d))
  {}

  lemma Regroup5<T>(a: seq<T>, b: seq<T>, c: seq<T>, d: seq<T>, e: seq<T>)
    ensures a + b + c + d + e == a + (b + (c + (d + e)))
  {
    Regroup(a + b, c, d, e);
    assert (a + b) + (c + (d + e)) == a + (b + (c + (d + e)));
  }

  lemma LexParen(p: string, ts: seq<Token>, s: string)
    requires Lex(p + (")" + s)) == ts + Lex(")" + s)
    ensures Lex("(" + p + ")" + s) == ["("] + ts + [")"] + Lex(s)
  {
    Regroup("(", p, ")", s);
    Bracket("(", p + (")" + s));
    Bracket(")", s);
    Regroup(["("], ts, [")"], Lex(s));
  }

  lemma LexDot(dot: string, s: string)
    requires dot in {".", "->"}
    ensures Lex(dot + s) == [dot] + Lex(s)
  {
    if dot == "." { Bracket(dot, s); } else { LexPair(dot, s); }
  }

  lemma LexSuffix(p: string, ts: seq<Token>, dot: string, f: string, s: string)
    requires dot in {".", "->"} && IsWord(f) && Stops(s)
    requires Lex(p + (dot + (f + s))) == ts + Lex(dot + (f + s))
    ensures Lex(p + dot + f + s) == ts + [dot] + [f] + Lex(s)
  {
    Regroup(p, dot, f, s);
    LexDot(dot, f + s);
    LexWord(f, s);
    Regroup(ts, [dot], [f], Lex(s));
  }

  lemma LexIndex(p: string, ts: seq<Token>, i: string, us: seq<Token>, s: string)
    requires Lex(p + ("[" + (i + ("]" + s)))) == ts + Lex("[" + (i + ("]" + s)))
    requires Lex(i + ("]" + s)) == us + Lex("]" + s)
    ensures Lex(p + "[" + i + "]" + s) == ts + ["["] + us + ["]"] + Lex(s)
  {
    Regroup5(p, "[", i, "]", s);
    Bracket("[", i + ("]" + s));
    Bracket("]", s);
    Regroup5(ts, ["["], us, ["]"], Lex(s));
  }

  lemma Spread(l: string, x: string, r: string, s: string)
    ensures l + " " + x + " " + r + s == l + (" " + x + " " + (r + s))
  {
    Regroup5(l + " ", x, " ", r, s);
    Regroup(" ", x, " ", r + s);
    assert l + " " + (x + (" " + (r + s))) == l + (" " + (x + (" " + (r + s))));
  }

  lemma LexBinary(l: string, ts: seq<Token>, op: Op, r: string, us: seq<Token>, s: string)
    requires Lex(l + (" " + Spelling(op) + " " + (r + s))) == ts + Lex(" " + Spelling(op) + " " + (r + s))
    requires Lex(r + s) == us + Lex(s)
    ensures Lex(l + " " + Spelling(op) + " " + r + s) == ts + [Spelling(op)] + us + Lex(s)
  {
    var x := Spelling(op);
    Spread(l, x, r, s);
    LexOperator(op, r + s);
    Regroup(ts, [x], us, Lex(s));
  }

  /** Reading the printed text of an expression gives its source tokens, and then whatever
      follows. */
  lemma {:induction false} LexPrint(e: Expr, s: string)
    requires WordsOk(e) && Stops(s)
    ensures Lex(Print(e) + s) == Tokens(e) + Lex(s)
    decreases e
  {
    match e
    case Name(w) => LexWord(w, s);
    case Paren(x) =>
      LexPrint(x, ")" + s);
      LexParen(Print(x), Tokens(x), s);
    case Member(x, f) =>
      LexPrint(x, "." + (f + s));
      LexSuffix(Print(x), Tokens(x), ".", f, s);
    case Arrow(x, f) =>
      LexPrint(x, "->" + (f + s));
      LexSuffix(Print(x), Tokens(x), "->", f, s);
    case Index(x, i) =>
      LexPrint(x, "[" + (Print(i) + ("]" + s)));
      LexPrint(i, "]" + s);
      LexIndex(Print(x), Tokens(x), Print(i), Tokens(i), s);
    case Binary(l, op, r) =>
      LexPrint(l, " " + Spelling(op) + " " + (Print(r) + s));
      LexPrint(r, s);
      LexBinary(Print(l), Tokens(l), op, Print(r), Tokens(r), s);
  }

  /** The emitted tokens are the source tokens, read as JBLang reads them. */
  lemma TokensPreserved(e: Expr)
    requires WordsOk(e)
    ensures Lex(Print(e)) == Tokens(e)
  {
    LexPrint(e, "");
    assert Print(e) + "" == Print(e);
  }

  // ---------- reading the text as C ----------

  /** Where a number ends for a C lexer that has read `i` characters of it: a preprocessing
      number also takes dots, letters, and a sign after an exponent letter. */
  function NumberEnd(s: string, i: nat): (n: nat)
    requires 0 < i <= |s|
    ensures i <= n <= |s|
    ensures n < |s| ==> !WordChar(s[n]) && s[n] != '.'
    decreases |s| - i
  {
    if i < |s| && (WordChar(s[i]) || s[i] == '.'
                   || (s[i] in {'+', '-'} && s[i-1] in {'e', 'E', 'p', 'P'}))
    then NumberEnd(s, i + 1) else i
  }

  function CLex(s: string): seq<Token>
    decreases |s|
  {
    if s == "" then []
    else if s[0] == ' ' then CLex(s[1..])
    else
      var n := if IsDigit(s[0]) then NumberEnd(s, 1) else if WordChar(s[0]) then WordLength(s)
               else if TwoChars(s) then 2 else 1;
      [s[..n]] + CLex(s[n..])
  }

  predicate Numeral(t: Token) { t != "" && IsDigit(t[0]) }

  /** No number stands directly before a dot. */
  predicate NoNumberDot(ts: seq<Token>) {
    forall i, j :: 0 <= i && j == i + 1 < |ts| && Numeral(ts[i]) ==> ts[j] != "."
  }

  predicate PlainNumerals(ts: seq<Token>) {
    forall i :: 0 <= i < |ts| && Numeral(ts[i]) ==> AllDigits(ts[i])
  }

  lemma {:induction false} PlainEnd(s: string, n: nat, i: nat)
    requires 0 < i <= n <= |s| && AllDigits(s[..n])
    requires n < |s| ==> !WordChar(s[n]) && s[n] != '.'
    ensures NumberEnd(s, i) == n
    decreases n - i
  {
    assert forall k :: 0 <= k < n ==> s[..n][k] == s[k];
    if i < n { PlainEnd(s, n, i + 1); }
  }

  lemma TailPlain(ts: seq<Token>)
    requires ts != [] && NoNumberDot(ts) && PlainNumerals(ts)
    ensures NoNumberDot(ts[1..]) && PlainNumerals(ts[1..])
    ensures |ts| > 1 && Numeral(ts[0]) ==> ts[1] != "."
  {
    var us := ts[1..];
    forall i, j | 0 <= i && j == i + 1 < |us| && Numeral(us[i]) ensures us[j] != "." {
      assert us[i] == ts[i+1] && us[j] == ts[j+1];
    }
  }

  /** The two lexers differ only where a number stands before a dot. */
  lemma {:induction false} LexersAgree(s: string)
    requires NoNumberDot(Lex(s)) && PlainNumerals(Lex(s))
    ensures CLex(s) == Lex(s)
    decreases |s|
  {
    if s == "" {
    } else if s[0] == ' ' {
      LexersAgree(s[1..]);
    } else {
      var n := if WordChar(s[0]) then WordLength(s) else if TwoChars(s) then 2 else 1;
      assert Lex(s)[0] == s[..n] && Lex(s)[1..] == Lex(s[n..]);
      TailPlain(Lex(s));
      if IsDigit(s[0]) { NumberIsWord(s, n); }
      LexersAgree(s[n..]);
    }
  }

  lemma DotFirst(s: string)
    requires s != "" && s[0] == '.'
    ensures Lex(s) != [] && Lex(s)[0] == "."
  {
    assert s[..1] == ".";
  }

  lemma NumberIsWord(s: string, n: nat)
    requires s != "" && IsDigit(s[0]) && n == WordLength(s) && AllDigits(s[..n])
    requires |Lex(s[n..])| > 0 ==> Lex(s[n..])[0] != "."
    ensures NumberEnd(s, 1) == n
  {
    if n < |s| && s[n] == '.' {
      DotFirst(s[n..]);
      assert false;
    }
    PlainEnd(s, n, 1);
  }

  /** No dot follows a space. */
  predicate NoSpaceDot(s: string) {
    forall i, j :: 0 <= i && j == i + 1 < |s| && s[i] == ' ' ==> s[j] != '.'
  }

  lemma SuffixSpaceDot(s: string, n: nat)
    requires NoSpaceDot(s) && n <= |s|
    ensures NoSpaceDot(s[n..])
  {
    var t := s[n..];
    forall i, j | 0 <= i && j == i + 1 < |t| && t[i] == ' ' ensures t[j] != '.' {
      assert t[i] == s[n+i] && t[j] == s[n+j];
    }
  }

  lemma {:induction false} NotDotFirst(s: string)
    requires NoSpaceDot(s) && (s == "" || s[0] != '.')
    ensures CLex(s) == [] || CLex(s)[0] != "."
    decreases |s|
  {
    if s != "" && s[0] == ' ' {
      SuffixSpaceDot(s, 1);
      NotDotFirst(s[1..]);
    }
  }

  /** A C lexer never finds a number directly before a dot. */
  lemma {:induction false} CLexNoNumberDot(s: string)
    requires NoSpaceDot(s)
    ensures NoNumberDot(CLex(s))
    decreases |s|
  {
    if s == "" {
    } else if s[0] == ' ' {
      SuffixSpaceDot(s, 1);
      CLexNoNumberDot(s[1..]);
    } else {
      var n := if IsDigit(s[0]) then NumberEnd(s, 1) else if WordChar(s[0]) then WordLength(s)
               else if TwoChars(s) then 2 else 1;
      SuffixSpaceDot(s, n);
      CLexNoNumberDot(s[n..]);
      if IsDigit(s[0]) { NotDotFirst(s[n..]); }
      PrependToken(s[..n], CLex(s[n..]));
    }
  }

  lemma PrependToken(t: Token, ts: seq<Token>)
    requires NoNumberDot(ts) && (Numeral(t) && ts != [] ==> ts[0] != ".")
    ensures NoNumberDot([t] + ts)
  {
    var us := [t] + ts;
    forall i, j | 0 <= i && j == i + 1 < |us| && Numeral(us[i]) ensures us[j] != "." {
      if i > 0 { assert us[i] == ts[i-1] && us[j] == ts[j-1]; }
    }
  }

  /** Text that begins and ends visibly, and in which no dot follows a space. */
  predicate Tidy(s: string) { s != "" && s[0] != '.' && s[|s|-1] != ' ' && NoSpaceDot(s) }

  lemma TidyAppend(a: string, b: string)
    requires Tidy(a) && b != "" && b[|b|-1] != ' ' && NoSpaceDot(b)
    ensures Tidy(a + b)
  {
    var s := a + b;
    forall i, j | 0 <= i && j == i + 1 < |s| && s[i] == ' ' ensures s[j] != '.' {
      if j < |a| { assert s[i] == a[i] && s[j] == a[j]; }
      if i >= |a| { assert s[i] == b[i-|a|] && s[j] == b[j-|a|]; }
    }
  }

  lemma TidyWord(w: string)
    requires IsWord(w)
    ensures Tidy(w) && forall c :: c in w ==> c != ' ' && c != '.'
  {
    assert WordChar(w[0]) && WordChar(w[|w|-1]);
  }

  lemma {:induction false} PrintTidy(e: Expr)
    requires WordsOk(e)
    ensures Tidy(Print(e))
    decreases e
  {
    match e
    case Name(w) => TidyWord(w);
    case Paren(x) =>
      PrintTidy(x);
      TidyAppend("(", Print(x));
      TidyAppend("(" + Print(x), ")");
    case Member(x, f) =>
      PrintTidy(x);
      TidyWord(f);
      TidyAppend(Print(x), ".");
      TidyAppend(Print(x) + ".", f);
    case Arrow(x, f) =>
      PrintTidy(x);
      TidyWord(f);
      TidyAppend(Print(x), "->");
      TidyAppend(Print(x) + "->", f);
    case Index(x, i) =>
      PrintTidy(x);
      PrintTidy(i);
      TidyAppend(Print(x), "[");
      TidyAppend(Print(x) + "[", Print(i));
      TidyAppend(Print(x) + "[" + Print(i), "]");
    case Binary(l, op, r) =>
      PrintTidy(l);
      PrintTidy(r);
      TidyOperator(op, Print(r));
      TidyAppend(Print(l), " " + Spelling(op) + " " + Print(r));
      Regroup5(Print(l), " ", Spelling(op), " ", Print(r));
      Regroup(" ", Spelling(op), " ", Print(r));
  }

  lemma TidyOperator(op: Op, r: string)
    requires Tidy(r)
    ensures var s := " " + Spelling(op) + " " + r; s[|s|-1] != ' ' && NoSpaceDot(s)
  {
    var x := Spelling(op);
    var s := " " + x + " " + r;
    var k := 2 + |x|;
    assert s[|s|-1] == r[|r|-1];
    forall i, j | 0 <= i && j == i + 1 < |s| && s[i] == ' ' ensures s[j] != '.' {
      if i >= k { assert s[i] == r[i-k] && s[j] == r[j-k]; }
      if j == k { assert s[j] == r[0]; }
      if 0 < j <= |x| { assert s[j] == x[j-1]; }
    }
  }

  lemma {:induction false} TokensPlain(e: Expr)
    requires WordsOk(e)
    ensures PlainNumerals(Tokens(e))
    decreases e
  {
    match e
    case Name(w) =>
    case Paren(x) => TokensPlain(x);
    case Member(x, f) => TokensPlain(x);
    case Arrow(x, f) => TokensPlain(x);
    case Index(x, i) => TokensPlain(x); TokensPlain(i);
    case Binary(l, op, r) => TokensPlain(l); TokensPlain(r);
  }

  /** For a C compiler too the emitted tokens are the source tokens, exactly when no number
      stands directly before a dot. */
  lemma TokensPreservedInC(e: Expr)
    requires WordsOk(e)
    ensures CLex(Print(e)) == Tokens(e) <==> NoNumberDot(Tokens(e))
  {
    TokensPreserved(e);
    TokensPlain(e);
    PrintTidy(e);
    CLexNoNumberDot(Print(e));
    if NoNumberDot(Tokens(e)) { LexersAgree(Print(e)); }
  }

  /** `1.f` is three tokens of JBLang and one of C. */
  lemma NumberBeforeDot()
    ensures var e := Member(Name("1"), "f"); WordsOk(e) && Tokens(e) == ["1", ".", "f"] && CLex(Print(e)) != Tokens(e)
  {
    var e := Member(Name("1"), "f");
    assert Numeral(Tokens(e)[0]) && Tokens(e)[1] == ".";
    TokensPreservedInC(e);
  }

  // ---------- grouping is lost ----------

  /** How each token is spaced, wherever it stands in a tree. */
  function Spaced(t: Token): string {
    if t in {"*", "/", "+", "-", "==", "!=", "<", ">", "<=", ">=", "="} then " " + t + " " else t
  }

  function Render(ts: seq<Token>): string {
    if ts == [] then "" else Spaced(ts[0]) + Render(ts[1..])
  }

  lemma {:induction false} RenderAppend(ts: seq<Token>, us: seq<Token>)
    ensures Render(ts + us) == Render(ts) + Render(us)
    decreases |ts|
  {
    if ts == [] {
      assert ts + us == us;
    } else {
      RenderAppend(ts[1..], us);
      assert (ts + us)[1..] == ts[1..] + us;
    }
  }

  lemma RenderOne(t: Token)
    ensures Render([t]) == Spaced(t)
  {
    assert [t][1..] == [];
  }

  lemma WordNotSpaced(w: string)
    requires IsWord(w)
    ensures Spaced(w) == w
  {
    assert WordChar(w[0]);
  }

  lemma RenderParen(ts: seq<Token>)
    ensures Render(["("] + ts + [")"]) == "(" + Render(ts) + ")"
  {
    RenderAppend(["("] + ts, [")"]);
    RenderAppend(["("], ts);
    RenderOne("(");
    RenderOne(")");
  }

  lemma RenderSuffix(ts: seq<Token>, dot: Token, f: string)
    requires IsWord(f) && dot in {".", "->"}
    ensures Render(ts + [dot] + [f]) == Render(ts) + dot + f
  {
    RenderAppend(ts + [dot], [f]);
    RenderAppend(ts, [dot]);
    RenderOne(dot);
    RenderOne(f);
    WordNotSpaced(f);
  }

  lemma RenderIndex(ts: seq<Token>, us: seq<Token>)
    ensures Render(ts + ["["] + us + ["]"]) == Render(ts) + "[" + Render(us) + "]"
  {
    RenderAppend(ts + ["["] + us, ["]"]);
    RenderAppend(ts + ["["], us);
    RenderAppend(ts, ["["]);
    RenderOne("[");
    RenderOne("]");
  }

  lemma RenderBinary(ts: seq<Token>, op: Op, us: seq<Token>)
    ensures Render(ts + [Spelling(op)] + us) == Render(ts) + " " + Spelling(op) + " " + Render(us)
  {
    var x := Spelling(op);
    RenderAppend(ts + [x], us);
    RenderAppend(ts, [x]);
    RenderOne(x);
    assert Spaced(x) == " " + x + " ";
    Around(Render(ts), x, Render(us));
  }

  lemma Around(a: string, x: string, b: string)
    ensures a + (" " + x + " ") + b == a + " " + x + " " + b
  {}

  /** The printed text depends on the tokens alone. */
  lemma {:induction false} PrintIsRender(e: Expr)
    requires WordsOk(e)
    ensures Print(e) == Render(Tokens(e))
    decreases e
  {
    match e
    case Name(w) => RenderOne(w); WordNotSpaced(w);
    case Paren(x) => PrintIsRender(x); RenderParen(Tokens(x));
    case Member(x, f) => PrintIsRender(x); RenderSuffix(Tokens(x), ".", f);
    case Arrow(x, f) => PrintIsRender(x); RenderSuffix(Tokens(x), "->", f);
    case Index(x, i) => PrintIsRender(x); PrintIsRender(i); RenderIndex(Tokens(x), Tokens(i));
    case Binary(l, op, r) => PrintIsRender(l); PrintIsRender(r); RenderBinary(Tokens(l), op, Tokens(r));
  }

  /** Two groupings print the same C exactly when they have the same tokens. */
  lemma SamePrintIff(e: Expr, f: Expr)
    requires WordsOk(e) && WordsOk(f)
    ensures Print(e) == Print(f) <==> Tokens(e) == Tokens(f)
  {
    TokensPreserved(e);
    TokensPreserved(f);
    PrintIsRender(e);
    PrintIsRender(f);
  }

  /** The grammar ranks `->` below `=`: `x = y->f` parses as a member of an assignment, and
      still prints as the assignment of a member. */
  lemma ArrowBelowAssign(x: Expr, y: Expr, f: string)
    requires WordsOk(x) && WordsOk(y) && IsWord(f)
    ensures Print(Arrow(Binary(x, Assign, y), f)) == Print(Binary(x, Assign, Arrow(y, f)))
    ensures Arrow(Binary(x, Assign, y), f) != Binary(x, Assign, Arrow(y, f))
  {
    assert Tokens(x) + ["="] + Tokens(y) + ["->"] + [f] == Tokens(x) + ["="] + (Tokens(y) + ["->"] + [f]);
    SamePrintIff(Arrow(Binary(x, Assign, y), f), Binary(x, Assign, Arrow(y, f)));
  }
}

