/** Printing a command tree with full parentheses and parsing it back. */
module ShRound {
  import opened ShSpec
  import opened Sh

  datatype Tree =
    | TExec(args: seq<string>)
    | TRedir(t: Tree, file: string, mode: Mode)
    | TPipe(left: Tree, right: Tree)
    | TList(left: Tree, right: Tree)
    | TBack(t: Tree)

  ghost predicate IsWordText(w: string) {
    |w| > 0 && forall i :: 0 <= i < |w| ==> IsWordChar(w[i])
  }

  /** Arguments and file names are words. */
  ghost predicate WellFormed(t: Tree) {
    match t
    case TExec(args) => forall i :: 0 <= i < |args| ==> IsWordText(args[i])
    case TRedir(u, file, _) => WellFormed(u) && IsWordText(file)
    case TPipe(l, r) => WellFormed(l) && WellFormed(r)
    case TList(l, r) => WellFormed(l) && WellFormed(r)
    case TBack(u) => WellFormed(u)
  }

  /** No EXEC has more arguments than parseexec takes. */
  predicate Fits(t: Tree) {
    match t
    case TExec(args) => |args| < MAXARGS
    case TRedir(u, _, _) => Fits(u)
    case TPipe(l, r) => Fits(l) && Fits(r)
    case TList(l, r) => Fits(l) && Fits(r)
    case TBack(u) => Fits(u)
  }

  // ---------- printing ----------

  function PrintArgs(args: seq<string>): string {
    if args == [] then "" else " " + args[0] + PrintArgs(args[1..])
  }

  function Arrow(m: Mode): char { if m == ForReading then '<' else '>' }

  function Body(t: Tree): string
    decreases t, 0
  {
    match t
    case TExec(args) => PrintArgs(args)
    case TRedir(u, file, m) => Print(u) + [Arrow(m)] + file
    case TPipe(l, r) => Print(l) + "|" + Print(r)
    case TList(l, r) => Print(l) + ";" + Print(r)
    case TBack(u) => Print(u) + "&"
  }

  function Print(t: Tree): (r: string)
    ensures |r| >= 2
    decreases t, 1
  {
    "(" + Body(t) + ")"
  }

  // ---------- the command each tree stands for, with its positions ----------

  function ArgToks(args: seq<string>, p: nat): (r: seq<Tok>)
    ensures |r| == |args|
    decreases |args|
  {
    if args == [] then [] else [Tok(p + 1, p + 1 + |args[0]|)] + ArgToks(args[1..], p + 1 + |args[0]|)
  }

  function CmdOf(t: Tree, s: nat): Cmd {
    match t
    case TExec(args) => Exec(ArgToks(args, s + 1))
    case TRedir(u, file, m) =>
      var q := s + 2 + |Print(u)|;
      Redir(CmdOf(u, s + 1), Tok(q, q + |file|), m, if m == ForReading then 0 else 1)
    case TPipe(l, r) => Pipe(CmdOf(l, s + 1), CmdOf(r, s + 2 + |Print(l)|))
    case TList(l, r) => List(CmdOf(l, s + 1), CmdOf(r, s + 2 + |Print(l)|))
    case TBack(u) => Back(CmdOf(u, s + 1))
  }

  /** x stands in the text at s. */
  predicate Here(buf: string, s: nat, x: string) {
    s + |x| <= |buf| && buf[s..s+|x|] == x
  }

  lemma HereParts(buf: string, s: nat, x: string, y: string)
    requires Here(buf, s, x + y)
    ensures Here(buf, s, x) && Here(buf, s + |x|, y)
  {
    var z := buf[s..s+|x+y|];
    assert z[..|x|] == x && z[|x|..] == y;
    assert buf[s..s+|x|] == z[..|x|];
    assert buf[s+|x|..s+|x|+|y|] == z[|x|..];
  }

  lemma HereChar(buf: string, s: nat, c: char)
    requires Here(buf, s, [c])
    ensures s < |buf| && buf[s] == c
  {
    assert buf[s] == buf[s..s+1][0];
  }

  lemma SkipStays(buf: string, s: nat)
    requires s <= |buf| && !IsSpace(At(buf, s))
    ensures Skip(buf, s) == s
  {
  }

  // ---------- spaces before a construct do not matter ----------

  lemma SkipFirst(buf: string, s: nat)
    requires Text(buf) && s <= |buf|
    ensures ParseExec(buf, Skip(buf, s)) == ParseExec(buf, s)
    ensures ParsePipe(buf, Skip(buf, s)) == ParsePipe(buf, s)
    ensures ParseLine(buf, Skip(buf, s)) == ParseLine(buf, s)
  {
    hide GetToken, ParseRedirs, ParseArgs, ParseBlock, Words, ParseBacks;
    SkipTwice(buf, s);
  }

  // ---------- one symbol ----------

  /** A symbol other than '>' at s, consumed. */
  lemma Symbol(buf: string, s: nat, c: char)
    requires Text(buf) && s < |buf| && buf[s] == c && IsSymbol(c) && c != '>'
    ensures Skip(buf, s) == s
    ensures GetToken(buf, s).kind == Sym(c) && GetToken(buf, s).s == Skip(buf, s + 1)
    ensures Peek(buf, s, "(") <==> c == '('
    ensures Peek(buf, s, ")") <==> c == ')'
    ensures Peek(buf, s, "|") <==> c == '|'
    ensures Peek(buf, s, "&") <==> c == '&'
    ensures Peek(buf, s, ";") <==> c == ';'
  {
    SkipStays(buf, s);
  }

  /** Where a command ends: ')' or the end of the text. */
  predicate Closes(buf: string, e: nat) {
    e <= |buf| && (At(buf, e) == ')' || At(buf, e) == '\0')
  }

  lemma ClosesAt(buf: string, e: nat)
    requires Closes(buf, e)
    ensures Skip(buf, e) == e
    ensures !Peek(buf, e, "<>") && !Peek(buf, e, "|") && !Peek(buf, e, "&") && !Peek(buf, e, ";")
  {
    SkipStays(buf, e);
  }

  /** A block alone up to a closing point is a pipeline and a line. */
  lemma AloneIsLine(buf: string, s: nat, c: Cmd, e: nat)
    requires Text(buf) && s <= |buf| && ParseExec(buf, s) == Parsed(c, e) && Closes(buf, e)
    ensures ParsePipe(buf, s) == Parsed(c, e) && ParseLine(buf, s) == Parsed(c, e)
  {
    hide ParseExec, GetToken, Peek, Skip;
    ClosesAt(buf, e);
  }

  // ---------- one block ----------

  /** "(" line ")": what parseexec makes of a block, up to the redirections after it. */
  lemma BlockIs(buf: string, s: nat, c: Cmd, e: nat)
    requires Text(buf) && s < e < |buf| && buf[s] == '(' && buf[e] == ')'
    requires ParseLine(buf, s + 1) == Parsed(c, e)
    ensures Words(buf, c) && ParseExec(buf, s) == ParseRedirs(buf, c, e + 1)
  {
    hide ParseLine, ParseBlock, ParseRedirs, ParseArgs, GetToken, Peek, Skip, Words;
    BlockOpens(buf, s);
    BlockBody(buf, s, c, e);
  }

  lemma BlockOpens(buf: string, s: nat)
    requires Text(buf) && s < |buf| && buf[s] == '('
    ensures ParseExec(buf, s) == ParseBlock(buf, s)
  {
    hide ParseLine, ParseBlock, ParseRedirs, ParseArgs, GetToken, Words;
    SkipStays(buf, s);
  }

  lemma BlockBody(buf: string, s: nat, c: Cmd, e: nat)
    requires Text(buf) && s < e < |buf| && buf[s] == '(' && buf[e] == ')'
    requires ParseLine(buf, s + 1) == Parsed(c, e)
    ensures Words(buf, c) && ParseBlock(buf, s) == ParseRedirs(buf, c, e + 1)
  {
    hide ParseExec, ParseLine, ParseRedirs, ParseArgs, GetToken, Peek, Skip, Words, Text, At;
    Symbol(buf, s, '(');
    SkipFirst(buf, s + 1);
    Symbol(buf, e, ')');
    RedirsSkip(buf, c, e + 1);
  }

  lemma BlockFails(buf: string, s: nat)
    requires Text(buf) && s < |buf| && buf[s] == '(' && ParseLine(buf, s + 1) == SyntaxError
    ensures ParseExec(buf, s) == SyntaxError
  {
    hide ParseLine, ParseRedirs, ParseArgs, GetToken, Peek, Skip, Words;
    BlockOpens(buf, s);
    Symbol(buf, s, '(');
    SkipFirst(buf, s + 1);
  }

  /** A block followed by something that is no redirection. */
  lemma NoRedirs(buf: string, c: Cmd, e: nat)
    requires Text(buf) && e <= |buf| && Words(buf, c)
    requires !IsSpace(At(buf, e)) && At(buf, e) != '<' && At(buf, e) != '>'
    ensures ParseRedirs(buf, c, e) == Parsed(c, e) && Skip(buf, e) == e
  {
    SkipStays(buf, e);
  }

  // ---------- pipes, lists, background ----------

  lemma PipeIs(buf: string, s: nat, c: Cmd, m: nat, d: Cmd, e: nat)
    requires Text(buf) && s <= m < |buf| && buf[m] == '|' && ParseExec(buf, s) == Parsed(c, m)
    requires ParseExec(buf, m + 1) == Parsed(d, e) && Closes(buf, e)
    ensures ParsePipe(buf, s) == Parsed(Pipe(c, d), e) && ParseLine(buf, s) == Parsed(Pipe(c, d), e)
  {
    hide ParseExec, GetToken, Peek, Skip;
    Symbol(buf, m, '|');
    SkipFirst(buf, m + 1);
    AloneIsLine(buf, m + 1, d, e);
    ClosesAt(buf, e);
  }

  lemma ListIs(buf: string, s: nat, c: Cmd, m: nat, d: Cmd, e: nat)
    requires Text(buf) && s <= m < |buf| && buf[m] == ';' && ParseExec(buf, s) == Parsed(c, m)
    requires ParseExec(buf, m + 1) == Parsed(d, e) && Closes(buf, e)
    ensures ParseLine(buf, s) == Parsed(List(c, d), e)
  {
    hide ParseExec, GetToken, Peek, Skip;
    Symbol(buf, m, ';');
    SkipFirst(buf, m + 1);
    AloneIsLine(buf, m + 1, d, e);
  }

  lemma BackIs(buf: string, s: nat, c: Cmd, m: nat)
    requires Text(buf) && s <= m < |buf| && buf[m] == '&' && ParseExec(buf, s) == Parsed(c, m)
    requires Closes(buf, m + 1)
    ensures ParseLine(buf, s) == Parsed(Back(c), m + 1)
  {
    hide ParseExec, GetToken, Peek, Skip;
    Symbol(buf, m, '&');
    ClosesAt(buf, m + 1);
    assert ParseBacks(buf, Back(c), m + 1) == Parsed(Back(c), m + 1);
    assert ParseBacks(buf, c, m) == Parsed(Back(c), m + 1);
  }

  // ---------- words ----------

  lemma {:induction false} WordEndIs(buf: string, q: nat, eq: nat)
    requires q <= eq <= |buf| && !IsWordChar(At(buf, eq)) && forall i :: q <= i < eq ==> IsWordChar(buf[i])
    ensures WordEnd(buf, q) == eq
    decreases eq - q
  {
    if q < eq {
      WordEndIs(buf, q + 1, eq);
    }
  }

  /** A word at q, up to a space or a symbol. */
  lemma WordIs(buf: string, q: nat, w: string)
    requires Text(buf) && Here(buf, q, w) && IsWordText(w) && !IsWordChar(At(buf, q + |w|))
    ensures Skip(buf, q) == q && IsWord(buf, Tok(q, q + |w|))
    ensures GetToken(buf, q) == Token(Word, Tok(q, q + |w|), Skip(buf, q + |w|))
    ensures !Peek(buf, q, "|)&;")
  {
    forall i | q <= i < q + |w| ensures IsWordChar(buf[i]) {
      assert buf[i] == buf[q..q+|w|][i-q];
    }
    SkipStays(buf, q);
    WordEndIs(buf, q, q + |w|);
  }

  /** "<f" or ">f" after a block. */
  lemma RedirIs(buf: string, c: Cmd, m: nat, mode: Mode, file: string)
    requires Text(buf) && m < |buf| && buf[m] == Arrow(mode) && Words(buf, c)
    requires Here(buf, m + 1, file) && IsWordText(file) && Closes(buf, m + 1 + |file|)
    ensures var d := Redir(c, Tok(m + 1, m + 1 + |file|), mode, if mode == ForReading then 0 else 1);
            Words(buf, d) && ParseRedirs(buf, c, m) == Parsed(d, m + 1 + |file|)
  {
    hide WordEnd, IsWord;
    var e := m + 1 + |file|;
    WordIs(buf, m + 1, file);
    SkipStays(buf, m);
    assert At(buf, m + 1) == file[0] by {
      assert buf[m+1] == buf[m+1..e][0];
    }
    var d := Redir(c, Tok(m + 1, e), mode, if mode == ForReading then 0 else 1);
    ClosesAt(buf, e);
    NoRedirs(buf, d, e);
  }

  // ---------- arguments ----------

  ghost predicate AreWords(args: seq<string>) {
    forall i :: 0 <= i < |args| ==> IsWordText(args[i])
  }

  /** The text at p is the arguments and then ')'. */
  ghost predicate ArgsHere(buf: string, p: nat, args: seq<string>, e: nat) {
    AreWords(args) && Here(buf, p, PrintArgs(args)) && e == p + |PrintArgs(args)| && e < |buf| && buf[e] == ')'
  }

  lemma ArgsSplit(buf: string, p: nat, args: seq<string>, e: nat)
    requires ArgsHere(buf, p, args, e) && args != []
    ensures p < |buf| && buf[p] == ' ' && Here(buf, p + 1, args[0]) && IsWordText(args[0])
    ensures ArgsHere(buf, p + 1 + |args[0]|, args[1..], e)
  {
    var rest := PrintArgs(args[1..]);
    assert " " + args[0] + rest == " " + (args[0] + rest);
    HereParts(buf, p, " ", args[0] + rest);
    HereChar(buf, p, ' ');
    HereParts(buf, p + 1, args[0], rest);
  }

  lemma ArgsStart(buf: string, p: nat, args: seq<string>, e: nat)
    requires ArgsHere(buf, p, args, e)
    ensures p < |buf| && !IsWordChar(At(buf, p))
    ensures args == [] ==> p == e && Skip(buf, p) == p
    ensures args != [] ==> Skip(buf, p) == p + 1 && IsWordChar(At(buf, p + 1))
  {
    if args != [] {
      ArgsSplit(buf, p, args, e);
      assert buf[p+1] == buf[p+1..p+1+|args[0]|][0];
      SkipStays(buf, p + 1);
    } else {
      SkipStays(buf, p);
    }
  }

  /** The next argument is taken, unless it is the tenth. */
  lemma OneArg(buf: string, args: seq<string>, done: seq<Tok>, p: nat, e: nat)
    requires Text(buf) && ArgsHere(buf, p, args, e) && args != [] && Words(buf, Exec(done))
    ensures p + 1 + |args[0]| <= |buf| && Words(buf, Exec(done + [Tok(p + 1, p + 1 + |args[0]|)]))
    ensures |done| + 1 < MAXARGS ==>
              ParseArgs(buf, Exec(done), |done|, p) == ParseArgs(buf, Exec(done + [Tok(p + 1, p + 1 + |args[0]|)]), |done| + 1, p + 1 + |args[0]|)
    ensures |done| + 1 >= MAXARGS ==> ParseArgs(buf, Exec(done), |done|, p) == SyntaxError
  {
    hide ParseArgs, ParseRedirs, GetToken, Peek, Skip, IsWord, WordEnd, ArgsHere, IsWordText, Here, Words, IsSymbol;
    var w, p2 := args[0], p + 1 + |args[0]|;
    var tok := Tok(p + 1, p2);
    ArgsStart(buf, p, args, e);
    ArgsSplit(buf, p, args, e);
    ArgsStart(buf, p2, args[1..], e);
    WordIs(buf, p + 1, w);
    ArgsSkip(buf, Exec(done), |done|, p);
    AddArgWords(buf, Exec(done), tok);
    ArgsStep(buf, Exec(done), |done|, p + 1);
    NextIsNoRedir(buf, p2, args[1..], e);
    NoRedirs(buf, Exec(done + [tok]), Skip(buf, p2));
    ArgsSkip(buf, Exec(done + [tok]), |done| + 1, p2);
  }

  /** parseexec's loop takes the arguments in order, and refuses the tenth. */
  lemma {:induction false} ArgsParse(buf: string, args: seq<string>, done: seq<Tok>, p: nat, e: nat)
    requires Text(buf) && ArgsHere(buf, p, args, e) && |done| < MAXARGS && Words(buf, Exec(done))
    ensures if |done| + |args| < MAXARGS then ParseArgs(buf, Exec(done), |done|, p) == Parsed(Exec(done + ArgToks(args, p)), e)
            else ParseArgs(buf, Exec(done), |done|, p) == SyntaxError
    decreases |args|
  {
    hide ParseArgs, ArgsHere, IsWord, Skip, Peek, GetToken, ParseRedirs, Words, ArgToks;
    ArgToksStep(args, p, done);
    if args == [] {
      ClosingParen(buf, p, args, e);
      ArgsStep(buf, Exec(done), |done|, p);
    } else {
      var p2 := p + 1 + |args[0]|;
      var tok := Tok(p + 1, p2);
      OneArg(buf, args, done, p, e);
      if |done| + 1 < MAXARGS {
        ArgsSplit(buf, p, args, e);
        ArgsParse(buf, args[1..], done + [tok], p2, e);
      }
    }
  }

  lemma ArgToksStep(args: seq<string>, p: nat, done: seq<Tok>)
    ensures args == [] ==> done + ArgToks(args, p) == done
    ensures args != [] ==>
              done + ArgToks(args, p) == done + [Tok(p + 1, p + 1 + |args[0]|)] + ArgToks(args[1..], p + 1 + |args[0]|)
  {
  }

  lemma ClosingParen(buf: string, p: nat, args: seq<string>, e: nat)
    requires Text(buf) && ArgsHere(buf, p, args, e) && args == []
    ensures p == e && Skip(buf, p) == p && Peek(buf, p, "|)&;")
  {
    SkipStays(buf, p);
  }

  lemma NextIsNoRedir(buf: string, p: nat, args: seq<string>, e: nat)
    requires ArgsHere(buf, p, args, e)
    ensures var c := At(buf, Skip(buf, p)); c != '<' && c != '>' && !IsSpace(c)
  {
    ArgsStart(buf, p, args, e);
  }

  lemma ExecIs(buf: string, p: nat, args: seq<string>, e: nat)
    requires Text(buf) && ArgsHere(buf, p, args, e)
    ensures if |args| < MAXARGS then ParseExec(buf, p) == Parsed(Exec(ArgToks(args, p)), e) else ParseExec(buf, p) == SyntaxError
  {
    hide ParseArgs, ParseRedirs, GetToken, Skip, IsWord, WordEnd, ArgsHere, ParseBlock;
    ArgsStart(buf, p, args, e);
    NextIsNoRedir(buf, p, args, e);
    NotOpening(buf, p, args, e);
    NoRedirs(buf, Exec([]), Skip(buf, p));
    ArgsSkip(buf, Exec([]), 0, p);
    ArgsParse(buf, args, [], p, e);
    assert [] + ArgToks(args, p) == ArgToks(args, p);
  }

  lemma NotOpening(buf: string, p: nat, args: seq<string>, e: nat)
    requires ArgsHere(buf, p, args, e)
    ensures p <= |buf| && !Peek(buf, p, "(") && Skip(buf, Skip(buf, p)) == Skip(buf, p)
  {
    ArgsStart(buf, p, args, e);
    SkipTwice(buf, p);
  }

  // ---------- every tree ----------

  /** Parsing a printed tree up to the redirections that follow it. */
  lemma {:induction false} PrintedParses(buf: string, s: nat, t: Tree)
    requires Text(buf) && Here(buf, s, Print(t)) && WellFormed(t)
    ensures Fits(t) ==> Words(buf, CmdOf(t, s)) && ParseExec(buf, s) == ParseRedirs(buf, CmdOf(t, s), s + |Print(t)|)
    ensures !Fits(t) ==> ParseExec(buf, s) == SyntaxError
    decreases t, 1
  {
    hide ParseExec, ParseLine, ParseRedirs, Here, Words;
    var e := s + |Print(t)| - 1;
    Parens(buf, s, t);
    if Fits(t) {
      BodyParses(buf, s, t, e);
      BlockIs(buf, s, CmdOf(t, s), e);
    } else {
      BodyFails(buf, s, t, e);
      BlockFails(buf, s);
    }
  }

  lemma Parens(buf: string, s: nat, t: Tree)
    requires Here(buf, s, Print(t))
    ensures var e := s + |Print(t)| - 1;
            s < e < |buf| && buf[s] == '(' && buf[e] == ')' && Here(buf, s + 1, Body(t)) && e == s + 1 + |Body(t)|
  {
    assert "(" + Body(t) + ")" == "(" + (Body(t) + ")");
    HereParts(buf, s, "(", Body(t) + ")");
    HereChar(buf, s, '(');
    HereParts(buf, s + 1, Body(t), ")");
    HereChar(buf, s + 1 + |Body(t)|, ')');
  }

  /** Two printed trees with one character between them. */
  lemma Between(buf: string, s: nat, l: Tree, c: char, r: string)
    requires Here(buf, s, Print(l) + [c] + r)
    ensures Here(buf, s, Print(l)) && s + |Print(l)| < |buf| && buf[s + |Print(l)|] == c && Here(buf, s + |Print(l)| + 1, r)
  {
    assert Print(l) + [c] + r == Print(l) + ([c] + r);
    HereParts(buf, s, Print(l), [c] + r);
    HereParts(buf, s + |Print(l)|, [c], r);
    HereChar(buf, s + |Print(l)|, c);
  }

  lemma {:induction false} BodyParses(buf: string, s: nat, t: Tree, e: nat)
    requires Text(buf) && Here(buf, s + 1, Body(t)) && WellFormed(t) && Fits(t)
    requires e == s + 1 + |Body(t)| && e < |buf| && buf[e] == ')'
    ensures ParseLine(buf, s + 1) == Parsed(CmdOf(t, s), e)
    decreases t, 0, 1
  {
    hide ParseExec, ParseLine, ParseRedirs, Here, Words, CmdOf;
    match t
    case TExec(args) => ExecLine(buf, s, args, e);
    case TPipe(l, r) => JoinParses(buf, s, t, e);
    case TList(l, r) => JoinParses(buf, s, t, e);
    case TBack(u) => BackParses(buf, s, u, e);
    case TRedir(u, file, mode) => RedirParses(buf, s, u, file, mode, e);
  }

  lemma ExecLine(buf: string, s: nat, args: seq<string>, e: nat)
    requires Text(buf) && Here(buf, s + 1, PrintArgs(args)) && AreWords(args) && e == s + 1 + |PrintArgs(args)|
    requires e < |buf| && buf[e] == ')' && |args| < MAXARGS
    ensures ParseLine(buf, s + 1) == Parsed(CmdOf(TExec(args), s), e)
  {
    hide ParseExec, ParseLine, Here;
    ExecBody(buf, s, args, e);
    AloneIsLine(buf, s + 1, Exec(ArgToks(args, s + 1)), e);
  }

  lemma {:induction false} JoinParses(buf: string, s: nat, t: Tree, e: nat)
    requires t.TPipe? || t.TList?
    requires Text(buf) && Here(buf, s + 1, Body(t)) && WellFormed(t) && Fits(t)
    requires e == s + 1 + |Body(t)| && e < |buf| && buf[e] == ')'
    ensures ParseLine(buf, s + 1) == Parsed(CmdOf(t, s), e)
    decreases t, 0, 0
  {
    hide ParseExec, ParseLine, Here, Words, Print;
    var l, r, c := t.left, t.right, if t.TPipe? then '|' else ';';
    Between(buf, s + 1, l, c, Print(r));
    var m := s + 1 + |Print(l)|;
    Operand(buf, s + 1, l);
    Operand(buf, m + 1, r);
    if t.TPipe? {
      PipeIs(buf, s + 1, CmdOf(l, s + 1), m, CmdOf(r, m + 1), e);
    } else {
      ListIs(buf, s + 1, CmdOf(l, s + 1), m, CmdOf(r, m + 1), e);
    }
  }

  lemma {:induction false} BackParses(buf: string, s: nat, u: Tree, e: nat)
    requires Text(buf) && Here(buf, s + 1, Print(u) + "&") && WellFormed(u) && Fits(u)
    requires e == s + 2 + |Print(u)| && e < |buf| && buf[e] == ')'
    ensures ParseLine(buf, s + 1) == Parsed(CmdOf(TBack(u), s), e)
    decreases u, 3
  {
    hide ParseExec, ParseLine, Here, Words, Print;
    assert Print(u) + ['&'] + "" == Print(u) + "&";
    Between(buf, s + 1, u, '&', "");
    Operand(buf, s + 1, u);
    BackIs(buf, s + 1, CmdOf(u, s + 1), s + 1 + |Print(u)|);
  }

  lemma {:induction false} RedirParses(buf: string, s: nat, u: Tree, file: string, mode: Mode, e: nat)
    requires Text(buf) && Here(buf, s + 1, Print(u) + [Arrow(mode)] + file) && WellFormed(u) && Fits(u) && IsWordText(file)
    requires e == s + 2 + |Print(u)| + |file| && e < |buf| && buf[e] == ')'
    ensures ParseLine(buf, s + 1) == Parsed(CmdOf(TRedir(u, file, mode), s), e)
    decreases u, 3
  {
    hide ParseExec, ParseLine, ParseRedirs, Here, Words, Print, IsWordText;
    Between(buf, s + 1, u, Arrow(mode), file);
    PrintedParses(buf, s + 1, u);
    RedirIs(buf, CmdOf(u, s + 1), s + 1 + |Print(u)|, mode, file);
    AloneIsLine(buf, s + 1, CmdOf(TRedir(u, file, mode), s), e);
  }

  lemma ExecBody(buf: string, s: nat, args: seq<string>, e: nat)
    requires Text(buf) && Here(buf, s + 1, PrintArgs(args)) && AreWords(args) && e == s + 1 + |PrintArgs(args)|
    requires e < |buf| && buf[e] == ')'
    ensures |args| < MAXARGS ==> ParseExec(buf, s + 1) == Parsed(Exec(ArgToks(args, s + 1)), e)
    ensures |args| >= MAXARGS ==> ParseExec(buf, s + 1) == SyntaxError
  {
    hide ParseExec, Here;
    assert ArgsHere(buf, s + 1, args, e);
    ExecIs(buf, s + 1, args, e);
  }

  /** A printed tree that no redirection follows. */
  lemma {:induction false} Operand(buf: string, s: nat, t: Tree)
    requires Text(buf) && Here(buf, s, Print(t)) && WellFormed(t) && Fits(t)
    requires var c := At(buf, s + |Print(t)|); c == '|' || c == ';' || c == '&' || c == ')'
    ensures ParseExec(buf, s) == Parsed(CmdOf(t, s), s + |Print(t)|)
    decreases t, 2
  {
    hide ParseExec, ParseLine, ParseRedirs, Words;
    PrintedParses(buf, s, t);
    NoRedirs(buf, CmdOf(t, s), s + |Print(t)|);
  }

  lemma ExecFails(buf: string, s: nat)
    requires Text(buf) && s <= |buf| && ParseExec(buf, s) == SyntaxError
    ensures ParsePipe(buf, s) == SyntaxError && ParseLine(buf, s) == SyntaxError
  {
    hide ParseExec;
  }

  lemma RightFails(buf: string, s: nat, c: Cmd, m: nat)
    requires Text(buf) && s <= m < |buf| && (buf[m] == '|' || buf[m] == ';') && ParseExec(buf, s) == Parsed(c, m)
    requires ParseExec(buf, m + 1) == SyntaxError
    ensures ParseLine(buf, s) == SyntaxError
  {
    hide ParseExec, GetToken, Peek, Skip;
    Symbol(buf, m, buf[m]);
    SkipFirst(buf, m + 1);
    ExecFails(buf, m + 1);
  }

  /** An EXEC with too many arguments anywhere in the tree is a syntax error. */
  lemma {:induction false} BodyFails(buf: string, s: nat, t: Tree, e: nat)
    requires Text(buf) && Here(buf, s + 1, Body(t)) && WellFormed(t) && !Fits(t)
    requires e == s + 1 + |Body(t)| && e < |buf| && buf[e] == ')'
    ensures ParseLine(buf, s + 1) == SyntaxError
    decreases t, 0, 1
  {
    hide ParseExec, ParseLine, ParseRedirs, Here, Words, CmdOf;
    match t
    case TExec(args) =>
      ExecBody(buf, s, args, e);
      ExecFails(buf, s + 1);
    case TPipe(l, r) => JoinFails(buf, s, t);
    case TList(l, r) => JoinFails(buf, s, t);
    case TBack(u) =>
      HereParts(buf, s + 1, Print(u), "&");
      PrintedParses(buf, s + 1, u);
      HereBound(buf, s + 1, Print(u));
      ExecFails(buf, s + 1);
    case TRedir(u, file, mode) =>
      Between(buf, s + 1, u, Arrow(mode), file);
      PrintedParses(buf, s + 1, u);
      ExecFails(buf, s + 1);
  }

  lemma HereBound(buf: string, s: nat, x: string)
    requires Here(buf, s, x)
    ensures s <= |buf|
  {
  }

  lemma {:induction false} JoinFails(buf: string, s: nat, t: Tree)
    requires t.TPipe? || t.TList?
    requires Text(buf) && Here(buf, s + 1, Body(t)) && WellFormed(t) && !Fits(t)
    ensures s + 1 <= |buf| && ParseLine(buf, s + 1) == SyntaxError
    decreases t, 0, 0
  {
    hide ParseExec, ParseLine, ParseRedirs, Here, Words, CmdOf, Print;
    var l, r, c := t.left, t.right, if t.TPipe? then '|' else ';';
    Between(buf, s + 1, l, c, Print(r));
    var m := s + 1 + |Print(l)|;
    if !Fits(l) {
      PrintedParses(buf, s + 1, l);
      ExecFails(buf, s + 1);
    } else {
      Operand(buf, s + 1, l);
      PrintedParses(buf, m + 1, r);
      RightFails(buf, s + 1, CmdOf(l, s + 1), m);
    }
  }

  // ---------- the round trip ----------

  /** A command without its positions. */
  function Strip(buf: string, c: Cmd): Tree
    requires Words(buf, c)
  {
    match c
    case Exec(args) => TExec(seq(|args|, i requires 0 <= i < |args| => buf[args[i].q..args[i].eq]))
    case Redir(d, file, mode, _) => TRedir(Strip(buf, d), buf[file.q..file.eq], mode)
    case Pipe(l, r) => TPipe(Strip(buf, l), Strip(buf, r))
    case List(l, r) => TList(Strip(buf, l), Strip(buf, r))
    case Back(d) => TBack(Strip(buf, d))
  }

  lemma {:induction false} ArgTexts(buf: string, args: seq<string>, p: nat, i: nat)
    requires Here(buf, p, PrintArgs(args)) && i < |args|
    ensures ArgToks(args, p)[i].q <= ArgToks(args, p)[i].eq <= |buf|
    ensures buf[ArgToks(args, p)[i].q..ArgToks(args, p)[i].eq] == args[i]
    decreases |args|
  {
    var rest := PrintArgs(args[1..]);
    assert " " + args[0] + rest == " " + (args[0] + rest);
    HereParts(buf, p, " ", args[0] + rest);
    HereParts(buf, p + 1, args[0], rest);
    if i > 0 {
      ArgTexts(buf, args[1..], p + 1 + |args[0]|, i - 1);
    }
  }

  lemma StripExec(buf: string, s: nat, args: seq<string>)
    requires Here(buf, s + 1, PrintArgs(args)) && Words(buf, CmdOf(TExec(args), s))
    ensures Strip(buf, CmdOf(TExec(args), s)) == TExec(args)
  {
    hide Here, IsWord, ArgToks;
    var stripped := Strip(buf, CmdOf(TExec(args), s)).args;
    forall i | 0 <= i < |args| ensures stripped[i] == args[i] {
      ArgTexts(buf, args, s + 1, i);
    }
    assert stripped == args;
  }

  /** The command of a printed tree, stripped, is the tree. */
  lemma {:induction false} StripIs(buf: string, s: nat, t: Tree)
    requires Here(buf, s, Print(t)) && Words(buf, CmdOf(t, s))
    ensures Strip(buf, CmdOf(t, s)) == t
    decreases t
  {
    hide Here, IsWord, ArgToks, Print;
    Parens(buf, s, t);
    match t
    case TExec(args) => StripExec(buf, s, args);
    case TRedir(u, file, m) =>
      Between(buf, s + 1, u, Arrow(m), file);
      StripIs(buf, s + 1, u);
      HereText(buf, s + 2 + |Print(u)|, file);
    case TPipe(l, r) =>
      Between(buf, s + 1, l, '|', Print(r));
      StripIs(buf, s + 1, l);
      StripIs(buf, s + 2 + |Print(l)|, r);
    case TList(l, r) =>
      Between(buf, s + 1, l, ';', Print(r));
      StripIs(buf, s + 1, l);
      StripIs(buf, s + 2 + |Print(l)|, r);
    case TBack(u) =>
      HereParts(buf, s + 1, Print(u), "&");
      StripIs(buf, s + 1, u);
  }

  lemma HereText(buf: string, s: nat, x: string)
    requires Here(buf, s, x)
    ensures s + |x| <= |buf| && buf[s..s+|x|] == x
  {
  }

  lemma {:induction false} PrintIsText(t: Tree)
    requires WellFormed(t)
    ensures Text(Print(t)) && Text(Body(t))
  {
    match t
    case TExec(args) => ArgsAreText(args);
    case TRedir(u, file, m) => PrintIsText(u);
    case TPipe(l, r) => PrintIsText(l); PrintIsText(r);
    case TList(l, r) => PrintIsText(l); PrintIsText(r);
    case TBack(u) => PrintIsText(u);
  }

  lemma {:induction false} ArgsAreText(args: seq<string>)
    requires AreWords(args)
    ensures Text(PrintArgs(args))
    decreases |args|
  {
    if args != [] {
      ArgsAreText(args[1..]);
    }
  }

  /** Printed with full parentheses, a command tree parses exactly when no EXEC in it has
      ten or more arguments, and then it parses back to itself. */
  lemma RoundTrip(t: Tree)
    requires WellFormed(t)
    ensures Text(Print(t))
    ensures ParseCmd(Print(t)).Parsed? <==> Fits(t)
    ensures Fits(t) ==> Strip(Print(t), ParseCmd(Print(t)).c) == t
  {
    hide ParseExec, ParseLine, ParseRedirs, Words, Print, Body, Fits, CmdOf, Strip;
    PrintIsText(t);
    var buf := Print(t);
    assert buf[0..0+|buf|] == buf;
    PrintedParses(buf, 0, t);
    if Fits(t) {
      NoRedirs(buf, CmdOf(t, 0), |buf|);
      AloneIsLine(buf, 0, CmdOf(t, 0), |buf|);
      SkipStays(buf, |buf|);
      StripIs(buf, 0, t);
    } else {
      ExecFails(buf, 0);
    }
  }
}
