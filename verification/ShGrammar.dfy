/** The grammar of the shell, as lists of tokens, and the theorem that the parser accepts
    exactly the texts whose tokens it derives, with the command they stand for. */
module ShGrammar {
  import opened ShSpec
  import opened Sh
  import opened ShRound

  // ---------- the tokens of a text ----------

  /** A token by its text alone: a word, or a symbol. */
  datatype Lexeme = W(text: string) | S(kind: Kind)

  function LexemeOf(buf: string, t: Token): (x: Lexeme)
    requires t.kind == Word ==> t.tok.q <= t.tok.eq <= |buf|
  {
    if t.kind == Word then W(buf[t.tok.q..t.tok.eq]) else S(t.kind)
  }

  function Lex(buf: string, s: nat): (xs: seq<Lexeme>)
    requires Text(buf) && s <= |buf|
    decreases |buf| - s
  {
    var t := GetToken(buf, s);
    if t.kind == End then [] else [LexemeOf(buf, t)] + Lex(buf, t.s)
  }

  lemma TokenSkip(buf: string, s: nat)
    requires Text(buf) && s <= |buf|
    ensures GetToken(buf, Skip(buf, s)) == GetToken(buf, s)
  {
    hide WordEnd, Skip, IsWord;
    SkipTwice(buf, s);
  }

  lemma LexSkip(buf: string, s: nat)
    requires Text(buf) && s <= |buf|
    ensures Lex(buf, Skip(buf, s)) == Lex(buf, s) && GetToken(buf, Skip(buf, s)) == GetToken(buf, s)
  {
    hide GetToken, Skip, IsWord;
    TokenSkip(buf, s);
  }

  predicate Starts(xs: seq<Lexeme>, c: char) { xs != [] && xs[0] == S(Sym(c)) }

  predicate StartsRedir(xs: seq<Lexeme>) { Starts(xs, '<') || Starts(xs, '>') || (xs != [] && xs[0] == S(Append)) }

  /** Where an argument list may stop. */
  predicate Stops(xs: seq<Lexeme>) { Starts(xs, '|') || Starts(xs, ')') || Starts(xs, '&') || Starts(xs, ';') }

  /** What peek sees is the next token. */
  lemma PeekIs(buf: string, s: nat)
    requires Text(buf) && s <= |buf|
    ensures var xs := Lex(buf, s);
            && (Peek(buf, s, "<>") <==> StartsRedir(xs))
            && (Peek(buf, s, "|)&;") <==> Stops(xs))
            && (Peek(buf, s, "(") <==> Starts(xs, '('))
            && (Peek(buf, s, ")") <==> Starts(xs, ')'))
            && (Peek(buf, s, "|") <==> Starts(xs, '|'))
            && (Peek(buf, s, "&") <==> Starts(xs, '&'))
            && (Peek(buf, s, ";") <==> Starts(xs, ';'))
  {
    hide WordEnd, IsWord;
    var t := GetToken(buf, s);
    assert t.kind != End ==> Lex(buf, s)[0] == LexemeOf(buf, t);
  }

  /** Taking the next token leaves the rest. */
  lemma NextIs(buf: string, s: nat)
    requires Text(buf) && s <= |buf|
    ensures var t, xs := GetToken(buf, Skip(buf, s)), Lex(buf, s);
            && (t.kind == End <==> xs == [])
            && (xs != [] ==> xs[0] == LexemeOf(buf, t) && xs[1..] == Lex(buf, t.s))
  {
    hide GetToken;
    LexSkip(buf, s);
  }

  // ---------- the grammar ----------

  datatype How = FromFile | ToFile | AppendTo
  datatype Redirection = Redirection(how: How, file: string)

  /** An argument and the redirections right behind it. */
  datatype Item = Item(word: string, redirs: seq<Redirection>)

  datatype Unit = Simple(before: seq<Redirection>, items: seq<Item>) | Block(line: Line, behind: seq<Redirection>)
  datatype Pipeline = One(u: Unit) | Piped(u: Unit, rest: Pipeline)
  datatype Line = Last(p: Pipeline, amps: nat) | Then(p: Pipeline, amps: nat, rest: Line)

  function KindOf(how: How): Kind {
    match how
    case FromFile => Sym('<')
    case ToFile => Sym('>')
    case AppendTo => Append
  }

  function RedirToks(rs: seq<Redirection>): seq<Lexeme> {
    if rs == [] then [] else [S(KindOf(rs[0].how)), W(rs[0].file)] + RedirToks(rs[1..])
  }

  function ItemToks(items: seq<Item>): seq<Lexeme> {
    if items == [] then [] else [W(items[0].word)] + RedirToks(items[0].redirs) + ItemToks(items[1..])
  }

  function Amps(n: nat): seq<Lexeme> {
    if n == 0 then [] else [S(Sym('&'))] + Amps(n - 1)
  }

  function UnitToks(u: Unit): seq<Lexeme>
    decreases u
  {
    match u
    case Simple(before, items) => RedirToks(before) + ItemToks(items)
    case Block(line, behind) => [S(Sym('('))] + LineToks(line) + [S(Sym(')'))] + RedirToks(behind)
  }

  function PipeToks(p: Pipeline): seq<Lexeme>
    decreases p
  {
    match p
    case One(u) => UnitToks(u)
    case Piped(u, rest) => UnitToks(u) + [S(Sym('|'))] + PipeToks(rest)
  }

  function LineToks(l: Line): seq<Lexeme>
    decreases l
  {
    match l
    case Last(p, amps) => PipeToks(p) + Amps(amps)
    case Then(p, amps, rest) => PipeToks(p) + Amps(amps) + [S(Sym(';'))] + LineToks(rest)
  }

  // ---------- what it means ----------

  function ModeOf(how: How): Mode { if how == FromFile then ForReading else ForWriting }

  /** Redirections wrap a command, each the one before. */
  function Wrap(t: Tree, rs: seq<Redirection>): Tree
    decreases |rs|
  {
    if rs == [] then t else Wrap(TRedir(t, rs[0].file, ModeOf(rs[0].how)), rs[1..])
  }

  function WordsOf(items: seq<Item>): seq<string> {
    if items == [] then [] else [items[0].word] + WordsOf(items[1..])
  }

  function RedirsOf(items: seq<Item>): seq<Redirection> {
    if items == [] then [] else items[0].redirs + RedirsOf(items[1..])
  }

  function Behind(t: Tree, n: nat): Tree
    decreases n
  {
    if n == 0 then t else Behind(TBack(t), n - 1)
  }

  function UnitTree(u: Unit): Tree
    decreases u
  {
    match u
    case Simple(before, items) => Wrap(TExec(WordsOf(items)), before + RedirsOf(items))
    case Block(line, behind) => Wrap(LineTree(line), behind)
  }

  function PipeTree(p: Pipeline): Tree
    decreases p
  {
    match p
    case One(u) => UnitTree(u)
    case Piped(u, rest) => TPipe(UnitTree(u), PipeTree(rest))
  }

  function LineTree(l: Line): Tree
    decreases l
  {
    match l
    case Last(p, amps) => Behind(PipeTree(p), amps)
    case Then(p, amps, rest) => TList(Behind(PipeTree(p), amps), LineTree(rest))
  }

  /** No argument list is too long. */
  predicate UnitFits(u: Unit)
    decreases u
  {
    match u
    case Simple(_, items) => |items| < MAXARGS
    case Block(line, _) => LineFits(line)
  }

  predicate PipeFits(p: Pipeline)
    decreases p
  {
    match p
    case One(u) => UnitFits(u)
    case Piped(u, rest) => UnitFits(u) && PipeFits(rest)
  }

  predicate LineFits(l: Line)
    decreases l
  {
    match l
    case Last(p, _) => PipeFits(p)
    case Then(p, _, rest) => PipeFits(p) && LineFits(rest)
  }

  // ---------- outcomes ----------

  /** Standard input is redirected for reading, standard output for writing. */
  predicate FdsOk(c: Cmd) {
    match c
    case Exec(_) => true
    case Redir(d, _, mode, fd) => FdsOk(d) && fd == if mode == ForReading then 0 else 1
    case Pipe(l, r) => FdsOk(l) && FdsOk(r)
    case List(l, r) => FdsOk(l) && FdsOk(r)
    case Back(d) => FdsOk(d)
  }

  /** The parser took what stands for t and left `rest`. */
  ghost predicate Takes(buf: string, r: Result, t: Tree, rest: seq<Lexeme>)
    requires Text(buf)
  {
    && r.Parsed? && r.s <= |buf| && Words(buf, r.c) && FdsOk(r.c)
    && Strip(buf, r.c) == t && Lex(buf, r.s) == rest
  }

  /** It did so, or refused, as `ok` says. */
  ghost predicate Gives(buf: string, r: Result, ok: bool, t: Tree, rest: seq<Lexeme>)
    requires Text(buf)
  {
    if ok then Takes(buf, r, t, rest) else r == SyntaxError
  }

  // ---------- redirections ----------

  lemma RedirToksHead(rs: seq<Redirection>, rest: seq<Lexeme>)
    ensures rs == [] ==> RedirToks(rs) + rest == rest
    ensures rs != [] ==> RedirToks(rs) + rest == [S(KindOf(rs[0].how)), W(rs[0].file)] + (RedirToks(rs[1..]) + rest)
  {
    if rs != [] {
      var two := [S(KindOf(rs[0].how)), W(rs[0].file)];
      assert RedirToks(rs) == two + RedirToks(rs[1..]);
      assert two + RedirToks(rs[1..]) + rest == two + (RedirToks(rs[1..]) + rest);
    }
  }

  /** One redirection taken. */
  lemma RedirStep(buf: string, c: Cmd, s: nat, how: How, file: string, rest: seq<Lexeme>) returns (d: Cmd, e: nat)
    requires Text(buf) && s <= |buf| && Words(buf, c) && FdsOk(c)
    requires Lex(buf, s) == [S(KindOf(how)), W(file)] + rest
    ensures s < e <= |buf| && Words(buf, d) && FdsOk(d) && Strip(buf, d) == TRedir(Strip(buf, c), file, ModeOf(how))
    ensures Lex(buf, e) == rest && ParseRedirs(buf, c, s) == ParseRedirs(buf, d, e)
  {
    hide GetToken, Peek, Skip, ParseRedirs, Lex;
    PeekIs(buf, s);
    NextIs(buf, s);
    RedirsSkip(buf, c, s);
    var t := GetToken(buf, Skip(buf, s));
    LexSkip(buf, t.s);
    NextIs(buf, t.s);
    RedirsStep(buf, c, Skip(buf, s));
    assert Lex(buf, s)[1..] == [W(file)] + rest && Lex(buf, s)[1..][1..] == rest;
    var f := GetToken(buf, t.s);
    d, e := if t.kind == Sym('<') then Redir(c, f.tok, ForReading, 0) else Redir(c, f.tok, ForWriting, 1), f.s;
  }

  lemma NoRedirStep(buf: string, c: Cmd, s: nat)
    requires Text(buf) && s <= |buf| && Words(buf, c) && !StartsRedir(Lex(buf, s))
    ensures ParseRedirs(buf, c, s) == Parsed(c, Skip(buf, s)) && Lex(buf, Skip(buf, s)) == Lex(buf, s)
  {
    hide GetToken, Peek, Lex;
    PeekIs(buf, s);
    LexSkip(buf, s);
  }

  lemma {:induction false} RedirsTake(buf: string, c: Cmd, s: nat, rs: seq<Redirection>, rest: seq<Lexeme>)
    requires Text(buf) && s <= |buf| && Words(buf, c) && FdsOk(c)
    requires Lex(buf, s) == RedirToks(rs) + rest && !StartsRedir(rest)
    ensures Takes(buf, ParseRedirs(buf, c, s), Wrap(Strip(buf, c), rs), rest)
    decreases |rs|
  {
    hide Lex, ParseRedirs, Skip, RedirToks, Strip, Words;
    RedirToksHead(rs, rest);
    if rs == [] {
      NoRedirStep(buf, c, s);
    } else {
      var d, e := RedirStep(buf, c, s, rs[0].how, rs[0].file, RedirToks(rs[1..]) + rest);
      RedirsTake(buf, d, e, rs[1..], rest);
    }
  }

  /** Whatever redirections are taken were there. */
  lemma {:induction false} RedirsTaken(buf: string, c: Cmd, s: nat) returns (rs: seq<Redirection>)
    requires Text(buf) && s <= |buf| && Words(buf, c) && FdsOk(c) && ParseRedirs(buf, c, s).Parsed?
    ensures var r := ParseRedirs(buf, c, s);
            Lex(buf, s) == RedirToks(rs) + Lex(buf, r.s) && !StartsRedir(Lex(buf, r.s)) && Takes(buf, r, Wrap(Strip(buf, c), rs), Lex(buf, r.s))
    decreases |buf| - s
  {
    hide Lex, ParseRedirs, Skip, RedirToks, Strip, Words, GetToken, Peek;
    rs := [];
    if StartsRedir(Lex(buf, s)) {
      var how, file := RedirThere(buf, c, s);
      var d, e := RedirStep(buf, c, s, how, file, Lex(buf, s)[2..]);
      var more := RedirsTaken(buf, d, e);
      rs := [Redirection(how, file)] + more;
      RedirToksHead(rs, Lex(buf, ParseRedirs(buf, c, s).s));
      assert rs[1..] == more;
    } else {
      NoRedirStep(buf, c, s);
      RedirToksHead(rs, Lex(buf, s));
    }
  }

  /** A redirection that is taken has its file name. */
  lemma RedirThere(buf: string, c: Cmd, s: nat) returns (how: How, file: string)
    requires Text(buf) && s <= |buf| && Words(buf, c) && StartsRedir(Lex(buf, s)) && ParseRedirs(buf, c, s).Parsed?
    ensures |Lex(buf, s)| >= 2 && Lex(buf, s) == [S(KindOf(how)), W(file)] + Lex(buf, s)[2..]
  {
    hide GetToken, Peek, Skip, ParseRedirs, Lex;
    PeekIs(buf, s);
    NextIs(buf, s);
    RedirsSkip(buf, c, s);
    var t := GetToken(buf, Skip(buf, s));
    LexSkip(buf, t.s);
    NextIs(buf, t.s);
    RedirsStep(buf, c, Skip(buf, s));
    how := if t.kind == Sym('<') then FromFile else if t.kind == Sym('>') then ToFile else AppendTo;
    var xs := Lex(buf, s);
    assert xs[1..] == Lex(buf, t.s);
    assert xs[1..][0].W?;
    file := xs[1].text;
  }

  // ---------- arguments ----------

  /** One more argument for the innermost EXEC. */
  function AddWord(t: Tree, w: string): Tree {
    match t
    case TExec(args) => TExec(args + [w])
    case TRedir(u, file, mode) => TRedir(AddWord(u, w), file, mode)
    case other => other
  }

  lemma {:induction false} AddArgStrip(buf: string, c: Cmd, t: Tok)
    requires Words(buf, c) && IsWord(buf, t)
    ensures Words(buf, AddArg(c, t)) && Strip(buf, AddArg(c, t)) == AddWord(Strip(buf, c), buf[t.q..t.eq])
    ensures FdsOk(c) ==> FdsOk(AddArg(c, t))
    decreases c
  {
    AddArgWords(buf, c, t);
    match c
    case Exec(args) =>
      assert Strip(buf, Exec(args + [t])).args == Strip(buf, c).args + [buf[t.q..t.eq]];
    case Redir(d, _, _, _) => AddArgStrip(buf, d, t);
    case other =>
  }

  lemma {:induction false} AddWordWrap(t: Tree, rs: seq<Redirection>, w: string)
    ensures AddWord(Wrap(t, rs), w) == Wrap(AddWord(t, w), rs)
    decreases |rs|
  {
    if rs != [] {
      AddWordWrap(TRedir(t, rs[0].file, ModeOf(rs[0].how)), rs[1..], w);
    }
  }

  lemma {:induction false} WrapConcat(t: Tree, a: seq<Redirection>, b: seq<Redirection>)
    ensures Wrap(Wrap(t, a), b) == Wrap(t, a + b)
    decreases |a|
  {
    if a == [] {
      assert a + b == b;
    } else {
      assert (a + b)[1..] == a[1..] + b;
      WrapConcat(TRedir(t, a[0].file, ModeOf(a[0].how)), a[1..], b);
    }
  }

  /** The argument list is over. */
  predicate AtStop(xs: seq<Lexeme>) { xs == [] || Stops(xs) }

  lemma ArgsStop(buf: string, c: Cmd, argc: nat, s: nat)
    requires Text(buf) && s <= |buf| && Words(buf, c) && AtStop(Lex(buf, s))
    ensures var r := ParseArgs(buf, c, argc, s);
            r.Parsed? && r.c == c && r.s <= |buf| && Lex(buf, r.s) == Lex(buf, s)
  {
    hide GetToken, Peek, Lex, ParseArgs, Skip;
    PeekIs(buf, s);
    NextIs(buf, s);
    LexSkip(buf, s);
    ArgsSkip(buf, c, argc, s);
    ArgsStep(buf, c, argc, Skip(buf, s));
    LexEnd(buf, s);
  }

  lemma LexEnd(buf: string, s: nat)
    requires Text(buf) && s <= |buf|
    ensures GetToken(buf, Skip(buf, s)).kind == End ==> Lex(buf, GetToken(buf, Skip(buf, s)).s) == Lex(buf, s)
  {
    hide WordEnd, IsWord;
    LexSkip(buf, s);
    SkipTwice(buf, s);
  }

  /** A word is taken, and the redirections behind it follow, unless it is the tenth. */
  lemma ArgTaken(buf: string, c: Cmd, argc: nat, s: nat) returns (d: Cmd, e: nat)
    requires Text(buf) && s <= |buf| && Words(buf, c) && FdsOk(c) && Lex(buf, s) != [] && Lex(buf, s)[0].W?
    ensures s < e <= |buf| && Words(buf, d) && FdsOk(d)
    ensures Lex(buf, e) == Lex(buf, s)[1..] && Strip(buf, d) == AddWord(Strip(buf, c), Lex(buf, s)[0].text)
    ensures argc + 1 >= MAXARGS ==> ParseArgs(buf, c, argc, s) == SyntaxError
    ensures argc + 1 < MAXARGS ==>
              match ParseRedirs(buf, d, e)
              case Parsed(d', e') =>
                e <= e' <= |buf| && Words(buf, d') && ParseArgs(buf, c, argc, s) == ParseArgs(buf, d', argc + 1, e')
              case SyntaxError => ParseArgs(buf, c, argc, s) == SyntaxError
  {
    hide GetToken, Peek, Lex, ParseArgs, ParseRedirs, Skip, Strip;
    PeekIs(buf, s);
    NextIs(buf, s);
    ArgsSkip(buf, c, argc, s);
    var t := GetToken(buf, Skip(buf, s));
    ArgsStep(buf, c, argc, Skip(buf, s));
    AddArgStrip(buf, c, t.tok);
    d, e := AddArg(c, t.tok), t.s;
  }

  lemma ItemToksHead(items: seq<Item>, rest: seq<Lexeme>)
    ensures items == [] ==> ItemToks(items) + rest == rest
    ensures items != [] ==>
              ItemToks(items) + rest == [W(items[0].word)] + (RedirToks(items[0].redirs) + (ItemToks(items[1..]) + rest))
  {
    hide RedirToks;
    if items != [] {
      var a, b, c := [W(items[0].word)], RedirToks(items[0].redirs), ItemToks(items[1..]);
      assert ItemToks(items) == a + b + c;
      Regroup(a, b, c, rest);
    }
  }

  lemma Regroup<T>(a: seq<T>, b: seq<T>, c: seq<T>, d: seq<T>)
    ensures a + b + c + d == a + (b + (c + d))
  {
  }

  /** What follows an item is no redirection. */
  lemma ItemsNoRedir(items: seq<Item>, rest: seq<Lexeme>)
    requires AtStop(rest)
    ensures !StartsRedir(ItemToks(items) + rest)
  {
    hide RedirToks;
    ItemToksHead(items, rest);
  }

  lemma Tail<T>(x: T, xs: seq<T>)
    ensures ([x] + xs)[1..] == xs && ([x] + xs)[0] == x
  {
  }

  lemma ItemsSum(items: seq<Item>, ws: seq<string>, rs: seq<Redirection>)
    ensures items == [] ==> ws + WordsOf(items) == ws && rs + RedirsOf(items) == rs
    ensures items != [] ==>
              && ws + WordsOf(items) == ws + [items[0].word] + WordsOf(items[1..])
              && rs + RedirsOf(items) == rs + items[0].redirs + RedirsOf(items[1..])
  {
  }

  lemma {:induction false} ArgsTake(buf: string, c: Cmd, s: nat, items: seq<Item>, rest: seq<Lexeme>, ws: seq<string>, rs: seq<Redirection>)
    requires Text(buf) && s <= |buf| && Words(buf, c) && FdsOk(c) && |ws| < MAXARGS
    requires Strip(buf, c) == Wrap(TExec(ws), rs) && Lex(buf, s) == ItemToks(items) + rest && AtStop(rest)
    ensures Gives(buf, ParseArgs(buf, c, |ws|, s), |ws| + |items| < MAXARGS, Wrap(TExec(ws + WordsOf(items)), rs + RedirsOf(items)), rest)
    decreases |items|
  {
    hide Lex, ParseArgs, ParseRedirs, Strip, Words, ItemToks, RedirToks, Wrap, WordsOf, RedirsOf, StartsRedir;
    ItemToksHead(items, rest);
    ItemsSum(items, ws, rs);
    if items == [] {
      ArgsStop(buf, c, |ws|, s);
    } else {
      var w, more, next := items[0].word, items[0].redirs, ItemToks(items[1..]) + rest;
      var d, e := ArgTaken(buf, c, |ws|, s);
      Tail(W(w), RedirToks(more) + next);
      if |ws| + 1 < MAXARGS {
        ItemsNoRedir(items[1..], rest);
        RedirsTake(buf, d, e, more, next);
        AddWordWrap(TExec(ws), rs, w);
        WrapConcat(TExec(ws + [w]), rs, more);
        var r := ParseRedirs(buf, d, e);
        ArgsTake(buf, r.c, r.s, items[1..], rest, ws + [w], rs + more);
      }
    }
  }

  /** Whatever arguments are taken were there. */
  lemma {:induction false} ArgsTaken(buf: string, c: Cmd, s: nat, ws: seq<string>, rs: seq<Redirection>) returns (items: seq<Item>)
    requires Text(buf) && s <= |buf| && Words(buf, c) && FdsOk(c) && |ws| < MAXARGS
    requires Strip(buf, c) == Wrap(TExec(ws), rs) && ParseArgs(buf, c, |ws|, s).Parsed?
    ensures var r := ParseArgs(buf, c, |ws|, s);
            && r.s <= |buf| && Lex(buf, s) == ItemToks(items) + Lex(buf, r.s) && AtStop(Lex(buf, r.s)) && |ws| + |items| < MAXARGS && FdsOk(r.c)
    decreases |buf| - s
  {
    hide Lex, ParseArgs, ParseRedirs, Strip, Words, ItemToks, RedirToks, Wrap, GetToken, Peek, Skip;
    items := [];
    if AtStop(Lex(buf, s)) {
      ArgsStop(buf, c, |ws|, s);
      ItemToksHead(items, Lex(buf, s));
    } else {
      WordThere(buf, c, |ws|, s);
      var w := Lex(buf, s)[0].text;
      var d, e := ArgTaken(buf, c, |ws|, s);
      var more := RedirsTaken(buf, d, e);
      var r := ParseRedirs(buf, d, e);
      AddWordWrap(TExec(ws), rs, w);
      WrapConcat(TExec(ws + [w]), rs, more);
      var others := ArgsTaken(buf, r.c, r.s, ws + [w], rs + more);
      items := [Item(w, more)] + others;
      assert items[1..] == others;
      var last := Lex(buf, ParseArgs(buf, c, |ws|, s).s);
      ItemToksHead(items, last);
      assert Lex(buf, s) == [W(w)] + Lex(buf, e);
    }
  }

  /** An argument list goes on with a word, or not at all. */
  lemma WordThere(buf: string, c: Cmd, argc: nat, s: nat)
    requires Text(buf) && s <= |buf| && Words(buf, c) && !AtStop(Lex(buf, s)) && ParseArgs(buf, c, argc, s).Parsed?
    ensures Lex(buf, s)[0].W? && argc + 1 < MAXARGS
  {
    hide GetToken, Peek, Lex, ParseArgs, Skip;
    PeekIs(buf, s);
    NextIs(buf, s);
    ArgsSkip(buf, c, argc, s);
    ArgsStep(buf, c, argc, Skip(buf, s));
  }

  // ---------- one level of the parser, seen on tokens ----------

  lemma MovedIs(buf: string, s: nat, r: Result)
    requires Moved(buf, s, r) && r.Parsed?
    ensures s <= r.s <= |buf| && Words(buf, r.c)
  {
  }

  /** The symbol c is next: where the tokens behind it begin. */
  lemma SymbolNext(buf: string, s: nat, c: char) returns (e: nat)
    requires Text(buf) && s <= |buf| && Starts(Lex(buf, s), c)
    ensures s < e <= |buf| && e == GetToken(buf, Skip(buf, s)).s && Lex(buf, e) == Lex(buf, s)[1..]
  {
    hide GetToken, Lex, Skip;
    NextIs(buf, s);
    e := GetToken(buf, Skip(buf, s)).s;
  }

  lemma ExecUnfold(buf: string, s: nat)
    requires Text(buf) && s <= |buf|
    ensures Starts(Lex(buf, s), '(') ==> ParseExec(buf, s) == ParseBlock(buf, Skip(buf, s))
    ensures !Starts(Lex(buf, s), '(') ==>
              ParseExec(buf, s) == match ParseRedirs(buf, Exec([]), s)
                                   case Parsed(c, s') => ParseArgs(buf, c, 0, s')
                                   case SyntaxError => SyntaxError
  {
    hide GetToken, Lex, Skip, ParseRedirs, ParseArgs, ParseBlock, Peek;
    PeekIs(buf, s);
    RedirsSkip(buf, Exec([]), s);
  }

  lemma BlockUnfold(buf: string, s: nat) returns (e: nat)
    requires Text(buf) && s <= |buf| && Starts(Lex(buf, s), '(')
    ensures s < e <= |buf| && e == GetToken(buf, Skip(buf, s)).s && Lex(buf, e) == Lex(buf, s)[1..]
    ensures ParseLine(buf, e).SyntaxError? ==> ParseBlock(buf, Skip(buf, s)).SyntaxError?
    ensures ParseLine(buf, e).Parsed? ==>
              var r := ParseLine(buf, e);
              && e <= r.s <= |buf| && Words(buf, r.c)
              && (!Starts(Lex(buf, r.s), ')') ==> ParseBlock(buf, Skip(buf, s)).SyntaxError?)
              && (Starts(Lex(buf, r.s), ')') ==>
                    var k := GetToken(buf, Skip(buf, r.s)).s;
                    k <= |buf| && Lex(buf, k) == Lex(buf, r.s)[1..] && ParseBlock(buf, Skip(buf, s)) == ParseRedirs(buf, r.c, k))
  {
    hide GetToken, Lex, Skip, ParseRedirs, ParseLine, Peek, Words;
    e := SymbolNext(buf, s, '(');
    SkipTwice(buf, s);
    LexSkip(buf, s);
    PeekIs(buf, Skip(buf, s));
    var r := ParseLine(buf, e);
    if r.Parsed? {
      PeekIs(buf, r.s);
      NextIs(buf, r.s);
    }
  }

  lemma PipeUnfold(buf: string, s: nat) returns (e: nat)
    requires Text(buf) && s <= |buf| && ParseExec(buf, s).Parsed?
    ensures var r := ParseExec(buf, s);
            && r.s <= |buf| && s <= e <= |buf|
            && (!Starts(Lex(buf, r.s), '|') ==> ParsePipe(buf, s) == Parsed(r.c, e) && Lex(buf, e) == Lex(buf, r.s))
            && (Starts(Lex(buf, r.s), '|') ==>
                  && s < e && Lex(buf, e) == Lex(buf, r.s)[1..]
                  && ParsePipe(buf, s) == match ParsePipe(buf, e)
                                          case SyntaxError => SyntaxError
                                          case Parsed(d, s') => Parsed(Pipe(r.c, d), s'))
  {
    hide GetToken, Lex, Skip, ParseExec, Peek, Words;
    var r := ParseExec(buf, s);
    PeekIs(buf, r.s);
    LexSkip(buf, r.s);
    e := Skip(buf, r.s);
    if Starts(Lex(buf, r.s), '|') {
      e := SymbolNext(buf, r.s, '|');
    }
  }

  lemma BackUnfold(buf: string, c: Cmd, s: nat) returns (e: nat)
    requires Text(buf) && s <= |buf| && Words(buf, c)
    ensures s <= e <= |buf|
    ensures !Starts(Lex(buf, s), '&') ==> ParseBacks(buf, c, s) == Parsed(c, e) && Lex(buf, e) == Lex(buf, s)
    ensures Starts(Lex(buf, s), '&') ==>
              s < e && Lex(buf, e) == Lex(buf, s)[1..] && Words(buf, Back(c)) && ParseBacks(buf, c, s) == ParseBacks(buf, Back(c), e)
  {
    hide GetToken, Lex, Skip, Peek;
    PeekIs(buf, s);
    LexSkip(buf, s);
    e := Skip(buf, s);
    if Starts(Lex(buf, s), '&') {
      e := SymbolNext(buf, s, '&');
    }
  }

  lemma LineUnfold(buf: string, s: nat) returns (e: nat)
    requires Text(buf) && s <= |buf| && ParsePipe(buf, s).Parsed?
    ensures var r := ParsePipe(buf, s);
            && s <= r.s <= |buf| && Words(buf, r.c)
            && var b := ParseBacks(buf, r.c, r.s);
            && r.s <= b.s <= |buf| && s <= e <= |buf|
            && (!Starts(Lex(buf, b.s), ';') ==> ParseLine(buf, s) == Parsed(b.c, e) && Lex(buf, e) == Lex(buf, b.s))
            && (Starts(Lex(buf, b.s), ';') ==>
                  && s < e && Lex(buf, e) == Lex(buf, b.s)[1..]
                  && ParseLine(buf, s) == match ParseLine(buf, e)
                                          case SyntaxError => SyntaxError
                                          case Parsed(d, s') => Parsed(List(b.c, d), s'))
  {
    hide GetToken, Lex, Skip, ParsePipe, ParseBacks, Peek, Words;
    var r := ParsePipe(buf, s);
    var b := ParseBacks(buf, r.c, r.s);
    PeekIs(buf, b.s);
    LexSkip(buf, b.s);
    e := Skip(buf, b.s);
    if Starts(Lex(buf, b.s), ';') {
      e := SymbolNext(buf, b.s, ';');
    }
  }

  // ---------- the texts of the grammar are taken ----------

  lemma SimpleTake(buf: string, s: nat, before: seq<Redirection>, items: seq<Item>, rest: seq<Lexeme>)
    requires Text(buf) && s <= |buf| && AtStop(rest) && Lex(buf, s) == RedirToks(before) + (ItemToks(items) + rest)
    ensures Gives(buf, ParseExec(buf, s), |items| < MAXARGS, UnitTree(Simple(before, items)), rest)
  {
    hide Lex, ParseExec, ParseRedirs, ParseArgs, ItemToks, RedirToks, Wrap, WordsOf, RedirsOf, Strip;
    ItemsNoRedir(items, rest);
    NoParen(before, items, rest);
    ExecUnfold(buf, s);
    StripNothing(buf);
    RedirsTake(buf, Exec([]), s, before, ItemToks(items) + rest);
    var r := ParseRedirs(buf, Exec([]), s);
    ArgsTake(buf, r.c, r.s, items, rest, [], before);
    assert [] + WordsOf(items) == WordsOf(items);
  }

  lemma StripNothing(buf: string)
    ensures Words(buf, Exec([])) && FdsOk(Exec([])) && Strip(buf, Exec([])) == TExec([])
  {
  }

  lemma NoParen(before: seq<Redirection>, items: seq<Item>, rest: seq<Lexeme>)
    requires AtStop(rest)
    ensures !Starts(RedirToks(before) + (ItemToks(items) + rest), '(')
  {
    hide ItemToks, RedirToks;
    RedirToksHead(before, ItemToks(items) + rest);
    ItemToksHead(items, rest);
  }

  lemma {:induction false} BacksTake(buf: string, c: Cmd, s: nat, n: nat, rest: seq<Lexeme>)
    requires Text(buf) && s <= |buf| && Words(buf, c) && FdsOk(c) && Lex(buf, s) == Amps(n) + rest && !Starts(rest, '&')
    ensures Takes(buf, ParseBacks(buf, c, s), Behind(Strip(buf, c), n), rest)
    decreases n
  {
    hide Lex, ParseBacks;
    AmpsHead(n, rest);
    var e := BackUnfold(buf, c, s);
    if n > 0 {
      Tail(S(Sym('&')), Amps(n - 1) + rest);
      BacksTake(buf, Back(c), e, n - 1, rest);
    }
  }

  lemma AmpsHead(n: nat, rest: seq<Lexeme>)
    ensures n == 0 ==> Amps(n) + rest == rest
    ensures n > 0 ==> Amps(n) + rest == [S(Sym('&'))] + (Amps(n - 1) + rest)
  {
    if n > 0 {
      assert Amps(n) == [S(Sym('&'))] + Amps(n - 1);
      assert [S(Sym('&'))] + Amps(n - 1) + rest == [S(Sym('&'))] + (Amps(n - 1) + rest);
    }
  }

  predicate PipeEnds(rest: seq<Lexeme>) { rest == [] || Starts(rest, ')') || Starts(rest, '&') || Starts(rest, ';') }

  predicate LineEnds(rest: seq<Lexeme>) { rest == [] || Starts(rest, ')') }

  lemma {:induction false} UnitTake(buf: string, s: nat, u: Unit, rest: seq<Lexeme>)
    requires Text(buf) && s <= |buf| && AtStop(rest) && Lex(buf, s) == UnitToks(u) + rest
    ensures Gives(buf, ParseExec(buf, s), UnitFits(u), UnitTree(u), rest)
    decreases u
  {
    hide Lex, ParseExec, ItemToks, RedirToks, LineToks, Takes;
    match u
    case Simple(before, items) =>
      assert RedirToks(before) + ItemToks(items) + rest == RedirToks(before) + (ItemToks(items) + rest);
      SimpleTake(buf, s, before, items, rest);
    case Block(line, behind) =>
      var close := [S(Sym(')'))] + (RedirToks(behind) + rest);
      BlockToks(line, behind, rest);
      Tail(S(Sym('(')), LineToks(line) + close);
      var e := SymbolNext(buf, s, '(');
      LineTake(buf, e, line, close);
      BlockTake(buf, s, e, line, behind, rest);
  }

  lemma BlockToks(line: Line, behind: seq<Redirection>, rest: seq<Lexeme>)
    ensures UnitToks(Block(line, behind)) + rest ==
              [S(Sym('('))] + (LineToks(line) + ([S(Sym(')'))] + (RedirToks(behind) + rest)))
    ensures Starts([S(Sym(')'))] + (RedirToks(behind) + rest), ')')
  {
    hide LineToks, RedirToks;
    var a, b, c, d := [S(Sym('('))], LineToks(line), [S(Sym(')'))], RedirToks(behind);
    assert UnitToks(Block(line, behind)) == a + b + c + d;
    Regroup(a, b, c, d);
    assert a + (b + (c + d)) + rest == a + (b + (c + (d + rest)));
  }

  /** A block whose line was taken, or refused. */
  lemma BlockTake(buf: string, s: nat, e: nat, line: Line, behind: seq<Redirection>, rest: seq<Lexeme>)
    requires Text(buf) && s < e <= |buf| && AtStop(rest) && Starts(Lex(buf, s), '(') && e == GetToken(buf, Skip(buf, s)).s
    requires Gives(buf, ParseLine(buf, e), LineFits(line), LineTree(line), [S(Sym(')'))] + (RedirToks(behind) + rest))
    ensures Gives(buf, ParseExec(buf, s), LineFits(line), UnitTree(Block(line, behind)), rest)
  {
    hide Lex, ParseExec, ParseBlock, ParseLine, ParseRedirs, RedirToks, GetToken, Skip, LineTree, LineFits, Wrap;
    ExecUnfold(buf, s);
    var e' := BlockUnfold(buf, s);
    if LineFits(line) {
      Tail(S(Sym(')')), RedirToks(behind) + rest);
      var r := ParseLine(buf, e);
      RedirsTake(buf, r.c, GetToken(buf, Skip(buf, r.s)).s, behind, rest);
    }
  }

  lemma {:induction false} PipeTake(buf: string, s: nat, p: Pipeline, rest: seq<Lexeme>)
    requires Text(buf) && s <= |buf| && PipeEnds(rest) && Lex(buf, s) == PipeToks(p) + rest
    ensures Gives(buf, ParsePipe(buf, s), PipeFits(p), PipeTree(p), rest)
    decreases p
  {
    hide Lex, ParseExec, ParsePipe, UnitToks, UnitTree, Strip, Words;
    match p
    case One(u) =>
      UnitTake(buf, s, u, rest);
      if UnitFits(u) {
        var e := PipeUnfold(buf, s);
      } else {
        PipeFails(buf, s);
      }
    case Piped(u, more) =>
      var bar := [S(Sym('|'))] + (PipeToks(more) + rest);
      PipedToks(u, more, rest);
      UnitTake(buf, s, u, bar);
      if UnitFits(u) {
        var e := PipeUnfold(buf, s);
        Tail(S(Sym('|')), PipeToks(more) + rest);
        PipeTake(buf, e, more, rest);
        PipeJoin(buf, ParseExec(buf, s).c, ParsePipe(buf, e));
      } else {
        PipeFails(buf, s);
      }
  }

  lemma PipedToks(u: Unit, more: Pipeline, rest: seq<Lexeme>)
    ensures PipeToks(Piped(u, more)) + rest == UnitToks(u) + ([S(Sym('|'))] + (PipeToks(more) + rest))
    ensures AtStop([S(Sym('|'))] + (PipeToks(more) + rest)) && Starts([S(Sym('|'))] + (PipeToks(more) + rest), '|')
  {
    hide UnitToks;
    var a, b, c := UnitToks(u), [S(Sym('|'))], PipeToks(more);
    assert PipeToks(Piped(u, more)) == a + b + c;
    Regroup(a, b, c, rest);
  }

  lemma PipeFails(buf: string, s: nat)
    requires Text(buf) && s <= |buf| && ParseExec(buf, s) == SyntaxError
    ensures ParsePipe(buf, s) == SyntaxError
  {
    hide ParseExec;
  }

  lemma PipeJoin(buf: string, c: Cmd, r: Result)
    requires Words(buf, c) && FdsOk(c) && (r.Parsed? ==> Words(buf, r.c) && FdsOk(r.c))
    ensures r.Parsed? ==> Words(buf, Pipe(c, r.c)) && FdsOk(Pipe(c, r.c)) && Strip(buf, Pipe(c, r.c)) == TPipe(Strip(buf, c), Strip(buf, r.c))
    ensures r.Parsed? ==> Words(buf, List(c, r.c)) && FdsOk(List(c, r.c)) && Strip(buf, List(c, r.c)) == TList(Strip(buf, c), Strip(buf, r.c))
  {
  }

  lemma {:induction false} LineTake(buf: string, s: nat, l: Line, rest: seq<Lexeme>)
    requires Text(buf) && s <= |buf| && LineEnds(rest) && Lex(buf, s) == LineToks(l) + rest
    ensures Gives(buf, ParseLine(buf, s), LineFits(l), LineTree(l), rest)
    decreases l
  {
    hide Lex, ParsePipe, ParseLine, ParseBacks, PipeToks, PipeTree, Strip, Words, Amps, Behind;
    match l
    case Last(p, amps) =>
      AmpsThen(p, amps, rest);
      PipeTake(buf, s, p, Amps(amps) + rest);
      if PipeFits(p) {
        JobTake(buf, s, p, amps, rest);
        var e := LineUnfold(buf, s);
      } else {
        LineFails(buf, s);
      }
    case Then(p, amps, more) =>
      var semi := [S(Sym(';'))] + (LineToks(more) + rest);
      ThenToks(p, amps, more, rest);
      AmpsThen(p, amps, semi);
      PipeTake(buf, s, p, Amps(amps) + semi);
      if PipeFits(p) {
        JobTake(buf, s, p, amps, semi);
        var e := LineUnfold(buf, s);
        Tail(S(Sym(';')), LineToks(more) + rest);
        LineTake(buf, e, more, rest);
        var r := ParsePipe(buf, s);
        PipeJoin(buf, ParseBacks(buf, r.c, r.s).c, ParseLine(buf, e));
      } else {
        LineFails(buf, s);
      }
  }

  lemma LineFails(buf: string, s: nat)
    requires Text(buf) && s <= |buf| && ParsePipe(buf, s) == SyntaxError
    ensures ParseLine(buf, s) == SyntaxError
  {
    hide ParsePipe;
  }

  /** The '&'s behind a pipeline that was taken. */
  lemma JobTake(buf: string, s: nat, p: Pipeline, amps: nat, rest: seq<Lexeme>)
    requires Text(buf) && s <= |buf| && Takes(buf, ParsePipe(buf, s), PipeTree(p), Amps(amps) + rest) && !Starts(rest, '&')
    ensures Takes(buf, ParseBacks(buf, ParsePipe(buf, s).c, ParsePipe(buf, s).s), Behind(PipeTree(p), amps), rest)
  {
    hide Lex, ParsePipe, ParseBacks, PipeTree, Strip, Words;
    var r := ParsePipe(buf, s);
    BacksTake(buf, r.c, r.s, amps, rest);
  }

  lemma AmpsThen(p: Pipeline, amps: nat, rest: seq<Lexeme>)
    requires LineEnds(rest) || Starts(rest, ';')
    ensures PipeToks(p) + Amps(amps) + rest == PipeToks(p) + (Amps(amps) + rest) && PipeEnds(Amps(amps) + rest)
  {
    hide PipeToks, Amps;
    AmpsHead(amps, rest);
  }

  lemma ThenToks(p: Pipeline, amps: nat, more: Line, rest: seq<Lexeme>)
    ensures var semi := [S(Sym(';'))] + (LineToks(more) + rest);
            LineToks(Then(p, amps, more)) + rest == PipeToks(p) + Amps(amps) + semi && Starts(semi, ';')
  {
    hide PipeToks, Amps;
    var a, b, c := PipeToks(p) + Amps(amps), [S(Sym(';'))], LineToks(more);
    assert LineToks(Then(p, amps, more)) == a + b + c;
    Regroup(a, b, c, rest);
  }

  // ---------- and nothing else is ----------

  lemma {:induction false} UnitTaken(buf: string, s: nat) returns (u: Unit)
    requires Text(buf) && s <= |buf| && ParseExec(buf, s).Parsed?
    ensures var r := ParseExec(buf, s); r.s <= |buf| && Lex(buf, s) == UnitToks(u) + Lex(buf, r.s) && UnitFits(u) && FdsOk(r.c)
    decreases |buf| - s, 2
  {
    hide Lex, ParseExec, ParseBlock, ParseLine, ParseRedirs, ParseArgs, ItemToks, RedirToks, LineToks, Strip, Words, GetToken, Skip, Wrap;
    ExecUnfold(buf, s);
    var end := Lex(buf, ParseExec(buf, s).s);
    if Starts(Lex(buf, s), '(') {
      var e := BlockUnfold(buf, s);
      var line := LineTaken(buf, e);
      var r := ParseLine(buf, e);
      var behind := RedirsTaken(buf, r.c, GetToken(buf, Skip(buf, r.s)).s);
      u := Block(line, behind);
      BlockToks(line, behind, end);
      StartsIs(Lex(buf, s), '(');
      StartsIs(Lex(buf, r.s), ')');
    } else {
      StripNothing(buf);
      var before := RedirsTaken(buf, Exec([]), s);
      var r := ParseRedirs(buf, Exec([]), s);
      var items := ArgsTaken(buf, r.c, r.s, [], before);
      u := Simple(before, items);
      assert RedirToks(before) + ItemToks(items) + end == RedirToks(before) + (ItemToks(items) + end);
    }
  }

  lemma StartsIs(xs: seq<Lexeme>, c: char)
    requires Starts(xs, c)
    ensures xs == [S(Sym(c))] + xs[1..]
  {
  }

  lemma {:induction false} PipeTaken(buf: string, s: nat) returns (p: Pipeline)
    requires Text(buf) && s <= |buf| && ParsePipe(buf, s).Parsed?
    ensures var r := ParsePipe(buf, s); r.s <= |buf| && Lex(buf, s) == PipeToks(p) + Lex(buf, r.s) && PipeFits(p) && FdsOk(r.c)
    decreases |buf| - s, 3
  {
    hide Lex, ParseExec, ParsePipe, UnitToks, Words;
    if ParseExec(buf, s) == SyntaxError {
      PipeFails(buf, s);
    } else {
      var u := UnitTaken(buf, s);
      var e := PipeUnfold(buf, s);
      var end := Lex(buf, ParsePipe(buf, s).s);
      if Starts(Lex(buf, ParseExec(buf, s).s), '|') {
        var more := PipeTaken(buf, e);
        StartsIs(Lex(buf, ParseExec(buf, s).s), '|');
        p := Piped(u, more);
        PipedToks(u, more, end);
      } else {
        p := One(u);
      }
    }
  }

  lemma {:induction false} BacksTaken(buf: string, c: Cmd, s: nat) returns (n: nat)
    requires Text(buf) && s <= |buf| && Words(buf, c) && FdsOk(c)
    ensures var r := ParseBacks(buf, c, s); r.Parsed? && FdsOk(r.c) && r.s <= |buf| && Lex(buf, s) == Amps(n) + Lex(buf, r.s) && !Starts(Lex(buf, r.s), '&')
    decreases |buf| - s
  {
    hide Lex, ParseBacks;
    var e := BackUnfold(buf, c, s);
    if Starts(Lex(buf, s), '&') {
      var more := BacksTaken(buf, Back(c), e);
      n := more + 1;
      StartsIs(Lex(buf, s), '&');
    } else {
      n := 0;
    }
    AmpsHead(n, Lex(buf, ParseBacks(buf, c, s).s));
  }

  lemma {:induction false} LineTaken(buf: string, s: nat) returns (l: Line)
    requires Text(buf) && s <= |buf| && ParseLine(buf, s).Parsed?
    ensures var r := ParseLine(buf, s); r.s <= |buf| && Lex(buf, s) == LineToks(l) + Lex(buf, r.s) && LineFits(l) && FdsOk(r.c)
    decreases |buf| - s, 4
  {
    hide Lex, ParsePipe, ParseLine, ParseBacks, PipeToks, Words, Amps;
    if ParsePipe(buf, s) == SyntaxError {
      LineFails(buf, s);
    } else {
      var p := PipeTaken(buf, s);
      var e := LineUnfold(buf, s);
      var r := ParsePipe(buf, s);
      var amps := BacksTaken(buf, r.c, r.s);
      var b, end := ParseBacks(buf, r.c, r.s), Lex(buf, ParseLine(buf, s).s);
      if Starts(Lex(buf, b.s), ';') {
        var more := LineTaken(buf, e);
        StartsIs(Lex(buf, b.s), ';');
        l := Then(p, amps, more);
        ThenToks(p, amps, more, end);
      } else {
        l := Last(p, amps);
      }
      assert PipeToks(p) + Amps(amps) + Lex(buf, b.s) == PipeToks(p) + (Amps(amps) + Lex(buf, b.s));
    }
  }

  // ---------- whole texts ----------

  lemma EndIs(buf: string, s: nat)
    requires Text(buf) && s <= |buf|
    ensures Skip(buf, s) == |buf| <==> Lex(buf, s) == []
  {
    hide WordEnd, IsWord;
  }

  /** A text whose tokens a line of the grammar derives is taken as what the line means,
      or refused if some argument list is too long. */
  lemma ParsedMeans(buf: string, l: Line)
    requires Text(buf) && LineToks(l) == Lex(buf, 0)
    ensures Gives(buf, ParseCmd(buf), LineFits(l), LineTree(l), [])
  {
    hide Lex, ParseLine, LineToks, LineTree, LineFits, Skip, Strip, Words;
    assert LineToks(l) + [] == LineToks(l);
    LineTake(buf, 0, l, []);
    if LineFits(l) {
      EndIs(buf, ParseLine(buf, 0).s);
    }
  }

  /** The parser accepts exactly the texts whose tokens the grammar derives with argument
      lists that are not too long. */
  lemma ParsesIff(buf: string)
    requires Text(buf)
    ensures ParseCmd(buf).Parsed? <==> exists l :: LineToks(l) == Lex(buf, 0) && LineFits(l)
  {
    hide Lex, ParseLine, LineToks, LineTree, LineFits, Skip, Strip, Words;
    if ParseCmd(buf).Parsed? {
      var l := LineTaken(buf, 0);
      EndIs(buf, ParseLine(buf, 0).s);
      assert LineToks(l) + [] == LineToks(l);
    }
    if l :| LineToks(l) == Lex(buf, 0) && LineFits(l) {
      ParsedMeans(buf, l);
    }
  }

  /** No text is ambiguous: lines with the same tokens mean the same. */
  lemma OneMeaning(buf: string, l: Line, k: Line)
    requires Text(buf) && LineToks(l) == LineToks(k) == Lex(buf, 0) && LineFits(l)
    ensures LineTree(l) == LineTree(k) && LineFits(k)
  {
    hide LineToks, LineTree, LineFits, Lex, ParseCmd;
    ParsedMeans(buf, l);
    ParsedMeans(buf, k);
  }
}
