/** Tokens and texts: any spacing of the tokens, and the shortest bracketing of a tree. */
module ShText {
  import opened ShSpec
  import opened Sh
  import opened ShRound
  import opened ShGrammar

  // ---------- texts of a list of tokens ----------

  function TextOf(x: Lexeme): string {
    match x
    case W(text) => text
    case S(Sym(c)) => [c]
    case S(Append) => ">>"
    case S(_) => ""
  }

  ghost predicate LexemeOk(x: Lexeme) {
    match x
    case W(text) => IsWordText(text)
    case S(Sym(c)) => IsSymbol(c)
    case S(Append) => true
    case S(_) => false
  }

  ghost predicate Blank(g: string) { forall i :: 0 <= i < |g| ==> IsSpace(g[i]) }

  /** The tokens with white space before each, and `last` behind them. */
  function Spell(xs: seq<Lexeme>, gaps: seq<string>, last: string): string
    requires |gaps| == |xs|
    decreases |xs|
  {
    if xs == [] then last else gaps[0] + TextOf(xs[0]) + Spell(xs[1..], gaps[1..], last)
  }

  /** Two tokens that would run together without a space. */
  predicate Sticks(x: Lexeme, y: Lexeme) {
    (x.W? && y.W?) || (x == S(Sym('>')) && (y == S(Sym('>')) || y == S(Append)))
  }

  ghost predicate Spaced(xs: seq<Lexeme>, gaps: seq<string>, last: string)
    requires |gaps| == |xs|
  {
    && Blank(last)
    && (forall i :: 0 <= i < |xs| ==> LexemeOk(xs[i]) && Blank(gaps[i]))
    && (forall i, j :: 0 <= i < j == i + 1 < |xs| && Sticks(xs[i], xs[j]) ==> gaps[j] != "")
  }

  lemma {:induction false} SkipTo(buf: string, s: nat, q: nat)
    requires s <= q <= |buf| && !IsSpace(At(buf, q)) && forall i :: s <= i < q ==> IsSpace(buf[i])
    ensures Skip(buf, s) == q
    decreases q - s
  {
    if s < q {
      SkipTo(buf, s + 1, q);
    }
  }

  lemma SkipGap(buf: string, s: nat, g: string)
    requires Here(buf, s, g) && Blank(g) && !IsSpace(At(buf, s + |g|))
    ensures Skip(buf, s) == s + |g|
  {
    forall i | s <= i < s + |g| ensures IsSpace(buf[i]) {
      assert buf[i] == buf[s..s+|g|][i-s];
    }
    SkipTo(buf, s, s + |g|);
  }

  /** The rest of the text from s on. */
  ghost predicate Remains(buf: string, s: nat, xs: seq<Lexeme>, gaps: seq<string>, last: string) {
    |gaps| == |xs| && Spaced(xs, gaps, last) && Here(buf, s, Spell(xs, gaps, last)) && s + |Spell(xs, gaps, last)| == |buf|
  }

  lemma TextFirst(x: Lexeme)
    requires LexemeOk(x)
    ensures TextOf(x) != "" && !IsSpace(TextOf(x)[0]) && TextOf(x)[0] != '\0'
    ensures x.W? <==> IsWordChar(TextOf(x)[0])
    ensures TextOf(x)[0] == '>' <==> x == S(Sym('>')) || x == S(Append)
  {
  }

  lemma RemainsParts(buf: string, s: nat, xs: seq<Lexeme>, gaps: seq<string>, last: string)
    requires Remains(buf, s, xs, gaps, last) && xs != []
    ensures Here(buf, s, gaps[0]) && Blank(gaps[0]) && LexemeOk(xs[0]) && Here(buf, s + |gaps[0]|, TextOf(xs[0]))
    ensures Remains(buf, s + |gaps[0]| + |TextOf(xs[0])|, xs[1..], gaps[1..], last)
  {
    hide Spaced, LexemeOk, Blank, TextOf, Here, Spell;
    var g, t, rest := gaps[0], TextOf(xs[0]), Spell(xs[1..], gaps[1..], last);
    SpellHead(xs, gaps, last);
    HereParts(buf, s, g, t + rest);
    HereParts(buf, s + |g|, t, rest);
    SpacedTail(xs, gaps, last);
  }

  lemma SpellHead(xs: seq<Lexeme>, gaps: seq<string>, last: string)
    requires |gaps| == |xs| && xs != []
    ensures Spell(xs, gaps, last) == gaps[0] + (TextOf(xs[0]) + Spell(xs[1..], gaps[1..], last))
  {
    hide TextOf;
    var g, t, rest := gaps[0], TextOf(xs[0]), Spell(xs[1..], gaps[1..], last);
    assert Spell(xs, gaps, last) == g + t + rest;
    assert g + t + rest == g + (t + rest);
  }

  lemma SpacedTail(xs: seq<Lexeme>, gaps: seq<string>, last: string)
    requires |gaps| == |xs| && xs != [] && Spaced(xs, gaps, last)
    ensures Spaced(xs[1..], gaps[1..], last) && LexemeOk(xs[0]) && Blank(gaps[0])
  {
    hide LexemeOk, Blank, Sticks;
    var ys, hs := xs[1..], gaps[1..];
    forall i, j | 0 <= i < j == i + 1 < |ys| && Sticks(ys[i], ys[j]) ensures hs[j] != "" {
      assert ys[i] == xs[i+1] && ys[j] == xs[j+1] && hs[j] == gaps[j+1];
    }
  }

  lemma HereFirst(buf: string, s: nat, x: string)
    requires Here(buf, s, x) && x != ""
    ensures At(buf, s) == x[0]
  {
    assert buf[s] == buf[s..s+|x|][0];
  }

  /** The next character is white space, the end, or the start of the next token. */
  lemma RemainsFirst(buf: string, s: nat, xs: seq<Lexeme>, gaps: seq<string>, last: string)
    requires Remains(buf, s, xs, gaps, last)
    ensures var c := At(buf, s);
            if xs != [] && gaps[0] == "" then LexemeOk(xs[0]) && c == TextOf(xs[0])[0] else IsSpace(c) || c == '\0'
  {
    if xs == [] {
      if last != "" {
        HereFirst(buf, s, last);
      }
    } else {
      RemainsParts(buf, s, xs, gaps, last);
      TextFirst(xs[0]);
      if gaps[0] == "" {
        HereFirst(buf, s, TextOf(xs[0]));
      } else {
        HereFirst(buf, s, gaps[0]);
      }
    }
  }

  /** The token ends where its text ends. */
  lemma TokenEnds(buf: string, e: nat, xs: seq<Lexeme>, gaps: seq<string>, last: string)
    requires |gaps| == |xs| && xs != [] && Spaced(xs, gaps, last) && Remains(buf, e, xs[1..], gaps[1..], last)
    ensures xs[0].W? ==> !IsWordChar(At(buf, e))
    ensures xs[0] == S(Sym('>')) ==> At(buf, e) != '>'
  {
    RemainsFirst(buf, e, xs[1..], gaps[1..], last);
    if |xs| > 1 {
      assert xs[1..][0] == xs[1] && gaps[1..][0] == gaps[1];
      TextFirst(xs[1]);
    }
  }

  lemma TokenIs(buf: string, q: nat, x: Lexeme)
    requires Text(buf) && q <= |buf| && LexemeOk(x) && Here(buf, q, TextOf(x))
    requires x.W? ==> !IsWordChar(At(buf, q + |TextOf(x)|))
    requires x == S(Sym('>')) ==> At(buf, q + 1) != '>'
    ensures var t := GetToken(buf, q);
            t.kind != End && LexemeOf(buf, t) == x && t.s == Skip(buf, q + |TextOf(x)|)
  {
    TextFirst(x);
    HereFirst(buf, q, TextOf(x));
    SkipStays(buf, q);
    match x
    case W(text) => WordIs(buf, q, text);
    case S(Append) =>
      assert buf[q+1] == buf[q..q+2][1];
    case S(_) =>
  }

  /** However the tokens are spaced, as long as none run together, the text has them. */
  lemma {:induction false} LexSpell(buf: string, s: nat, xs: seq<Lexeme>, gaps: seq<string>, last: string)
    requires Text(buf) && Remains(buf, s, xs, gaps, last)
    ensures s <= |buf| && Lex(buf, s) == xs
    decreases |xs|
  {
    hide GetToken, Remains, LexemeOk, Blank, Spaced, TextOf, Here, Skip;
    RemainsIs(buf, s, xs, gaps, last);
    if xs == [] {
      NoTokens(buf, s, gaps, last);
    } else {
      var q := s + |gaps[0]|;
      var e := q + |TextOf(xs[0])|;
      RemainsParts(buf, s, xs, gaps, last);
      RemainsIs(buf, e, xs[1..], gaps[1..], last);
      TokenEnds(buf, e, xs, gaps, last);
      GapThen(buf, s, gaps[0], xs[0]);
      SymbolText(xs[0]);
      TokenIs(buf, q, xs[0]);
      TokenSkip(buf, s);
      LexSkip(buf, e);
      LexSpell(buf, e, xs[1..], gaps[1..], last);
    }
  }

  lemma SymbolText(x: Lexeme)
    ensures x == S(Sym('>')) ==> |TextOf(x)| == 1
  {
  }

  lemma RemainsIs(buf: string, s: nat, xs: seq<Lexeme>, gaps: seq<string>, last: string)
    requires Remains(buf, s, xs, gaps, last)
    ensures s <= |buf| && |gaps| == |xs| && Spaced(xs, gaps, last)
  {
  }

  lemma NoTokens(buf: string, s: nat, gaps: seq<string>, last: string)
    requires Text(buf) && Remains(buf, s, [], gaps, last)
    ensures s <= |buf| && Lex(buf, s) == []
  {
    SkipGap(buf, s, last);
  }

  lemma GapThen(buf: string, s: nat, g: string, x: Lexeme)
    requires Here(buf, s, g) && Blank(g) && LexemeOk(x) && Here(buf, s + |g|, TextOf(x))
    ensures s + |g| <= |buf| && Skip(buf, s) == s + |g|
  {
    TextFirst(x);
    HereFirst(buf, s + |g|, TextOf(x));
    SkipGap(buf, s, g);
  }

  /** However a line of the grammar is spaced, it is parsed as what it means, unless some
      argument list is too long. */
  lemma SpelledParses(l: Line, gaps: seq<string>, last: string)
    requires |gaps| == |LineToks(l)| && Spaced(LineToks(l), gaps, last)
    ensures var buf := Spell(LineToks(l), gaps, last); Text(buf) && Gives(buf, ParseCmd(buf), LineFits(l), LineTree(l), [])
  {
    hide LineToks, LineTree, LineFits, ParseCmd, Spaced, Lex;
    var buf := Spell(LineToks(l), gaps, last);
    SpellIsText(LineToks(l), gaps, last);
    assert buf[0..0+|buf|] == buf;
    LexSpell(buf, 0, LineToks(l), gaps, last);
    ParsedMeans(buf, l);
  }

  lemma {:induction false} SpellIsText(xs: seq<Lexeme>, gaps: seq<string>, last: string)
    requires |gaps| == |xs| && Spaced(xs, gaps, last)
    ensures Text(Spell(xs, gaps, last))
    decreases |xs|
  {
    if xs != [] {
      SpacedTail(xs, gaps, last);
      SpellIsText(xs[1..], gaps[1..], last);
    }
  }

  // ---------- every text is one ----------

  /** Where the token at s ends, and what its text is. */
  lemma TokenText(buf: string, s: nat) returns (e: nat)
    requires Text(buf) && s <= |buf| && Lex(buf, s) != []
    ensures var q, x := Skip(buf, s), Lex(buf, s)[0];
            && q < e <= |buf| && LexemeOk(x) && buf[q..e] == TextOf(x) && Lex(buf, e) == Lex(buf, s)[1..]
            && (x.W? ==> !IsWordChar(At(buf, e))) && (x == S(Sym('>')) ==> At(buf, e) != '>')
  {
    hide GetToken, Lex, Skip, LexemeOf, TextOf, LexemeOk, IsWordChar;
    NextIs(buf, s);
    TokenSkip(buf, s);
    TokenShape(buf, s);
    e := GetToken(buf, s).tok.eq;
    LexSkip(buf, e);
  }

  lemma TokenShape(buf: string, s: nat)
    requires Text(buf) && s <= |buf| && GetToken(buf, s).kind != End
    ensures var q, t := Skip(buf, s), GetToken(buf, s);
            && q < t.tok.eq <= |buf| && t.s == Skip(buf, t.tok.eq)
            && var x := LexemeOf(buf, t);
            && LexemeOk(x) && buf[q..t.tok.eq] == TextOf(x)
            && (x.W? ==> !IsWordChar(At(buf, t.tok.eq))) && (x == S(Sym('>')) ==> At(buf, t.tok.eq) != '>')
  {
    hide Skip, WordEnd, IsSpace;
    var q, t := Skip(buf, s), GetToken(buf, s);
    if t.kind == Append {
      assert buf[q..q+2] == [buf[q], buf[q+1]];
    } else if t.kind != Word {
      assert buf[q..q+1] == [buf[q]];
    }
  }

  /** The first token, if it is not preceded by white space. */
  lemma FirstText(buf: string, s: nat)
    requires Text(buf) && s <= |buf| && Lex(buf, s) != [] && Skip(buf, s) == s
    ensures LexemeOk(Lex(buf, s)[0]) && At(buf, s) == TextOf(Lex(buf, s)[0])[0]
  {
    hide GetToken, Lex, Skip;
    var e := TokenText(buf, s);
    TextFirst(Lex(buf, s)[0]);
    assert buf[s..e][0] == buf[s];
  }

  lemma SpacedMore(x: Lexeme, g: string, xs: seq<Lexeme>, gaps: seq<string>, last: string)
    requires |gaps| == |xs| && Spaced(xs, gaps, last) && LexemeOk(x) && Blank(g)
    requires xs != [] && Sticks(x, xs[0]) ==> gaps[0] != ""
    ensures Spaced([x] + xs, [g] + gaps, last)
  {
    hide LexemeOk, Blank, Sticks;
    var ys, hs := [x] + xs, [g] + gaps;
    forall i, j | 0 <= i < j == i + 1 < |ys| && Sticks(ys[i], ys[j]) ensures hs[j] != "" {
      if i > 0 {
        assert ys[i] == xs[i-1] && ys[j] == xs[j-1] && hs[j] == gaps[j-1];
      }
    }
  }

  /** Every text is a spelling of its tokens: nothing but white space is passed over. */
  lemma {:induction false} TextIsSpelled(buf: string, s: nat) returns (gaps: seq<string>, last: string)
    requires Text(buf) && s <= |buf|
    ensures var xs := Lex(buf, s); |gaps| == |xs| && Spaced(xs, gaps, last) && Spell(xs, gaps, last) == buf[s..]
    ensures Lex(buf, s) != [] ==> gaps[0] == buf[s..Skip(buf, s)]
    decreases |buf| - s
  {
    hide GetToken, Lex, LexemeOk, TextOf, Spaced;
    var xs, q := Lex(buf, s), Skip(buf, s);
    if xs == [] {
      EndIs(buf, s);
      gaps, last := [], buf[s..];
      SpacedEnd(last);
    } else {
      var e := TokenText(buf, s);
      var more;
      more, last := TextIsSpelled(buf, e);
      var g := buf[s..q];
      gaps := [g] + more;
      NoStick(buf, e, xs, more);
      SpacedMore(xs[0], g, xs[1..], more, last);
      assert [xs[0]] + xs[1..] == xs && gaps[1..] == more;
      assert buf[s..q] + buf[q..e] + buf[e..] == buf[s..];
    }
  }

  lemma SpacedEnd(last: string)
    requires Blank(last)
    ensures Spaced([], [], last)
  {
  }

  lemma NoStick(buf: string, e: nat, xs: seq<Lexeme>, more: seq<string>)
    requires Text(buf) && e <= |buf| && xs != [] && Lex(buf, e) == xs[1..] && |more| == |xs| - 1
    requires (xs[0].W? ==> !IsWordChar(At(buf, e))) && (xs[0] == S(Sym('>')) ==> At(buf, e) != '>')
    requires |xs| > 1 ==> more[0] == buf[e..Skip(buf, e)]
    ensures |xs| > 1 && Sticks(xs[0], xs[1]) ==> more[0] != ""
  {
    hide GetToken, Lex;
    if |xs| > 1 && more[0] == "" {
      assert Skip(buf, e) == e;
      FirstText(buf, e);
      TextFirst(xs[1]);
      assert Lex(buf, e)[0] == xs[1];
    }
  }

  /** The parser accepts a text exactly when it is some spacing of a line of the grammar
      whose argument lists are not too long. */
  lemma ParsesIffSpelled(buf: string)
    requires Text(buf)
    ensures ParseCmd(buf).Parsed? <==>
              exists l, gaps, last :: LineFits(l) && |gaps| == |LineToks(l)| && Spaced(LineToks(l), gaps, last) && Spell(LineToks(l), gaps, last) == buf
  {
    hide LineToks, LineFits, LineTree, ParseCmd, Lex, Spaced;
    ParsesIff(buf);
    if ParseCmd(buf).Parsed? {
      var l :| LineToks(l) == Lex(buf, 0) && LineFits(l);
      var gaps, last := TextIsSpelled(buf, 0);
      assert buf[0..] == buf;
      assert Spaced(LineToks(l), gaps, last) && Spell(LineToks(l), gaps, last) == buf;
    }
    if l, gaps, last :| LineFits(l) && |gaps| == |LineToks(l)| && Spaced(LineToks(l), gaps, last) && Spell(LineToks(l), gaps, last) == buf {
      SpelledParses(l, gaps, last);
    }
  }

  // ---------- the fewest parentheses ----------

  /** The redirections around a command, and what they are around. */
  function Peeled(t: Tree): (r: (Tree, seq<Redirection>))
    ensures Wrap(r.0, r.1) == t && !r.0.TRedir? && (r.0 == t || r.0 < t)
  {
    match t
    case TRedir(u, file, mode) =>
      var (core, rs) := Peeled(u);
      var all := rs + [Redirection(if mode == ForReading then FromFile else ToFile, file)];
      WrapConcat(core, rs, [all[|rs|]]);
      assert Wrap(u, [all[|rs|]]) == Wrap(t, []);
      (core, all)
    case _ => (t, [])
  }

  function Plain(ws: seq<string>): (items: seq<Item>)
    ensures WordsOf(items) == ws && RedirsOf(items) == [] && |items| == |ws|
  {
    if ws == [] then [] else [Item(ws[0], [])] + Plain(ws[1..])
  }

  /** Parentheses start the levels of the grammar over; this is the order in which they
      are gone through for each tree. */
  function Rank(level: nat, t: Tree): nat {
    match t
    case TPipe(_, _) => (level + 3) % 4
    case TList(_, _) => (level + 1) % 4
    case TBack(_) => (level + 2) % 4
    case _ => level
  }

  /** Redirections go behind the command; everything but an EXEC needs parentheses. */
  function LeastUnit(t: Tree): (u: Unit)
    decreases t, Rank(0, t)
  {
    var (core, rs) := Peeled(t);
    if core.TExec? then Simple(rs, Plain(core.args)) else Block(LeastLine(core), rs)
  }

  /** A pipeline to the right of '|' needs none. */
  function LeastPipe(t: Tree): (p: Pipeline)
    decreases t, Rank(1, t)
  {
    match t
    case TPipe(l, r) => Piped(LeastUnit(l), LeastPipe(r))
    case _ => One(LeastUnit(t))
  }

  /** Nor does one before '&'s. */
  function LeastJob(t: Tree): (r: (Pipeline, nat))
    decreases t, Rank(2, t)
  {
    match t
    case TBack(u) => var (p, n) := LeastJob(u); (p, n + 1)
    case _ => (LeastPipe(t), 0)
  }

  /** Nor a list to the right of ';'. */
  function LeastLine(t: Tree): (l: Line)
    decreases t, Rank(3, t)
  {
    match t
    case TList(l, r) => var (p, n) := LeastJob(l); Then(p, n, LeastLine(r))
    case _ => var (p, n) := LeastJob(t); Last(p, n)
  }

  lemma {:induction false} BehindMore(t: Tree, n: nat)
    ensures Behind(t, n + 1) == TBack(Behind(t, n))
    decreases n
  {
    if n > 0 {
      BehindMore(TBack(t), n - 1);
    }
  }

  lemma {:induction false} LeastUnitTree(t: Tree)
    ensures UnitTree(LeastUnit(t)) == t
    decreases t, Rank(0, t)
  {
    var (core, rs) := Peeled(t);
    if core.TExec? {
      assert rs + [] == rs;
    } else {
      LeastLineTree(core);
    }
  }

  lemma {:induction false} LeastPipeTree(t: Tree)
    ensures PipeTree(LeastPipe(t)) == t
    decreases t, Rank(1, t)
  {
    if t.TPipe? {
      LeastUnitTree(t.left);
      LeastPipeTree(t.right);
    } else {
      LeastUnitTree(t);
    }
  }

  lemma {:induction false} LeastJobTree(t: Tree)
    ensures Behind(PipeTree(LeastJob(t).0), LeastJob(t).1) == t
    decreases t, Rank(2, t)
  {
    if t.TBack? {
      LeastJobTree(t.t);
      BehindMore(PipeTree(LeastJob(t.t).0), LeastJob(t.t).1);
    } else {
      LeastPipeTree(t);
    }
  }

  /** A tree so written means itself. */
  lemma {:induction false} LeastLineTree(t: Tree)
    ensures LineTree(LeastLine(t)) == t
    decreases t, Rank(3, t)
  {
    if t.TList? {
      LeastJobTree(t.left);
      LeastLineTree(t.right);
    } else {
      LeastJobTree(t);
    }
  }

  lemma {:induction false} PeeledFits(t: Tree)
    ensures Fits(Peeled(t).0) <==> Fits(t)
  {
    if t.TRedir? {
      PeeledFits(t.t);
    }
  }

  lemma {:induction false} LeastUnitFits(t: Tree)
    ensures UnitFits(LeastUnit(t)) <==> Fits(t)
    decreases t, Rank(0, t)
  {
    PeeledFits(t);
    var core := Peeled(t).0;
    if !core.TExec? {
      LeastLineFits(core);
    }
  }

  lemma {:induction false} LeastPipeFits(t: Tree)
    ensures PipeFits(LeastPipe(t)) <==> Fits(t)
    decreases t, Rank(1, t)
  {
    if t.TPipe? {
      LeastUnitFits(t.left);
      LeastPipeFits(t.right);
    } else {
      LeastUnitFits(t);
    }
  }

  lemma {:induction false} LeastJobFits(t: Tree)
    ensures PipeFits(LeastJob(t).0) <==> Fits(t)
    decreases t, Rank(2, t)
  {
    if t.TBack? {
      LeastJobFits(t.t);
    } else {
      LeastPipeFits(t);
    }
  }

  lemma {:induction false} LeastLineFits(t: Tree)
    ensures LineFits(LeastLine(t)) <==> Fits(t)
    decreases t, Rank(3, t)
  {
    if t.TList? {
      LeastJobFits(t.left);
      LeastLineFits(t.right);
    } else {
      LeastJobFits(t);
    }
  }

  // ---------- such a text exists ----------

  ghost predicate AllOk(xs: seq<Lexeme>) { forall i :: 0 <= i < |xs| ==> LexemeOk(xs[i]) }

  lemma AllOkConcat(a: seq<Lexeme>, b: seq<Lexeme>)
    requires AllOk(a) && AllOk(b)
    ensures AllOk(a + b)
  {
    hide LexemeOk;
  }

  lemma {:induction false} RedirsOk(rs: seq<Redirection>)
    requires forall i :: 0 <= i < |rs| ==> IsWordText(rs[i].file)
    ensures AllOk(RedirToks(rs))
    decreases |rs|
  {
    if rs != [] {
      RedirsOk(rs[1..]);
    }
  }

  lemma {:induction false} PlainOk(ws: seq<string>)
    requires AreWords(ws)
    ensures AllOk(ItemToks(Plain(ws)))
    decreases |ws|
  {
    if ws != [] {
      PlainOk(ws[1..]);
      assert Plain(ws)[1..] == Plain(ws[1..]) && Plain(ws)[0] == Item(ws[0], []);
    }
  }

  lemma {:induction false} AmpsOk(n: nat)
    ensures AllOk(Amps(n))
  {
    if n > 0 {
      AmpsOk(n - 1);
    }
  }

  lemma {:induction false} PeeledOk(t: Tree)
    requires WellFormed(t)
    ensures WellFormed(Peeled(t).0) && forall i :: 0 <= i < |Peeled(t).1| ==> IsWordText(Peeled(t).1[i].file)
  {
    if t.TRedir? {
      PeeledOk(t.t);
    }
  }

  lemma SymbolsOk(c: char)
    requires IsSymbol(c)
    ensures AllOk([S(Sym(c))])
  {
  }

  lemma {:induction false} LeastUnitOk(t: Tree)
    requires WellFormed(t)
    ensures AllOk(UnitToks(LeastUnit(t)))
    decreases t, Rank(0, t)
  {
    hide AllOk, RedirToks, ItemToks, IsWordText;
    var (core, rs) := Peeled(t);
    PeeledOk(t);
    RedirsOk(rs);
    if core.TExec? {
      PlainOk(core.args);
      AllOkConcat(RedirToks(rs), ItemToks(Plain(core.args)));
    } else {
      LeastLineOk(core);
      SymbolsOk('(');
      SymbolsOk(')');
      var line := LineToks(LeastLine(core));
      AllOkConcat([S(Sym('('))], line);
      AllOkConcat([S(Sym('('))] + line, [S(Sym(')'))]);
      AllOkConcat([S(Sym('('))] + line + [S(Sym(')'))], RedirToks(rs));
    }
  }

  lemma {:induction false} LeastPipeOk(t: Tree)
    requires WellFormed(t)
    ensures AllOk(PipeToks(LeastPipe(t)))
    decreases t, Rank(1, t)
  {
    hide AllOk, UnitToks;
    if t.TPipe? {
      LeastUnitOk(t.left);
      LeastPipeOk(t.right);
      SymbolsOk('|');
      AllOkConcat(UnitToks(LeastUnit(t.left)), [S(Sym('|'))]);
      AllOkConcat(UnitToks(LeastUnit(t.left)) + [S(Sym('|'))], PipeToks(LeastPipe(t.right)));
    } else {
      LeastUnitOk(t);
    }
  }

  lemma {:induction false} LeastJobOk(t: Tree)
    requires WellFormed(t)
    ensures AllOk(PipeToks(LeastJob(t).0))
    decreases t, Rank(2, t)
  {
    hide AllOk;
    if t.TBack? {
      LeastJobOk(t.t);
    } else {
      LeastPipeOk(t);
    }
  }

  lemma {:induction false} LeastLineOk(t: Tree)
    requires WellFormed(t)
    ensures AllOk(LineToks(LeastLine(t)))
    decreases t, Rank(3, t)
  {
    hide AllOk, PipeToks;
    var (p, n) := LeastJob(if t.TList? then t.left else t);
    AmpsOk(n);
    if t.TList? {
      LeastJobOk(t.left);
      LeastLineOk(t.right);
      SymbolsOk(';');
      AllOkConcat(PipeToks(p), Amps(n));
      AllOkConcat(PipeToks(p) + Amps(n), [S(Sym(';'))]);
      AllOkConcat(PipeToks(p) + Amps(n) + [S(Sym(';'))], LineToks(LeastLine(t.right)));
    } else {
      LeastJobOk(t);
      AllOkConcat(PipeToks(p), Amps(n));
    }
  }

  /** One space before every token will do. */
  lemma SingleSpaces(t: Tree)
    requires WellFormed(t)
    ensures var xs := LineToks(LeastLine(t)); Spaced(xs, seq(|xs|, _ => " "), "")
  {
    hide LineToks, LeastLine, LexemeOk;
    LeastLineOk(t);
  }

  /** Written with the fewest parentheses, right-nested pipes and lists bare, and spaced
      in any way, a tree parses exactly when no EXEC in it has ten or more arguments, and
      then it parses back to itself. */
  lemma LeastRoundTrip(t: Tree, gaps: seq<string>, last: string)
    requires |gaps| == |LineToks(LeastLine(t))| && Spaced(LineToks(LeastLine(t)), gaps, last)
    ensures var buf := Spell(LineToks(LeastLine(t)), gaps, last);
            && Text(buf) && (ParseCmd(buf).Parsed? <==> Fits(t))
            && (Fits(t) ==> Words(buf, ParseCmd(buf).c) && FdsOk(ParseCmd(buf).c) && Strip(buf, ParseCmd(buf).c) == t)
  {
    hide LineToks, LeastLine, Spaced, ParseCmd, Fits, Strip, Words, FdsOk, LineTree, LineFits;
    LeastLineTree(t);
    LeastLineFits(t);
    SpelledParses(LeastLine(t), gaps, last);
  }
}
