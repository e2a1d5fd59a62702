/** sh.c as it runs: recursive descent over a moving cursor, and the pass that writes a
    NUL behind every token. */
module Sh {
  import opened ShSpec

  class Parser {
    const buf: string
    var s: nat          // the cursor *ps; the end es is |buf|

    constructor (text: string)
      ensures buf == text && s == 0
    {
      buf, s := text, 0;
    }

    method SkipSpace()
      requires s <= |buf|
      modifies this
      ensures s == Skip(buf, old(s))
    {
      while s < |buf| && IsSpace(buf[s])
        invariant s <= |buf| && Skip(buf, s) == Skip(buf, old(s))
      {
        s := s + 1;
      }
    }

    method GetToken() returns (kind: Kind, tok: Tok)
      requires Text(buf) && s <= |buf|
      modifies this
      ensures Token(kind, tok, s) == ShSpec.GetToken(buf, old(s))
    {
      SkipSpace();
      var q := s;
      var c := At(buf, s);
      if c == '\0' {
        kind := End;
      } else if c == '>' {
        s := s + 1;
        kind := Sym('>');
        if At(buf, s) == '>' {
          kind := Append;
          s := s + 1;
        }
      } else if IsSymbol(c) {
        kind := Sym(c);
        s := s + 1;
      } else {
        kind := Word;
        while s < |buf| && !IsSpace(buf[s]) && !IsSymbol(buf[s])
          invariant q <= s <= |buf| && WordEnd(buf, s) == WordEnd(buf, q)
        {
          s := s + 1;
        }
      }
      tok := Tok(q, s);
      SkipSpace();
    }

    method Peek(toks: string) returns (yes: bool)
      requires s <= |buf|
      modifies this
      ensures s == Skip(buf, old(s)) && yes == ShSpec.Peek(buf, old(s), toks)
    {
      SkipSpace();
      var c := At(buf, s);
      return c != '\0' && c in toks;
    }

    method ParseRedirs(c: Cmd) returns (ok: bool, d: Cmd)
      requires Text(buf) && s <= |buf| && Words(buf, c)
      modifies this
      ensures Is(ShSpec.ParseRedirs(buf, c, old(s)), ok, d, s)
    {
      hide ShSpec.ParseRedirs, ShSpec.GetToken, ShSpec.Peek, Skip, IsWord;
      d := c;
      RedirsSkip(buf, c, s);
      var more := Peek("<>");
      while more
        invariant s <= |buf| && Words(buf, d) && s == Skip(buf, s) && more == ShSpec.Peek(buf, s, "<>")
        invariant ShSpec.ParseRedirs(buf, d, s) == ShSpec.ParseRedirs(buf, c, old(s))
        decreases |buf| - s
      {
        RedirsStep(buf, d, s);
        var kind, _ := GetToken();
        var k2, file := GetToken();
        if k2 != Word {
          return false, d;
        }
        if kind == Sym('<') {
          d := Redir(d, file, ForReading, 0);
        } else {
          d := Redir(d, file, ForWriting, 1);
        }
        RedirsSkip(buf, d, s);
        more := Peek("<>");
      }
      RedirsStep(buf, d, s);
      return true, d;
    }

    method ParseArgs(c: Cmd) returns (ok: bool, d: Cmd)
      requires Text(buf) && s <= |buf| && Words(buf, c)
      modifies this
      ensures Is(ShSpec.ParseArgs(buf, c, 0, old(s)), ok, d, s)
    {
      hide ShSpec.ParseArgs, ShSpec.ParseRedirs, ShSpec.GetToken, ShSpec.Peek, Skip, IsWord, Words, AddArg;
      d := c;
      var argc := 0;
      ArgsSkip(buf, c, argc, s);
      var stop := Peek("|)&;");
      while !stop
        invariant s <= |buf| && Words(buf, d) && s == Skip(buf, s) && stop == ShSpec.Peek(buf, s, "|)&;")
        invariant ShSpec.ParseArgs(buf, d, argc, s) == ShSpec.ParseArgs(buf, c, 0, old(s))
        decreases |buf| - s, !stop
      {
        ArgsStep(buf, d, argc, s);
        var kind, tok := GetToken();
        if kind == End {
          return true, d;
        }
        if kind != Word {
          return false, d;
        }
        AddArgWords(buf, d, tok);
        d := AddArg(d, tok);
        argc := argc + 1;
        if argc >= MAXARGS {
          return false, d;
        }
        ok, d := ParseRedirs(d);
        if !ok {
          return;
        }
        ArgsSkip(buf, d, argc, s);
        stop := Peek("|)&;");
      }
      ArgsStep(buf, d, argc, s);
      return true, d;
    }

    method ParseExec() returns (ok: bool, c: Cmd)
      requires Text(buf) && s <= |buf|
      modifies this
      ensures Is(ShSpec.ParseExec(buf, old(s)), ok, c, s)
      decreases |buf| - s, 2
    {
      var block := Peek("(");
      if block {
        ok, c := ParseBlock();
        return;
      }
      ok, c := ParseRedirs(Exec([]));
      if ok {
        ok, c := ParseArgs(c);
      }
    }

    method ParseBlock() returns (ok: bool, c: Cmd)
      requires Text(buf) && s <= |buf|
      modifies this
      ensures Is(ShSpec.ParseBlock(buf, old(s)), ok, c, s)
      decreases |buf| - s, 1
    {
      var open := Peek("(");
      if !open {
        return false, Exec([]);
      }
      var _, _ := GetToken();
      ok, c := ParseLine();
      if !ok {
        return;
      }
      var close := Peek(")");
      if !close {
        return false, c;
      }
      var _, _ := GetToken();
      ok, c := ParseRedirs(c);
    }

    method ParsePipe() returns (ok: bool, c: Cmd)
      requires Text(buf) && s <= |buf|
      modifies this
      ensures Is(ShSpec.ParsePipe(buf, old(s)), ok, c, s)
      decreases |buf| - s, 3
    {
      ok, c := ParseExec();
      if !ok {
        return;
      }
      var more := Peek("|");
      if more {
        var _, _ := GetToken();
        var d;
        ok, d := ParsePipe();
        c := Pipe(c, d);
      }
    }

    method ParseLine() returns (ok: bool, c: Cmd)
      requires Text(buf) && s <= |buf|
      modifies this
      ensures Is(ShSpec.ParseLine(buf, old(s)), ok, c, s)
      decreases |buf| - s, 4
    {
      ok, c := ParsePipe();
      if !ok {
        return;
      }
      ghost var b := ParseBacks(buf, c, s);
      var back := Peek("&");
      while back
        invariant s <= |buf| && Words(buf, c) && s == Skip(buf, s) && back == ShSpec.Peek(buf, s, "&")
        invariant ParseBacks(buf, c, s) == b
        decreases |buf| - s
      {
        var _, _ := GetToken();
        c := Back(c);
        back := Peek("&");
      }
      var more := Peek(";");
      if more {
        var _, _ := GetToken();
        var d;
        ok, d := ParseLine();
        c := List(c, d);
      }
    }

    method ParseCmd() returns (ok: bool, c: Cmd)
      requires Text(buf) && s == 0
      modifies this
      ensures ShSpec.ParseCmd(buf).Parsed? <==> ok
      ensures ok ==> c == ShSpec.ParseCmd(buf).c && InBounds(c, |buf| + 1)
    {
      ok, c := ParseLine();
      if ok {
        var _ := Peek("");
        ok := s == |buf|;
        EndsInBounds(buf, c);
      }
    }
  }

  // ---------- the loops' recursion, one round at a time ----------

  lemma {:induction false} SkipTwice(buf: string, s: nat)
    requires s <= |buf|
    ensures Skip(buf, Skip(buf, s)) == Skip(buf, s)
    decreases |buf| - s
  {
    if s < |buf| && IsSpace(buf[s]) {
      SkipTwice(buf, s + 1);
    }
  }

  lemma RedirsSkip(buf: string, c: Cmd, s: nat)
    requires Text(buf) && s <= |buf| && Words(buf, c)
    ensures ShSpec.ParseRedirs(buf, c, Skip(buf, s)) == ShSpec.ParseRedirs(buf, c, s)
    ensures ShSpec.Peek(buf, Skip(buf, s), "<>") == ShSpec.Peek(buf, s, "<>")
    ensures Skip(buf, Skip(buf, s)) == Skip(buf, s)
  {
    SkipTwice(buf, s);
    hide Skip, ShSpec.GetToken, Words;
  }

  lemma RedirsStep(buf: string, c: Cmd, s: nat)
    requires Text(buf) && s <= |buf| && Words(buf, c) && s == Skip(buf, s)
    ensures !ShSpec.Peek(buf, s, "<>") ==> ShSpec.ParseRedirs(buf, c, s) == Parsed(c, s)
    ensures ShSpec.Peek(buf, s, "<>") ==>
              var t := ShSpec.GetToken(buf, s);
              var f := ShSpec.GetToken(buf, t.s);
              && (f.kind != Word ==> ShSpec.ParseRedirs(buf, c, s) == SyntaxError)
              && (f.kind == Word ==>
                    && s < t.s && IsWord(buf, f.tok)
                    && (if t.kind == Sym('<') then Words(buf, Redir(c, f.tok, ForReading, 0)) && ShSpec.ParseRedirs(buf, c, s) == ShSpec.ParseRedirs(buf, Redir(c, f.tok, ForReading, 0), f.s)
                        else Words(buf, Redir(c, f.tok, ForWriting, 1)) && ShSpec.ParseRedirs(buf, c, s) == ShSpec.ParseRedirs(buf, Redir(c, f.tok, ForWriting, 1), f.s)))
  {
    hide Skip, IsWord;
  }

  lemma ArgsSkip(buf: string, c: Cmd, argc: nat, s: nat)
    requires Text(buf) && s <= |buf| && Words(buf, c)
    ensures ShSpec.ParseArgs(buf, c, argc, Skip(buf, s)) == ShSpec.ParseArgs(buf, c, argc, s)
    ensures ShSpec.Peek(buf, Skip(buf, s), "|)&;") == ShSpec.Peek(buf, s, "|)&;")
    ensures Skip(buf, Skip(buf, s)) == Skip(buf, s)
  {
    SkipTwice(buf, s);
    hide Skip, ShSpec.GetToken, ShSpec.ParseRedirs, Words, AddArg;
  }

  lemma ArgsStep(buf: string, c: Cmd, argc: nat, s: nat)
    requires Text(buf) && s <= |buf| && Words(buf, c) && s == Skip(buf, s)
    ensures ShSpec.Peek(buf, s, "|)&;") ==> ShSpec.ParseArgs(buf, c, argc, s) == Parsed(c, s)
    ensures !ShSpec.Peek(buf, s, "|)&;") ==>
              var t := ShSpec.GetToken(buf, s);
              && (t.kind == End ==> ShSpec.ParseArgs(buf, c, argc, s) == Parsed(c, t.s))
              && (t.kind != End && (t.kind != Word || argc + 1 >= MAXARGS) ==> ShSpec.ParseArgs(buf, c, argc, s) == SyntaxError)
              && (t.kind == Word ==> s < t.s && IsWord(buf, t.tok) && Words(buf, AddArg(c, t.tok)))
              && (t.kind == Word && argc + 1 < MAXARGS ==>
                    match ShSpec.ParseRedirs(buf, AddArg(c, t.tok), t.s)
                    case Parsed(d, s') => t.s <= s' <= |buf| && Words(buf, d) && ShSpec.ParseArgs(buf, c, argc, s) == ShSpec.ParseArgs(buf, d, argc + 1, s')
                    case SyntaxError => ShSpec.ParseArgs(buf, c, argc, s) == SyntaxError)
  {
    hide Skip, ShSpec.ParseRedirs, AddArg, Words;
    if ShSpec.GetToken(buf, s).kind == Word {
      AddArgWords(buf, c, ShSpec.GetToken(buf, s).tok);
    }
  }

  predicate Is(r: Result, ok: bool, c: Cmd, s: nat) {
    match r
    case Parsed(d, s') => ok && c == d && s == s'
    case SyntaxError => !ok
  }

  // ---------- nulterminate ----------

  /** Some token of c ends at i. */
  predicate EndsAt(c: Cmd, i: int) {
    match c
    case Exec(args) => exists k :: 0 <= k < |args| && args[k].eq == i
    case Redir(d, file, _, _) => EndsAt(d, i) || file.eq == i
    case Pipe(l, r) => EndsAt(l, i) || EndsAt(r, i)
    case List(l, r) => EndsAt(l, i) || EndsAt(r, i)
    case Back(d) => EndsAt(d, i)
  }

  /** A NUL at the end of every token, and nothing else changed. */
  ghost predicate Nulled(a: string, b: string, c: Cmd) {
    |b| == |a| && forall i :: 0 <= i < |a| ==> b[i] == if EndsAt(c, i) then '\0' else a[i]
  }

  ghost predicate InBounds(c: Cmd, n: nat) {
    forall i :: EndsAt(c, i) ==> 0 <= i < n
  }

  method Nulterminate(b: array<char>, c: Cmd)
    requires InBounds(c, b.Length)
    modifies b
    ensures Nulled(old(b[..]), b[..], c)
    decreases c
  {
    match c
    case Exec(args) =>
      for k := 0 to |args|
        invariant forall i :: 0 <= i < b.Length ==>
                    b[i] == if exists j :: 0 <= j < k && args[j].eq == i then '\0' else old(b[i])
      {
        assert EndsAt(c, args[k].eq);
        b[args[k].eq] := '\0';
      }
    case Redir(d, file, _, _) =>
      assert forall i :: EndsAt(d, i) ==> EndsAt(c, i);
      assert EndsAt(c, file.eq);
      Nulterminate(b, d);
      b[file.eq] := '\0';
    case Pipe(l, r) =>
      assert forall i :: EndsAt(l, i) || EndsAt(r, i) ==> EndsAt(c, i);
      Nulterminate(b, l);
      Nulterminate(b, r);
    case List(l, r) =>
      assert forall i :: EndsAt(l, i) || EndsAt(r, i) ==> EndsAt(c, i);
      Nulterminate(b, l);
      Nulterminate(b, r);
    case Back(d) =>
      assert forall i :: EndsAt(d, i) ==> EndsAt(c, i);
      Nulterminate(b, d);
  }

  // ---------- each token reads back ----------

  /** The C string at q. */
  function CString(a: string, q: nat): string
    decreases |a| - q
  {
    if q >= |a| || a[q] == '\0' then "" else [a[q]] + CString(a, q + 1)
  }

  lemma {:induction false} CStringIs(a: string, q: nat, eq: nat)
    requires q <= eq < |a| && a[eq] == '\0' && forall i :: q <= i < eq ==> a[i] != '\0'
    ensures CString(a, q) == a[q..eq]
    decreases eq - q
  {
    if q < eq {
      CStringIs(a, q + 1, eq);
    }
  }

  predicate HasToken(c: Cmd, t: Tok) {
    match c
    case Exec(args) => t in args
    case Redir(d, file, _, _) => HasToken(d, t) || t == file
    case Pipe(l, r) => HasToken(l, t) || HasToken(r, t)
    case List(l, r) => HasToken(l, t) || HasToken(r, t)
    case Back(d) => HasToken(d, t)
  }

  lemma {:induction false} TokenIsWord(buf: string, c: Cmd, t: Tok)
    requires Words(buf, c) && HasToken(c, t)
    ensures IsWord(buf, t) && EndsAt(c, t.eq)
  {
    match c
    case Exec(args) =>
    case Redir(d, file, _, _) => if HasToken(d, t) { TokenIsWord(buf, d, t); }
    case Pipe(l, r) => if HasToken(l, t) { TokenIsWord(buf, l, t); } else { TokenIsWord(buf, r, t); }
    case List(l, r) => if HasToken(l, t) { TokenIsWord(buf, l, t); } else { TokenIsWord(buf, r, t); }
    case Back(d) => TokenIsWord(buf, d, t);
  }

  /** No token ends inside a token. */
  lemma {:induction false} EndIsNoWordChar(buf: string, c: Cmd, i: int)
    requires Words(buf, c) && EndsAt(c, i)
    ensures 0 < i <= |buf| && !IsWordChar(At(buf, i))
  {
    match c
    case Exec(args) =>
    case Redir(d, file, _, _) => if EndsAt(d, i) { EndIsNoWordChar(buf, d, i); }
    case Pipe(l, r) => if EndsAt(l, i) { EndIsNoWordChar(buf, l, i); } else { EndIsNoWordChar(buf, r, i); }
    case List(l, r) => if EndsAt(l, i) { EndIsNoWordChar(buf, l, i); } else { EndIsNoWordChar(buf, r, i); }
    case Back(d) => EndIsNoWordChar(buf, d, i);
  }

  lemma EndsInBounds(buf: string, c: Cmd)
    requires Words(buf, c)
    ensures InBounds(c, |buf| + 1)
  {
    forall i | EndsAt(c, i) ensures 0 <= i < |buf| + 1 {
      EndIsNoWordChar(buf, c, i);
    }
  }

  /** For every text that parses, after nulterminate each argument and file name reads
      back, as a C string, as exactly its token. */
  lemma TokensReadBack(buf: string, b: string, t: Tok)
    requires Text(buf) && ParseCmd(buf).Parsed? && Nulled(buf + ['\0'], b, ParseCmd(buf).c) && HasToken(ParseCmd(buf).c, t)
    ensures t.q < t.eq <= |buf| && CString(b, t.q) == buf[t.q..t.eq]
  {
    hide ParseCmd;
    var c := ParseCmd(buf).c;
    TokenIsWord(buf, c, t);
    forall i | t.q <= i < t.eq ensures b[i] == buf[i] {
      if EndsAt(c, i) {
        EndIsNoWordChar(buf, c, i);
      }
    }
    CStringIs(b, t.q, t.eq);
  }
}
