/** The shell's parser as functions of the text and the cursor.  Each function says how
    far the cursor may move, which is what makes the recursion stop: the characters
    left decrease, or the grammar level does. */
module ShSpec {

  const MAXARGS := 10

  /** A token: the text from q up to eq. */
  datatype Tok = Tok(q: nat, eq: nat)

  datatype Mode = ForReading | ForWriting      // O_RDONLY; O_WRONLY|O_CREATE

  datatype Cmd =
    | Exec(args: seq<Tok>)
    | Redir(c: Cmd, file: Tok, mode: Mode, fd: int)
    | Pipe(left: Cmd, right: Cmd)
    | List(left: Cmd, right: Cmd)
    | Back(c: Cmd)

  // ---------- characters ----------

  predicate IsSpace(c: char) { c == ' ' || c == '\t' || c == '\r' || c == '\n' || c == 11 as char }

  predicate IsSymbol(c: char) {
    c == '<' || c == '|' || c == '>' || c == '&' || c == ';' || c == '(' || c == ')'
  }

  predicate IsWordChar(c: char) { c != '\0' && !IsSpace(c) && !IsSymbol(c) }

  /** A C string: the text before the terminating NUL. */
  ghost predicate Text(buf: string) { forall i :: 0 <= i < |buf| ==> buf[i] != '\0' }

  function At(buf: string, i: nat): char {
    if i < |buf| then buf[i] else '\0'
  }

  function Skip(buf: string, s: nat): (r: nat)
    requires s <= |buf|
    ensures s <= r <= |buf| && !IsSpace(At(buf, r))
    ensures forall i :: s <= i < r ==> IsSpace(buf[i])
    decreases |buf| - s
  {
    if s < |buf| && IsSpace(buf[s]) then Skip(buf, s + 1) else s
  }

  function WordEnd(buf: string, s: nat): (r: nat)
    requires s <= |buf|
    ensures s <= r <= |buf| && !IsWordChar(At(buf, r))
    ensures forall i :: s <= i < r ==> IsWordChar(buf[i])
    decreases |buf| - s
  {
    if s < |buf| && IsWordChar(buf[s]) then WordEnd(buf, s + 1) else s
  }

  // ---------- tokens ----------

  datatype Kind = End | Sym(c: char) | Append | Word

  datatype Token = Token(kind: Kind, tok: Tok, s: nat)

  function GetToken(buf: string, s: nat): (r: Token)
    requires Text(buf) && s <= |buf|
    ensures s <= r.s <= |buf| && (r.kind == End <==> At(buf, Skip(buf, s)) == '\0')
    ensures r.kind != End ==> s < r.s
    ensures r.kind == Word <==> IsWordChar(At(buf, Skip(buf, s)))
    ensures r.kind == Word ==> IsWord(buf, r.tok)
  {
    var q := Skip(buf, s);
    var c := At(buf, q);
    if c == '\0' then Token(End, Tok(q, q), q)
    else if c == '>' && At(buf, q + 1) == '>' then Token(Append, Tok(q, q + 2), Skip(buf, q + 2))
    else if IsSymbol(c) then Token(Sym(c), Tok(q, q + 1), Skip(buf, q + 1))
    else Token(Word, Tok(q, WordEnd(buf, q)), Skip(buf, WordEnd(buf, q)))
  }

  /** The next character is one of `toks`. */
  predicate Peek(buf: string, s: nat, toks: string)
    requires s <= |buf|
  {
    var c := At(buf, Skip(buf, s));
    c != '\0' && c in toks
  }

  /** A maximal run of word characters. */
  ghost predicate IsWord(buf: string, t: Tok) {
    && t.q < t.eq <= |buf| && !IsWordChar(At(buf, t.eq))
    && (forall i :: t.q <= i < t.eq ==> IsWordChar(buf[i]))
  }

  ghost predicate Words(buf: string, c: Cmd) {
    match c
    case Exec(args) => forall i :: 0 <= i < |args| ==> IsWord(buf, args[i])
    case Redir(d, file, _, _) => Words(buf, d) && IsWord(buf, file)
    case Pipe(l, r) => Words(buf, l) && Words(buf, r)
    case List(l, r) => Words(buf, l) && Words(buf, r)
    case Back(d) => Words(buf, d)
  }

  // ---------- the parser ----------

  datatype Result = Parsed(c: Cmd, s: nat) | SyntaxError

  ghost predicate Moved(buf: string, s: nat, r: Result) {
    r.Parsed? ==> s <= r.s <= |buf| && Words(buf, r.c)
  }

  /** Redirections after a command; each wraps the one before. */
  function ParseRedirs(buf: string, c: Cmd, s: nat): (r: Result)
    requires Text(buf) && s <= |buf| && Words(buf, c)
    ensures Moved(buf, s, r)
    decreases |buf| - s
  {
    if !Peek(buf, s, "<>") then Parsed(c, Skip(buf, s))
    else
      var t := GetToken(buf, Skip(buf, s));
      var f := GetToken(buf, t.s);
      if f.kind != Word then SyntaxError
      else if t.kind == Sym('<') then ParseRedirs(buf, Redir(c, f.tok, ForReading, 0), f.s)
      else ParseRedirs(buf, Redir(c, f.tok, ForWriting, 1), f.s)
  }

  /** The argument c's innermost EXEC gains; redirections already wrap it. */
  function AddArg(c: Cmd, t: Tok): (r: Cmd) {
    match c
    case Exec(args) => Exec(args + [t])
    case Redir(d, f, m, fd) => Redir(AddArg(d, t), f, m, fd)
    case other => other
  }

  lemma AddArgWords(buf: string, c: Cmd, t: Tok)
    requires Words(buf, c) && IsWord(buf, t)
    ensures Words(buf, AddArg(c, t))
  {
  }

  /** parseexec's loop: words and redirections up to an operator or the end. */
  function ParseArgs(buf: string, c: Cmd, argc: nat, s: nat): (r: Result)
    requires Text(buf) && s <= |buf| && Words(buf, c)
    ensures Moved(buf, s, r)
    decreases |buf| - s
  {
    if Peek(buf, s, "|)&;") then Parsed(c, Skip(buf, s))
    else
      var t := GetToken(buf, Skip(buf, s));
      if t.kind == End then Parsed(c, t.s)
      else if t.kind != Word || argc + 1 >= MAXARGS then SyntaxError
      else
        AddArgWords(buf, c, t.tok);
        match ParseRedirs(buf, AddArg(c, t.tok), t.s)
        case Parsed(d, s') => ParseArgs(buf, d, argc + 1, s')
        case SyntaxError => SyntaxError
  }

  function ParseExec(buf: string, s: nat): (r: Result)
    requires Text(buf) && s <= |buf|
    ensures Moved(buf, s, r)
    decreases |buf| - s, 2
  {
    if Peek(buf, s, "(") then ParseBlock(buf, Skip(buf, s))
    else
      match ParseRedirs(buf, Exec([]), Skip(buf, s))
      case Parsed(c, s') => ParseArgs(buf, c, 0, s')
      case SyntaxError => SyntaxError
  }

  function ParseBlock(buf: string, s: nat): (r: Result)
    requires Text(buf) && s <= |buf|
    ensures Moved(buf, s, r)
    decreases |buf| - s, 1
  {
    if !Peek(buf, s, "(") then SyntaxError
    else
      match ParseLine(buf, GetToken(buf, Skip(buf, s)).s)
      case SyntaxError => SyntaxError
      case Parsed(c, s') =>
        if !Peek(buf, s', ")") then SyntaxError
        else ParseRedirs(buf, c, GetToken(buf, Skip(buf, s')).s)
  }

  function ParsePipe(buf: string, s: nat): (r: Result)
    requires Text(buf) && s <= |buf|
    ensures Moved(buf, s, r)
    decreases |buf| - s, 3
  {
    match ParseExec(buf, s)
    case SyntaxError => SyntaxError
    case Parsed(c, s') =>
      if !Peek(buf, s', "|") then Parsed(c, Skip(buf, s'))
      else
        match ParsePipe(buf, GetToken(buf, Skip(buf, s')).s)
        case SyntaxError => SyntaxError
        case Parsed(d, s'') => Parsed(Pipe(c, d), s'')
  }

  /** The '&'s after a pipeline. */
  function ParseBacks(buf: string, c: Cmd, s: nat): (r: Result)
    requires Text(buf) && s <= |buf| && Words(buf, c)
    ensures Moved(buf, s, r) && r.Parsed?
    decreases |buf| - s
  {
    if Peek(buf, s, "&") then ParseBacks(buf, Back(c), GetToken(buf, Skip(buf, s)).s)
    else Parsed(c, Skip(buf, s))
  }

  function ParseLine(buf: string, s: nat): (r: Result)
    requires Text(buf) && s <= |buf|
    ensures Moved(buf, s, r)
    decreases |buf| - s, 4
  {
    match ParsePipe(buf, s)
    case SyntaxError => SyntaxError
    case Parsed(c, s') =>
      var b := ParseBacks(buf, c, s');
      if !Peek(buf, b.s, ";") then Parsed(b.c, Skip(buf, b.s))
      else
        match ParseLine(buf, GetToken(buf, Skip(buf, b.s)).s)
        case SyntaxError => SyntaxError
        case Parsed(d, s'') => Parsed(List(b.c, d), s'')
  }

  /** parsecmd: the whole text must be used up. */
  function ParseCmd(buf: string): (r: Result)
    requires Text(buf)
    ensures r.Parsed? ==> Words(buf, r.c)
  {
    match ParseLine(buf, 0)
    case SyntaxError => SyntaxError
    case Parsed(c, s) => if Skip(buf, s) != |buf| then SyntaxError else Parsed(c, s)
  }
}
