/** The command language of sh.c: tokens, the tree a line stands for, and a line for every tree. */
module ShSpec {

  const MAXARGS: nat := 10
  const O_RDONLY: nat := 0
  const O_WRONLY_CREATE: nat := 0x201 // O_WRONLY | O_CREATE

  /** A word is the slice from q up to eq of the line. */
  datatype Word = Word(q: nat, eq: nat)

  /** An operator character, with '+' for >>, or a word. */
  datatype Token = Op(c: char) | W(w: Word)

  datatype Redirection = Redirection(file: Word, mode: nat, fd: nat)

  datatype Cmd =
    | Exec(argv: seq<Word>)
    | Redir(cmd: Cmd, r: Redirection)
    | Pipe(left: Cmd, right: Cmd)
    | List(left: Cmd, right: Cmd)
    | Back(cmd: Cmd)

  /** Bad is a panic of the parser. */
  datatype Parsed<T> = Ok(value: T, rest: seq<Token>) | Bad

  function Wrap(c: Cmd, rs: seq<Redirection>): Cmd {
    if rs == [] then c else Redir(Wrap(c, rs[..|rs| - 1]), rs[|rs| - 1])
  }

  predicate Starts(toks: seq<Token>, ops: string) {
    toks != [] && toks[0].Op? && toks[0].c in ops
  }

  function RedirectionOf(op: char, file: Word): Redirection {
    if op == '<' then Redirection(file, O_RDONLY, 0) else Redirection(file, O_WRONLY_CREATE, 1)
  }

  // ----- The grammar -----

  /** redirections ::= { ( < | > | >> ) word } */
  function Redirs(toks: seq<Token>): (r: Parsed<seq<Redirection>>)
    ensures r.Ok? ==> |r.rest| <= |toks|
    decreases |toks|
  {
    if !Starts(toks, "<>+") then Ok([], toks)
    else if |toks| < 2 || !toks[1].W? then Bad
    else
      match Redirs(toks[2..])
      case Bad => Bad
      case Ok(rs, rest) => Ok([RedirectionOf(toks[0].c, toks[1].w)] + rs, rest)
  }

  /** arguments ::= { word redirections }, after `argv` and `rs` */
  function Args(argv: seq<Word>, rs: seq<Redirection>, toks: seq<Token>): (r: Parsed<(seq<Word>, seq<Redirection>)>)
    ensures r.Ok? ==> |r.rest| <= |toks|
    decreases |toks|
  {
    if toks == [] || Starts(toks, "|)&;") then Ok((argv, rs), toks)
    else if !toks[0].W? || |argv| + 1 >= MAXARGS then Bad
    else
      match Redirs(toks[1..])
      case Bad => Bad
      case Ok(more, rest) => Args(argv + [toks[0].w], rs + more, rest)
  }

  /** simple ::= ( line ) redirections | redirections arguments */
  function Simple(toks: seq<Token>): (r: Parsed<Cmd>)
    ensures r.Ok? ==> |r.rest| <= |toks|
    decreases |toks|, 0
  {
    if Starts(toks, "(") then
      match Line(toks[1..])
      case Bad => Bad
      case Ok(c, rest) =>
        if !Starts(rest, ")") then Bad
        else
          (match Redirs(rest[1..])
           case Bad => Bad
           case Ok(rs, rest') => Ok(Wrap(c, rs), rest'))
    else
      match Redirs(toks)
      case Bad => Bad
      case Ok(rs, rest) =>
        (match Args([], rs, rest)
         case Bad => Bad
         case Ok(x, rest') => Ok(Wrap(Exec(x.0), x.1), rest'))
  }

  /** pipeline ::= simple [ | pipeline ] */
  function Pipeline(toks: seq<Token>): (r: Parsed<Cmd>)
    ensures r.Ok? ==> |r.rest| <= |toks|
    decreases |toks|, 1
  {
    match Simple(toks)
    case Bad => Bad
    case Ok(c, rest) =>
      if !Starts(rest, "|") then Ok(c, rest)
      else
        match Pipeline(rest[1..])
        case Bad => Bad
        case Ok(d, rest') => Ok(Pipe(c, d), rest')
  }

  function Backs(c: Cmd, toks: seq<Token>): (r: (Cmd, seq<Token>))
    ensures |r.1| <= |toks|
    decreases |toks|
  {
    if Starts(toks, "&") then Backs(Back(c), toks[1..]) else (c, toks)
  }

  /** line ::= pipeline { & } [ ; line ] */
  function Line(toks: seq<Token>): (r: Parsed<Cmd>)
    ensures r.Ok? ==> |r.rest| <= |toks|
    decreases |toks|, 2
  {
    match Pipeline(toks)
    case Bad => Bad
    case Ok(c0, rest0) =>
      var (c, rest) := Backs(c0, rest0);
      if !Starts(rest, ";") then Ok(c, rest)
      else
        match Line(rest[1..])
        case Bad => Bad
        case Ok(d, rest') => Ok(List(c, d), rest')
  }

  // ----- A line for every tree -----

  /** The two kinds of redirection the parser makes. */
  predicate Known(r: Redirection) {
    (r.mode == O_RDONLY && r.fd == 0) || (r.mode == O_WRONLY_CREATE && r.fd == 1)
  }

  predicate Printable(c: Cmd) {
    match c
    case Exec(argv) => |argv| < MAXARGS
    case Redir(d, r) => Printable(d) && Known(r)
    case Pipe(l, r) => Printable(l) && Printable(r)
    case List(l, r) => Printable(l) && Printable(r)
    case Back(d) => Printable(d)
  }

  function Words(argv: seq<Word>): seq<Token> {
    if argv == [] then [] else [W(argv[0])] + Words(argv[1..])
  }

  function PrintRedir(r: Redirection): seq<Token> {
    [Op(if r.fd == 0 then '<' else '>'), W(r.file)]
  }

  /** The order in which the four printers below call each other on the same tree; simple is
      0, pipeline 1, backs 2, line 3. */
  function Rank(c: Cmd, level: nat): nat {
    match c
    case Pipe(_, _) => (level + 3) % 4
    case Back(_) => (level + 2) % 4
    case List(_, _) => (level + 1) % 4
    case _ => level
  }

  /** As a simple command: what is not one goes between parentheses. */
  function PrintSimple(c: Cmd): seq<Token>
    decreases c, Rank(c, 0)
  {
    match c
    case Exec(argv) => Words(argv)
    case Redir(d, r) => PrintSimple(d) + PrintRedir(r)
    case _ => [Op('(')] + PrintLine(c) + [Op(')')]
  }

  function PrintPipeline(c: Cmd): seq<Token>
    decreases c, Rank(c, 1)
  {
    match c
    case Pipe(l, r) => PrintSimple(l) + [Op('|')] + PrintPipeline(r)
    case _ => PrintSimple(c)
  }

  function PrintBacks(c: Cmd): seq<Token>
    decreases c, Rank(c, 2)
  {
    match c
    case Back(d) => PrintBacks(d) + [Op('&')]
    case _ => PrintPipeline(c)
  }

  function PrintLine(c: Cmd): seq<Token>
    decreases c, Rank(c, 3)
  {
    match c
    case List(l, r) => PrintBacks(l) + [Op(';')] + PrintLine(r)
    case _ => PrintBacks(c)
  }

  // ----- Parsing what was printed -----

  function PrintRedirs(rs: seq<Redirection>): seq<Token> {
    if rs == [] then [] else PrintRedir(rs[0]) + PrintRedirs(rs[1..])
  }

  predicate Redirectable(rs: seq<Redirection>) {
    forall i :: 0 <= i < |rs| ==> Known(rs[i])
  }

  lemma RedirsFirst(toks: seq<Token>)
    requires Starts(toks, "<>+")
    ensures |toks| < 2 || !toks[1].W? ==> Redirs(toks).Bad?
    ensures |toks| >= 2 && toks[1].W? ==>
              var r := Redirs(toks[2..]);
              Redirs(toks) == if r.Bad? then Bad else Ok([RedirectionOf(toks[0].c, toks[1].w)] + r.value, r.rest)
  {
  }

  lemma Cons(t: Token, a: seq<Token>, b: seq<Token>, c: seq<Token>)
    ensures var toks := ([t] + a) + b + c; toks[0] == t && toks[1..] == a + b + c
  {
  }

  lemma PrintedRedir(rs: seq<Redirection>, rest: seq<Token>)
    requires rs != [] && Redirectable(rs)
    ensures var toks := PrintRedirs(rs) + rest;
            && Starts(toks, "<>+") && |toks| >= 2 && toks[1].W? && toks[2..] == PrintRedirs(rs[1..]) + rest
            && RedirectionOf(toks[0].c, toks[1].w) == rs[0]
  {
    assert Known(rs[0]);
    hide PrintRedirs, Redirectable;
    PrintRedirsCons(rs);
    Two(PrintRedir(rs[0])[0], W(rs[0].file), PrintRedirs(rs[1..]), rest);
  }

  lemma PrintRedirsCons(rs: seq<Redirection>)
    requires rs != []
    ensures PrintRedirs(rs) == [PrintRedir(rs[0])[0], W(rs[0].file)] + PrintRedirs(rs[1..])
  {
  }

  lemma Two(t: Token, u: Token, a: seq<Token>, b: seq<Token>)
    ensures var toks := ([t, u] + a) + b; |toks| >= 2 && toks[0] == t && toks[1] == u && toks[2..] == a + b
  {
  }

  lemma {:induction false} RedirsPrinted(rs: seq<Redirection>, rest: seq<Token>)
    requires Redirectable(rs) && !Starts(rest, "<>+")
    ensures Redirs(PrintRedirs(rs) + rest) == Ok(rs, rest)
  {
    hide Redirs, RedirectionOf;
    if rs == [] {
      assert PrintRedirs(rs) + rest == rest;
      NoRedirs(rest);
    } else {
      PrintedRedir(rs, rest);
      hide PrintRedirs;
      RedirsFirst(PrintRedirs(rs) + rest);
      RedirsPrinted(rs[1..], rest);
      assert [rs[0]] + rs[1..] == rs;
    }
  }

  lemma ArgsStep(argv: seq<Word>, rs: seq<Redirection>, toks: seq<Token>)
    ensures toks == [] || Starts(toks, "|)&;") ==> Args(argv, rs, toks) == Ok((argv, rs), toks)
    ensures toks != [] && !Starts(toks, "|)&;") && (!toks[0].W? || |argv| + 1 >= MAXARGS) ==> Args(argv, rs, toks).Bad?
    ensures toks != [] && toks[0].W? && |argv| + 1 < MAXARGS ==>
              var r := Redirs(toks[1..]);
              Args(argv, rs, toks) == if r.Bad? then Bad else Args(argv + [toks[0].w], rs + r.value, r.rest)
  {
  }

  lemma NoRedirs(toks: seq<Token>)
    requires !Starts(toks, "<>+")
    ensures Redirs(toks) == Ok([], toks)
  {
  }

  lemma {:induction false} ArgsPrinted(done: seq<Word>, argv: seq<Word>, rs: seq<Redirection>, rest: seq<Token>)
    requires |done| + |argv| < MAXARGS && Redirectable(rs) && argv != []
    requires rest == [] || Starts(rest, "|)&;")
    ensures Args(done, [], Words(argv) + PrintRedirs(rs) + rest) == Ok((done + argv, rs), rest)
    decreases |argv|
  {
    hide Redirs, Args, PrintRedirs, Redirectable, Words;
    var toks, none := Words(argv) + PrintRedirs(rs) + rest, [];
    FirstWord(argv);
    Cons(W(argv[0]), Words(argv[1..]), PrintRedirs(rs), rest);
    ArgsStep(done, none, toks);
    if |argv| == 1 {
      assert argv[1..] == [];
      NoWords(argv[1..]);
      assert toks[1..] == PrintRedirs(rs) + rest;
      RedirsPrinted(rs, rest);
      ArgsStep(done + argv, rs, rest);
      assert done + [argv[0]] == done + argv && none + rs == rs;
    } else {
      FirstWord(argv[1..]);
      Cons(W(argv[1]), Words(argv[1..][1..]), PrintRedirs(rs), rest);
      NoRedirs(toks[1..]);
      assert none + none == none;
      ArgsPrinted(done + [argv[0]], argv[1..], rs, rest);
      assert done + [argv[0]] + argv[1..] == done + argv;
    }
  }

  lemma NoWords(argv: seq<Word>)
    ensures argv == [] ==> Words(argv) == []
  {
  }

  lemma FirstWord(argv: seq<Word>)
    requires argv != []
    ensures Words(argv) == [W(argv[0])] + Words(argv[1..])
  {
  }

  /** A command without its outer redirections, and those. */
  function Base(c: Cmd): Cmd {
    match c case Redir(d, _) => Base(d) case _ => c
  }

  function Outer(c: Cmd): seq<Redirection> {
    match c case Redir(d, r) => Outer(d) + [r] case _ => []
  }

  function Size(c: Cmd): nat {
    match c
    case Exec(_) => 0
    case Redir(d, _) => Size(d) + 1
    case Pipe(l, r) => Size(l) + Size(r) + 1
    case List(l, r) => Size(l) + Size(r) + 1
    case Back(d) => Size(d) + 1
  }

  lemma WrapBase(c: Cmd)
    requires Printable(c)
    ensures Base(c) == c || Size(Base(c)) < Size(c)
    ensures Wrap(Base(c), Outer(c)) == c && Redirectable(Outer(c)) && Printable(Base(c)) && !Base(c).Redir?
  {
    if c.Redir? {
      WrapBase(c.cmd);
      assert Outer(c)[..|Outer(c)| - 1] == Outer(c.cmd);
    }
  }

  lemma {:induction false} PrintRedirsEnd(rs: seq<Redirection>, r: Redirection)
    ensures PrintRedirs(rs + [r]) == PrintRedirs(rs) + PrintRedir(r)
  {
    if rs == [] {
      assert rs + [r] == [r] && [r][1..] == [];
    } else {
      assert (rs + [r])[1..] == rs[1..] + [r];
      PrintRedirsEnd(rs[1..], r);
    }
  }

  lemma {:induction false} PrintSimpleParts(c: Cmd)
    ensures PrintSimple(c) == PrintSimple(Base(c)) + PrintRedirs(Outer(c))
  {
    if c.Redir? {
      PrintSimpleParts(c.cmd);
      PrintRedirsEnd(Outer(c.cmd), c.r);
    }
  }

  lemma ExecPrinted(argv: seq<Word>, rs: seq<Redirection>, rest: seq<Token>)
    requires |argv| < MAXARGS && Redirectable(rs) && (rest == [] || Starts(rest, "|)&;"))
    ensures Simple(Words(argv) + PrintRedirs(rs) + rest) == Ok(Wrap(Exec(argv), rs), rest)
  {
    hide Redirs, Args, PrintRedirs, Redirectable, Words, Line;
    var toks, none := Words(argv) + PrintRedirs(rs) + rest, [];
    ArgsStep(none, rs, rest);
    if argv == [] {
      NoWords(argv);
      assert toks == PrintRedirs(rs) + rest;
      RedirsPrinted(rs, rest);
      NotBlock(rs, rest);
    } else {
      FirstWord(argv);
      Cons(W(argv[0]), Words(argv[1..]), PrintRedirs(rs), rest);
      NoRedirs(toks);
      ArgsPrinted(none, argv, rs, rest);
      assert none + argv == argv;
    }
  }

  lemma NotBlock(rs: seq<Redirection>, rest: seq<Token>)
    requires rest == [] || Starts(rest, "|)&;")
    ensures !Starts(PrintRedirs(rs) + rest, "(")
  {
    if rs == [] {
      assert PrintRedirs(rs) + rest == rest;
    }
  }

  lemma {:induction false} SimplePrinted(c: Cmd, rest: seq<Token>)
    requires Printable(c) && (rest == [] || Starts(rest, "|)&;"))
    ensures Simple(PrintSimple(c) + rest) == Ok(c, rest)
    decreases Size(c), Rank(c, 0)
  {
    hide Simple, Printable, Wrap, Redirectable, PrintRedirs, Base, Outer;
    var b, rs := Base(c), Outer(c);
    WrapBase(c);
    PrintSimpleParts(c);
    ExecFits(b);
    if b.Exec? {
      ExecPrinted(b.argv, rs, rest);
    } else {
      var tail := [Op(')')] + (PrintRedirs(rs) + rest);
      LinePrinted(b, tail);
      BlockPrinted(b, rs, rest);
      Regroup([Op('(')], PrintLine(b), [Op(')')], PrintRedirs(rs), rest);
    }
  }

  lemma ExecFits(c: Cmd)
    requires Printable(c)
    ensures c.Exec? ==> |c.argv| < MAXARGS
  {
  }

  lemma Regroup(a: seq<Token>, b: seq<Token>, c: seq<Token>, d: seq<Token>, e: seq<Token>)
    ensures (a + b + c) + d + e == a + (b + (c + (d + e)))
  {
  }

  lemma BlockPrinted(b: Cmd, rs: seq<Redirection>, rest: seq<Token>)
    requires Redirectable(rs) && (rest == [] || Starts(rest, "|)&;"))
    requires var tail := [Op(')')] + (PrintRedirs(rs) + rest); Line(PrintLine(b) + tail) == Ok(b, tail)
    ensures Simple([Op('(')] + (PrintLine(b) + ([Op(')')] + (PrintRedirs(rs) + rest)))) == Ok(Wrap(b, rs), rest)
  {
    var tail := [Op(')')] + (PrintRedirs(rs) + rest);
    var toks := [Op('(')] + (PrintLine(b) + tail);
    assert toks[1..] == PrintLine(b) + tail && tail[1..] == PrintRedirs(rs) + rest;
    RedirsPrinted(rs, rest);
  }

  lemma {:induction false} PipelinePrinted(c: Cmd, rest: seq<Token>)
    requires Printable(c) && (rest == [] || Starts(rest, ")&;"))
    ensures Pipeline(PrintPipeline(c) + rest) == Ok(c, rest)
    decreases Size(c), Rank(c, 1)
  {
    if c.Pipe? {
      var tail := [Op('|')] + (PrintPipeline(c.right) + rest);
      assert PrintPipeline(c) + rest == PrintSimple(c.left) + tail;
      SimplePrinted(c.left, tail);
      PipelinePrinted(c.right, rest);
    } else {
      SimplePrinted(c, rest);
    }
  }

  lemma {:induction false} BacksPrinted(c: Cmd, rest: seq<Token>)
    requires Printable(c) && (rest == [] || Starts(rest, ")&;"))
    ensures var p := Pipeline(PrintBacks(c) + rest); p.Ok? && Backs(p.value, p.rest) == Backs(c, rest)
    decreases Size(c), Rank(c, 2)
  {
    if c.Back? {
      assert PrintBacks(c) + rest == PrintBacks(c.cmd) + ([Op('&')] + rest);
      BacksPrinted(c.cmd, [Op('&')] + rest);
      assert ([Op('&')] + rest)[1..] == rest;
    } else {
      PipelinePrinted(c, rest);
    }
  }

  /** Every command tree is the meaning of a line: the one printed for it. */
  lemma {:induction false} LinePrinted(c: Cmd, rest: seq<Token>)
    requires Printable(c) && (rest == [] || Starts(rest, ")"))
    ensures Line(PrintLine(c) + rest) == Ok(c, rest)
    decreases Size(c), Rank(c, 3)
  {
    if c.List? {
      var tail := [Op(';')] + (PrintLine(c.right) + rest);
      assert PrintLine(c) + rest == PrintBacks(c.left) + tail;
      BacksPrinted(c.left, tail);
      LinePrinted(c.right, rest);
      assert tail[1..] == PrintLine(c.right) + rest;
    } else {
      BacksPrinted(c, rest);
    }
  }

  // ----- No word is lost -----

  function Elements(argv: seq<Word>): set<Word> {
    set w | w in argv
  }

  function WordsOf(c: Cmd): set<Word> {
    match c
    case Exec(argv) => Elements(argv)
    case Redir(d, r) => WordsOf(d) + {r.file}
    case Pipe(l, r) => WordsOf(l) + WordsOf(r)
    case List(l, r) => WordsOf(l) + WordsOf(r)
    case Back(d) => WordsOf(d)
  }

  function TokenWords(toks: seq<Token>): set<Word> {
    set t | t in toks && t.W? :: t.w
  }

  function Files(rs: seq<Redirection>): set<Word> {
    set r | r in rs :: r.file
  }

  /** `rest` is the end of `toks`, and the words before it are those in `ws`. */
  ghost predicate Consumed(toks: seq<Token>, rest: seq<Token>, ws: set<Word>) {
    exists used :: toks == used + rest && TokenWords(used) == ws
  }

  lemma ConsumedMore(toks: seq<Token>, mid: seq<Token>, rest: seq<Token>, ws: set<Word>, vs: set<Word>)
    requires Consumed(toks, mid, ws) && Consumed(mid, rest, vs)
    ensures Consumed(toks, rest, ws + vs)
  {
    var a :| toks == a + mid && TokenWords(a) == ws;
    var b :| mid == b + rest && TokenWords(b) == vs;
    assert toks == (a + b) + rest;
    assert TokenWords(a + b) == TokenWords(a) + TokenWords(b);
  }

  lemma ConsumedNone(toks: seq<Token>)
    ensures Consumed(toks, toks, {})
  {
    assert toks == [] + toks && TokenWords([]) == {};
  }

  lemma ConsumedOne(toks: seq<Token>)
    requires toks != []
    ensures Consumed(toks, toks[1..], if toks[0].W? then {toks[0].w} else {})
  {
    assert toks == [toks[0]] + toks[1..];
    assert TokenWords([toks[0]]) == if toks[0].W? then {toks[0].w} else {};
  }

  lemma {:induction false} WrapWords(c: Cmd, rs: seq<Redirection>)
    ensures WordsOf(Wrap(c, rs)) == WordsOf(c) + Files(rs)
  {
    if rs != [] {
      var k := |rs| - 1;
      WrapWords(c, rs[..k]);
      assert rs == rs[..k] + [rs[k]];
      assert Files(rs) == Files(rs[..k]) + {rs[k].file};
    }
  }

  lemma FilesJoin(rs: seq<Redirection>, ss: seq<Redirection>)
    ensures Files(rs + ss) == Files(rs) + Files(ss)
  {
  }

  lemma {:induction false} RedirsConsume(toks: seq<Token>)
    requires Redirs(toks).Ok?
    ensures Consumed(toks, Redirs(toks).rest, Files(Redirs(toks).value))
    decreases |toks|
  {
    hide Consumed;
    var none: seq<Redirection> := [];
    assert Files(none) == {};
    ConsumedNone(toks);
    if Starts(toks, "<>+") {
      RedirsConsume(toks[2..]);
      ConsumedOne(toks);
      ConsumedOne(toks[1..]);
      assert toks[1..][1..] == toks[2..];
      ConsumedMore(toks, toks[1..], toks[2..], {}, {toks[1].w});
      var r := Redirs(toks[2..]);
      var first := RedirectionOf(toks[0].c, toks[1].w);
      FilesJoin([first], r.value);
      assert Files([first]) == {toks[1].w};
      ConsumedMore(toks, toks[2..], r.rest, {} + {toks[1].w}, Files(r.value));
      assert {} + {toks[1].w} + Files(r.value) == Files([first]) + Files(r.value);
    }
  }

  lemma {:induction false} ArgsConsume(argv: seq<Word>, rs: seq<Redirection>, toks: seq<Token>) returns (ws: set<Word>)
    requires Args(argv, rs, toks).Ok?
    ensures var r := Args(argv, rs, toks);
            Consumed(toks, r.rest, ws) && Elements(r.value.0) + Files(r.value.1) == Elements(argv) + Files(rs) + ws
    decreases |toks|
  {
    hide Consumed, Files, Elements;
    ConsumedNone(toks);
    if toks == [] || Starts(toks, "|)&;") {
      ws := {};
    } else {
      var w0, m := toks[0].w, Redirs(toks[1..]);
      ConsumedOne(toks);
      RedirsConsume(toks[1..]);
      ConsumedMore(toks, toks[1..], m.rest, {w0}, Files(m.value));
      var more := ArgsConsume(argv + [w0], rs + m.value, m.rest);
      ws := {w0} + Files(m.value) + more;
      ConsumedMore(toks, m.rest, Args(argv, rs, toks).rest, {w0} + Files(m.value), more);
      FilesJoin(rs, m.value);
      ElementsMore(argv, w0);
    }
  }

  lemma ElementsMore(argv: seq<Word>, w: Word)
    ensures Elements(argv + [w]) == Elements(argv) + {w}
  {
  }

  lemma {:induction false} SimpleConsumes(toks: seq<Token>)
    requires Simple(toks).Ok?
    ensures Consumed(toks, Simple(toks).rest, WordsOf(Simple(toks).value))
    decreases |toks|, 0
  {
    hide Consumed;
    if Starts(toks, "(") {
      var l := Line(toks[1..]);
      LineConsumes(toks[1..]);
      ConsumedOne(toks);
      ConsumedMore(toks, toks[1..], l.rest, {}, WordsOf(l.value));
      ConsumedOne(l.rest);
      ConsumedMore(toks, l.rest, l.rest[1..], {} + WordsOf(l.value), {});
      var r := Redirs(l.rest[1..]);
      RedirsConsume(l.rest[1..]);
      ConsumedMore(toks, l.rest[1..], r.rest, {} + WordsOf(l.value) + {}, Files(r.value));
      WrapWords(l.value, r.value);
      assert {} + WordsOf(l.value) + {} + Files(r.value) == WordsOf(l.value) + Files(r.value);
    } else {
      var r := Redirs(toks);
      RedirsConsume(toks);
      var ws := ArgsConsume([], r.value, r.rest);
      var x := Args([], r.value, r.rest);
      var none: seq<Word> := [];
      ConsumedMore(toks, r.rest, x.rest, Files(r.value), ws);
      WrapWords(Exec(x.value.0), x.value.1);
      assert Elements(none) + Files(r.value) + ws == Files(r.value) + ws;
    }
  }

  lemma {:induction false} PipelineConsumes(toks: seq<Token>)
    requires Pipeline(toks).Ok?
    ensures Consumed(toks, Pipeline(toks).rest, WordsOf(Pipeline(toks).value))
    decreases |toks|, 1
  {
    hide Consumed;
    SimpleConsumes(toks);
    var c := Simple(toks);
    if Starts(c.rest, "|") {
      ConsumedOne(c.rest);
      ConsumedMore(toks, c.rest, c.rest[1..], WordsOf(c.value), {});
      PipelineConsumes(c.rest[1..]);
      var d := Pipeline(c.rest[1..]);
      ConsumedMore(toks, c.rest[1..], d.rest, WordsOf(c.value) + {}, WordsOf(d.value));
      assert WordsOf(c.value) + {} + WordsOf(d.value) == WordsOf(Pipe(c.value, d.value));
    }
  }

  lemma {:induction false} BacksConsume(c: Cmd, toks: seq<Token>)
    ensures Consumed(toks, Backs(c, toks).1, {}) && WordsOf(Backs(c, toks).0) == WordsOf(c)
    decreases |toks|
  {
    hide Consumed;
    ConsumedNone(toks);
    if Starts(toks, "&") {
      ConsumedOne(toks);
      BacksConsume(Back(c), toks[1..]);
      ConsumedMore(toks, toks[1..], Backs(c, toks).1, {}, {});
      var none: set<Word> := {};
      assert none + none == none;
    }
  }

  /** The arguments and file names of the tree are exactly the words of the line. */
  lemma {:induction false} LineConsumes(toks: seq<Token>)
    requires Line(toks).Ok?
    ensures Consumed(toks, Line(toks).rest, WordsOf(Line(toks).value))
    decreases |toks|, 2
  {
    hide Consumed;
    PipelineConsumes(toks);
    var p := Pipeline(toks);
    BacksConsume(p.value, p.rest);
    var b := Backs(p.value, p.rest);
    ConsumedMore(toks, p.rest, b.1, WordsOf(p.value), {});
    assert WordsOf(p.value) + {} == WordsOf(b.0);
    if Starts(b.1, ";") {
      ConsumedOne(b.1);
      ConsumedMore(toks, b.1, b.1[1..], WordsOf(b.0), {});
      LineConsumes(b.1[1..]);
      var d := Line(b.1[1..]);
      ConsumedMore(toks, b.1[1..], d.rest, WordsOf(b.0) + {}, WordsOf(d.value));
      assert WordsOf(b.0) + {} + WordsOf(d.value) == WordsOf(List(b.0, d.value));
    }
  }
}
