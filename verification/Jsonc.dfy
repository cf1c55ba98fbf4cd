/** Stripping comments and trailing commas from JSONC text without touching its tokens. */
module Jsonc {
  import opened Options
  import opened Text

  // ---------- The two scanners ----------

  /** Length of a string literal after its opening quote, closing quote included; None when it never closes. */
  function StringRest(s: string): (n: Option<nat>)
    ensures n.Some? ==> 0 < n.value <= |s|
  {
    if s == "" then None
    else if s[0] == '"' then Some(1)
    else if s[0] == '\\' then
      if |s| == 1 then None
      else (match StringRest(s[2..]) case Some(n) => Some(n + 2) case None => None)
    else (match StringRest(s[1..]) case Some(n) => Some(n + 1) case None => None)
  }

  // Length of a block comment after its opening, its closing mark included; None when it never closes.
  function BlockRest(s: string): (n: Option<nat>)
    ensures n.Some? ==> 2 <= n.value <= |s|
  {
    if |s| < 2 then None
    else if s[0] == '*' && s[1] == '/' then Some(2)
    else (match BlockRest(s[1..]) case Some(n) => Some(n + 1) case None => None)
  }

  /** Length of a line comment after its opening, newline excluded. */
  function LineRest(s: string): (n: nat)
    ensures n <= |s|
  {
    if s == "" || s[0] == '\n' then 0 else 1 + LineRest(s[1..])
  }

  function SpaceRun(s: string): (n: nat)
    ensures n <= |s|
  {
    if s == "" || !IsSpace(s[0]) then 0 else 1 + SpaceRun(s[1..])
  }

  predicate StartsString(s: string) {
    s != "" && s[0] == '"' && StringRest(s[1..]).Some?
  }

  predicate StartsBlock(s: string) {
    |s| >= 2 && s[0] == '/' && s[1] == '*' && BlockRest(s[2..]).Some?
  }

  predicate StartsLine(s: string) {
    |s| >= 2 && s[0] == '/' && s[1] == '/'
  }

  predicate IsClose(c: char) {
    c == '}' || c == ']'
  }

  /** A comma, white space, and a closing bracket or brace. */
  predicate StartsTrailingComma(s: string) {
    s != "" && s[0] == ',' && SpaceRun(s[1..]) + 1 < |s| && IsClose(s[SpaceRun(s[1..]) + 1])
  }

  /** First pass: strings are copied, comments dropped. */
  function StripComments(s: string): string
    decreases |s|
  {
    if s == "" then ""
    else if StartsString(s) then
      var n := 1 + StringRest(s[1..]).value;
      s[..n] + StripComments(s[n..])
    else if StartsBlock(s) then StripComments(s[2 + BlockRest(s[2..]).value..])
    else if StartsLine(s) then StripComments(s[2 + LineRest(s[2..])..])
    else [s[0]] + StripComments(s[1..])
  }

  /** Second pass: strings are copied, a trailing comma and the white space after it dropped. */
  function StripTrailingCommas(s: string): string
    decreases |s|
  {
    if s == "" then ""
    else if StartsString(s) then
      var n := 1 + StringRest(s[1..]).value;
      s[..n] + StripTrailingCommas(s[n..])
    else if StartsTrailingComma(s) then
      var n := SpaceRun(s[1..]) + 1;
      [s[n]] + StripTrailingCommas(s[n + 1..])
    else [s[0]] + StripTrailingCommas(s[1..])
  }

  function StripJsonc(s: string): string {
    StripTrailingCommas(StripComments(s))
  }

  // ---------- Tokens and documents ----------

  /** JSON tokens; `Stray` is a character no JSON token starts with. */
  datatype Token = Punct(c: char) | Word(text: string) | Quoted(text: string) | Stray(c: char)

  /** A rendered document: tokens with white space and comments between them. */
  datatype Piece = Tok(token: Token) | White(c: char) | Block(body: string) | Line(body: string)

  predicate IsPunct(c: char) {
    c in "{}[]:,"
  }

  /** Characters of JSON numbers and literal names. */
  predicate IsWordChar(c: char) {
    'a' <= c <= 'z' || 'A' <= c <= 'Z' || '0' <= c <= '9' || c == '+' || c == '-' || c == '.'
  }

  /** JSON white space (RFC 8259, section 2). */
  predicate IsJsonSpace(c: char) {
    c == ' ' || c == '\t' || c == '\n' || c == '\r'
  }

  ghost predicate ValidToken(t: Token) {
    match t
    case Punct(c) => IsPunct(c)
    case Word(w) => w != "" && forall i :: 0 <= i < |w| ==> IsWordChar(w[i])
    case Quoted(q) => q != "" && q[0] == '"' && StringRest(q[1..]) == Some(|q| - 1)
    case Stray(_) => false
  }

  ghost predicate ValidPiece(p: Piece) {
    match p
    case Tok(t) => ValidToken(t)
    case White(c) => IsJsonSpace(c)
    case Block(body) => forall i :: 0 <= i < |body| - 1 ==> !(body[i] == '*' && body[i + 1] == '/')
    case Line(body) => '\n' !in body
  }

  /** Pieces are valid, and a line comment runs to a newline or to the end. */
  ghost predicate ValidDoc(doc: seq<Piece>) {
    && (forall i :: 0 <= i < |doc| ==> ValidPiece(doc[i]))
    && (forall i :: 0 <= i < |doc| - 1 && doc[i].Line? ==> doc[i + 1] == White('\n'))
  }

  function TokenText(t: Token): string {
    match t
    case Punct(c) => [c]
    case Word(w) => w
    case Quoted(q) => q
    case Stray(c) => [c]
  }

  function PieceText(p: Piece): string {
    match p
    case Tok(t) => TokenText(t)
    case White(c) => [c]
    case Block(body) => "/*" + body + "*/"
    case Line(body) => "//" + body
  }

  function Render(doc: seq<Piece>): string {
    if doc == [] then "" else PieceText(doc[0]) + Render(doc[1..])
  }

  function Tokens(doc: seq<Piece>): seq<Token> {
    if doc == [] then [] else (if doc[0].Tok? then [doc[0].token] else []) + Tokens(doc[1..])
  }

  /** The tokens without the commas that stand directly before a closing bracket or brace. */
  function DropTrailingCommas(ts: seq<Token>): seq<Token> {
    if ts == [] then []
    else if ts[0] == Punct(',') && |ts| > 1 && ts[1].Punct? && IsClose(ts[1].c) then DropTrailingCommas(ts[1..])
    else [ts[0]] + DropTrailingCommas(ts[1..])
  }

  predicate IsComment(p: Piece) {
    p.Block? || p.Line?
  }

  function WithoutComments(doc: seq<Piece>): seq<Piece> {
    if doc == [] then [] else (if IsComment(doc[0]) then [] else [doc[0]]) + WithoutComments(doc[1..])
  }

  // ---------- First pass ----------

  lemma {:induction false} StringRestExtends(s: string, rest: string)
    requires StringRest(s) == Some(|s|)
    ensures StringRest(s + rest) == Some(|s|)
  {
    if s[0] != '"' {
      var n := if s[0] == '\\' then 2 else 1;
      assert (s + rest)[n..] == s[n..] + rest;
      StringRestExtends(s[n..], rest);
    }
  }

  lemma {:induction false} BlockRestFinds(body: string, rest: string)
    requires ValidPiece(Block(body))
    ensures BlockRest(body + "*/" + rest) == Some(|body| + 2)
  {
    var s := body + "*/" + rest;
    if body != "" {
      assert s[1..] == body[1..] + "*/" + rest;
      assert !(s[0] == '*' && s[1] == '/');
      BlockRestFinds(body[1..], rest);
    }
  }

  lemma {:induction false} LineRestFinds(body: string, rest: string)
    requires '\n' !in body && (rest == "" || rest[0] == '\n')
    ensures LineRest(body + rest) == |body|
  {
    if body == "" {
      assert body + rest == rest;
    } else {
      assert (body + rest)[1..] == body[1..] + rest;
      LineRestFinds(body[1..], rest);
    }
  }

  /** Characters the first pass copies one by one. */
  lemma {:induction false} CopiedByFirstPass(plain: string, rest: string)
    requires '"' !in plain && '/' !in plain
    ensures StripComments(plain + rest) == plain + StripComments(rest)
  {
    if plain == "" {
      assert plain + rest == rest;
    } else {
      assert (plain + rest)[1..] == plain[1..] + rest;
      CopiedByFirstPass(plain[1..], rest);
    }
  }

  lemma FirstPassString(q: string, rest: string)
    requires ValidToken(Quoted(q))
    ensures StripComments(q + rest) == q + StripComments(rest)
  {
    var s := q + rest;
    assert s[1..] == q[1..] + rest;
    StringRestExtends(q[1..], rest);
    assert s[..|q|] == q && s[|q|..] == rest;
  }

  lemma FirstPassBlock(body: string, rest: string)
    requires ValidPiece(Block(body))
    ensures StripComments("/*" + body + "*/" + rest) == StripComments(rest)
  {
    var s := "/*" + body + "*/" + rest;
    assert s[2..] == body + "*/" + rest;
    BlockRestFinds(body, rest);
    assert s[2 + |body| + 2..] == rest;
  }

  lemma FirstPassLine(body: string, rest: string)
    requires '\n' !in body && (rest == "" || rest[0] == '\n')
    ensures StripComments("//" + body + rest) == StripComments(rest)
  {
    var s := "//" + body + rest;
    assert s[2..] == body + rest;
    LineRestFinds(body, rest);
    assert s[2 + |body|..] == rest;
  }

  /** The first pass leaves the document without its comments. */
  lemma {:induction false} FirstPassDropsComments(doc: seq<Piece>)
    requires ValidDoc(doc)
    ensures StripComments(Render(doc)) == Render(WithoutComments(doc))
  {
    if doc != [] {
      var p, rest := doc[0], Render(doc[1..]);
      assert ValidPiece(p);
      FirstPassDropsComments(doc[1..]);
      assert IsComment(p) ==> WithoutComments(doc) == WithoutComments(doc[1..]);
      match p
      case Tok(Quoted(q)) => FirstPassString(q, rest);
      case Tok(t) => CopiedByFirstPass(TokenText(t), rest);
      case White(c) => CopiedByFirstPass([c], rest);
      case Block(body) => FirstPassBlock(body, rest);
      case Line(body) =>
        assert if |doc| > 1 then doc[0 + 1] == White('\n') && doc[1..][0] == doc[0 + 1] else doc[1..] == [];
        FirstPassLine(body, rest);
    }
  }

  lemma {:induction false} WithoutCommentsKeeps(doc: seq<Piece>)
    requires ValidDoc(doc)
    ensures Plain(WithoutComments(doc))
    ensures Tokens(WithoutComments(doc)) == Tokens(doc)
  {
    if doc != [] {
      assert ValidPiece(doc[0]);
      WithoutCommentsKeeps(doc[1..]);
      if !IsComment(doc[0]) {
        TokensPrepend(doc[0], WithoutComments(doc[1..]));
        assert WithoutComments(doc) == [doc[0]] + WithoutComments(doc[1..]);
      } else {
        assert WithoutComments(doc) == WithoutComments(doc[1..]);
        assert Tokens(doc) == Tokens(doc[1..]);
      }
    }
  }

  lemma TokensPrepend(p: Piece, doc: seq<Piece>)
    ensures Tokens([p] + doc) == (if p.Tok? then [p.token] else []) + Tokens(doc)
  {
    assert ([p] + doc)[1..] == doc;
  }

  // ---------- Second pass ----------

  /** A valid document without comments. */
  ghost predicate Plain(doc: seq<Piece>) {
    forall i :: 0 <= i < |doc| ==> ValidPiece(doc[i]) && !IsComment(doc[i])
  }

  function SkipWhite(doc: seq<Piece>): (rest: seq<Piece>)
    ensures |rest| <= |doc|
    ensures rest != [] ==> !rest[0].White?
  {
    if doc == [] || !doc[0].White? then doc else SkipWhite(doc[1..])
  }

  predicate CloseAhead(doc: seq<Piece>) {
    var rest := SkipWhite(doc);
    rest != [] && rest[0].Tok? && rest[0].token.Punct? && IsClose(rest[0].token.c)
  }

  function WithoutTrailingCommas(doc: seq<Piece>): seq<Piece>
    decreases |doc|
  {
    if doc == [] then []
    else if doc[0] == Tok(Punct(',')) && CloseAhead(doc[1..]) then WithoutTrailingCommas(SkipWhite(doc[1..]))
    else [doc[0]] + WithoutTrailingCommas(doc[1..])
  }

  lemma {:induction false} CopiedBySecondPass(plain: string, rest: string)
    requires '"' !in plain && ',' !in plain
    ensures StripTrailingCommas(plain + rest) == plain + StripTrailingCommas(rest)
  {
    if plain == "" {
      assert plain + rest == rest;
    } else {
      assert (plain + rest)[1..] == plain[1..] + rest;
      CopiedBySecondPass(plain[1..], rest);
    }
  }

  lemma SecondPassString(q: string, rest: string)
    requires ValidToken(Quoted(q))
    ensures StripTrailingCommas(q + rest) == q + StripTrailingCommas(rest)
  {
    var s := q + rest;
    assert s[1..] == q[1..] + rest;
    StringRestExtends(q[1..], rest);
    assert s[..|q|] == q && s[|q|..] == rest;
  }

  lemma FirstCharacter(p: Piece)
    requires ValidPiece(p) && !IsComment(p)
    ensures PieceText(p) != ""
    ensures p.White? <==> IsSpace(PieceText(p)[0])
    ensures IsClose(PieceText(p)[0]) <==> p.Tok? && p.token.Punct? && IsClose(p.token.c)
  {
  }

  /** The white-space run the scanner sees is the run of white pieces. */
  lemma {:induction false} SpaceRunIsSkipWhite(doc: seq<Piece>)
    requires Plain(doc)
    ensures var s := Render(doc);
            && s[SpaceRun(s)..] == Render(SkipWhite(doc))
            && (SpaceRun(s) < |s| && IsClose(s[SpaceRun(s)]) <==> CloseAhead(doc))
    ensures Plain(SkipWhite(doc))
  {
    if doc != [] {
      FirstCharacter(doc[0]);
      if doc[0].White? {
        assert Render(doc)[1..] == Render(doc[1..]);
        SpaceRunIsSkipWhite(doc[1..]);
      }
    }
  }

  lemma SecondPassCommaText(text: string)
    requires SpaceRun(text) < |text| && IsClose(text[SpaceRun(text)])
    ensures var n := SpaceRun(text);
            StripTrailingCommas([','] + text) == [text[n]] + StripTrailingCommas(text[n + 1..])
  {
    TrailingCommaStep([','] + text, text);
  }

  lemma TrailingCommaStep(s: string, text: string)
    requires s != "" && s[0] == ',' && s[1..] == text
    requires SpaceRun(text) < |text| && IsClose(text[SpaceRun(text)])
    ensures var n := SpaceRun(text);
            StripTrailingCommas(s) == [text[n]] + StripTrailingCommas(text[n + 1..])
  {
    AfterFirst(s, SpaceRun(text) + 1);
    DropsTrailingComma(s);
  }

  lemma DropsTrailingComma(s: string)
    requires StartsTrailingComma(s)
    ensures var n := SpaceRun(s[1..]) + 1;
            n < |s| && StripTrailingCommas(s) == [s[n]] + StripTrailingCommas(s[n + 1..])
  {
    assert !StartsString(s);
  }

  lemma AfterFirst(s: string, m: nat)
    requires 0 < m < |s|
    ensures s[m] == s[1..][m - 1] && s[m + 1..] == s[1..][m..]
  {
  }

  /** A comma whose next mark is a closing one is dropped, with the white space up to it. */
  lemma SecondPassComma(doc: seq<Piece>)
    requires Plain(doc) && CloseAhead(doc)
    ensures var rest := SkipWhite(doc);
            StripTrailingCommas("," + Render(doc)) == [rest[0].token.c] + StripTrailingCommas(Render(rest[1..]))
  {
    var text, rest := Render(doc), SkipWhite(doc);
    SpaceRunIsSkipWhite(doc);
    SecondPassCommaText(text);
    assert Render(rest) == [rest[0].token.c] + Render(rest[1..]);
    assert text[SpaceRun(text) + 1..] == text[SpaceRun(text)..][1..] == Render(rest[1..]);
  }

  /** Any other comma stays. */
  lemma SecondPassKeepsComma(doc: seq<Piece>)
    requires Plain(doc) && !CloseAhead(doc)
    ensures StripTrailingCommas("," + Render(doc)) == "," + StripTrailingCommas(Render(doc))
  {
    assert ("," + Render(doc))[1..] == Render(doc);
    SpaceRunIsSkipWhite(doc);
  }

  /** The second pass leaves the document without its trailing commas. */
  lemma {:induction false} SecondPassDropsCommas(doc: seq<Piece>)
    requires Plain(doc)
    ensures StripTrailingCommas(Render(doc)) == Render(WithoutTrailingCommas(doc))
    decreases |doc|
  {
    if doc != [] {
      var p, rest := doc[0], Render(doc[1..]);
      assert ValidPiece(p) && !IsComment(p);
      SecondPassDropsCommas(doc[1..]);
      if p == Tok(Punct(',')) {
        if !CloseAhead(doc[1..]) {
          SecondPassKeepsComma(doc[1..]);
        } else {
          SecondPassComma(doc[1..]);
          SpaceRunIsSkipWhite(doc[1..]);
          var ahead := SkipWhite(doc[1..]);
          SecondPassDropsCommas(ahead[1..]);
          ClosingStays(ahead);
        }
      } else if p.Tok? && p.token.Quoted? {
        SecondPassString(p.token.text, rest);
      } else {
        CopiedBySecondPass(PieceText(p), rest);
      }
    }
  }

  lemma ClosingStays(doc: seq<Piece>)
    requires doc != [] && doc[0].Tok? && doc[0].token.Punct? && IsClose(doc[0].token.c)
    ensures WithoutTrailingCommas(doc) == [doc[0]] + WithoutTrailingCommas(doc[1..])
    ensures Render(WithoutTrailingCommas(doc)) == [doc[0].token.c] + Render(WithoutTrailingCommas(doc[1..]))
  {
    var rest := WithoutTrailingCommas(doc[1..]);
    assert ([doc[0]] + rest)[1..] == rest;
  }

  // ---------- Tokens survive ----------

  lemma {:induction false} TokensSkipWhite(doc: seq<Piece>)
    ensures Tokens(SkipWhite(doc)) == Tokens(doc)
  {
    if doc != [] && doc[0].White? {
      TokensSkipWhite(doc[1..]);
    }
  }

  /** A closing mark is ahead exactly when the next token is one. */
  lemma NextToken(doc: seq<Piece>)
    requires Plain(doc)
    ensures CloseAhead(doc) <==> Tokens(doc) != [] && Tokens(doc)[0].Punct? && IsClose(Tokens(doc)[0].c)
  {
    SpaceRunIsSkipWhite(doc);
    TokensSkipWhite(doc);
    var ahead := SkipWhite(doc);
    assert ahead != [] ==> ValidPiece(ahead[0]) && ahead[0].Tok?;
  }

  lemma DropStep(t: Token, ts: seq<Token>)
    ensures DropTrailingCommas([t] + ts)
            == if t == Punct(',') && ts != [] && ts[0].Punct? && IsClose(ts[0].c) then DropTrailingCommas(ts)
               else [t] + DropTrailingCommas(ts)
  {
    assert ([t] + ts)[1..] == ts;
  }

  lemma {:induction false} WithoutTrailingCommasKeeps(doc: seq<Piece>)
    requires Plain(doc)
    ensures Plain(WithoutTrailingCommas(doc))
    ensures Tokens(WithoutTrailingCommas(doc)) == DropTrailingCommas(Tokens(doc))
    decreases |doc|
  {
    if doc != [] {
      NextToken(doc[1..]);
      if doc[0].Tok? {
        DropStep(doc[0].token, Tokens(doc[1..]));
      } else {
        assert Tokens(doc) == Tokens(doc[1..]);
      }
      if doc[0] == Tok(Punct(',')) && CloseAhead(doc[1..]) {
        SpaceRunIsSkipWhite(doc[1..]);
        TokensSkipWhite(doc[1..]);
        WithoutTrailingCommasKeeps(SkipWhite(doc[1..]));
      } else {
        WithoutTrailingCommasKeeps(doc[1..]);
        TokensPrepend(doc[0], WithoutTrailingCommas(doc[1..]));
      }
    }
  }

  // ---------- Reading the tokens back ----------

  function WordRun(s: string): (n: nat)
    ensures n <= |s|
    ensures forall i :: 0 <= i < n ==> IsWordChar(s[i])
  {
    if s == "" || !IsWordChar(s[0]) then 0 else 1 + WordRun(s[1..])
  }

  /** A JSON lexer: longest words, complete strings, punctuation; white space separates. */
  function Lex(s: string): seq<Token>
    decreases |s|
  {
    if s == "" then []
    else if IsJsonSpace(s[0]) then Lex(s[1..])
    else if IsPunct(s[0]) then [Punct(s[0])] + Lex(s[1..])
    else if StartsString(s) then
      var n := 1 + StringRest(s[1..]).value;
      [Quoted(s[..n])] + Lex(s[n..])
    else if IsWordChar(s[0]) then
      var n := WordRun(s);
      [Word(s[..n])] + Lex(s[n..])
    else [Stray(s[0])] + Lex(s[1..])
  }

  predicate IsWord(p: Piece) {
    p.Tok? && p.token.Word?
  }

  /** No two words touch. */
  ghost predicate WordsApart(doc: seq<Piece>) {
    forall i :: 0 <= i < |doc| - 1 && IsWord(doc[i]) ==> !IsWord(doc[i + 1])
  }

  lemma {:induction false} WordRunStops(w: string, rest: string)
    requires forall i :: 0 <= i < |w| ==> IsWordChar(w[i])
    requires rest == "" || !IsWordChar(rest[0])
    ensures WordRun(w + rest) == |w|
  {
    if w == "" {
      assert w + rest == rest;
    } else {
      assert (w + rest)[1..] == w[1..] + rest;
      WordRunStops(w[1..], rest);
    }
  }

  /** The text after a word does not continue it. */
  lemma WordEnds(doc: seq<Piece>)
    requires Plain(doc) && (doc != [] ==> !IsWord(doc[0]))
    ensures Render(doc) == "" || !IsWordChar(Render(doc)[0])
  {
    if doc != [] {
      assert ValidPiece(doc[0]);
      FirstCharacter(doc[0]);
    }
  }

  lemma LexPiece(p: Piece, rest: string)
    requires ValidPiece(p) && !IsComment(p)
    requires IsWord(p) ==> rest == "" || !IsWordChar(rest[0])
    ensures Lex(PieceText(p) + rest) == (if p.Tok? then [p.token] else []) + Lex(rest)
  {
    var s := PieceText(p) + rest;
    match p
    case White(c) => assert s[1..] == rest;
    case Tok(Punct(c)) => assert s[1..] == rest;
    case Tok(Quoted(q)) => LexQuoted(q, rest);
    case Tok(Word(w)) => LexWord(w, rest);
  }

  lemma LexQuoted(q: string, rest: string)
    requires ValidToken(Quoted(q))
    ensures Lex(q + rest) == [Quoted(q)] + Lex(rest)
  {
    var s := q + rest;
    assert s[1..] == q[1..] + rest;
    StringRestExtends(q[1..], rest);
    assert s[..|q|] == q && s[|q|..] == rest;
  }

  lemma LexWord(w: string, rest: string)
    requires ValidToken(Word(w)) && (rest == "" || !IsWordChar(rest[0]))
    ensures Lex(w + rest) == [Word(w)] + Lex(rest)
  {
    var s := w + rest;
    WordRunStops(w, rest);
    assert s[..|w|] == w && s[|w|..] == rest;
  }

  lemma {:induction false} LexRender(doc: seq<Piece>)
    requires Plain(doc) && WordsApart(doc)
    ensures Lex(Render(doc)) == Tokens(doc)
  {
    if doc != [] {
      assert ValidPiece(doc[0]);
      assert WordsApart(doc[1..]);
      LexRender(doc[1..]);
      if IsWord(doc[0]) {
        assert |doc| > 1 ==> !IsWord(doc[0 + 1]) && doc[1..][0] == doc[1];
        WordEnds(doc[1..]);
      }
      LexPiece(doc[0], Render(doc[1..]));
    }
  }

  lemma WordsApartStep(p: Piece, doc: seq<Piece>)
    ensures WordsApart([p] + doc) <==> WordsApart(doc) && !(IsWord(p) && doc != [] && IsWord(doc[0]))
  {
    var all := [p] + doc;
    assert all[1..] == doc;
    if WordsApart(all) {
      forall i | 0 <= i < |doc| - 1 && IsWord(doc[i]) ensures !IsWord(doc[i + 1]) {
        assert IsWord(all[i + 1]) && all[i + 1 + 1] == doc[i + 1];
      }
      assert all[0] == p;
      assert IsWord(p) && doc != [] ==> !IsWord(all[0 + 1]);
    }
  }

  lemma {:induction false} SkipWhiteKeepsWordsApart(doc: seq<Piece>)
    ensures WordsApart(SkipWhite(doc)) <==> WordsApart(doc)
  {
    if doc != [] && doc[0].White? {
      SkipWhiteKeepsWordsApart(doc[1..]);
      WordsApartStep(doc[0], doc[1..]);
      assert doc == [doc[0]] + doc[1..];
    }
  }

  /** Dropping a trailing comma neither joins nor separates two words. */
  lemma {:induction false} WordsStayApart(doc: seq<Piece>)
    ensures WordsApart(WithoutTrailingCommas(doc)) <==> WordsApart(doc)
    ensures var out := WithoutTrailingCommas(doc); out != [] && IsWord(out[0]) <==> doc != [] && IsWord(doc[0])
    decreases |doc|
  {
    if doc != [] {
      assert doc == [doc[0]] + doc[1..];
      WordsApartStep(doc[0], doc[1..]);
      if doc[0] == Tok(Punct(',')) && CloseAhead(doc[1..]) {
        SkipWhiteKeepsWordsApart(doc[1..]);
        WordsStayApart(SkipWhite(doc[1..]));
      } else {
        WordsStayApart(doc[1..]);
        WordsApartStep(doc[0], WithoutTrailingCommas(doc[1..]));
      }
    }
  }

  /** A document starting with two touching words, with the two made one. */
  function Joined(p: Piece, rest: seq<Piece>): seq<Piece>
    requires IsWord(p) && rest != [] && IsWord(rest[0])
  {
    [Tok(Word(p.token.text + rest[0].token.text))] + rest[1..]
  }

  lemma JoinedReadsTheSame(p: Piece, rest: seq<Piece>)
    requires IsWord(p) && rest != [] && IsWord(rest[0])
    requires Plain([p] + rest)
    ensures Plain(Joined(p, rest)) && Render(Joined(p, rest)) == Render([p] + rest)
    ensures |Tokens([p] + rest)| == |Tokens(Joined(p, rest))| + 1
  {
    var v, w := p.token.text, rest[0].token.text;
    assert ([p] + rest)[0] == p && ([p] + rest)[1] == rest[0];
    assert ValidPiece(p) && ValidPiece(rest[0]);
    assert ValidPiece(Tok(Word(v + w)));
    forall i | 0 < i < |Joined(p, rest)| ensures ValidPiece(Joined(p, rest)[i]) && !IsComment(Joined(p, rest)[i]) {
      assert Joined(p, rest)[i] == ([p] + rest)[i + 1];
    }
    assert ([p] + rest)[1..] == rest && Joined(p, rest)[1..] == rest[1..];
    ConcatAssociates(v, w, Render(rest[1..]));
  }

  /** Two words that touch are read as one. */
  lemma {:induction false} TouchingWordsMerge(doc: seq<Piece>)
    requires Plain(doc)
    ensures |Lex(Render(doc))| <= |Tokens(doc)|
    ensures !WordsApart(doc) ==> |Lex(Render(doc))| < |Tokens(doc)|
    decreases |doc|
  {
    if doc != [] {
      var p, rest := doc[0], doc[1..];
      assert doc == [p] + rest;
      assert ValidPiece(p) && Plain(rest);
      WordsApartStep(p, rest);
      if IsWord(p) && rest != [] && IsWord(rest[0]) {
        JoinedReadsTheSame(p, rest);
        TouchingWordsMerge(Joined(p, rest));
      } else {
        if IsWord(p) {
          WordEnds(rest);
        }
        TouchingWordsMerge(rest);
        LexPiece(p, Render(rest));
        TokensPrepend(p, rest);
      }
    }
  }

  // ---------- Main results ----------

  /** Exactly what comes out: the document without comments and trailing commas. */
  lemma StripJsoncRenders(doc: seq<Piece>)
    requires ValidDoc(doc)
    ensures StripJsonc(Render(doc)) == Render(WithoutTrailingCommas(WithoutComments(doc)))
  {
    FirstPassDropsComments(doc);
    WithoutCommentsKeeps(doc);
    SecondPassDropsCommas(WithoutComments(doc));
  }

  /**
    * The output reads as the same tokens, strings verbatim, minus exactly the trailing commas,
    * unless a comment is all that keeps two words apart.
    */
  lemma StripJsoncKeepsTokens(doc: seq<Piece>)
    requires ValidDoc(doc)
    ensures Lex(StripJsonc(Render(doc))) == DropTrailingCommas(Tokens(doc)) <==> WordsApart(WithoutComments(doc))
  {
    var plain := WithoutComments(doc);
    StripJsoncRenders(doc);
    WithoutCommentsKeeps(doc);
    WithoutTrailingCommasKeeps(plain);
    WordsStayApart(plain);
    if WordsApart(plain) {
      LexRender(WithoutTrailingCommas(plain));
    } else {
      TouchingWordsMerge(WithoutTrailingCommas(plain));
    }
  }

  lemma {:induction false} NothingToDrop(doc: seq<Piece>)
    requires Plain(doc) && DropTrailingCommas(Tokens(doc)) == Tokens(doc)
    ensures WithoutTrailingCommas(doc) == doc
  {
    if doc != [] {
      var tail := Tokens(doc[1..]);
      NextToken(doc[1..]);
      DropNeverGrows(tail);
      if doc[0].Tok? {
        assert Tokens(doc) == [doc[0].token] + tail;
        DropStep(doc[0].token, tail);
        assert DropTrailingCommas(Tokens(doc)) == [doc[0].token] + DropTrailingCommas(tail);
        assert DropTrailingCommas(Tokens(doc))[1..] == DropTrailingCommas(tail);
      } else {
        assert Tokens(doc) == tail;
      }
      NothingToDrop(doc[1..]);
    }
  }

  lemma {:induction false} DropNeverGrows(ts: seq<Token>)
    ensures |DropTrailingCommas(ts)| <= |ts|
  {
    if ts != [] {
      DropNeverGrows(ts[1..]);
    }
  }

  /** Text without comments and trailing commas comes out unchanged. */
  lemma StripJsoncIdentity(doc: seq<Piece>)
    requires Plain(doc) && DropTrailingCommas(Tokens(doc)) == Tokens(doc)
    ensures StripJsonc(Render(doc)) == Render(doc)
  {
    assert ValidDoc(doc);
    NoCommentsToDrop(doc);
    StripJsoncRenders(doc);
    NothingToDrop(doc);
  }

  lemma {:induction false} NoCommentsToDrop(doc: seq<Piece>)
    requires forall i :: 0 <= i < |doc| ==> !IsComment(doc[i])
    ensures WithoutComments(doc) == doc
  {
    if doc != [] {
      NoCommentsToDrop(doc[1..]);
    }
  }

  // ---------- String literals ----------

  /** One character other than quote and backslash, or a backslash with any one character. */
  predicate LiteralItem(s: string) {
    (|s| == 1 && s[0] != '"' && s[0] != '\\') || (|s| == 2 && s[0] == '\\')
  }

  predicate LiteralItems(items: seq<string>) {
    forall i :: 0 <= i < |items| ==> LiteralItem(items[i])
  }

  function Concat(items: seq<string>): string {
    if items == [] then "" else items[0] + Concat(items[1..])
  }

  /** A quote, items, and a quote. */
  ghost predicate IsLiteral(q: string) {
    exists items: seq<string> :: LiteralItems(items) && q == "\"" + Concat(items) + "\""
  }

  lemma {:induction false} ItemsAreRead(items: seq<string>, rest: string)
    requires LiteralItems(items)
    ensures StringRest(Concat(items) + "\"" + rest) == Some(|Concat(items)| + 1)
  {
    var s := Concat(items) + "\"" + rest;
    if items != [] {
      var n := |items[0]|;
      assert LiteralItem(items[0]);
      ItemsAreRead(items[1..], rest);
      assert s == items[0] + (Concat(items[1..]) + "\"" + rest);
      assert s[n..] == Concat(items[1..]) + "\"" + rest;
    }
  }

  lemma {:induction false} ReadItems(s: string) returns (items: seq<string>)
    requires StringRest(s).Some?
    ensures LiteralItems(items) && s[..StringRest(s).value] == Concat(items) + "\""
  {
    if s[0] == '"' {
      items := [];
    } else {
      var n := if s[0] == '\\' then 2 else 1;
      var rest := ReadItems(s[n..]);
      items := [s[..n]] + rest;
      assert items[1..] == rest;
      assert s[..StringRest(s).value] == s[..n] + s[n..][..StringRest(s[n..]).value];
    }
  }

  /** A string token is exactly such a literal, escaped quotes included. */
  lemma QuotedIffLiteral(q: string)
    ensures ValidToken(Quoted(q)) <==> IsLiteral(q)
  {
    if ValidToken(Quoted(q)) {
      var items := ReadItems(q[1..]);
      assert q == "\"" + q[1..];
      assert q == "\"" + Concat(items) + "\"";
    }
    if IsLiteral(q) {
      var items :| LiteralItems(items) && q == "\"" + Concat(items) + "\"";
      ItemsAreRead(items, "");
      assert q[1..] == Concat(items) + "\"" + "";
    }
  }

  /** A text that is one string literal comes out unchanged, whatever the literal holds. */
  lemma LiteralStays(q: string)
    requires IsLiteral(q)
    ensures StripJsonc(q) == q
  {
    QuotedIffLiteral(q);
    assert StartsString(q) && StringRest(q[1..]).value == |q| - 1;
    assert q[..|q|] == q && q[|q|..] == "";
    assert StripComments("") == "" && StripTrailingCommas("") == "" && q + "" == q;
    assert StripComments(q) == q;
    assert StripTrailingCommas(q) == q;
  }

  /** The text begins with a literal. */
  ghost predicate LiteralAhead(s: string) {
    exists n :: 0 <= n <= |s| && IsLiteral(s[..n])
  }

  lemma StartsStringIff(s: string)
    ensures StartsString(s) <==> LiteralAhead(s)
  {
    if StartsString(s) {
      var n := StringRest(s[1..]).value;
      var items := ReadItems(s[1..]);
      assert s[..n + 1] == "\"" + s[1..][..n];
      assert s[..n + 1] == "\"" + Concat(items) + "\"";
    }
    if LiteralAhead(s) {
      var n :| 0 <= n <= |s| && IsLiteral(s[..n]);
      var items :| LiteralItems(items) && s[..n] == "\"" + Concat(items) + "\"";
      ItemsAreRead(items, s[n..]);
      assert s == s[..n] + s[n..];
      assert s[1..] == Concat(items) + "\"" + s[n..];
    }
  }

  /** A quote that opens no literal is copied like any other character, by both passes. */
  lemma UnclosedQuoteStays(s: string)
    requires s != "" && s[0] == '"' && !LiteralAhead(s)
    ensures StripComments(s) == "\"" + StripComments(s[1..])
    ensures StripTrailingCommas(s) == "\"" + StripTrailingCommas(s[1..])
  {
    StartsStringIff(s);
  }

  lemma {:induction false} NoBlockEnd(s: string)
    requires forall i :: 0 <= i < |s| - 1 ==> !(s[i] == '*' && s[i + 1] == '/')
    ensures BlockRest(s).None?
  {
    if |s| >= 2 {
      NoBlockEnd(s[1..]);
    }
  }

  /** So is a comment opening that nothing closes. */
  lemma UnclosedBlockStays(body: string)
    requires ValidPiece(Block(body))
    ensures StripComments("/*" + body) == "/" + StripComments("*" + body)
  {
    var s := "/*" + body;
    NoBlockEnd(body);
    assert s[2..] == body && s[1..] == "*" + body;
  }
}
