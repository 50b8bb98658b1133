/**
 The startup-template tokenizer.

 The specification is a grammar: a template is a sequence of pieces, a piece is a blank, a bare rune, an
 escaped rune or a quoted group, and the words of a template are the maximal runs of non-blank pieces.
 The grammar is unambiguous, so `Tokenize` below is a function of the text alone.
 */
module Tokenizer {
  import opened Text

  /** One rune inside double quotes, written as itself or behind a backslash. */
  datatype Quoted = Plain(c: char) | Escaped(c: char)

  datatype Piece =
    | Blank(c: char)
    | Bare(c: char)
    | Backslash(c: char)
    | Single(text: string)
    | Double(body: seq<Quoted>)

  predicate IsBlank(c: char) {
    c == ' ' || c == '\t' || c == '\n' || c == '\r'
  }

  /** Inside double quotes a backslash escapes only `"` and `\`, and is otherwise itself. */
  predicate BodyOk(q: seq<Quoted>, i: nat, closed: bool)
    requires i < |q|
  {
    match q[i]
    case Escaped(c) => c == '"' || c == '\\'
    case Plain(c) =>
      && c != '"'
      && (c == '\\' ==> if i + 1 < |q| then q[i + 1].Plain? && q[i + 1].c != '"' && q[i + 1].c != '\\' else !closed)
  }

  predicate BodyWf(q: seq<Quoted>, closed: bool) {
    forall i :: 0 <= i < |q| ==> BodyOk(q, i, closed)
  }

  predicate PieceWf(p: Piece) {
    match p
    case Blank(c) => IsBlank(c)
    case Bare(c) => !IsBlank(c) && c != '\'' && c != '"' && c != '\\'
    case Backslash(_) => true
    case Single(text) => '\'' !in text
    case Double(body) => BodyWf(body, true)
  }

  predicate Wf(ps: seq<Piece>) {
    forall i :: 0 <= i < |ps| ==> PieceWf(ps[i])
  }

  function RenderBody(q: seq<Quoted>): string {
    if q == [] then []
    else RenderQuoted(q[0]) + RenderBody(q[1..])
  }

  function BodyText(q: seq<Quoted>): string {
    seq(|q|, i requires 0 <= i < |q| => q[i].c)
  }

  function RenderPiece(p: Piece): (s: string)
    ensures s != []
  {
    match p
    case Blank(c) => [c]
    case Bare(c) => [c]
    case Backslash(c) => ['\\', c]
    case Single(text) => ['\''] + text + ['\'']
    case Double(body) => ['"'] + RenderBody(body) + ['"']
  }

  function Render(ps: seq<Piece>): string {
    if ps == [] then [] else Render(ps[..|ps| - 1]) + RenderPiece(ps[|ps| - 1])
  }

  /** What a non-blank piece contributes to its word. */
  function PieceText(p: Piece): string {
    match p
    case Blank(_) => []
    case Bare(c) => [c]
    case Backslash(c) => [c]
    case Single(text) => text
    case Double(body) => BodyText(body)
  }

  /** The finished words and the word still being read. */
  datatype Words = Words(done: seq<string>, open: Option<string>) {
    function Cur(): string {
      if open.Some? then open.value else []
    }
    function Close(): seq<string> {
      if open.Some? then done + [open.value] else done
    }
  }

  function WordsOf(ps: seq<Piece>): Words {
    if ps == [] then Words([], None)
    else
      var w, p := WordsOf(ps[..|ps| - 1]), ps[|ps| - 1];
      if p.Blank? then Words(w.Close(), None) else Words(w.done, Some(w.Cur() + PieceText(p)))
  }

  ghost predicate Parses(s: string, ps: seq<Piece>) {
    Wf(ps) && Render(ps) == s
  }

  /** The words of a template, or an error when the text is not in the grammar. */
  ghost function Tokenize(s: string): (r: Outcome<seq<string>>) {
    if ps :| Parses(s, ps) then Ok(WordsOf(ps).Close()) else Err("invalid startup template")
  }

  // ----- the grammar is unambiguous -----

  lemma {:induction false} BodyTail(q: seq<Quoted>, closed: bool)
    requires q != [] && BodyWf(q, closed)
    ensures BodyWf(q[1..], closed)
  {
    forall i | 0 <= i < |q[1..]| ensures BodyOk(q[1..], i, closed) {
      assert BodyOk(q, i + 1, closed);
    }
  }

  /** How one rune inside double quotes is written. */
  function RenderQuoted(x: Quoted): string {
    if x.Plain? then [x.c] else ['\\', x.c]
  }

  /** Two texts that start with a body rune start with the same one; `closed` bodies only end at a bare quote. */
  lemma {:induction false} SameFirst(q: seq<Quoted>, closed: bool, t: string, q': seq<Quoted>, t': string)
    requires q != [] && q' != [] && BodyWf(q, closed) && BodyWf(q', true) && (closed || t == [])
    requires RenderBody(q) + t == RenderBody(q') + t'
    ensures q[0] == q'[0] && RenderBody(q[1..]) + t == RenderBody(q'[1..]) + t'
  {
    assert BodyOk(q, 0, closed) && BodyOk(q', 0, true);
    var u, u' := RenderBody(q[1..]) + t, RenderBody(q'[1..]) + t';
    Assoc(RenderQuoted(q[0]), RenderBody(q[1..]), t);
    Assoc(RenderQuoted(q'[0]), RenderBody(q'[1..]), t');
    Second(q, closed, t);
    Second(q', true, t');
    SameQuoted(q[0], u, q'[0], u');
  }

  /** A lone backslash is followed by neither a quote nor a backslash. */
  lemma {:induction false} Second(q: seq<Quoted>, closed: bool, t: string)
    requires q != [] && BodyWf(q, closed) && (closed || t == [])
    ensures q[0] == Plain('\\') ==>
      var u := RenderBody(q[1..]) + t;
      u == [] || (u[0] != '"' && u[0] != '\\')
  {
    assert BodyOk(q, 0, closed);
  }

  lemma {:induction false} SameQuoted(x: Quoted, u: string, x': Quoted, u': string)
    requires RenderQuoted(x) + u == RenderQuoted(x') + u'
    requires x.Escaped? ==> x.c == '"' || x.c == '\\'
    requires x'.Escaped? ==> x'.c == '"' || x'.c == '\\'
    requires x == Plain('\\') ==> u == [] || (u[0] != '"' && u[0] != '\\')
    requires x' == Plain('\\') ==> u' == [] || (u'[0] != '"' && u'[0] != '\\')
    ensures x == x' && u == u'
  {
    var s, s' := RenderQuoted(x) + u, RenderQuoted(x') + u';
    assert s[0] == s'[0];
    assert |s| > 1 ==> s[1] == s'[1];
    Cancel(RenderQuoted(x), u, RenderQuoted(x'), u');
  }

  lemma {:induction false} BodyDeterministic(q: seq<Quoted>, t: string, q': seq<Quoted>, t': string)
    requires BodyWf(q, true) && BodyWf(q', true)
    requires RenderBody(q) + (['"'] + t) == RenderBody(q') + (['"'] + t')
    ensures q == q' && t == t'
  {
    var u, u' := ['"'] + t, ['"'] + t';
    if q == [] || q' == [] {
      EmptyBody(q, u);
      EmptyBody(q', u');
      Cancel(['"'], t, ['"'], t');
    } else {
      SameFirst(q, true, u, q', u');
      BodyTail(q, true);
      BodyTail(q', true);
      BodyDeterministic(q[1..], t, q'[1..], t');
      assert q == [q[0]] + q[1..] && q' == [q'[0]] + q'[1..];
    }
  }

  /** A body is empty exactly when the text goes on with the closing quote. */
  lemma {:induction false} EmptyBody(q: seq<Quoted>, u: string)
    requires BodyWf(q, true) && u != [] && u[0] == '"'
    ensures (RenderBody(q) + u)[0] == '"' <==> q == []
    ensures q == [] ==> RenderBody(q) + u == u
  {
    if q != [] {
      assert BodyOk(q, 0, true);
    }
  }

  /** An unclosed body is never a prefix of a closed one up to its closing quote. */
  lemma {:induction false} OpenBodyIsOpen(q: seq<Quoted>, q': seq<Quoted>, t': string)
    requires BodyWf(q, false) && BodyWf(q', true)
    ensures RenderBody(q) != RenderBody(q') + (['"'] + t')
  {
    var u' := ['"'] + t';
    EmptyBody(q', u');
    if q != [] {
      assert BodyOk(q, 0, false);
      assert RenderBody(q)[0] != '"';
      if q' != [] && RenderBody(q) == RenderBody(q') + u' {
        assert RenderBody(q) + [] == RenderBody(q) && RenderBody(q[1..]) + [] == RenderBody(q[1..]);
        SameFirst(q, false, [], q', u');
        BodyTail(q, false);
        BodyTail(q', true);
        OpenBodyIsOpen(q[1..], q'[1..], t');
      }
    }
  }

  lemma {:induction false} SingleDeterministic(a: string, t: string, a': string, t': string)
    requires '\'' !in a && '\'' !in a'
    requires a + ['\''] + t == a' + ['\''] + t'
    ensures a == a' && t == t'
  {
    var s := a + ['\''] + t;
    assert forall k :: 0 <= k < |a| ==> s[k] == a[k];
    assert forall k :: 0 <= k < |a'| ==> s[k] == a'[k];
    assert s[|a|] == '\'' && s[|a'|] == '\'';
    assert s == a + (['\''] + t) && a' + ['\''] + t' == a' + (['\''] + t');
    Cancel(a, ['\''] + t, a', ['\''] + t');
    Cancel(['\''], t, ['\''], t');
  }

  lemma {:induction false} Cancel(a: string, t: string, a': string, t': string)
    requires |a| == |a'|
    requires a + t == a' + t'
    ensures a == a' && t == t'
  {
    assert (a + t)[..|a|] == a && (a' + t')[..|a|] == a';
    assert (a + t)[|a|..] == t && (a' + t')[|a|..] == t';
  }

  lemma {:induction false} Assoc(a: string, b: string, c: string)
    ensures a + b + c == a + (b + c)
  {
  }

  lemma {:induction false} Regroup(o: char, a: string, t: string)
    ensures [o] + a + [o] + t == [o] + (a + [o] + t)
  {
  }

  /** The first rune tells which kind of piece starts here. */
  lemma {:induction false} SameKind(p: Piece, t: string, p': Piece, t': string)
    requires PieceWf(p) && PieceWf(p')
    requires RenderPiece(p) + t == RenderPiece(p') + t'
    ensures p.Blank? == p'.Blank? && p.Bare? == p'.Bare? && p.Backslash? == p'.Backslash?
    ensures p.Single? == p'.Single? && p.Double? == p'.Double?
  {
    assert RenderPiece(p)[0] == (RenderPiece(p) + t)[0];
    assert RenderPiece(p')[0] == (RenderPiece(p') + t')[0];
  }

  lemma {:induction false} PieceDeterministic(p: Piece, t: string, p': Piece, t': string)
    requires PieceWf(p) && PieceWf(p')
    requires RenderPiece(p) + t == RenderPiece(p') + t'
    ensures p == p' && t == t'
  {
    SameKind(p, t, p', t');
    match p
    case Blank(_) => Cancel(RenderPiece(p), t, RenderPiece(p'), t');
    case Bare(_) => Cancel(RenderPiece(p), t, RenderPiece(p'), t');
    case Backslash(_) => Cancel(RenderPiece(p), t, RenderPiece(p'), t');
    case Single(a) =>
      var u, u' := a + ['\''] + t, p'.text + ['\''] + t';
      Regroup('\'', a, t);
      Regroup('\'', p'.text, t');
      Cancel(['\''], u, ['\''], u');
      SingleDeterministic(a, t, p'.text, t');
    case Double(q) =>
      var u, u' := RenderBody(q) + ['"'] + t, RenderBody(p'.body) + ['"'] + t';
      Regroup('"', RenderBody(q), t);
      Regroup('"', RenderBody(p'.body), t');
      Cancel(['"'], u, ['"'], u');
      Assoc(RenderBody(q), ['"'], t);
      Assoc(RenderBody(p'.body), ['"'], t');
      BodyDeterministic(q, t, p'.body, t');
  }

  lemma {:induction false} RenderFront(ps: seq<Piece>)
    requires ps != []
    ensures Render(ps) == RenderPiece(ps[0]) + Render(ps[1..])
  {
    var front, tail, last := ps[..|ps| - 1], ps[1..], ps[|ps| - 1];
    if |ps| == 1 {
      assert Render(front) + RenderPiece(last) == RenderPiece(last) + Render(tail);
    } else {
      RenderFront(front);
      assert front[1..] == tail[..|tail| - 1];
      Assoc(RenderPiece(ps[0]), Render(front[1..]), RenderPiece(last));
    }
  }

  lemma {:induction false} PeelOne(ps: seq<Piece>, t: string, ps': seq<Piece>)
    requires Wf(ps) && Wf(ps') && ps != []
    requires Render(ps) + t == Render(ps')
    ensures ps' != [] && ps'[0] == ps[0] && Render(ps[1..]) + t == Render(ps'[1..])
  {
    var h, r := RenderPiece(ps[0]), Render(ps[1..]);
    RenderFront(ps);
    Assoc(h, r, t);
    assert ps' != [] by {
      assert |Render(ps)| > 0;
    }
    RenderFront(ps');
    PieceDeterministic(ps[0], r + t, ps'[0], Render(ps'[1..]));
  }

  /** Pieces that render to a prefix of a template are the first pieces of every reading of it. */
  lemma {:induction false} Peel(ps: seq<Piece>, t: string, ps': seq<Piece>)
    requires Wf(ps) && Wf(ps')
    requires Render(ps) + t == Render(ps')
    ensures |ps| <= |ps'| && ps'[..|ps|] == ps && Render(ps'[|ps|..]) == t
  {
    if ps == [] {
      assert ps'[0..] == ps' && Render(ps) + t == t;
    } else {
      var p, rest, rest' := ps[0], ps[1..], ps'[1..];
      PeelOne(ps, t, ps');
      Peel(rest, t, rest');
      assert rest'[|rest|..] == ps'[|ps|..];
      assert ps == [p] + rest && ps'[..|ps|] == [p] + rest'[..|rest|];
    }
  }

  /** A template has at most one reading, so its words are the words of any reading. */
  lemma {:induction false} TokenizeOfReading(s: string, ps: seq<Piece>)
    requires Parses(s, ps)
    ensures Tokenize(s) == Ok(WordsOf(ps).Close())
  {
    forall ps' | Parses(s, ps') ensures ps' == ps {
      assert Render(ps) + [] == Render(ps');
      Peel(ps, [], ps');
      assert ps'[|ps|..] == [];
      assert ps' == ps'[..|ps|] + ps'[|ps|..];
    }
  }

  // ----- the tokenizer loop -----

  lemma {:induction false} Push(ps: seq<Piece>, p: Piece)
    ensures Render(ps + [p]) == Render(ps) + RenderPiece(p)
    ensures Wf(ps) && PieceWf(p) ==> Wf(ps + [p])
    ensures WordsOf(ps + [p]) ==
            var w := WordsOf(ps);
            if p.Blank? then Words(w.Close(), None) else Words(w.done, Some(w.Cur() + PieceText(p)))
  {
    assert (ps + [p])[..|ps|] == ps;
  }

  lemma {:induction false} PushBody(q: seq<Quoted>, x: Quoted)
    ensures RenderBody(q + [x]) == RenderBody(q) + RenderQuoted(x)
    ensures BodyText(q + [x]) == BodyText(q) + [x.c]
  {
    if q != [] {
      PushBody(q[1..], x);
      assert (q + [x])[1..] == q[1..] + [x];
    }
  }

  const DANGLING: string := "dangling backslash at end of template"
  const UNTERMINATED: string := "unterminated quote in template"

  const NO_QUOTE: char := '\0'

  /** Between pieces: the text read is a sequence of pieces and the builder holds its words. */
  ghost predicate AtRest(s: string, i: nat, ps: seq<Piece>, tokens: seq<string>, cur: string, inToken: bool) {
    && i <= |s| && s[..i] == Render(ps) && Wf(ps)
    && tokens == WordsOf(ps).done && inToken == WordsOf(ps).open.Some? && cur == WordsOf(ps).Cur()
  }

  /** Inside quotes: whole pieces, an opening quote, and the body read so far. */
  ghost predicate InQuote(s: string, i: nat, ps: seq<Piece>, quote: char, body: seq<Quoted>) {
    && i <= |s| && Wf(ps)
    && (quote == '\'' || quote == '"')
    && (quote == '\'' ==> s[..i] == Render(ps) + (['\''] + BodyText(body)) && '\'' !in BodyText(body))
    && (quote == '"' ==>
          && s[..i] == Render(ps) + (['"'] + RenderBody(body))
          && BodyWf(body, false)
          && (body != [] && body[|body| - 1] == Plain('\\') && i < |s| ==> s[i] != '"' && s[i] != '\\'))
  }

  lemma {:induction false} Extend(s: string, i: nat, head: string, tail: string)
    requires i < |s| && s[..i] == head + tail
    ensures s[..i + 1] == head + (tail + [s[i]])
  {
  }

  lemma {:induction false} BodyWfPush(q: seq<Quoted>, x: Quoted)
    requires BodyWf(q, false)
    requires if x.Escaped? then x.c == '"' || x.c == '\\' else x.c != '"'
    requires q != [] && q[|q| - 1] == Plain('\\') ==> x.Plain? && x.c != '\\'
    ensures BodyWf(q + [x], false)
  {
    forall i | 0 <= i < |q + [x]| ensures BodyOk(q + [x], i, false) {
      if i < |q| { assert BodyOk(q, i, false); }
    }
  }

  /** A closing double quote turns the open body into a piece. */
  lemma {:induction false} CloseDouble(q: seq<Quoted>)
    requires BodyWf(q, false) && (q == [] || q[|q| - 1] != Plain('\\'))
    ensures PieceWf(Double(q))
  {
    forall i | 0 <= i < |q| ensures BodyOk(q, i, true) {
      assert BodyOk(q, i, false);
    }
  }

  /** Text that stops inside a quote or after a bare backslash is not a template. */
  lemma {:induction false} NotATemplate(s: string, ps: seq<Piece>, quote: char, body: seq<Quoted>)
    requires InQuote(s, |s|, ps, quote, body)
    ensures Tokenize(s).Err?
  {
    forall ps' ensures !Parses(s, ps') {
      if Parses(s, ps') {
        assert s[..|s|] == s;
        var t := if quote == '"' then RenderBody(body) else BodyText(body);
        Peel(ps, [quote] + t, ps');
        var rest := ps'[|ps|..];
        assert rest != [];
        RenderFront(rest);
        OpenQuote(quote, t, body, rest[0], Render(rest[1..]));
      }
    }
  }

  lemma {:induction false} OpenQuote(quote: char, t: string, body: seq<Quoted>, p: Piece, r: string)
    requires PieceWf(p)
    requires (quote == '"' && t == RenderBody(body) && BodyWf(body, false)) || (quote == '\'' && '\'' !in t)
    ensures [quote] + t != RenderPiece(p) + r
  {
    FirstRuneOf(p, r);
    if p.Double? {
      if quote == '"' {
        OpenDouble(body, p.body, r);
      }
    } else if p.Single? {
      OpenSingle(t, p.text, r);
    }
  }

  /** The first rune of a piece, as it stands in the text. */
  lemma {:induction false} FirstRuneOf(p: Piece, r: string)
    requires PieceWf(p)
    ensures (RenderPiece(p) + r)[0] == '"' <==> p.Double?
    ensures (RenderPiece(p) + r)[0] == '\'' <==> p.Single?
  {
    assert (RenderPiece(p) + r)[0] == RenderPiece(p)[0];
  }

  lemma {:induction false} OpenDouble(body: seq<Quoted>, closed: seq<Quoted>, r: string)
    requires BodyWf(body, false) && BodyWf(closed, true)
    ensures ['"'] + RenderBody(body) != ['"'] + RenderBody(closed) + ['"'] + r
  {
    var t := RenderBody(closed) + (['"'] + r);
    assert ['"'] + RenderBody(closed) + ['"'] + r == ['"'] + t;
    OpenBodyIsOpen(body, closed, r);
    SameTail('"', RenderBody(body), t);
  }

  lemma {:induction false} OpenSingle(t: string, text: string, r: string)
    ensures '\'' !in t ==> ['\''] + t != ['\''] + text + ['\''] + r
  {
    var u := ['\''] + text + ['\''] + r;
    assert u[|text| + 1] == '\'';
    assert forall i :: 0 < i < |['\''] + t| ==> (['\''] + t)[i] == t[i - 1];
  }

  lemma {:induction false} SameTail(o: char, a: string, b: string)
    ensures [o] + a == [o] + b <==> a == b
  {
    assert ([o] + a)[1..] == a && ([o] + b)[1..] == b;
  }

  /** The text stops right after an unquoted backslash. */
  ghost predicate Dangling(s: string) {
    exists ps :: Wf(ps) && s == Render(ps) + ['\\']
  }

  /** The text stops inside a quote. */
  ghost predicate Unterminated(s: string) {
    exists ps, quote, body :: InQuote(s, |s|, ps, quote, body)
  }

  lemma {:induction false} EndsInBackslash(s: string, ps: seq<Piece>)
    requires Wf(ps) && |s| > 0 && s[..|s| - 1] == Render(ps) && s[|s| - 1] == '\\'
    ensures Dangling(s)
  {
    assert s == s[..|s| - 1] + ['\\'];
  }

  lemma {:induction false} DanglingBackslash(s: string)
    requires Dangling(s)
    ensures Tokenize(s).Err?
  {
    var ps :| Wf(ps) && s == Render(ps) + ['\\'];
    forall ps' ensures !Parses(s, ps') {
      if Parses(s, ps') {
        Peel(ps, ['\\'], ps');
        LoneBackslash(ps'[|ps|..]);
      }
    }
  }

  /** A text is never wrong in both ways: one more rune makes the dangling one a template and keeps the quote open. */
  lemma {:induction false} OneError(s: string)
    requires Unterminated(s)
    ensures Tokenize(s).Err? && !Dangling(s)
  {
    var ps, quote, body :| InQuote(s, |s|, ps, quote, body);
    NotATemplate(s, ps, quote, body);
    var longer := s + ['x'];
    assert longer[..|s|] == s[..|s|];
    AddPlain(longer, |s|, ps, quote, body);
    NotATemplate(longer, ps, quote, body + [Plain('x')]);
    forall ps' | Wf(ps') ensures s != Render(ps') + ['\\'] {
      EscapeCloses(s, ps');
    }
  }

  lemma {:induction false} ErrorsApart(s: string)
    ensures !(Dangling(s) && Unterminated(s))
    ensures Tokenize(s).Ok? ==> !Dangling(s) && !Unterminated(s)
  {
    if Dangling(s) {
      DanglingBackslash(s);
    }
    if Unterminated(s) {
      OneError(s);
    }
  }

  lemma {:induction false} EscapeCloses(s: string, ps: seq<Piece>)
    requires Wf(ps)
    ensures s == Render(ps) + ['\\'] ==> Tokenize(s + ['x']).Ok?
  {
    Push(ps, Backslash('x'));
    assert Render(ps) + ['\\'] + ['x'] == Render(ps) + ['\\', 'x'];
    if s == Render(ps) + ['\\'] {
      TokenizeOfReading(s + ['x'], ps + [Backslash('x')]);
    }
  }

  lemma {:induction false} LoneBackslash(ps: seq<Piece>)
    requires Wf(ps)
    ensures Render(ps) != ['\\']
  {
    if ps != [] {
      RenderFront(ps);
      assert RenderPiece(ps[0])[0] == Render(ps)[0];
    }
  }

  /** The scanner variables describe what has been read, whichever side of a quote they are on. */
  ghost predicate Scanned(s: string, i: nat, ps: seq<Piece>, body: seq<Quoted>,
                          tokens: seq<string>, cur: string, inToken: bool, quote: char) {
    if quote == NO_QUOTE then AtRest(s, i, ps, tokens, cur, inToken)
    else
      && InQuote(s, i, ps, quote, body)
      && inToken && tokens == WordsOf(ps).done && cur == WordsOf(ps).Cur() + BodyText(body)
  }

  /** Reading one unquoted rune, or one backslash and the rune behind it. */
  lemma {:induction false} AddPiece(s: string, i: nat, ps: seq<Piece>, p: Piece, n: nat,
                 tokens: seq<string>, cur: string, inToken: bool)
    requires !p.Single? && !p.Double? && PieceWf(p) && i + n <= |s|
    requires n == (if p.Backslash? then 2 else 1) && s[i + n - 1] == p.c && (n == 2 ==> s[i] == '\\')
    requires AtRest(s, i, ps, tokens, cur, inToken)
    ensures !p.Blank? ==> Scanned(s, i + n, ps + [p], [], tokens, cur + [p.c], true, NO_QUOTE)
    ensures p.Blank? && inToken ==> Scanned(s, i + n, ps + [p], [], tokens + [cur], "", false, NO_QUOTE)
    ensures p.Blank? && !inToken ==> Scanned(s, i + n, ps + [p], [], tokens, cur, false, NO_QUOTE)
  {
    Push(ps, p);
    SlicePiece(s, i, p, n);
  }

  lemma {:induction false} SlicePiece(s: string, i: nat, p: Piece, n: nat)
    requires !p.Single? && !p.Double? && i + n <= |s|
    requires n == (if p.Backslash? then 2 else 1) && s[i + n - 1] == p.c && (n == 2 ==> s[i] == '\\')
    ensures s[..i + n] == s[..i] + RenderPiece(p)
  {
  }

  lemma {:induction false} ClosePiece(s: string, i: nat, ps: seq<Piece>, quote: char, body: seq<Quoted>) returns (ps': seq<Piece>)
    requires i < |s| && s[i] == quote && InQuote(s, i, ps, quote, body)
    ensures var w := WordsOf(ps);
      AtRest(s, i + 1, ps', w.done, w.Cur() + BodyText(body), true)
  {
    var p := if quote == '"' then Double(body) else Single(BodyText(body));
    if quote == '"' { CloseDouble(body); }
    Extend(s, i, Render(ps), [quote] + if quote == '"' then RenderBody(body) else BodyText(body));
    Push(ps, p);
    ps' := ps + [p];
  }

  lemma {:induction false} AddPlain(s: string, i: nat, ps: seq<Piece>, quote: char, body: seq<Quoted>)
    requires i < |s| && s[i] != quote && InQuote(s, i, ps, quote, body)
    requires !(s[i] == '\\' && quote == '"' && i + 1 < |s| && (s[i + 1] == '"' || s[i + 1] == '\\'))
    ensures InQuote(s, i + 1, ps, quote, body + [Plain(s[i])])
    ensures BodyText(body + [Plain(s[i])]) == BodyText(body) + [s[i]]
  {
    PushBody(body, Plain(s[i]));
    Extend(s, i, Render(ps), [quote] + if quote == '"' then RenderBody(body) else BodyText(body));
    if quote == '"' {
      BodyWfPush(body, Plain(s[i]));
      Assoc(['"'], RenderBody(body), [s[i]]);
    } else {
      Assoc(['\''], BodyText(body), [s[i]]);
    }
  }

  lemma {:induction false} AddEscaped(s: string, i: nat, ps: seq<Piece>, body: seq<Quoted>)
    requires i + 1 < |s| && s[i] == '\\' && (s[i + 1] == '"' || s[i + 1] == '\\')
    requires InQuote(s, i, ps, '"', body)
    ensures InQuote(s, i + 2, ps, '"', body + [Escaped(s[i + 1])])
    ensures BodyText(body + [Escaped(s[i + 1])]) == BodyText(body) + [s[i + 1]]
  {
    var x := Escaped(s[i + 1]);
    PushBody(body, x);
    BodyWfPush(body, x);
    TwoMore(s, i, Render(ps), RenderBody(body));
  }

  lemma {:induction false} TwoMore(s: string, i: nat, head: string, body: string)
    requires i + 1 < |s| && s[..i] == head + (['"'] + body)
    ensures s[..i + 2] == head + (['"'] + (body + [s[i], s[i + 1]]))
  {
    Extend(s, i, head, ['"'] + body);
    Extend(s, i + 1, head, ['"'] + body + [s[i]]);
    assert ['"'] + body + [s[i]] + [s[i + 1]] == ['"'] + (body + [s[i], s[i + 1]]);
  }

  lemma {:induction false} OpenPiece(s: string, i: nat, ps: seq<Piece>, tokens: seq<string>, cur: string, inToken: bool)
    requires i < |s| && (s[i] == '\'' || s[i] == '"') && AtRest(s, i, ps, tokens, cur, inToken)
    ensures Scanned(s, i + 1, ps, [], tokens, cur, true, s[i])
  {
    Extend(s, i, Render(ps), []);
    assert cur + BodyText([]) == cur;
  }

  /** One rune inside quotes: close the group, take an escaped rune, or take the rune itself. */
  method QuotedRune(s: string, i: nat, tokens: seq<string>, cur: string, inToken: bool, quote: char,
                    ghost ps: seq<Piece>, ghost body: seq<Quoted>)
      returns (i': nat, cur': string, quote': char, ghost ps': seq<Piece>, ghost body': seq<Quoted>)
    requires i < |s| && quote != NO_QUOTE && Scanned(s, i, ps, body, tokens, cur, inToken, quote)
    ensures i < i' <= |s| && Scanned(s, i', ps', body', tokens, cur', inToken, quote')
  {
    i', cur', quote', ps', body' := i + 1, cur, quote, ps, body;
    ghost var base := WordsOf(ps).Cur();
    if s[i] == quote {
      ps' := ClosePiece(s, i, ps, quote, body);
      quote' := NO_QUOTE;
    } else if s[i] == '\\' && quote == '"' && i + 1 < |s| && (s[i + 1] == '"' || s[i + 1] == '\\') {
      AddEscaped(s, i, ps, body);
      Assoc(base, BodyText(body), [s[i + 1]]);
      i', cur', body' := i + 2, cur + [s[i + 1]], body + [Escaped(s[i + 1])];
    } else {
      AddPlain(s, i, ps, quote, body);
      Assoc(base, BodyText(body), [s[i]]);
      cur', body' := cur + [s[i]], body + [Plain(s[i])];
    }
  }

  /** One rune outside quotes that is neither a quote nor a backslash: a blank ends the word, any other extends it. */
  method PlainRune(s: string, i: nat, tokens: seq<string>, cur: string, inToken: bool, ghost ps: seq<Piece>)
      returns (tokens': seq<string>, cur': string, inToken': bool, ghost ps': seq<Piece>)
    requires i < |s| && s[i] != '\'' && s[i] != '"' && s[i] != '\\' && AtRest(s, i, ps, tokens, cur, inToken)
    ensures Scanned(s, i + 1, ps', [], tokens', cur', inToken', NO_QUOTE)
  {
    var c := s[i];
    if IsBlank(c) {
      AddPiece(s, i, ps, Blank(c), 1, tokens, cur, inToken);
      ps', tokens', cur', inToken' := ps + [Blank(c)], tokens, cur, false;
      if inToken {
        tokens', cur' := tokens + [cur], "";
      }
    } else {
      AddPiece(s, i, ps, Bare(c), 1, tokens, cur, inToken);
      ps', tokens', cur', inToken' := ps + [Bare(c)], tokens, cur + [c], true;
    }
  }

  /** One rune outside quotes, or none when a backslash ends the text. */
  method BareRune(s: string, i: nat, tokens: seq<string>, cur: string, inToken: bool, ghost ps: seq<Piece>)
      returns (ok: bool, i': nat, tokens': seq<string>, cur': string, inToken': bool, quote': char,
               ghost ps': seq<Piece>)
    requires i < |s| && AtRest(s, i, ps, tokens, cur, inToken)
    ensures ok ==> i < i' <= |s| && Scanned(s, i', ps', [], tokens', cur', inToken', quote')
    ensures !ok ==> Dangling(s)
  {
    ok, i', tokens', cur', inToken', quote', ps' := true, i + 1, tokens, cur, true, NO_QUOTE, ps;
    var c := s[i];
    if c == '\'' || c == '"' {
      OpenPiece(s, i, ps, tokens, cur, inToken);
      quote' := c;
    } else if c == '\\' {
      if i + 1 >= |s| {
        EndsInBackslash(s, ps);
        ok := false;
        return;
      }
      AddPiece(s, i, ps, Backslash(s[i + 1]), 2, tokens, cur, inToken);
      i', cur', ps' := i + 2, cur + [s[i + 1]], ps + [Backslash(s[i + 1])];
    } else {
      tokens', cur', inToken', ps' := PlainRune(s, i, tokens, cur, inToken, ps);
    }
  }

  /** tokenize: one pass over the runes with an open-quote flag and a word builder. */
  method TokenizeTemplate(s: string) returns (r: Outcome<seq<string>>)
    ensures r.Ok? == Tokenize(s).Ok?
    ensures r.Ok? ==> r == Tokenize(s)
    ensures r == Err(DANGLING) <==> Dangling(s)
    ensures r == Err(UNTERMINATED) <==> Unterminated(s)
    ensures r.Err? ==> Dangling(s) || Unterminated(s)
  {
    var tokens: seq<string>, cur, inToken, quote := [], "", false, NO_QUOTE;
    ghost var ps: seq<Piece>, body: seq<Quoted> := [], [];
    var i := 0;
    while i < |s|
      invariant 0 <= i <= |s|
      invariant Scanned(s, i, ps, body, tokens, cur, inToken, quote)
    {
      if quote != NO_QUOTE {
        i, cur, quote, ps, body := QuotedRune(s, i, tokens, cur, inToken, quote, ps, body);
      } else {
        var ok;
        ok, i, tokens, cur, inToken, quote, ps := BareRune(s, i, tokens, cur, inToken, ps);
        if !ok {
          DanglingBackslash(s);
          ErrorsApart(s);
          return Err(DANGLING);
        }
        body := [];
      }
    }
    assert s[..|s|] == s;
    if quote != NO_QUOTE {
      OneError(s);
      return Err(UNTERMINATED);
    }
    if inToken {
      tokens := tokens + [cur];
    }
    TokenizeOfReading(s, ps);
    ErrorsApart(s);
    return Ok(tokens);
  }

  // ----- words and blanks -----

  /** A word written as itself: no white space, quote or backslash. */
  predicate Plainly(w: string) {
    w != [] && forall i :: 0 <= i < |w| ==> Unmarked(w[i])
  }

  predicate Unmarked(c: char) {
    c != ' ' && c != '\t' && c != '\n' && c != '\r' && c != '\'' && c != '"' && c != '\\'
  }

  predicate AllBlank(w: string) {
    forall i :: 0 <= i < |w| ==> w[i] == ' ' || w[i] == '\t' || w[i] == '\n' || w[i] == '\r'
  }

  /** The pieces read the text, and these are its words so far. */
  ghost predicate Reads(s: string, ps: seq<Piece>, w: Words) {
    Parses(s, ps) && WordsOf(ps) == w
  }

  lemma {:induction false} ReadRune(s: string, ps: seq<Piece>, w: Words, c: char)
    requires Reads(s, ps, w) && Unmarked(c)
    ensures Reads(s + [c], ps + [Bare(c)], Words(w.done, Some(w.Cur() + [c])))
  {
    Push(ps, Bare(c));
  }

  lemma {:induction false} ReadBlank(s: string, ps: seq<Piece>, w: Words, c: char)
    requires Reads(s, ps, w) && AllBlank([c])
    ensures Reads(s + [c], ps + [Blank(c)], Words(w.Close(), None))
  {
    assert [c][0] == c;
    Push(ps, Blank(c));
  }

  /** `done` with the word `cur` open. */
  function Open(done: seq<string>, cur: string): Words {
    Words(done, Some(cur))
  }

  lemma {:induction false} ReadWord(s: string, ps: seq<Piece>, done: seq<string>, cur: string, a: string) returns (ps': seq<Piece>)
    requires Reads(s, ps, Open(done, cur)) && forall i :: 0 <= i < |a| ==> Unmarked(a[i])
    ensures Reads(s + a, ps', Open(done, cur + a))
    decreases |a|
  {
    if a == [] {
      ps' := ps;
      assert s + a == s && cur + a == cur;
    } else {
      var c, rest := a[0], a[1..];
      ReadRune(s, ps, Open(done, cur), c);
      ps' := ReadWord(s + [c], ps + [Bare(c)], done, cur + [c], rest);
      assert a == [c] + rest;
      Assoc(s, [c], rest);
      Assoc(cur, [c], rest);
    }
  }

  lemma {:induction false} ReadBlanks(s: string, ps: seq<Piece>, done: seq<string>, w: string) returns (ps': seq<Piece>)
    requires Reads(s, ps, Words(done, None)) && AllBlank(w)
    ensures Reads(s + w, ps', Words(done, None))
    decreases |w|
  {
    if w == [] {
      ps' := ps;
      assert s + w == s;
    } else {
      var c, rest := w[0], w[1..];
      ReadBlank(s, ps, Words(done, None), c);
      ps' := ReadBlanks(s + [c], ps + [Blank(c)], done, rest);
      assert w == [c] + rest;
      Assoc(s, [c], rest);
    }
  }

  /** A whole word after a blank or at the start. */
  lemma {:induction false} ReadWhole(s: string, ps: seq<Piece>, done: seq<string>, a: string) returns (ps': seq<Piece>)
    requires Reads(s, ps, Words(done, None)) && Plainly(a)
    ensures Reads(s + a, ps', Open(done, a))
  {
    var c, rest := a[0], a[1..];
    ReadFirst(s, ps, done, c);
    ps' := ReadWord(s + [c], ps + [Bare(c)], done, [c], rest);
    assert a == [c] + rest;
    Assoc(s, [c], rest);
  }

  lemma {:induction false} ReadFirst(s: string, ps: seq<Piece>, done: seq<string>, c: char)
    requires Reads(s, ps, Words(done, None)) && Unmarked(c)
    ensures Reads(s + [c], ps + [Bare(c)], Open(done, [c]))
  {
    ReadRune(s, ps, Words(done, None), c);
    assert Words(done, None).Cur() + [c] == [c];
  }

  lemma {:induction false} ReadGap(s: string, ps: seq<Piece>, done: seq<string>, a: string, w: string) returns (ps': seq<Piece>)
    requires Reads(s, ps, Open(done, a)) && AllBlank(w) && w != []
    ensures Reads(s + w, ps', Words(done + [a], None))
  {
    var c, rest := w[0], w[1..];
    ReadBlank(s, ps, Open(done, a), c);
    ps' := ReadBlanks(s + [c], ps + [Blank(c)], done + [a], rest);
    assert w == [c] + rest;
    Assoc(s, [c], rest);
  }

  /** Words separated by any mix of spaces, tabs, carriage returns and newlines are separate words, as they stand. */
  lemma {:induction false} TwoWords(before: string, a: string, blanks: string, b: string, after: string)
    requires Plainly(a) && Plainly(b) && blanks != [] && AllBlank(before) && AllBlank(blanks) && AllBlank(after)
    ensures Tokenize(before + a + blanks + b + after) == Ok([a, b])
  {
    assert Reads([], [], Words([], None));
    var ps := ReadBlanks([], [], [], before);
    assert [] + before == before;
    ps := ReadWhole(before, ps, [], a);
    ps := ReadGap(before + a, ps, [], a, blanks);
    ps := ReadWhole(before + a + blanks, ps, [] + [a], b);
    EndOfText(before + a + blanks + b, ps, [] + [a], b, after);
    assert [] + [a] + [b] == [a, b];
  }

  lemma {:induction false} EndOfText(s: string, ps: seq<Piece>, done: seq<string>, b: string, after: string)
    requires Reads(s, ps, Open(done, b)) && AllBlank(after)
    ensures Tokenize(s + after) == Ok(done + [b])
  {
    if after == [] {
      assert s + after == s;
      TokenizeOfReading(s, ps);
    } else {
      var all := ReadGap(s, ps, done, b, after);
      TokenizeOfReading(s + after, all);
    }
  }

  // ----- three ways to write a word -----

  /** Every rune behind a backslash. */
  function Backslashed(w: string): string {
    if w == [] then [] else ['\\', w[0]] + Backslashed(w[1..])
  }

  /** Double quotes need a backslash before a quote or a backslash. */
  function DoubleEscaped(w: string): string {
    if w == [] then []
    else (if w[0] == '"' || w[0] == '\\' then ['\\', w[0]] else [w[0]]) + DoubleEscaped(w[1..])
  }

  function EscapedBody(w: string): seq<Quoted> {
    seq(|w|, i requires 0 <= i < |w| => if w[i] == '"' || w[i] == '\\' then Escaped(w[i]) else Plain(w[i]))
  }

  lemma {:induction false} EscapedRenders(w: string)
    ensures RenderBody(EscapedBody(w)) == DoubleEscaped(w) && BodyText(EscapedBody(w)) == w && BodyWf(EscapedBody(w), true)
  {
    if w != [] {
      EscapedRenders(w[1..]);
      assert EscapedBody(w)[1..] == EscapedBody(w[1..]);
    }
  }

  lemma {:induction false} OnePiece(p: Piece, w: string)
    requires PieceWf(p) && !p.Blank? && PieceText(p) == w
    ensures Tokenize(RenderPiece(p)) == Ok([w])
  {
    FirstPiece(p, w);
    TokenizeOfReading(RenderPiece(p), [p]);
    assert Open([], w).Close() == [w];
  }

  lemma {:induction false} FirstPiece(p: Piece, w: string)
    requires PieceWf(p) && !p.Blank? && PieceText(p) == w
    ensures Reads(RenderPiece(p), [p], Open([], w))
  {
    assert [p][..0] == [] && [p][0] == p;
    assert Render([p]) == [] + RenderPiece(p) == RenderPiece(p);
    assert WordsOf([]) == Words([], None) && Words([], None).Cur() + w == w;
  }

  /** A word in single quotes is itself, if it holds none; in double quotes it is itself once escaped. */
  lemma {:induction false} QuotedWord(w: string)
    ensures '\'' !in w ==> Tokenize(['\''] + w + ['\'']) == Ok([w])
    ensures Tokenize(['"'] + DoubleEscaped(w) + ['"']) == Ok([w])
  {
    if '\'' !in w {
      OnePiece(Single(w), w);
    }
    EscapedRenders(w);
    OnePiece(Double(EscapedBody(w)), w);
  }

  lemma {:induction false} ReadEscaped(s: string, ps: seq<Piece>, cur: string, w: string) returns (ps': seq<Piece>)
    requires Reads(s, ps, Open([], cur))
    ensures Reads(s + Backslashed(w), ps', Open([], cur + w))
    decreases |w|
  {
    if w == [] {
      ps' := ps;
      assert s + Backslashed(w) == s && cur + w == cur;
    } else {
      var c, rest := w[0], w[1..];
      Push(ps, Backslash(c));
      ps' := ReadEscaped(s + ['\\', c], ps + [Backslash(c)], cur + [c], rest);
      assert w == [c] + rest;
      Assoc(s, ['\\', c], Backslashed(rest));
      Assoc(cur, [c], rest);
    }
  }

  /** A word with every rune behind a backslash is that word. */
  lemma {:induction false} BackslashedWord(w: string)
    requires w != []
    ensures Tokenize(Backslashed(w)) == Ok([w])
  {
    var c, rest := w[0], w[1..];
    FirstPiece(Backslash(c), [c]);
    var ps := ReadEscaped(['\\', c], [Backslash(c)], [c], rest);
    assert w == [c] + rest;
    TokenizeOfReading(Backslashed(w), ps);
    assert Open([], w).Close() == [w];
  }
}
