/** Shell quoting of a recovered argument vector, and its inverse law against the tokenizer. */
module ShellQuoting {
  import opened Text
  import opened Tokenizer

  /** The runes an argument may hold and still be written without quotes. */
  predicate IsSafeRune(c: char) {
    'a' <= c <= 'z' || 'A' <= c <= 'Z' || '0' <= c <= '9' || c in "_./:@%+=,-"
  }

  predicate IsSafeArg(arg: string) {
    arg != [] && forall i :: 0 <= i < |arg| ==> IsSafeRune(arg[i])
  }

  /** strings.ReplaceAll(s, "'", `'\''`). */
  function EscapeQuotes(s: string): string {
    if s == [] then []
    else (if s[0] == '\'' then ['\'', '\\', '\'', '\''] else [s[0]]) + EscapeQuotes(s[1..])
  }

  function QuoteArg(arg: string): string {
    if IsSafeArg(arg) then arg else ['\''] + EscapeQuotes(arg) + ['\'']
  }

  function QuoteArgs(argv: seq<string>): seq<string> {
    seq(|argv|, i requires 0 <= i < |argv| => QuoteArg(argv[i]))
  }

  /** Some reading of `s` collects exactly the words `w`. */
  ghost predicate Reads(s: string, w: Words) {
    exists ps :: Parses(s, ps) && WordsOf(ps) == w
  }

  /** Adding `word` to the word being read. */
  function Grow(w: Words, word: string): Words {
    Words(w.done, Some(w.Cur() + word))
  }

  lemma {:induction false} ReadPiece(s: string, w: Words, p: Piece)
    requires Reads(s, w) && PieceWf(p)
    ensures Reads(s + RenderPiece(p), if p.Blank? then Words(w.Close(), None) else Grow(w, PieceText(p)))
  {
    var ps :| Parses(s, ps) && WordsOf(ps) == w;
    Push(ps, p);
    assert Parses(s + RenderPiece(p), ps + [p]);
  }

  /** Moving the first rune of `rest` to the text before it. */
  lemma {:induction false} MoveRune(s: string, text: string, rest: string)
    requires rest != []
    ensures s + (text + [rest[0]]) + rest[1..] == s + (text + rest)
    ensures text == [] ==> s + [rest[0]] + rest[1..] == s + rest && (|rest| == 1 ==> rest == [rest[0]])
  {
    assert [rest[0]] + rest[1..] == rest;
    if text == [] {
      assert text + rest == rest && text + [rest[0]] == [rest[0]];
    }
  }

  lemma {:induction false} ReadBare(s: string, w: Words, arg: string)
    requires Reads(s, w) && IsSafeArg(arg)
    ensures Reads(s + arg, Grow(w, arg))
    decreases |arg|
  {
    ReadPiece(s, w, Bare(arg[0]));
    MoveRune(s, [], arg);
    MoveRune(w.Cur(), [], arg);
    if |arg| > 1 {
      ReadBare(s + [arg[0]], Grow(w, [arg[0]]), arg[1..]);
    }
  }

  /** What is left to read of a quoted argument whose opening quote and `text` stand before `rest`. */
  function QuotedFrom(text: string, rest: string): string {
    ['\''] + text + (EscapeQuotes(rest) + ['\''])
  }

  lemma {:induction false} ReadQuoted(s: string, w: Words, text: string, rest: string)
    requires Reads(s, w) && '\'' !in text
    ensures Reads(s + QuotedFrom(text, rest), Grow(w, text + rest))
    decreases |rest|
  {
    if rest == [] {
      ReadPiece(s, w, Single(text));
      QuotedEnd(text);
    } else if rest[0] == '\'' {
      ReadPiece(s, w, Single(text));
      var s1, w1 := s + RenderPiece(Single(text)), Grow(w, text);
      ReadPiece(s1, w1, Backslash('\''));
      var s2, w2 := s1 + ['\\', '\''], Grow(w1, ['\'']);
      ReadQuoted(s2, w2, [], rest[1..]);
      SpliceText(s, text, rest);
      SpliceWord(w.Cur(), text, rest);
    } else {
      ReadQuoted(s, w, text + [rest[0]], rest[1..]);
      QuotedShift(text, rest);
    }
  }

  lemma {:induction false} QuotedEnd(text: string)
    ensures QuotedFrom(text, []) == RenderPiece(Single(text)) && text + [] == text
  {
  }

  lemma {:induction false} QuotedShift(text: string, rest: string)
    requires rest != [] && rest[0] != '\''
    ensures QuotedFrom(text + [rest[0]], rest[1..]) == QuotedFrom(text, rest)
    ensures text + [rest[0]] + rest[1..] == text + rest
  {
    assert EscapeQuotes(rest) == [rest[0]] + EscapeQuotes(rest[1..]);
  }

  lemma {:induction false} QuotedWhole(arg: string)
    requires !IsSafeArg(arg)
    ensures QuotedFrom([], arg) == QuoteArg(arg) && [] + arg == arg
  {
  }

  lemma {:induction false} SpliceText(s: string, text: string, rest: string)
    requires rest != [] && rest[0] == '\''
    ensures s + (['\''] + text + ['\'']) + ['\\', '\''] + QuotedFrom([], rest[1..]) == s + QuotedFrom(text, rest)
  {
    var e := EscapeQuotes(rest[1..]) + ['\''];
    assert EscapeQuotes(rest) + ['\''] == ['\''] + ['\\', '\''] + (['\''] + e);
  }

  lemma {:induction false} SpliceWord(cur: string, text: string, rest: string)
    requires rest != [] && rest[0] == '\''
    ensures cur + text + ['\''] + ([] + rest[1..]) == cur + (text + rest)
  {
  }

  lemma {:induction false} ReadArg(s: string, w: Words, arg: string)
    requires Reads(s, w)
    ensures Reads(s + QuoteArg(arg), Grow(w, arg))
  {
    if IsSafeArg(arg) {
      ReadBare(s, w, arg);
    } else {
      ReadQuoted(s, w, [], arg);
      QuotedWhole(arg);
    }
  }

  lemma {:induction false} ReadArgs(s: string, done: seq<string>, argv: seq<string>)
    requires Reads(s, Words(done, None)) && argv != []
    ensures exists w: Words :: w.Close() == done + argv && Reads(s + Join(QuoteArgs(argv), " "), w)
    decreases |argv|
  {
    var w := Words(done, None);
    var s1, w1 := s + QuoteArg(argv[0]), Grow(w, argv[0]);
    ReadArg(s, w, argv[0]);
    FirstArg(s, done, argv);
    if |argv| > 1 {
      ReadPiece(s1, w1, Blank(' '));
      ReadArgs(s1 + [' '], done + [argv[0]], argv[1..]);
    }
  }

  lemma {:induction false} FirstArg(s: string, done: seq<string>, argv: seq<string>)
    requires argv != []
    ensures [] + argv[0] == argv[0]
    ensures |argv| == 1 ==> s + QuoteArg(argv[0]) == s + Join(QuoteArgs(argv), " ") && done + [argv[0]] == done + argv
    ensures |argv| > 1 ==> s + QuoteArg(argv[0]) + [' '] + Join(QuoteArgs(argv[1..]), " ") == s + Join(QuoteArgs(argv), " ")
    ensures |argv| > 1 ==> done + [argv[0]] + argv[1..] == done + argv
  {
    assert argv == [argv[0]] + argv[1..];
    assert QuoteArgs(argv)[1..] == QuoteArgs(argv[1..]);
    if |argv| > 1 {
      Assoc(s, QuoteArg(argv[0]), " ");
      Assoc(s, QuoteArg(argv[0]) + " ", Join(QuoteArgs(argv[1..]), " "));
    }
  }

  /** Tokenizing the quoted join of any argument vector gives that vector back. */
  lemma {:induction false} JoinTokenizes(argv: seq<string>)
    ensures Tokenize(Join(QuoteArgs(argv), " ")) == Ok(argv)
  {
    var s := Join(QuoteArgs(argv), " ");
    NothingRead();
    if argv == [] {
      TokenizeOfReading(s, []);
    } else {
      ReadArgs([], [], argv);
      assert [] + s == s && [] + argv == argv;
      var w: Words :| w.Close() == [] + argv && Reads([] + s, w);
      ReadsTokenizes(s, w);
    }
  }

  lemma {:induction false} NothingRead()
    ensures Parses([], []) && Reads([], Words([], None))
  {
    assert Parses([], []) && WordsOf([]) == Words([], None);
  }

  lemma {:induction false} ReadsTokenizes(s: string, w: Words)
    requires Reads(s, w)
    ensures Tokenize(s) == Ok(w.Close())
  {
    var ps :| Parses(s, ps) && WordsOf(ps) == w;
    TokenizeOfReading(s, ps);
  }

  /** joinShellArgs: quote every argument into its slot, then join with spaces. */
  method JoinShellArgs(argv: seq<string>) returns (r: string)
    ensures Tokenize(r) == Ok(argv)
  {
    var quoted := new string[|argv|];
    for i := 0 to |argv|
      invariant forall k :: 0 <= k < i ==> quoted[k] == QuoteArg(argv[k])
    {
      var safe := argv[i] != [];
      for j := 0 to |argv[i]|
        invariant safe == (argv[i] != [] && forall k :: 0 <= k < j ==> IsSafeRune(argv[i][k]))
      {
        if !IsSafeRune(argv[i][j]) {
          safe := false;
        }
      }
      quoted[i] := if safe then argv[i] else "'" + EscapeQuotes(argv[i]) + "'";
    }
    assert quoted[..] == QuoteArgs(argv);
    JoinTokenizes(argv);
    return Join(quoted[..], " ");
  }
}
