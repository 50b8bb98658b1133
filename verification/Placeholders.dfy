/**
 Placeholder substitution inside one token.

 A token is a sequence of holes, each a literal followed by `{{name}}`, and a literal tail. The split is
 unique (the first `{{` opens, the first `}}` after it closes), and substitution fills each hole once.
 */
module Placeholders {
  import opened Text
  import opened Tokenizer

  datatype Hole = Hole(lit: string, raw: string)

  /** No two adjacent occurrences of `c`. */
  ghost predicate NoPair(s: string, c: char) {
    forall k :: !PairAt(s, c, k)
  }

  predicate PairAt(s: string, c: char, k: int) {
    0 <= k < |s| - 1 && s[k] == c && s[k + 1] == c
  }

  /** strings.Index(s, "cc"): the first pair, or -1. */
  function IndexPair(s: string, c: char): (k: int)
    ensures k == -1 ==> NoPair(s, c)
    ensures k != -1 ==> PairAt(s, c, k) && forall j :: j < k ==> !PairAt(s, c, j)
  {
    if |s| < 2 then -1
    else if s[0] == c && s[1] == c then 0
    else
      var k := IndexPair(s[1..], c);
      assert forall j :: PairAt(s, c, j) ==> j >= 1 && PairAt(s[1..], c, j - 1);
      if k == -1 then -1 else k + 1
  }

  ghost predicate HoleWf(h: Hole) {
    NoPair(h.lit + ['{'], '{') && NoPair(h.raw + ['}'], '}')
  }

  ghost predicate Wf(hs: seq<Hole>) {
    forall i :: 0 <= i < |hs| ==> HoleWf(hs[i])
  }

  function RenderHole(h: Hole): string {
    h.lit + (['{', '{'] + (h.raw + ['}', '}']))
  }

  function Render(hs: seq<Hole>): string {
    if hs == [] then [] else RenderHole(hs[0]) + Render(hs[1..])
  }

  ghost predicate Splits(token: string, hs: seq<Hole>, tail: string) {
    Wf(hs) && NoPair(tail, '{') && Render(hs) + tail == token
  }

  predicate Declared(hs: seq<Hole>, vars: map<string, string>) {
    forall i :: 0 <= i < |hs| ==> TrimSpace(hs[i].raw) in vars
  }

  /** The literals with the values between them, each value verbatim. */
  function Fill(hs: seq<Hole>, vars: map<string, string>): string
    requires Declared(hs, vars)
  {
    if hs == [] then []
    else hs[0].lit + vars[TrimSpace(hs[0].raw)] + Fill(hs[1..], vars)
  }

  ghost function Substitute(token: string, vars: map<string, string>): (r: Outcome<string>) {
    if hs, tail :| Splits(token, hs, tail) && Declared(hs, vars) then Ok(Fill(hs, vars) + tail)
    else Err("unterminated or undeclared placeholder")
  }

  // ----- the split is unique -----

  /** Two texts whose first pair of `c` closes a pair-free prefix agree on that prefix. */
  lemma {:induction false} FirstPair(c: char, a: string, t: string, a': string, t': string)
    requires NoPair(a + [c], c) && NoPair(a' + [c], c)
    requires a + ([c, c] + t) == a' + ([c, c] + t')
    ensures a == a' && t == t'
  {
    var s := a + ([c, c] + t);
    PairFreePrefix(c, a, t, a');
    PairFreePrefix(c, a', t', a);
    Cancel(a, [c, c] + t, a', [c, c] + t');
    Cancel([c, c], t, [c, c], t');
  }

  lemma {:induction false} PairFreePrefix(c: char, a: string, t: string, a': string)
    requires NoPair(a' + [c], c)
    requires |a'| <= |a + ([c, c] + t)| && a' == (a + ([c, c] + t))[..|a'|]
    ensures |a'| <= |a|
  {
    var s := a + ([c, c] + t);
    assert s[|a|] == c && s[|a| + 1] == c;
    assert forall k :: 0 <= k < |a'| ==> a'[k] == s[k];
    assert !PairAt(a' + [c], c, |a|);
  }

  lemma {:induction false} HoleDeterministic(h: Hole, t: string, h': Hole, t': string)
    requires HoleWf(h) && HoleWf(h')
    requires RenderHole(h) + t == RenderHole(h') + t'
    ensures h == h' && t == t'
  {
    HoleText(h, t);
    HoleText(h', t');
    FirstPair('{', h.lit, h.raw + (['}', '}'] + t), h'.lit, h'.raw + (['}', '}'] + t'));
    FirstPair('}', h.raw, t, h'.raw, t');
  }

  lemma {:induction false} HoleText(h: Hole, t: string)
    ensures RenderHole(h) + t == h.lit + (['{', '{'] + (h.raw + (['}', '}'] + t)))
  {
    Assoc(h.raw, ['}', '}'], t);
    Assoc(['{', '{'], h.raw + ['}', '}'], t);
    Assoc(h.lit, ['{', '{'] + (h.raw + ['}', '}']), t);
  }

  /** A pair-free tail holds no hole. */
  lemma {:induction false} NoHole(h: Hole, t: string, tail: string)
    requires NoPair(tail, '{')
    ensures RenderHole(h) + t != tail
  {
    var s := RenderHole(h) + t;
    HoleText(h, t);
    assert PairAt(s, '{', |h.lit|);
  }

  lemma {:induction false} PeelHoles(hs: seq<Hole>, t: string, hs': seq<Hole>, tail': string)
    requires Wf(hs) && Wf(hs') && NoPair(tail', '{')
    requires Render(hs) + t == Render(hs') + tail'
    ensures |hs| <= |hs'| && hs'[..|hs|] == hs && Render(hs'[|hs|..]) + tail' == t
  {
    if hs == [] {
      assert hs'[0..] == hs' && [] + t == t;
    } else {
      PeelHole(hs, t, hs', tail');
      PeelHoles(hs[1..], t, hs'[1..], tail');
      assert hs'[1..][|hs[1..]|..] == hs'[|hs|..];
      assert hs == [hs[0]] + hs[1..] && hs'[..|hs|] == [hs'[0]] + hs'[1..][..|hs| - 1];
    }
  }

  lemma {:induction false} PeelHole(hs: seq<Hole>, t: string, hs': seq<Hole>, tail': string)
    requires Wf(hs) && Wf(hs') && NoPair(tail', '{') && hs != []
    requires Render(hs) + t == Render(hs') + tail'
    ensures hs' != [] && hs[0] == hs'[0] && Render(hs[1..]) + t == Render(hs'[1..]) + tail'
  {
    Assoc(RenderHole(hs[0]), Render(hs[1..]), t);
    NoHole(hs[0], Render(hs[1..]) + t, tail');
    assert hs' == [] ==> Render(hs') + tail' == tail';
    Assoc(RenderHole(hs'[0]), Render(hs'[1..]), tail');
    HoleDeterministic(hs[0], Render(hs[1..]) + t, hs'[0], Render(hs'[1..]) + tail');
  }

  /** Substitution along any split of the token is the substitution of the token. */
  lemma {:induction false} SubstituteOfSplit(token: string, hs: seq<Hole>, tail: string, vars: map<string, string>)
    requires Splits(token, hs, tail)
    ensures Substitute(token, vars) ==
            if Declared(hs, vars) then Ok(Fill(hs, vars) + tail) else Err("unterminated or undeclared placeholder")
  {
    forall hs', tail' | Splits(token, hs', tail') ensures hs' == hs && tail' == tail {
      PeelHoles(hs, tail, hs', tail');
      PeelHoles(hs', tail', hs, tail);
      assert hs'[|hs|..] == [] && [] + tail' == tail';
      assert hs'[..|hs|] == hs';
    }
  }

  /** A token without `{{` is itself; with no variables declared, any `{{` is an error. */
  lemma {:induction false} SubstituteNoVars(token: string)
    ensures Substitute(token, map[]) ==
            if NoPair(token, '{') then Ok(token) else Err("unterminated or undeclared placeholder")
  {
    if NoPair(token, '{') {
      assert [] + token == token;
      assert Splits(token, [], token);
      SubstituteOfSplit(token, [], token, map[]);
    } else {
      forall hs: seq<Hole>, tail: string | Splits(token, hs, tail) ensures hs != [] {
        assert hs == [] ==> [] + tail == tail;
      }
    }
  }

  // ----- the substitution loop -----

  lemma {:induction false} PushHole(hs: seq<Hole>, h: Hole)
    ensures Render(hs + [h]) == Render(hs) + RenderHole(h)
  {
    if hs == [] {
      assert hs + [h] == [h];
      assert RenderHole(h) + [] == RenderHole(h);
    } else {
      PushHole(hs[1..], h);
      assert (hs + [h])[1..] == hs[1..] + [h];
      Assoc(RenderHole(hs[0]), Render(hs[1..]), RenderHole(h));
    }
  }

  lemma {:induction false} PushFill(hs: seq<Hole>, h: Hole, vars: map<string, string>)
    requires Declared(hs, vars) && TrimSpace(h.raw) in vars
    ensures Declared(hs + [h], vars) && Fill(hs + [h], vars) == Fill(hs, vars) + h.lit + vars[TrimSpace(h.raw)]
  {
    if hs == [] {
      assert hs + [h] == [h];
    } else {
      assert (hs + [h])[1..] == hs[1..] + [h];
      PushFill(hs[1..], h, vars);
      var a, b, c := hs[0].lit + vars[TrimSpace(hs[0].raw)], Fill(hs[1..], vars), h.lit;
      Assoc(a, b + c, vars[TrimSpace(h.raw)]);
      Assoc(a, b, c);
    }
  }

  lemma {:induction false} BeforePair(s: string, c: char)
    requires IndexPair(s, c) != -1
    ensures var k := IndexPair(s, c); NoPair(s[..k] + [c], c) && s == s[..k] + ([c, c] + s[k + 2..])
  {
    var k := IndexPair(s, c);
    forall j ensures !PairAt(s[..k] + [c], c, j) {
      assert !PairAt(s, c, j) || j >= k;
    }
  }

  /** The hole between the first `{{` of `rest` and the `}}` after it. */
  lemma {:induction false} NextHole(rest: string, start: nat, end: nat) returns (h: Hole)
    requires start == IndexPair(rest, '{') && start + 2 <= |rest| && end == IndexPair(rest[start + 2..], '}')
    ensures h == Hole(rest[..start], rest[start + 2..][..end]) && HoleWf(h)
    ensures start + end + 4 <= |rest| && rest == RenderHole(h) + rest[start + 2..][end + 2..]
  {
    h := Hole(rest[..start], rest[start + 2..][..end]);
    HoleText(h, rest[start + 2..][end + 2..]);
    BeforePair(rest, '{');
    BeforePair(rest[start + 2..], '}');
  }

  /** A `{{` that is never closed leaves the token without a split. */
  lemma {:induction false} Unterminated(token: string, hs: seq<Hole>, rest: string, vars: map<string, string>)
    requires Wf(hs) && token == Render(hs) + rest
    requires IndexPair(rest, '{') != -1 && NoPair(rest[IndexPair(rest, '{') + 2..], '}')
    ensures Substitute(token, vars).Err?
  {
    forall hs': seq<Hole>, tail': string ensures !Splits(token, hs', tail') {
      if Splits(token, hs', tail') {
        PeelHoles(hs, rest, hs', tail');
        var more := hs'[|hs|..];
        assert more != [] by {
          assert more == [] ==> [] + tail' == tail';
        }
        Assoc(RenderHole(more[0]), Render(more[1..]), tail');
        NeverClosed(rest, more[0], Render(more[1..]) + tail');
      }
    }
  }

  lemma {:induction false} NeverClosed(rest: string, h: Hole, t: string)
    requires HoleWf(h)
    requires IndexPair(rest, '{') != -1 && NoPair(rest[IndexPair(rest, '{') + 2..], '}')
    ensures RenderHole(h) + t != rest
  {
    var k := IndexPair(rest, '{');
    var inner := h.raw + (['}', '}'] + t);
    assert PairAt(inner, '}', |h.raw|);
    HoleText(h, t);
    BeforePair(rest, '{');
    if RenderHole(h) + t == rest {
      FirstPair('{', h.lit, inner, rest[..k], rest[k + 2..]);
    }
  }

  lemma {:induction false} Undeclared(token: string, hs: seq<Hole>, h: Hole, rest: string, vars: map<string, string>)
    requires Wf(hs) && HoleWf(h) && token == Render(hs) + (RenderHole(h) + rest) && TrimSpace(h.raw) !in vars
    ensures Substitute(token, vars).Err?
  {
    PushHole(hs, h);
    Assoc(Render(hs), RenderHole(h), rest);
    var hs1 := hs + [h];
    forall hs': seq<Hole>, tail': string | Splits(token, hs', tail') ensures !Declared(hs', vars) {
      PeelHoles(hs1, rest, hs', tail');
      assert hs'[..|hs1|][|hs|] == h;
    }
  }

  /** The first `i` runes are the holes `hs`, and `out` is what they fill to. */
  ghost predicate Filled(token: string, i: nat, hs: seq<Hole>, vars: map<string, string>, out: string) {
    && i <= |token|
    && Wf(hs) && Declared(hs, vars) && token == Render(hs) + token[i..]
    && out == Fill(hs, vars)
  }

  /** One more hole with a known name, filled. */
  lemma {:induction false} FilledPush(token: string, i: nat, j: nat, hs: seq<Hole>, h: Hole, vars: map<string, string>, out: string)
    requires Filled(token, i, hs, vars, out) && i <= j <= |token| && HoleWf(h) && TrimSpace(h.raw) in vars
    requires token[i..] == RenderHole(h) + token[j..]
    ensures Filled(token, j, hs + [h], vars, out + h.lit + vars[TrimSpace(h.raw)])
  {
    PushHole(hs, h);
    Assoc(Render(hs), RenderHole(h), token[j..]);
    PushFill(hs, h, vars);
  }

  /** One turn of the loop: the hole between `start` and `end` is unknown, or is filled. */
  lemma {:induction false} FillHole(token: string, i: nat, start: nat, end: nat, hs: seq<Hole>, vars: map<string, string>, out: string)
      returns (h: Hole)
    requires Filled(token, i, hs, vars, out)
    requires i <= start && start + 2 <= |token| && start - i == IndexPair(token[i..], '{')
    requires start + 2 <= end <= |token| && end - start - 2 == IndexPair(token[start + 2..], '}')
    ensures end + 2 <= |token| && h.raw == token[start + 2..end]
    ensures var name := TrimSpace(h.raw);
            if name in vars then Filled(token, end + 2, hs + [h], vars, out + token[i..start] + vars[name])
            else Substitute(token, vars).Err?
  {
    h := HoleBetween(token, i, start, end);
    if TrimSpace(h.raw) in vars {
      FilledPush(token, i, end + 2, hs, h, vars, out);
    } else {
      Undeclared(token, hs, h, token[end + 2..], vars);
    }
  }

  lemma {:induction false} HoleBetween(token: string, i: nat, start: nat, end: nat) returns (h: Hole)
    requires i <= start && start + 2 <= |token| && start - i == IndexPair(token[i..], '{')
    requires start + 2 <= end <= |token| && end - start - 2 == IndexPair(token[start + 2..], '}')
    ensures end + 2 <= |token| && h == Hole(token[i..start], token[start + 2..end]) && HoleWf(h)
    ensures token[i..] == RenderHole(h) + token[end + 2..]
  {
    assert token[i..][start - i + 2..] == token[start + 2..];
    h := NextHole(token[i..], start - i, end - start - 2);
    Slices(token, i, start, end);
  }

  lemma {:induction false} Slices(token: string, i: nat, start: nat, end: nat)
    requires i <= start && start + 2 <= end && end + 2 <= |token|
    ensures var rest := token[i..];
      && rest[..start - i] == token[i..start] && rest[start - i + 2..] == token[start + 2..]
      && token[start + 2..][..end - start - 2] == token[start + 2..end]
      && token[start + 2..][end - start..] == token[end + 2..]
  {
  }

  lemma {:induction false} FilledToEnd(token: string, i: nat, hs: seq<Hole>, vars: map<string, string>, out: string)
    requires Filled(token, i, hs, vars, out) && NoPair(token[i..], '{')
    ensures Substitute(token, vars) == Ok(out + token[i..])
  {
    SubstituteOfSplit(token, hs, token[i..], vars);
  }

  lemma {:induction false} FilledUnclosed(token: string, i: nat, start: nat, hs: seq<Hole>, vars: map<string, string>, out: string)
    requires Filled(token, i, hs, vars, out)
    requires i <= start && start + 2 <= |token| && start - i == IndexPair(token[i..], '{')
    requires NoPair(token[start + 2..], '}')
    ensures Substitute(token, vars).Err?
  {
    assert token[start + 2..] == token[i..][start - i + 2..];
    Unterminated(token, hs, token[i..], vars);
  }

  lemma {:induction false} FilledNothing(token: string, vars: map<string, string>)
    ensures Filled(token, 0, [], vars, "")
  {
    assert [] + token[0..] == token;
  }

  /** substitute: fill the holes of one token left to right, never looking at an inserted value again. */
  method SubstituteToken(token: string, vars: map<string, string>) returns (r: Outcome<string>)
    ensures r.Ok? == Substitute(token, vars).Ok?
    ensures r.Ok? ==> r == Substitute(token, vars)
  {
    var out, i := "", 0;
    ghost var hs: seq<Hole> := [];
    FilledNothing(token, vars);
    while i < |token|
      invariant 0 <= i <= |token|
      invariant Filled(token, i, hs, vars, out)
    {
      var start := IndexPair(token[i..], '{');
      if start == -1 {
        FilledToEnd(token, i, hs, vars, out);
        return Ok(out + token[i..]);
      }
      start := start + i;
      var lit := token[i..start];

      var end := IndexPair(token[start + 2..], '}');
      if end == -1 {
        FilledUnclosed(token, i, start, hs, vars, out);
        return Err("unterminated placeholder");
      }
      end := end + start + 2;

      ghost var h := FillHole(token, i, start, end, hs, vars, out);
      var name := TrimSpace(token[start + 2..end]);
      if name !in vars {
        return Err("undeclared variable");
      }
      out, i, hs := out + lit + vars[name], end + 2, hs + [h];
    }
    assert token[i..] == [] && out + [] == out;
    FilledToEnd(token, i, hs, vars, out);
    return Ok(out);
  }

  lemma {:induction false} SpelledOut(a: string, l: string, name: string, r: string, b: string)
    ensures a + "{{" + l + name + r + "}}" + b == a + (['{', '{'] + (l + name + r + ['}', '}'])) + b
  {
  }

  /** A single placeholder between texts without braces splits the token. */
  lemma {:induction false} LoneHole(h: Hole, b: string)
    requires '{' !in h.lit && '{' !in b && '}' !in h.raw
    ensures Splits(RenderHole(h) + b, [h], b)
  {
    assert [h][1..] == [] && Render([h]) == RenderHole(h) + [] == RenderHole(h);
  }

  /** `{{NAME}}` is its value wherever it stands, with or without white space inside the braces. */
  lemma {:induction false} BracesAlike(a: string, l: string, name: string, r: string, b: string, vars: map<string, string>)
    requires (forall i :: 0 <= i < |l| ==> l[i] in " \t\n\r") && (forall i :: 0 <= i < |r| ==> r[i] in " \t\n\r")
    requires name != [] && !IsSpace(name[0]) && !IsSpace(name[|name| - 1]) && '}' !in name
    requires '{' !in a && '{' !in b
    ensures Substitute(a + "{{" + l + name + r + "}}" + b, vars) ==
      if name in vars then Ok(a + vars[name] + b) else Err("unterminated or undeclared placeholder")
  {
    var h := Hole(a, l + name + r);
    var token := a + "{{" + l + name + r + "}}" + b;
    TrimsBothEnds(l, name, r);
    LoneHole(h, b);
    SpelledOut(a, l, name, r, b);
    SubstituteOfSplit(token, [h], b, vars);
    if name in vars {
      assert [h][0] == h && TrimSpace(h.raw) == name && [h][1..] == [];
      assert Fill([h], vars) == a + vars[name] + [];
      assert a + vars[name] + [] + b == a + vars[name] + b;
    }
  }

  /** A placeholder that is never closed is an error, whatever the variables. */
  lemma {:induction false} UnclosedIsError(a: string, rest: string, vars: map<string, string>)
    requires '}' !in a && '}' !in rest
    ensures Substitute(a + "{{" + rest, vars) == Err("unterminated or undeclared placeholder")
  {
    var token := a + "{{" + rest;
    assert '}' !in token;
    assert PairAt(token, '{', |a|);
    forall hs: seq<Hole>, tail: string ensures !Splits(token, hs, tail) {
      assert hs == [] ==> Render(hs) + tail == tail;
      if hs != [] {
        ClosesItself(hs, tail);
      }
    }
  }

  lemma {:induction false} ClosesItself(hs: seq<Hole>, tail: string)
    requires hs != []
    ensures '}' in Render(hs) + tail
  {
    var h := RenderHole(hs[0]);
    assert h[|h| - 1] == '}';
    assert (Render(hs) + tail)[|h| - 1] == h[|h| - 1];
  }
}
