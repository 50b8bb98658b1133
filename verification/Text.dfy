/** Strings as rune sequences, with the few library operations the agent relies on. */
module Text {

  datatype Option<+T> = None | Some(value: T)

  /** A Go call that returns a value or an error. */
  datatype Outcome<+T> = Ok(value: T) | Err(reason: string)

  // ----- 64-bit integers -----

  const TWO63: int := 0x8000_0000_0000_0000
  const TWO64: int := 0x1_0000_0000_0000_0000

  predicate IsInt64(n: int) {
    -TWO63 <= n < TWO63
  }

  type int64 = n: int | IsInt64(n)

  /** Two's complement wrap-around of an exact result. */
  function Wrap64(n: int): (r: int64) {
    (n + TWO63) % TWO64 - TWO63
  }

  /** Go's integer division truncates towards zero. */
  function TruncDiv(a: int, b: int): int
    requires b > 0
  {
    if a >= 0 then a / b else -((-a) / b)
  }

  // ----- decimal numbers -----

  predicate IsDigit(c: char) {
    '0' <= c <= '9'
  }

  function FormatNat(n: nat): (s: string)
    ensures s != [] && forall i :: 0 <= i < |s| ==> IsDigit(s[i])
  {
    if n < 10 then [('0' as int + n) as char]
    else FormatNat(n / 10) + [('0' as int + n % 10) as char]
  }

  /** fmt.Sprintf("%d", n). */
  function FormatInt(n: int): (s: string) {
    if n < 0 then "-" + FormatNat(-n) else FormatNat(n)
  }

  function DigitsValue(s: string): nat
    requires forall i :: 0 <= i < |s| ==> IsDigit(s[i])
  {
    if s == [] then 0
    else
      assert IsDigit(s[|s| - 1]);
      DigitsValue(s[..|s| - 1]) * 10 + (s[|s| - 1] as int - '0' as int)
  }

  /** strconv.ParseInt(s, 10, 64), and strconv.Atoi on a 64-bit platform. */
  function ParseInt(s: string): (r: Option<int64>) {
    var negative := s != [] && s[0] == '-';
    var digits := if s != [] && (s[0] == '-' || s[0] == '+') then s[1..] else s;
    if digits == [] || exists i :: 0 <= i < |digits| && !IsDigit(digits[i]) then None
    else
      var n: int := DigitsValue(digits);
      var v := if negative then -n else n;
      if IsInt64(v) then Some(v) else None
  }

  lemma {:induction false} DigitsValueOfFormat(n: nat)
    ensures DigitsValue(FormatNat(n)) == n
  {
    if n >= 10 {
      DigitsValueOfFormat(n / 10);
      var s := FormatNat(n);
      assert s[..|s| - 1] == FormatNat(n / 10);
    }
  }

  /** The value of a text that is an optional minus sign and digits. */
  lemma {:induction false} ParseDigits(negative: bool, d: string)
    requires d != [] && forall i :: 0 <= i < |d| ==> IsDigit(d[i])
    ensures var n: int := DigitsValue(d);
      var v := if negative then -n else n;
      ParseInt((if negative then "-" else "") + d) == if IsInt64(v) then Some(v) else None
  {
    if negative {
      assert ("-" + d)[1..] == d;
    } else {
      assert "" + d == d && IsDigit(d[0]);
    }
  }

  /** Printing a 64-bit integer and parsing it back is the identity. */
  lemma {:induction false} ParseOfFormat(n: int64)
    ensures ParseInt(FormatInt(n)) == Some(n)
  {
    var m: int := n;
    var a: nat := if m < 0 then -m else m;
    DigitsValueOfFormat(a);
    ParseDigits(m < 0, FormatNat(a));
    assert "" + FormatNat(a) == FormatNat(a);
  }

  // ----- splitting and joining -----

  /** strings.Split(s, sep) for a one-rune separator: always at least one part. */
  function Split(s: string, sep: char): (parts: seq<string>)
    ensures parts != []
    ensures forall p | p in parts :: sep !in p
  {
    if s == [] then [[]]
    else
      var rest := Split(s[1..], sep);
      if s[0] == sep then [[]] + rest else [[s[0]] + rest[0]] + rest[1..]
  }

  /** strings.Join(parts, sep). */
  function Join(parts: seq<string>, sep: string): (s: string) {
    if parts == [] then []
    else if |parts| == 1 then parts[0]
    else parts[0] + sep + Join(parts[1..], sep)
  }

  /** Splitting at a separator that occurs nowhere in `head` peels `head` off. */
  lemma {:induction false} SplitHead(head: string, tail: string, sep: char)
    requires sep !in head
    ensures Split(head + [sep] + tail, sep) == [head] + Split(tail, sep)
  {
    var s := head + [sep] + tail;
    if head == [] {
      assert s[1..] == tail;
    } else {
      SplitHead(head[1..], tail, sep);
      assert s[1..] == head[1..] + [sep] + tail;
      assert [head[0]] + head[1..] == head;
    }
  }

  lemma {:induction false} SplitNone(s: string, sep: char)
    requires sep !in s
    ensures Split(s, sep) == [s]
  {
    if s != [] {
      SplitNone(s[1..], sep);
      assert [s[0]] + s[1..] == s;
    }
  }

  /** strings.TrimSpace's notion of white space. */
  predicate IsSpace(c: char) {
    || c in "\t\n\r "
    || c as int in {0x0B, 0x0C, 0x85, 0xA0, 0x1680, 0x2028, 0x2029, 0x202F, 0x205F, 0x3000}
    || 0x2000 <= c as int <= 0x200A
  }

  function TrimSpace(s: string): (r: string)
    ensures |r| <= |s|
    decreases |s|
  {
    if s == [] then s
    else if IsSpace(s[0]) then TrimSpace(s[1..])
    else if IsSpace(s[|s| - 1]) then TrimSpace(s[..|s| - 1])
    else s
  }

  /** len(s) of the UTF-8 encoding. */
  function Utf8Len(s: string): nat {
    if s == [] then 0
    else
      var c := s[0] as int;
      (if c < 0x80 then 1 else if c < 0x800 then 2 else if c < 0x1_0000 then 3 else 4) + Utf8Len(s[1..])
  }

  lemma {:induction false} Utf8Append(a: string, b: string)
    ensures Utf8Len(a + b) == Utf8Len(a) + Utf8Len(b)
  {
    if a == [] {
      assert a + b == b;
    } else {
      Utf8Append(a[1..], b);
      assert (a + b)[1..] == a[1..] + b;
    }
  }

  /** A map index as Go reads it: the empty string for a missing key. */
  function Lookup(m: map<string, string>, key: string): string {
    if key in m then m[key] else ""
  }

  /** Flattening a sequence of sequences. */
  function Concat<T>(parts: seq<seq<T>>): (s: seq<T>) {
    if parts == [] then [] else parts[0] + Concat(parts[1..])
  }

  lemma {:induction false} ConcatAppend<T>(a: seq<seq<T>>, b: seq<seq<T>>)
    ensures Concat(a + b) == Concat(a) + Concat(b)
  {
    if a == [] {
      assert a + b == b;
    } else {
      assert (a + b)[1..] == a[1..] + b;
      ConcatAppend(a[1..], b);
    }
  }

  predicate AllSpace(s: string) {
    forall i :: 0 <= i < |s| ==> IsSpace(s[i])
  }

  lemma {:induction false} TrimsLeft(l: string, s: string)
    requires AllSpace(l)
    ensures TrimSpace(l + s) == TrimSpace(s)
    decreases |l|
  {
    var t := l + s;
    if l == [] {
      assert t == s;
    } else {
      assert t[0] == l[0] && t[1..] == l[1..] + s;
      TrimsLeft(l[1..], s);
    }
  }

  lemma {:induction false} TrimsRight(s: string, r: string)
    requires AllSpace(r) && s != [] && !IsSpace(s[0]) && !IsSpace(s[|s| - 1])
    ensures TrimSpace(s + r) == s
    decreases |r|
  {
    var t := s + r;
    assert t[0] == s[0];
    if r == [] {
      assert t == s;
    } else {
      assert t[|t| - 1] == r[|r| - 1] && t[..|t| - 1] == s + r[..|r| - 1];
      TrimsRight(s, r[..|r| - 1]);
    }
  }

  /** Trimming takes the white space off both ends and nothing else. */
  lemma {:induction false} TrimsBothEnds(l: string, s: string, r: string)
    requires AllSpace(l) && AllSpace(r) && (s != [] ==> !IsSpace(s[0]) && !IsSpace(s[|s| - 1]))
    ensures TrimSpace(l + s + r) == s
  {
    if s == [] {
      assert l + s + r == (l + r) + [];
      TrimsLeft(l + r, []);
    } else {
      assert l + s + r == l + (s + r);
      TrimsLeft(l, s + r);
      TrimsRight(s, r);
    }
  }

  // ----- UTF-8 -----

  /** The bytes of one rune, as section 3 of RFC 3629 lays them out. */
  function EncodeRune(c: char): seq<int> {
    var n := c as int;
    match Utf8Len([c])
    case 1 => [n]
    case 2 => [0xC0 + n / 64, 0x80 + n % 64]
    case 3 => [0xE0 + n / 4096, 0x80 + n / 64 % 64, 0x80 + n % 64]
    case _ => [0xF0 + n / 262144, 0x80 + n / 4096 % 64, 0x80 + n / 64 % 64, 0x80 + n % 64]
  }

  /** The number of bytes a lead byte announces. */
  function Announced(lead: int): nat {
    if lead < 0x80 then 1 else if lead < 0xE0 then 2 else if lead < 0xF0 then 3 else 4
  }

  /** A rune takes as many bytes as its lead byte announces, and no shorter form holds it. */
  lemma {:induction false} RuneLength(c: char)
    ensures Utf8Len([c]) == |EncodeRune(c)| == Announced(EncodeRune(c)[0])
    ensures |EncodeRune(c)| == 2 ==> c as int >= 0x80
    ensures |EncodeRune(c)| == 3 ==> c as int >= 0x800
    ensures |EncodeRune(c)| == 4 ==> c as int >= 0x1_0000
  {
    assert [c][1..] == [];
  }
}
