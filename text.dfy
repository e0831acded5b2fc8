/** Text handling shared by the puzzle solutions: splitting into lines and
    tokens, and decimal number parsing with the rules of Rust's `str::parse`. */
module Text {

  datatype Option<+T> = None | Some(value: T)

  const U64_LIMIT: nat := 0x1_0000_0000_0000_0000
  const I64_LIMIT: nat := 0x8000_0000_0000_0000

  predicate IsDigit(c: char) { '0' <= c <= '9' }

  function DigitValue(c: char): (d: nat)
    requires IsDigit(c)
    ensures d < 10
  {
    (c as int - '0' as int) as nat
  }

  /** Index of the first occurrence of `c` in `s`, as Rust's `str::find`. */
  function Find(s: string, c: char): (r: Option<nat>)
    ensures r.None? <==> c !in s
    ensures r.Some? ==> r.value < |s| && s[r.value] == c && c !in s[..r.value]
  {
    if s == [] then None
    else if s[0] == c then Some(0)
    else match Find(s[1..], c)
      case None => None
      case Some(i) => assert s[1..][..i] == s[1..i + 1]; Some(i + 1)
  }

  /** Splits on every occurrence of `sep`; always at least one piece (Rust's `str::split`). */
  function Split(s: string, sep: char): (parts: seq<string>)
    ensures |parts| >= 1
    ensures forall p <- parts :: sep !in p
  {
    match Find(s, sep)
    case None => [s]
    case Some(i) => [s[..i]] + Split(s[i + 1..], sep)
  }

  /** Rust's `str::split_once`: the text before and after the first `sep`. */
  function SplitOnce(s: string, sep: char): (r: Option<(string, string)>)
    ensures r.None? <==> sep !in s
    ensures r.Some? ==> s == r.value.0 + [sep] + r.value.1 && sep !in r.value.0
  {
    match Find(s, sep)
    case None => None
    case Some(i) => Some((s[..i], s[i + 1..]))
  }

  /** The pieces glued back together with `sep` between them; `Split` undoes it. */
  function Join(parts: seq<string>, sep: char): string
    requires |parts| >= 1
  {
    if |parts| == 1 then parts[0] else parts[0] + [sep] + Join(parts[1..], sep)
  }

  /** The first `sep` is the one placed right after a piece free of it. */
  lemma FindAfter(a: string, sep: char, b: string)
    requires sep !in a
    ensures Find(a + [sep] + b, sep) == Some(|a|)
  {
    var s := a + [sep] + b;
    assert s[|a|] == sep && s[..|a|] == a;
  }

  lemma SplitOnceAt(a: string, sep: char, b: string)
    requires sep !in a
    ensures SplitOnce(a + [sep] + b, sep) == Some((a, b))
  {
    var s := a + [sep] + b;
    FindAfter(a, sep, b);
    assert s[..|a|] == a && s[|a| + 1..] == b;
  }

  lemma {:induction false} SplitJoin(parts: seq<string>, sep: char)
    requires |parts| >= 1 && forall p <- parts :: sep !in p
    ensures Split(Join(parts, sep), sep) == parts
  {
    if |parts| > 1 {
      var rest := Join(parts[1..], sep);
      var s := parts[0] + [sep] + rest;
      FindAfter(parts[0], sep, rest);
      assert s[..|parts[0]|] == parts[0] && s[|parts[0]| + 1..] == rest;
      SplitJoin(parts[1..], sep);
      assert parts == [parts[0]] + parts[1..];
    }
  }

  /** Drops one carriage return left in front of a line feed. */
  function StripCr(line: string): string
  {
    if |line| > 0 && line[|line| - 1] == '\r' then line[..|line| - 1] else line
  }

  /** Rust's `str::lines`: pieces between line feeds, a `\r` before a line feed
      removed, and no empty piece after a final line feed. */
  function Lines(s: string): (ls: seq<string>)
    ensures forall l <- ls :: '\n' !in l
    ensures s == [] <==> ls == []
  {
    if s == [] then []
    else match Find(s, '\n')
      case None => [s]
      case Some(i) => [StripCr(s[..i])] + Lines(s[i + 1..])
  }

  lemma LinesCons(line: string, rest: string)
    requires '\n' !in line && (|line| == 0 || line[|line| - 1] != '\r')
    ensures Lines(line + "\n" + rest) == [line] + Lines(rest)
  {
    var s := line + "\n" + rest;
    assert Find(s, '\n') == Some(|line|) by {
      assert s[|line|] == '\n' && s[..|line|] == line;
    }
    assert s[..|line|] == line && s[|line| + 1..] == rest;
  }

  /** Rust's `char::is_whitespace`: the Unicode White_Space characters, that
      is tab, line feed, vertical tab, form feed, carriage return, space,
      next line, no-break space and the white space of the higher blocks. */
  predicate IsSpace(c: char) {
    || '\t' <= c <= '\r'
    || c == ' ' || c == '\U{85}' || c == '\U{A0}' || c == '\U{1680}'
    || '\U{2000}' <= c <= '\U{200A}'
    || c == '\U{2028}' || c == '\U{2029}' || c == '\U{202F}' || c == '\U{205F}'
    || c == '\U{3000}'
  }

  /** Rust's `str::trim`: white space is taken off both ends. */
  function Trim(s: string): (t: string)
    ensures |t| <= |s|
    ensures t != [] ==> !IsSpace(t[0]) && !IsSpace(t[|t| - 1])
  {
    if s != [] && IsSpace(s[0]) then Trim(s[1..])
    else if s != [] && IsSpace(s[|s| - 1]) then Trim(s[..|s| - 1])
    else s
  }

  /** Form feed, vertical tab and no-break space are trimmed like a space. */
  lemma TrimExamples()
    ensures Trim("\U{C}1-3") == "1-3"
    ensures Trim("\U{B}7-9\U{A0}") == "7-9"
  {
    assert "\U{C}1-3"[1..] == "1-3";
    assert "\U{B}7-9\U{A0}"[1..] == "7-9\U{A0}";
    assert "7-9\U{A0}"[..3] == "7-9";
  }

  /** Length of the leading run of non-space characters. */
  function WordEnd(s: string): (k: nat)
    ensures k <= |s| && (k < |s| ==> IsSpace(s[k]))
    ensures forall i :: 0 <= i < k ==> !IsSpace(s[i])
  {
    if s == [] || IsSpace(s[0]) then 0 else WordEnd(s[1..]) + 1
  }

  /** Rust's `str::split_whitespace`: the maximal runs
      of non-space characters, in order. */
  function Words(s: string): (ws: seq<string>)
    ensures forall w <- ws :: w != [] && forall c <- w :: !IsSpace(c)
    ensures (forall c <- s :: IsSpace(c)) <==> ws == []
  {
    if s == [] then []
    else if IsSpace(s[0]) then Words(s[1..])
    else
      var k := WordEnd(s);
      assert forall c <- s[..k] :: !IsSpace(c);
      [s[..k]] + Words(s[k..])
  }

  /** A word ends where the text after it starts with a space, or where the
      text runs out. */
  lemma {:induction false} WordEndAt(w: string, rest: string)
    requires forall c <- w :: !IsSpace(c)
    requires rest == [] || IsSpace(rest[0])
    ensures WordEnd(w + rest) == |w|
  {
    if w != [] {
      assert (w + rest)[1..] == w[1..] + rest;
      WordEndAt(w[1..], rest);
    }
  }

  /** A space then a word: the word comes first among the words. */
  lemma WordsCons(w: string, rest: string)
    requires w != [] && forall c <- w :: !IsSpace(c)
    requires rest == [] || IsSpace(rest[0])
    ensures Words([' '] + w + rest) == [w] + Words(rest)
  {
    var s := [' '] + w + rest;
    assert s[1..] == w + rest;
    WordEndAt(w, rest);
    assert (w + rest)[..|w|] == w && (w + rest)[|w|..] == rest;
  }

  /** Value of a non-empty run of decimal digits. */
  function DigitsValue(s: string): nat
    requires forall c <- s :: IsDigit(c)
  {
    if s == [] then 0 else DigitsValue(s[..|s| - 1]) * 10 + DigitValue(s[|s| - 1])
  }

  predicate AllDigits(s: string) { |s| > 0 && forall c <- s :: IsDigit(c) }

  /** Rust's `str::parse::<u64>`: an optional `+`, then one or more digits, and
      a value that fits in 64 bits. */
  function ParseU64(s: string): (r: Option<nat>)
    ensures r.Some? ==> r.value < U64_LIMIT
    ensures AllDigits(s) && DigitsValue(s) < U64_LIMIT ==> r == Some(DigitsValue(s))
  {
    var body := if |s| > 0 && s[0] == '+' then s[1..] else s;
    assert AllDigits(s) ==> IsDigit(s[0]) && body == s;
    if AllDigits(body) && DigitsValue(body) < U64_LIMIT then Some(DigitsValue(body)) else None
  }

  /** Rust's `str::parse::<i64>`: an optional sign, digits, and a value in the
      64-bit two's-complement range. */
  function ParseI64(s: string): (r: Option<int>)
    ensures r.Some? ==> -(I64_LIMIT as int) <= r.value < I64_LIMIT
  {
    if |s| > 0 && s[0] == '-' then
      var body := s[1..];
      if AllDigits(body) && DigitsValue(body) <= I64_LIMIT then var v: int := DigitsValue(body); Some(-v) else None
    else
      var body := if |s| > 0 && s[0] == '+' then s[1..] else s;
      if AllDigits(body) && DigitsValue(body) < I64_LIMIT then Some(DigitsValue(body)) else None
  }

  /** Decimal rendering, the inverse of `DigitsValue`. */
  function Decimal(n: nat): (s: string)
    ensures AllDigits(s)
  {
    if n < 10 then [('0' as int + n) as char] else Decimal(n / 10) + [('0' as int + n % 10) as char]
  }

  lemma {:induction false} DecimalRoundTrip(n: nat)
    ensures DigitsValue(Decimal(n)) == n
  {
    var s := Decimal(n);
    if n >= 10 {
      DecimalRoundTrip(n / 10);
      assert s[..|s| - 1] == Decimal(n / 10);
    }
  }

  /** A rendered number below 2^64 parses back to itself. */
  lemma ParseU64Decimal(n: nat)
    requires n < U64_LIMIT
    ensures ParseU64(Decimal(n)) == Some(n)
  {
    DecimalRoundTrip(n);
  }

  /** Every piece parsed as an unsigned 64-bit number; `None` when one of
      them is not a number, where the source panics on `unwrap`. */
  function ParseAll(pieces: seq<string>): (r: Option<seq<nat>>)
    ensures r.Some? <==> forall i :: 0 <= i < |pieces| ==> ParseU64(pieces[i]).Some?
    ensures r.Some? ==> |r.value| == |pieces|
    ensures r.Some? ==> forall i :: 0 <= i < |pieces| ==> Some(r.value[i]) == ParseU64(pieces[i])
  {
    if pieces == [] then Some([])
    else
      var head, tail := ParseU64(pieces[0]), ParseAll(pieces[1..]);
      assert forall i :: 1 <= i < |pieces| ==> pieces[i] == pieces[1..][i - 1];
      if head.None? || tail.None? then None else Some([head.value] + tail.value)
  }

  lemma ParseAllCons(ds: seq<string>, n: nat, ns: seq<nat>)
    requires ds != [] && ParseU64(ds[0]) == Some(n) && ParseAll(ds[1..]) == Some(ns)
    ensures ParseAll(ds) == Some([n] + ns)
  {
  }
}
