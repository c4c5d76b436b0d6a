/** The std::ostream and std::istream operations that the serialization uses, with the stream state flags. */
module TextStreams {
  import opened Prelude

  // ---- numbers as text

  function DigitChar(d: nat): char
    requires d < 10
  {
    '0' + d as char
  }

  predicate IsDigit(c: char) {
    '0' <= c <= '9'
  }

  function DigitOf(c: char): (d: nat)
    requires IsDigit(c)
    ensures d < 10
  {
    c as int - 48
  }

  function Digits(n: nat): (s: string)
    ensures s != [] && forall c :: c in s ==> IsDigit(c)
  {
    if n < 10 then [DigitChar(n)] else Digits(n / 10) + [DigitChar(n % 10)]
  }

  function Decimal(n: int): string {
    if n < 0 then "-" + Digits(-n) else Digits(n)
  }

  function DigitsValue(s: string): nat
    requires forall c :: c in s ==> IsDigit(c)
  {
    if s == [] then 0
    else
      var last := s[|s| - 1];
      assert last in s;
      10 * DigitsValue(s[..|s| - 1]) + DigitOf(last)
  }

  lemma {:induction false} DigitsValueOf(n: nat)
    ensures DigitsValue(Digits(n)) == n
  {
    var s := Digits(n);
    if n < 10 {
      assert s[..0] == [];
    } else {
      assert s[..|s| - 1] == Digits(n / 10);
      DigitsValueOf(n / 10);
    }
  }

  /** How many leading characters satisfy a test. */
  function Run(s: string, p: char -> bool): (k: nat)
    ensures k <= |s| && (forall i :: 0 <= i < k ==> p(s[i])) && (k < |s| ==> !p(s[k]))
  {
    if s == [] || !p(s[0]) then 0 else 1 + Run(s[1..], p)
  }

  // ---- what an input operation does to the stream

  /** The characters not yet extracted, and the eofbit and failbit. */
  datatype In = In(rest: string, eof: bool, fail: bool)

  predicate Good(i: In) {
    !i.eof && !i.fail
  }

  function Fresh(rest: string): In {
    In(rest, false, false)
  }

  /** std::getline(is, str, delim): nothing is stored once the stream has stopped being good. */
  function GetLine(i: In, str: string, delim: char): (r: (In, string))
    ensures delim !in str ==> delim !in r.1
  {
    if !Good(i) then (i.(fail := true), str)
    else
      var k := Find(i.rest, delim);
      if k < |i.rest| then (Fresh(i.rest[k + 1..]), i.rest[..k])
      else (In([], true, i.rest == []), i.rest)
  }

  /** is.getline(&c, 1): extracts one newline if it comes next and fails otherwise. */
  function SkipNewline(i: In): In {
    if !Good(i) then i.(fail := true)
    else if i.rest == [] then In([], true, true)
    else if i.rest[0] == '\n' then Fresh(i.rest[1..])
    else i.(fail := true)
  }

  /** The sign, the digits and what follows them, after the white space a formatted extraction skips. */
  datatype Scanned = Scanned(negative: bool, digits: string, rest: string)

  function Scan(s: string): (r: Scanned)
    ensures forall c :: c in r.digits ==> IsDigit(c)
  {
    var signed := s != [] && (s[0] == '-' || s[0] == '+');
    var t := if signed then s[1..] else s;
    var k := Run(t, IsDigit);
    Scanned(signed && s[0] == '-', t[..k], t[k..])
  }

  function Clamp(n: int, lo: int, hi: int): int {
    if n < lo then lo else if n > hi then hi else n
  }

  /** is >> n for a signed integer type with the given range. */
  function GetInt(i: In, n: int, lo: int, hi: int): (In, int) {
    if !Good(i) then (i.(fail := true), n)
    else
      var s := i.rest[Run(i.rest, IsSpace)..];
      if s == [] then (In([], true, true), n)
      else
        var r := Scan(s);
        var m: int := DigitsValue(r.digits);
        var v := if r.negative then -m else m;
        (In(r.rest, r.rest == [], r.digits == [] || v < lo || v > hi), Clamp(v, lo, hi))
  }

  const LONG_MAX := 0x7FFF_FFFF_FFFF_FFFF
  const SIZE_MAX := 0xFFFF_FFFF_FFFF_FFFF

  /** is >> b without boolalpha: reads a long, and anything but 0 and 1 fails with true. */
  function GetBool(i: In, b: bool): (In, bool) {
    var (j, v) := GetInt(i, if b then 1 else 0, -LONG_MAX - 1, LONG_MAX);
    (if v == 0 || v == 1 then j else j.(fail := true), v != 0)
  }

  /** is >> n for std::size_t: a minus sign negates modulo 2^64. */
  function GetSize(i: In, n: nat): (In, nat) {
    if !Good(i) then (i.(fail := true), n)
    else
      var s := i.rest[Run(i.rest, IsSpace)..];
      if s == [] then (In([], true, true), n)
      else
        var r := Scan(s);
        var m := DigitsValue(r.digits);
        (In(r.rest, r.rest == [], r.digits == [] || m > SIZE_MAX),
         if m > SIZE_MAX then SIZE_MAX else if r.negative && m > 0 then SIZE_MAX + 1 - m else m)
  }

  // ---- printed text as terminated tokens

  datatype Token = Token(text: string, delim: char)

  function Line(text: string): Token {
    Token(text, '\n')
  }

  const BLANK := Line("")

  /** The tokens, each followed by its delimiter, and then the tail. */
  function Text(ts: seq<Token>, tail: string): string {
    if ts == [] then tail else ts[0].text + [ts[0].delim] + Text(ts[1..], tail)
  }

  lemma {:induction false} TextAppend(a: seq<Token>, b: seq<Token>, tail: string)
    ensures Text(a + b, tail) == Text(a, []) + Text(b, tail)
  {
    if a == [] {
      assert a + b == b;
    } else {
      assert (a + b)[1..] == a[1..] + b;
      TextAppend(a[1..], b, tail);
    }
  }

  /** getline takes one token whose text does not hold the delimiter. */
  lemma TakeLine(ts: seq<Token>, tail: string, str: string, delim: char)
    requires ts != [] && ts[0].delim == delim && delim !in ts[0].text
    ensures GetLine(Fresh(Text(ts, tail)), str, delim) == (Fresh(Text(ts[1..], tail)), ts[0].text)
  {
    var s := Text(ts, tail);
    var k := |ts[0].text|;
    assert s[..k] == ts[0].text && s[k] == delim && s[k + 1..] == Text(ts[1..], tail);
    FindExact(s, delim, k);
  }

  lemma TakeBlank(ts: seq<Token>, tail: string)
    requires ts != [] && ts[0] == BLANK
    ensures SkipNewline(Fresh(Text(ts, tail))) == Fresh(Text(ts[1..], tail))
  {
  }

  lemma RunExact(s: string, p: char -> bool, k: nat)
    requires k <= |s| && (forall i :: 0 <= i < k ==> p(s[i])) && (k < |s| ==> !p(s[k]))
    ensures Run(s, p) == k
  {
  }

  lemma ScanDigits(d: string, rest: string)
    requires (forall c :: c in d ==> IsDigit(c)) && (rest == [] || !IsDigit(rest[0]))
    ensures var k := Run(d + rest, IsDigit); (d + rest)[..k] == d && (d + rest)[k..] == rest
  {
    var t := d + rest;
    assert t[..|d|] == d && t[|d|..] == rest;
    assert forall i :: 0 <= i < |d| ==> t[i] in d;
    RunExact(t, IsDigit, |d|);
  }

  lemma ScanSigned(d: string, rest: string)
    requires d != [] && (forall c :: c in d ==> IsDigit(c)) && rest != [] && !IsDigit(rest[0])
    ensures Scan(d + rest) == Scanned(false, d, rest) && Scan("-" + d + rest) == Scanned(true, d, rest)
  {
    hide Run;
    ScanDigits(d, rest);
    assert d[0] in d;
    var t := d + rest;
    assert t[0] == d[0];
    var s := "-" + d + rest;
    assert s == ['-'] + t;
    assert s[0] == '-' && s[1..] == t;
  }

  lemma ScanDecimal(n: int, rest: string)
    requires rest != [] && !IsDigit(rest[0])
    ensures Scan(Decimal(n) + rest) == Scanned(n < 0, Digits(if n < 0 then -n else n), rest)
    ensures DigitsValue(Digits(if n < 0 then -n else n)) == (if n < 0 then -n else n)
    ensures Run(Decimal(n) + rest, IsSpace) == 0
  {
    hide Digits, DigitsValue, Scan;
    var m := if n < 0 then -n else n;
    DigitsValueOf(m);
    ScanSigned(Digits(m), rest);
    assert (Decimal(n) + rest)[0] == Decimal(n)[0];
    assert Digits(m)[0] in Digits(m);
  }

  lemma FirstToken(ts: seq<Token>, tail: string)
    requires ts != []
    ensures Text(ts, tail) == ts[0].text + ([ts[0].delim] + Text(ts[1..], tail))
  {
  }

  lemma IntBefore(n: int, rest: string, oldN: int, lo: int, hi: int)
    requires rest != [] && !IsDigit(rest[0]) && lo <= n <= hi
    ensures GetInt(Fresh(Decimal(n) + rest), oldN, lo, hi) == (Fresh(rest), n)
  {
    hide Decimal, Digits, DigitsValue, Scan, Run;
    var s := Decimal(n) + rest;
    ScanDecimal(n, rest);
    assert s[0..] == s;
  }

  /** A number printed on its own line reads back, and the newline goes with the getline that follows. */
  lemma TakeInt(ts: seq<Token>, tail: string, n: int, oldN: int, lo: int, hi: int)
    requires ts != [] && ts[0] == Line(Decimal(n)) && lo <= n <= hi
    ensures var (i, v) := GetInt(Fresh(Text(ts, tail)), oldN, lo, hi);
            v == n && SkipNewline(i) == Fresh(Text(ts[1..], tail))
  {
    hide Text, GetInt, Decimal;
    FirstToken(ts, tail);
    IntBefore(n, "\n" + Text(ts[1..], tail), oldN, lo, hi);
  }

  lemma TakeBool(ts: seq<Token>, tail: string, b: bool, oldB: bool)
    requires ts != [] && ts[0] == Line(Decimal(if b then 1 else 0))
    ensures var (i, v) := GetBool(Fresh(Text(ts, tail)), oldB); v == b && SkipNewline(i) == Fresh(Text(ts[1..], tail))
  {
    hide GetInt;
    TakeInt(ts, tail, if b then 1 else 0, if oldB then 1 else 0, -LONG_MAX - 1, LONG_MAX);
  }

  lemma SizeBefore(n: nat, rest: string, oldN: nat)
    requires rest != [] && !IsDigit(rest[0]) && n <= SIZE_MAX
    ensures GetSize(Fresh(Decimal(n) + rest), oldN) == (Fresh(rest), n)
  {
    hide Decimal, Digits, DigitsValue, Scan, Run;
    var s := Decimal(n) + rest;
    ScanDecimal(n, rest);
    assert s[0..] == s;
  }

  lemma TakeSize(ts: seq<Token>, tail: string, n: nat, oldN: nat)
    requires ts != [] && ts[0] == Line(Decimal(n)) && n <= SIZE_MAX
    ensures var (i, v) := GetSize(Fresh(Text(ts, tail)), oldN); v == n && SkipNewline(i) == Fresh(Text(ts[1..], tail))
  {
    hide Text, GetSize, Decimal;
    FirstToken(ts, tail);
    SizeBefore(n, "\n" + Text(ts[1..], tail), oldN);
  }

  // ---- any input

  predicate IsSign(sign: string) {
    sign == "" || sign == "+" || sign == "-"
  }

  lemma ScanAny(sign: string, n: nat, rest: string)
    requires IsSign(sign) && (rest == "" || !('0' <= rest[0] <= '9'))
    ensures Scan(sign + Digits(n) + rest) == Scanned(sign == "-", Digits(n), rest)
  {
    hide Digits, Run, Scan;
    var d := Digits(n);
    ScanDigits(d, rest);
    assert d[0] in d;
    var t := d + rest;
    assert t[0] == d[0];
    assert sign + d + rest == sign + t;
    if sign == "" {
      assert sign + t == t;
      ScanPlain(t);
    } else {
      assert sign == [sign[0]];
      ScanSign(sign[0], t);
    }
  }

  lemma ScanPlain(t: string)
    requires t != "" && IsDigit(t[0])
    ensures var k := Run(t, IsDigit); Scan(t) == Scanned(false, t[..k], t[k..])
  {
    hide Run;
  }

  lemma ScanSign(c: char, t: string)
    requires c == '-' || c == '+'
    ensures var k := Run(t, IsDigit); Scan([c] + t) == Scanned(c == '-', t[..k], t[k..])
  {
    hide Run;
    assert ([c] + t)[1..] == t && ([c] + t)[0] == c;
  }

  lemma Skipped(blanks: string, s: string)
    requires (forall c :: c in blanks ==> IsSpace(c)) && (s == "" || !IsSpace(s[0]))
    ensures var k := Run(blanks + s, IsSpace); k == |blanks| && (blanks + s)[k..] == s
  {
    var t := blanks + s;
    assert forall i :: 0 <= i < |blanks| ==> t[i] in blanks;
    assert t[|blanks|..] == s;
    RunExact(t, IsSpace, |blanks|);
  }

  lemma NumberStart(sign: string, n: nat, rest: string)
    requires IsSign(sign)
    ensures var s := sign + Digits(n) + rest; s != "" && !IsSpace(s[0])
  {
    hide Digits;
    assert Digits(n)[0] in Digits(n);
    assert (sign + Digits(n) + rest)[0] == if sign == "" then Digits(n)[0] else sign[0];
  }

  /** A number anywhere: white space and a sign in front of it, anything but a digit behind it, and any size. */
  lemma IntAnywhere(blanks: string, sign: string, n: nat, rest: string, oldN: int, lo: int, hi: int)
    requires (forall c :: c in blanks ==> IsSpace(c)) && IsSign(sign) && (rest == "" || !('0' <= rest[0] <= '9')) &&
             lo <= hi
    ensures var m: int := n; var v := if sign == "-" then -m else m;
            GetInt(Fresh(blanks + (sign + Digits(n) + rest)), oldN, lo, hi) ==
            (In(rest, rest == "", v < lo || v > hi), if v < lo then lo else if v > hi then hi else v)
  {
    hide Digits, DigitsValue, Scan, Run;
    var s := sign + Digits(n) + rest;
    NumberStart(sign, n, rest);
    Skipped(blanks, s);
    ScanAny(sign, n, rest);
    DigitsValueOf(n);
  }

  /** The same for a size: a minus sign negates modulo 2^64. */
  lemma SizeAnywhere(blanks: string, sign: string, n: nat, rest: string, oldN: nat)
    requires (forall c :: c in blanks ==> IsSpace(c)) && IsSign(sign) && (rest == "" || !('0' <= rest[0] <= '9'))
    ensures var max := 0xFFFF_FFFF_FFFF_FFFF;
            GetSize(Fresh(blanks + (sign + Digits(n) + rest)), oldN) ==
            (In(rest, rest == "", n > max),
             if n > max then max else if sign == "-" then (max + 1 - n) % (max + 1) else n)
  {
    hide Digits, DigitsValue, Scan, Run;
    var s := sign + Digits(n) + rest;
    NumberStart(sign, n, rest);
    Skipped(blanks, s);
    ScanAny(sign, n, rest);
    DigitsValueOf(n);
  }

  /** A flag is 0 or 1; any other number fails and counts as true. */
  lemma BoolAnywhere(n: nat, rest: string, oldB: bool)
    requires (rest == "" || !('0' <= rest[0] <= '9')) && n <= LONG_MAX
    ensures GetBool(Fresh(Digits(n) + rest), oldB) == (In(rest, rest == "", n > 1), n != 0)
  {
    hide Digits, GetInt;
    assert "" + ("" + Digits(n) + rest) == Digits(n) + rest;
    IntAnywhere("", "", n, rest, if oldB then 1 else 0, -LONG_MAX - 1, LONG_MAX);
  }

  /** Where there is no number, extraction fails with 0, in front of what stands there. */
  lemma NoNumber(blanks: string, s: string, oldN: int, lo: int, hi: int)
    requires (forall c :: c in blanks ==> IsSpace(c)) && lo <= 0 <= hi
    requires s != "" && !IsSpace(s[0]) && !('0' <= s[0] <= '9') && s[0] != '-' && s[0] != '+'
    ensures GetInt(Fresh(blanks + s), oldN, lo, hi) == (In(s, false, true), 0)
    ensures GetInt(Fresh(blanks), oldN, lo, hi) == (In("", true, true), oldN)
  {
    hide Run;
    Skipped(blanks, s);
    Skipped(blanks, "");
    assert blanks + "" == blanks;
    RunExact(s, IsDigit, 0);
    assert s[..0] == "" && s[0..] == s;
  }

  /** A stream that is not good any more gives nothing and fails. */
  lemma NothingGot(i: In, str: string, delim: char, n: int, lo: int, hi: int, size: nat, b: bool)
    requires i.eof || i.fail
    ensures var f := In(i.rest, i.eof, true);
            && GetLine(i, str, delim) == (f, str) && SkipNewline(i) == f
            && GetInt(i, n, lo, hi) == (f, n) && GetSize(i, size) == (f, size) && GetBool(i, b) == (f, b)
  {
  }

  /** A last line without its delimiter counts, an empty one does not. */
  lemma LastLine(s: string, str: string, delim: char)
    requires delim !in s
    ensures GetLine(Fresh(s), str, delim) == (In("", true, s == ""), s)
  {
    assert s[..|s|] == s;
    FindExact(s, delim, |s|);
  }

  /** Only a newline is consumed; anything else stays, and the stream fails. */
  lemma OnlyNewline(s: string)
    ensures SkipNewline(Fresh("\n" + s)) == Fresh(s)
    ensures s != "" && s[0] != '\n' ==> SkipNewline(Fresh(s)) == In(s, false, true)
    ensures SkipNewline(Fresh("")) == In("", true, true)
  {
    assert ("\n" + s)[1..] == s;
  }

  /** A printed number of any size reads as the nearest value of its type, and fails if it is not one itself. */
  lemma TakeAnyInt(ts: seq<Token>, tail: string, n: int, oldN: int, lo: int, hi: int)
    requires ts != [] && ts[0] == Line(Decimal(n)) && lo <= hi
    ensures GetInt(Fresh(Text(ts, tail)), oldN, lo, hi) ==
            (In("\n" + Text(ts[1..], tail), false, n < lo || n > hi), if n < lo then lo else if n > hi then hi else n)
  {
    hide GetInt, Text, Digits;
    FirstToken(ts, tail);
    var sign, m := if n < 0 then "-" else "", if n < 0 then -n else n;
    var rest := "\n" + Text(ts[1..], tail);
    assert Decimal(n) + rest == "" + (sign + Digits(m) + rest);
    IntAnywhere("", sign, m, rest, oldN, lo, hi);
  }
}
