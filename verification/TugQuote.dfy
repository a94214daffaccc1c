/** The quoted form of a string, read by the rules of Go's string literals: quoting loses nothing,
    and exactly the listed characters are escaped. */
module TugQuote {
  import opened Text
  import opened TugTree
  import opened TugPrint

  // ---------------------------------------------------------------- a reader of escapes

  datatype Read = Char(value: nat, rest: string) | Bad

  function HexValue(c: char): Option<nat> {
    if '0' <= c <= '9' then Some(c as nat - '0' as nat)
    else if 'a' <= c <= 'f' then Some(c as nat - 'a' as nat + 10)
    else None
  }

  /** The first `width` hexadecimal digits of `t`, as a continuation of the number `n`. */
  function ReadHex(t: string, width: nat, n: nat): Read {
    if width == 0 then Char(n, t)
    else if t == "" || HexValue(t[0]).None? then Bad
    else ReadHex(t[1..], width - 1, 16 * n + HexValue(t[0]).value)
  }

  /** The code of a control character that has a letter. */
  function LetterCode(c: char): Option<nat> {
    match c
    case 'a' => Some(0x07)
    case 'b' => Some(0x08)
    case 't' => Some(0x09)
    case 'n' => Some(0x0A)
    case 'v' => Some(0x0B)
    case 'f' => Some(0x0C)
    case 'r' => Some(0x0D)
    case _ => None
  }

  /** The first character a quoted text stands for. */
  function ReadOne(t: string): Read {
    if t == "" || t[0] == '"' then Bad
    else if t[0] != '\\' then Char(t[0] as nat, t[1..])
    else if |t| == 1 then Bad
    else if t[1] == '"' || t[1] == '\\' then Char(t[1] as nat, t[2..])
    else if t[1] == 'x' then ReadHex(t[2..], 2, 0)
    else if t[1] == 'u' then ReadHex(t[2..], 4, 0)
    else if t[1] == 'U' then ReadHex(t[2..], 8, 0)
    else match LetterCode(t[1])
      case Some(n) => Char(n, t[2..])
      case None => Bad
  }

  /** `t` is a sequence of escapes and plain characters that stand for `s`. */
  predicate StandsFor(t: string, s: string)
    decreases s
  {
    if s == "" then t == ""
    else match ReadOne(t)
      case Char(n, rest) => n == s[0] as nat && StandsFor(rest, s[1..])
      case Bad => false
  }

  // ---------------------------------------------------------------- hexadecimal digits

  function Pow16(k: nat): nat {
    if k == 0 then 1 else 16 * Pow16(k - 1)
  }

  lemma DigitReads(d: nat)
    requires d < 16
    ensures HexValue(HexDigit(d)) == Some(d)
  {
  }

  lemma {:induction false} ReadHexDigits(a: string, t: string, i: nat, m: nat)
    requires ReadHex(a, i, m).Char? && ReadHex(a, i, m).rest == ""
    ensures ReadHex(a + t, i, m) == Char(ReadHex(a, i, m).value, t)
  {
    if i == 0 {
      assert a + t == t;
    } else {
      assert (a + t)[1..] == a[1..] + t;
      ReadHexDigits(a[1..], t, i - 1, 16 * m + HexValue(a[0]).value);
    }
  }

  lemma {:induction false} ReadHexSnoc(a: string, d: char, i: nat, m: nat)
    requires ReadHex(a, i, m).Char? && ReadHex(a, i, m).rest == "" && HexValue(d).Some?
    ensures ReadHex(a + [d], i + 1, m) == Char(16 * ReadHex(a, i, m).value + HexValue(d).value, "")
  {
    if i == 0 {
      assert a + [d] == [d];
      assert ReadHex([d][1..], 0, 16 * m + HexValue(d).value) == Char(16 * m + HexValue(d).value, "");
    } else {
      assert (a + [d])[1..] == a[1..] + [d];
      ReadHexSnoc(a[1..], d, i - 1, 16 * m + HexValue(a[0]).value);
    }
  }

  lemma {:induction false} HexReads(n: nat, width: nat)
    requires n < Pow16(width)
    ensures ReadHex(Hex(n, width), width, 0) == Char(n, "")
  {
    if width > 0 {
      HexReads(n / 16, width - 1);
      DigitReads(n % 16);
      ReadHexSnoc(Hex(n / 16, width - 1), HexDigit(n % 16), width - 1, 0);
    }
  }

  lemma HexReadsBefore(n: nat, width: nat, t: string)
    requires n < Pow16(width)
    ensures ReadHex(Hex(n, width) + t, width, 0) == Char(n, t)
  {
    HexReads(n, width);
    ReadHexDigits(Hex(n, width), t, width, 0);
  }

  lemma Pow16Values()
    ensures Pow16(2) == 0x100 && Pow16(4) == 0x1_0000 && Pow16(8) == 0x1_0000_0000
  {
    assert Pow16(1) == 16;
    assert Pow16(3) == 0x1000;
    assert Pow16(5) == 0x10_0000 && Pow16(6) == 0x100_0000 && Pow16(7) == 0x1000_0000;
  }

  lemma HexEscapeReads(n: nat, t: string)
    requires n < 0x1_0000_0000
    ensures ReadOne(HexEscape(n) + t) == Char(n, t)
  {
    Pow16Values();
    if n < 0x20 || n == 0x7F {
      TailAfter("\\x", n, 2, t);
    } else if n < 0x10000 {
      TailAfter("\\u", n, 4, t);
    } else {
      TailAfter("\\U", n, 8, t);
    }
  }

  lemma TailAfter(head: string, n: nat, width: nat, t: string)
    requires |head| == 2 && n < Pow16(width)
    ensures var x := head + Hex(n, width) + t;
            |x| >= 2 && x[0] == head[0] && x[1] == head[1] && ReadHex(x[2..], width, 0) == Char(n, t)
  {
    HexReadsBefore(n, width, t);
    assert (head + Hex(n, width) + t)[2..] == Hex(n, width) + t;
  }

  // ---------------------------------------------------------------- quoting loses nothing

  lemma EscapeReads(e: Fmt, c: char, t: string)
    ensures ReadOne(EscapeChar(e, c) + t) == Char(c as nat, t)
  {
    var n := c as nat;
    if c == '"' || c == '\\' {
    } else if IsPrint(e, c) {
    } else if 7 <= n <= 13 {
      LetterReads(n);
    } else {
      HexEscapeReads(n, t);
    }
  }

  lemma LetterReads(n: nat)
    requires 7 <= n <= 13
    ensures LetterCode(ControlLetter(n)) == Some(n)
  {
    if n == 7 {
    } else if n == 8 {
    } else if n == 9 {
    } else if n == 10 {
    } else if n == 11 {
    } else if n == 12 {
    }
  }

  /** Between the quotes stands the string itself, character by character. */
  lemma {:induction false} QuotedStandsFor(e: Fmt, s: string)
    ensures StandsFor(Escape(e, s), s)
  {
    if s != "" {
      EscapeReads(e, s[0], Escape(e, s[1..]));
      QuotedStandsFor(e, s[1..]);
    }
  }

  lemma {:induction false} StandsForOne(t: string, s: string, s': string)
    requires StandsFor(t, s) && StandsFor(t, s')
    ensures s == s'
    decreases s
  {
    if s != "" && s' != "" {
      StandsForOne(ReadOne(t).rest, s[1..], s'[1..]);
      assert s == [s[0]] + s[1..] && s' == [s'[0]] + s'[1..];
    }
  }

  /** No two strings have one quoted form. */
  lemma QuoteIsInjective(e: Fmt, s: string, s': string)
    ensures Quote(e, s) == Quote(e, s') <==> s == s'
  {
    if Quote(e, s) == Quote(e, s') {
      assert Quote(e, s)[1..|Escape(e, s)| + 1] == Escape(e, s);
      assert Quote(e, s')[1..|Escape(e, s')| + 1] == Escape(e, s');
      QuotedStandsFor(e, s);
      QuotedStandsFor(e, s');
      StandsForOne(Escape(e, s), s, s');
    }
  }

  /** A character stands for itself iff it is printable and neither a quote nor a backslash; the
      printable ASCII characters are those from space to tilde. */
  lemma WrittenAsItself(e: Fmt, c: char)
    ensures EscapeChar(e, c) == [c] <==>
              c != '"' && c != '\\' && (if c as nat < 128 then 32 <= c as nat <= 126 else e.isPrint(c))
  {
    HexEscapeLong(c as nat);
  }

  lemma HexEscapeLong(n: nat)
    ensures |HexEscape(n)| > 1
  {
  }
}
