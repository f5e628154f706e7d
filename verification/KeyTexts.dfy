/** The text of a stream key on the wire: the canonical JSON text of a pair of names, from
    which the pair can be read back. */
module KeyTexts {
  import opened Json
  import opened PeerStore

  function KeyText(k: StreamKey): string {
    match k
    case Pair(a, b) => "[" + EncodeString(a) + ", " + EncodeString(b) + "]"
    case Other(text) => text
  }

  /** What the key length counts is the text on the wire. */
  lemma {:induction false} KeyLengthIs(a: string, b: string)
    ensures |KeyText(Pair(a, b))| == KeyLength(a, b)
  {
  }

  // ----- escapes can be told apart -----

  lemma HexDigitsDiffer(m: int, n: int)
    requires 0 <= m < 16 && 0 <= n < 16 && HexDigit(m) == HexDigit(n)
    ensures m == n
  {
    var digits := "0123456789abcdef";
    assert forall i | 0 <= i < 16 :: digits[i] as int == if i < 10 then '0' as int + i else 'a' as int + i - 10;
  }

  lemma UnicodeEscapesDiffer(m: int, n: int)
    requires 0 <= m < 0x1_0000 && 0 <= n < 0x1_0000 && UnicodeEscape(m) == UnicodeEscape(n)
    ensures m == n
  {
    hide HexDigit, UnicodeEscape;
    EscapeDigits(m);
    EscapeDigits(n);
    HexDigitsDiffer(m / 0x1000, n / 0x1000);
    HexDigitsDiffer(m / 0x100 % 16, n / 0x100 % 16);
    HexDigitsDiffer(m / 0x10 % 16, n / 0x10 % 16);
    HexDigitsDiffer(m % 16, n % 16);
    FourDigits(m);
    FourDigits(n);
  }

  lemma EscapeDigits(n: int)
    requires 0 <= n < 0x1_0000
    ensures var e := UnicodeEscape(n);
      && |e| == 6 && e[2] == HexDigit(n / 0x1000) && e[3] == HexDigit(n / 0x100 % 16)
      && e[4] == HexDigit(n / 0x10 % 16) && e[5] == HexDigit(n % 16)
  {
    hide HexDigit;
  }

  lemma FourDigits(n: int)
    ensures n == 0x1000 * (n / 0x1000) + 0x100 * (n / 0x100 % 16) + 0x10 * (n / 0x10 % 16) + n % 16
  {
  }

  /** How an escape starts: by itself, or by a backslash and a letter. */
  predicate IsPlain(c: char) { c != '"' && c != '\\' && 0x20 <= c as int <= 0x7e }

  /** The letter after the backslash of a short escape, u for the long ones. */
  function Letter(c: char): char
    requires !IsPlain(c)
  {
    if c == '"' then '"' else if c == '\\' then '\\'
    else if c as int == 8 then 'b' else if c as int == 9 then 't' else if c as int == 10 then 'n'
    else if c as int == 12 then 'f' else if c as int == 13 then 'r' else 'u'
  }

  lemma EscapeStarts(c: char)
    ensures EscapeChar(c) != [] && EscapeChar(c)[0] != '"'
    ensures IsPlain(c) ==> EscapeChar(c) == [c] && c != '\\'
    ensures !IsPlain(c) ==> |EscapeChar(c)| >= 2 && EscapeChar(c)[0] == '\\' && EscapeChar(c)[1] == Letter(c)
    ensures !IsPlain(c) && Letter(c) != 'u' ==> |EscapeChar(c)| == 2
    ensures !IsPlain(c) && Letter(c) == 'u' && c as int < 0x1_0000 ==> EscapeChar(c) == UnicodeEscape(c as int)
    ensures !IsPlain(c) && c as int >= 0x1_0000 ==> Letter(c) == 'u' && EscapeChar(c) == HighEscape(c) + LowEscape(c)
  {
    hide UnicodeEscape;
    UnicodeEscapeStarts(c);
  }

  function HighEscape(c: char): string
    requires c as int >= 0x1_0000
  {
    UnicodeEscape(0xd800 + (c as int - 0x1_0000) / 0x400)
  }

  function LowEscape(c: char): string
    requires c as int >= 0x1_0000
  {
    UnicodeEscape(0xdc00 + (c as int - 0x1_0000) % 0x400)
  }

  lemma UnicodeEscapeStarts(c: char)
    ensures forall n | 0 <= n < 0x1_0000 :: |UnicodeEscape(n)| == 6 && UnicodeEscape(n)[0] == '\\' && UnicodeEscape(n)[1] == 'u'
  {
  }

  lemma LettersDiffer(c: char, d: char)
    requires !IsPlain(c) && !IsPlain(d) && Letter(c) == Letter(d) != 'u'
    ensures c == d
  {
  }

  /** No escape is the beginning of another. */
  lemma EscapesDiffer(c: char, d: char, x: string, y: string)
    requires EscapeChar(c) + x == EscapeChar(d) + y
    ensures c == d && x == y
  {
    hide EscapeChar, UnicodeEscape, Letter;
    EscapeStarts(c);
    EscapeStarts(d);
    var e, f := EscapeChar(c), EscapeChar(d);
    assert e[0] == (e + x)[0] == (f + y)[0] == f[0];
    if IsPlain(c) || IsPlain(d) {
      assert IsPlain(c) && IsPlain(d) && c == d;
    } else {
      assert e[1] == (e + x)[1] == (f + y)[1] == f[1];
      if Letter(c) != 'u' { LettersDiffer(c, d); } else { LongEscapesDiffer(c, d, x, y); }
    }
    assert x == (e + x)[|e|..] == (f + y)[|f|..] == y;
  }

  lemma LongEscapesDiffer(c: char, d: char, x: string, y: string)
    requires !IsPlain(c) && !IsPlain(d) && Letter(c) == 'u' == Letter(d) && EscapeChar(c) + x == EscapeChar(d) + y
    ensures c == d
  {
    hide EscapeChar, UnicodeEscape, Letter;
    EscapeStarts(c);
    EscapeStarts(d);
    UnicodeEscapeStarts(c);
    var e, f := EscapeChar(c), EscapeChar(d);
    assert e[..6] == (e + x)[..6] == (f + y)[..6] == f[..6];
    var m := if c as int < 0x1_0000 then c as int else 0xd800 + (c as int - 0x1_0000) / 0x400;
    var n := if d as int < 0x1_0000 then d as int else 0xd800 + (d as int - 0x1_0000) / 0x400;
    assert e[..6] == UnicodeEscape(m) && f[..6] == UnicodeEscape(n);
    UnicodeEscapesDiffer(m, n);
    if c as int >= 0x1_0000 {
      assert e[6..] == (e + x)[6..12] == (f + y)[6..12] == f[6..];
      UnicodeEscapesDiffer(0xdc00 + (c as int - 0x1_0000) % 0x400, 0xdc00 + (d as int - 0x1_0000) % 0x400);
    }
  }

  // ----- texts can be told apart -----

  lemma {:induction false} EscapeFront(s: string)
    requires s != []
    ensures EscapeAll(s) == EscapeChar(s[0]) + EscapeAll(s[1..])
  {
    hide EscapeChar;
    if |s| == 1 {
      assert s[..0] == [] && s[1..] == [];
    } else {
      var front := s[..|s| - 1];
      EscapeFront(front);
      assert front[1..] == s[1..][..|s[1..]| - 1];
    }
  }

  /** The end of a quoted text can be found. */
  lemma {:induction false} QuotedTextsDiffer(a: string, b: string, x: string, y: string)
    requires EscapeAll(a) + ("\"" + x) == EscapeAll(b) + ("\"" + y)
    ensures a == b && x == y
    decreases |a|
  {
    hide EscapeChar, EscapeAll;
    var p, q := "\"" + x, "\"" + y;
    if a == [] && b == [] {
      Unescaped();
      assert p == EscapeAll(a) + p == EscapeAll(b) + q == q;
      assert x == p[1..] == q[1..] == y;
    } else if a == [] {
      Unescaped();
      assert EscapeAll(a) + p == p;
      NoQuote(b, q, p);
    } else if b == [] {
      Unescaped();
      assert EscapeAll(b) + q == q;
      NoQuote(a, p, q);
    } else {
      EscapeFront(a);
      EscapeFront(b);
      assert EscapeAll(a) + p == EscapeChar(a[0]) + (EscapeAll(a[1..]) + p);
      assert EscapeAll(b) + q == EscapeChar(b[0]) + (EscapeAll(b[1..]) + q);
      EscapesDiffer(a[0], b[0], EscapeAll(a[1..]) + p, EscapeAll(b[1..]) + q);
      QuotedTextsDiffer(a[1..], b[1..], x, y);
      assert a == [a[0]] + a[1..] && b == [b[0]] + b[1..];
    }
  }

  /** An escaped text does not start with a quotation mark. */
  lemma NoQuote(s: string, x: string, quoted: string)
    requires s != [] && quoted != [] && quoted[0] == '"'
    ensures EscapeAll(s) + x != quoted
  {
    hide EscapeChar, EscapeAll;
    EscapeFront(s);
    EscapeStarts(s[0]);
    assert (EscapeAll(s) + x)[0] == EscapeChar(s[0])[0];
  }

  lemma Unescaped()
    ensures EscapeAll([]) == []
  {
  }

  /** Pairs of names with one text are one pair. */
  lemma {:induction false} TextsDiffer(j: StreamKey, k: StreamKey)
    requires j.Pair? && k.Pair? && KeyText(j) == KeyText(k)
    ensures j == k
  {
    hide EscapeAll;
    var s, t := KeyText(j), KeyText(k);
    var x, y := ", \"" + EscapeAll(j.stream) + "\"]", ", \"" + EscapeAll(k.stream) + "\"]";
    assert s[2..] == EscapeAll(j.namespace) + ("\"" + x);
    assert t[2..] == EscapeAll(k.namespace) + ("\"" + y);
    QuotedTextsDiffer(j.namespace, k.namespace, x, y);
    assert x[3..] == EscapeAll(j.stream) + ("\"" + "]");
    assert y[3..] == EscapeAll(k.stream) + ("\"" + "]");
    QuotedTextsDiffer(j.stream, k.stream, "]", "]");
  }
}
