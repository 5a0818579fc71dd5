/**
 * `format_args`: rendering a scalar variable value as Terraform source text.
 * Strings become double-quoted literals with backslash, quote and newline
 * escaped; booleans become `true`/`false`; integers are written in decimal.
 */
module TerraformArgs {
  import opened Wrappers
  import opened Text

  /** The Python values `format_args` distinguishes (floats and other types are not modelled). */
  datatype ArgValue = StrArg(s: string) | BoolArg(b: bool) | IntArg(n: int)

  function DigitChar(d: nat): char
    requires d < 10
  {
    (('0' as int) + d) as char
  }

  /** `str(n)` for a natural number: decimal digits, no leading zeros. */
  function NatDigits(n: nat): (digits: string)
    ensures |digits| >= 1 && AllDigits(digits)
    ensures |digits| > 1 ==> digits[0] != '0'
  {
    if n < 10 then [DigitChar(n)] else NatDigits(n / 10) + [DigitChar(n % 10)]
  }

  /** `str(n)` for an integer. */
  function Decimal(n: int): (text: string)
    ensures text != [] && (text[0] == '-' <==> n < 0)
    ensures n >= 0 ==> AllDigits(text)
  {
    if n < 0 then "-" + NatDigits(-n) else NatDigits(n)
  }

  /** `format_args(vars)`, with the three `replace` calls in the order the source makes them. */
  function FormatArgs(v: ArgValue): (text: string)
    ensures v.BoolArg? ==> (text == "true" <==> v.b) && (text == "false" <==> !v.b)
    ensures v.IntArg? ==> text != [] && (text[0] == '-' <==> v.n < 0)
  {
    match v
    case StrArg(s) =>
      Replace("\"" + Replace(Replace(s, "\\", "\\\\"), "\"", "\\\"") + "\"", "\n", "\\n")
    case BoolArg(b) => if b then "true" else "false"
    case IntArg(n) => Decimal(n)
  }

  // ---------------------------------------------------------------------------
  // Strings: the three replacements amount to escaping each character.

  function EscapeChar(c: char): string
  {
    if c == '\\' then "\\\\"
    else if c == '"' then "\\\""
    else if c == '\n' then "\\n"
    else [c]
  }

  /** Escape every character of `s` independently. */
  function Escape(s: string): string
  {
    if s == [] then [] else EscapeChar(s[0]) + Escape(s[1..])
  }

  lemma EscapeOne(c: char)
    ensures Substitute(Substitute(Substitute([c], '\\', "\\\\"), '"', "\\\""), '\n', "\\n") == EscapeChar(c)
  {
    if c == '\\' {
      assert Substitute([c], '\\', "\\\\") == "\\\\";
      assert Substitute("\\\\", '"', "\\\"") == "\\\\";
      assert Substitute("\\\\", '\n', "\\n") == "\\\\";
    } else if c == '"' {
      assert Substitute([c], '\\', "\\\\") == "\"";
      assert Substitute("\"", '"', "\\\"") == "\\\"";
      assert Substitute("\\\"", '\n', "\\n") == "\\\"";
    } else if c == '\n' {
      assert Substitute([c], '\\', "\\\\") == "\n";
      assert Substitute("\n", '"', "\\\"") == "\n";
      assert Substitute("\n", '\n', "\\n") == "\\n";
    } else {
      assert Substitute([c], '\\', "\\\\") == [c];
      assert Substitute([c], '"', "\\\"") == [c];
      assert Substitute([c], '\n', "\\n") == [c];
    }
  }

  lemma {:induction false} EscapeBySubstitution(s: string)
    ensures Substitute(Substitute(Substitute(s, '\\', "\\\\"), '"', "\\\""), '\n', "\\n") == Escape(s)
  {
    if s != [] {
      var c, rest := s[0], s[1..];
      assert s == [c] + rest;
      EscapeBySubstitution(rest);
      EscapeOne(c);
      var s1 := Substitute([c], '\\', "\\\\");
      var r1 := Substitute(rest, '\\', "\\\\");
      SubstituteAppend([c], rest, '\\', "\\\\");
      SubstituteAppend(s1, r1, '"', "\\\"");
      SubstituteAppend(Substitute(s1, '"', "\\\""), Substitute(r1, '"', "\\\""), '\n', "\\n");
    }
  }

  /** A string is rendered as a quoted literal of its escaped characters. */
  lemma FormatString(s: string)
    ensures FormatArgs(StrArg(s)) == "\"" + Escape(s) + "\""
  {
    var q := "\"";
    ReplaceChar(s, '\\', "\\\\");
    var s1 := Substitute(s, '\\', "\\\\");
    ReplaceChar(s1, '"', "\\\"");
    var s2 := Substitute(s1, '"', "\\\"");
    ReplaceChar(q + s2 + q, '\n', "\\n");
    SubstituteAppend(q + s2, q, '\n', "\\n");
    SubstituteAppend(q, s2, '\n', "\\n");
    assert Substitute(q, '\n', "\\n") == q;
    EscapeBySubstitution(s);
  }

  /** Reading escapes back; `None` on anything `Escape` cannot produce. */
  function Unescape(t: string): Option<string>
  {
    if t == [] then Some([])
    else if t[0] == '\\' then
      if |t| < 2 then None
      else
        var c := if t[1] == '\\' then Some('\\') else if t[1] == '"' then Some('"')
                 else if t[1] == 'n' then Some('\n') else None;
        match (c, Unescape(t[2..]))
        case (Some(ch), Some(rest)) => Some([ch] + rest)
        case _ => None
    else if t[0] == '"' || t[0] == '\n' then None
    else
      match Unescape(t[1..])
      case Some(rest) => Some([t[0]] + rest)
      case None => None
  }

  /** A quoted Terraform string literal, read back. */
  function ParseLiteral(t: string): Option<string>
  {
    if |t| >= 2 && t[0] == '"' && t[|t| - 1] == '"' then Unescape(t[1..|t| - 1]) else None
  }

  lemma {:induction false} UnescapeEscape(s: string)
    ensures Unescape(Escape(s)) == Some(s)
  {
    if s != [] {
      var c, rest := s[0], s[1..];
      UnescapeEscape(rest);
      var t := Escape(s);
      assert t == EscapeChar(c) + Escape(rest);
      if c == '\\' || c == '"' || c == '\n' {
        assert t[2..] == Escape(rest);
      } else {
        assert t[1..] == Escape(rest);
      }
      assert s == [c] + rest;
    }
  }

  /** A formatted string reads back as the original value. */
  lemma FormatStringRoundTrip(s: string)
    ensures ParseLiteral(FormatArgs(StrArg(s))) == Some(s)
  {
    FormatString(s);
    var t := FormatArgs(StrArg(s));
    assert t[1..|t| - 1] == Escape(s);
    UnescapeEscape(s);
  }

  lemma {:induction false} EscapeHasNoNewline(s: string)
    ensures '\n' !in Escape(s)
  {
    if s != [] {
      EscapeHasNoNewline(s[1..]);
      assert '\n' !in EscapeChar(s[0]);
    }
  }

  /** A formatted string never spans more than one line. */
  lemma FormatStringSingleLine(s: string)
    ensures '\n' !in FormatArgs(StrArg(s))
  {
    FormatString(s);
    EscapeHasNoNewline(s);
  }

  // ---------------------------------------------------------------------------
  // Integers: the decimal text reads back as the integer.

  predicate AllDigits(t: string)
  {
    forall i :: 0 <= i < |t| ==> '0' <= t[i] <= '9'
  }

  function DigitsValue(t: string): nat
    requires AllDigits(t)
  {
    if t == [] then 0 else DigitsValue(t[..|t| - 1]) * 10 + (t[|t| - 1] as int - '0' as int)
  }

  /** Reading a decimal integer, as Terraform does for a number literal. */
  function ParseDecimal(t: string): Option<int>
  {
    if |t| >= 2 && t[0] == '-' && AllDigits(t[1..]) then var v: int := DigitsValue(t[1..]); Some(-v)
    else if |t| >= 1 && AllDigits(t) then Some(DigitsValue(t))
    else None
  }

  lemma {:induction false} NatDigitsValue(n: nat)
    ensures DigitsValue(NatDigits(n)) == n
    decreases n
  {
    if n >= 10 {
      NatDigitsValue(n / 10);
      var t := NatDigits(n);
      assert t[..|t| - 1] == NatDigits(n / 10);
    }
  }

  lemma ParseNegative(d: string)
    requires |d| >= 1 && AllDigits(d)
    ensures ParseDecimal("-" + d) == Some(-(DigitsValue(d) as int))
  {
    assert ("-" + d)[1..] == d;
  }

  lemma ParseNonNegative(d: string)
    requires |d| >= 1 && AllDigits(d)
    ensures ParseDecimal(d) == Some(DigitsValue(d))
  {
    assert d[0] != '-';
  }

  /** An integer is rendered as decimal text that reads back as the same integer. */
  lemma FormatIntRoundTrip(n: int)
    ensures ParseDecimal(FormatArgs(IntArg(n))) == Some(n)
  {
    assert FormatArgs(IntArg(n)) == Decimal(n);
    if n < 0 {
      NatDigitsValue(-n);
      ParseNegative(NatDigits(-n));
    } else {
      NatDigitsValue(n);
      ParseNonNegative(NatDigits(n));
    }
  }
}
