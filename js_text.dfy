/**
 * The two pieces of JavaScript string behaviour the pastebin relies on:
 * `String.prototype.trim` (used on the paste content) and `parseInt(s, 10)`
 * (used on the test-clock header). Both skip the same set of characters,
 * the ECMAScript WhiteSpace and LineTerminator code points.
 */
module JsText {
  import opened Wrappers

  /** ECMAScript WhiteSpace (TAB, VT, FF, SP, NBSP, ZWNBSP and the Zs category) and LineTerminator (LF, CR, LS, PS). */
  predicate IsWhitespace(c: char)
    ensures IsWhitespace(c) ==> !IsDigit(c) && c != '-' && c != '+'
    ensures c < '\U{80}' ==> (IsWhitespace(c) <==> c in {' ', '\t', '\n', '\U{B}', '\U{C}', '\r'})
  {
    || c == ' ' || ('\t' <= c <= '\r') || c == '\U{A0}' || c == '\U{1680}'
    || ('\U{2000}' <= c <= '\U{200A}') || c == '\U{2028}' || c == '\U{2029}'
    || c == '\U{202F}' || c == '\U{205F}' || c == '\U{3000}' || c == '\U{FEFF}'
  }

  /** `s` with its leading whitespace removed: a suffix of `s` that does not start with whitespace. */
  function TrimStart(s: string): (r: string)
    ensures |r| <= |s| && r == s[|s| - |r|..]
    ensures r != [] ==> !IsWhitespace(r[0])
    decreases |s|
  {
    if s != [] && IsWhitespace(s[0]) then TrimStart(s[1..]) else s
  }

  /** `s` with its trailing whitespace removed: a prefix of `s` that does not end with whitespace. */
  function TrimEnd(s: string): (r: string)
    ensures |r| <= |s| && r == s[..|r|]
    ensures r != [] ==> !IsWhitespace(r[|r| - 1])
    decreases |s|
  {
    if s != [] && IsWhitespace(s[|s| - 1]) then TrimEnd(s[..|s| - 1]) else s
  }

  /** Everything `TrimStart` drops is whitespace. */
  lemma {:induction false} TrimStartDropsWhitespace(s: string)
    ensures forall i :: 0 <= i < |s| - |TrimStart(s)| ==> IsWhitespace(s[i])
    decreases |s|
  {
    if s != [] && IsWhitespace(s[0]) {
      TrimStartDropsWhitespace(s[1..]);
      forall i | 1 <= i < |s| - |TrimStart(s)| ensures IsWhitespace(s[i]) {
        assert s[i] == s[1..][i - 1];
      }
    }
  }

  /** Everything `TrimEnd` drops is whitespace. */
  lemma {:induction false} TrimEndDropsWhitespace(s: string)
    ensures forall i :: |TrimEnd(s)| <= i < |s| ==> IsWhitespace(s[i])
    decreases |s|
  {
    if s != [] && IsWhitespace(s[|s| - 1]) {
      TrimEndDropsWhitespace(s[..|s| - 1]);
      forall i | |TrimEnd(s)| <= i < |s| - 1 ensures IsWhitespace(s[i]) {
        assert s[i] == s[..|s| - 1][i];
      }
    }
  }

  /** `String.prototype.trim`. */
  function Trim(s: string): (r: string)
    ensures |r| <= |s|
    ensures r != [] ==> !IsWhitespace(r[0]) && !IsWhitespace(r[|r| - 1])
  {
    TrimEnd(TrimStart(s))
  }

  /** A string contains a character that is not whitespace. */
  ghost predicate HasVisibleChar(s: string)
  {
    exists i :: 0 <= i < |s| && !IsWhitespace(s[i])
  }

  /** `s.trim().length === 0` holds exactly for the strings made only of whitespace. */
  lemma TrimEmptyIff(s: string)
    ensures Trim(s) == [] <==> !HasVisibleChar(s)
  {
    var t := TrimStart(s);
    if Trim(s) == [] {
      TrimEndDropsWhitespace(t);
      assert t == [];
      TrimStartDropsWhitespace(s);
    } else {
      var r := Trim(s);
      assert r[0] == t[0] == s[|s| - |t|];
    }
  }

  /** Trimming keeps the characters between the dropped whitespace, in order: the result is an infix of `s`. */
  lemma TrimIsInfix(s: string)
    ensures |s| - |TrimStart(s)| + |Trim(s)| <= |s|
    ensures Trim(s) == s[|s| - |TrimStart(s)|..|s| - |TrimStart(s)| + |Trim(s)|]
  {
  }

  /** Trimming twice is the same as trimming once. */
  lemma TrimIdempotent(s: string)
    ensures Trim(Trim(s)) == Trim(s)
  {
  }

  // ---------------------------------------------------------------------
  // parseInt(s, 10)

  predicate IsDigit(c: char)
  {
    '0' <= c <= '9'
  }

  predicate AllDigits(s: string)
  {
    forall i :: 0 <= i < |s| ==> IsDigit(s[i])
  }

  /** The value of a decimal digit character. */
  function DigitValue(c: char): (d: nat)
    ensures d < 10
  {
    if IsDigit(c) then (c as int) - ('0' as int) else 0
  }

  function DigitChar(d: nat): (c: char)
    requires d < 10
    ensures IsDigit(c) && DigitValue(c) == d
  {
    ('0' as int + d) as char
  }

  /** The longest prefix of `s` made of decimal digits: it ends at a non-digit or at the end of `s`. */
  function LeadingDigits(s: string): (r: string)
    ensures |r| <= |s| && r == s[..|r|]
    ensures |r| < |s| ==> !IsDigit(s[|r|])
  {
    if s != [] && IsDigit(s[0]) then [s[0]] + LeadingDigits(s[1..]) else []
  }

  /** What `LeadingDigits` takes is all digits. */
  lemma {:induction false} LeadingDigitsAreDigits(s: string)
    ensures AllDigits(LeadingDigits(s))
  {
    if s != [] && IsDigit(s[0]) {
      LeadingDigitsAreDigits(s[1..]);
      var r := LeadingDigits(s);
      forall i | 1 <= i < |r| ensures IsDigit(r[i]) {
        assert r[i] == LeadingDigits(s[1..])[i - 1];
      }
    }
  }

  /** The number a string of decimal digits denotes, most significant digit first. */
  function DigitsValue(ds: string): nat
  {
    if ds == [] then 0 else 10 * DigitsValue(ds[..|ds| - 1]) + DigitValue(ds[|ds| - 1])
  }

  /**
   * `parseInt(s, 10)`, with `NaN` as `None`: leading whitespace is skipped, one
   * optional sign is taken, then the longest run of decimal digits is read;
   * anything after it is ignored and no digit at all gives NaN.
   */
  function ParseInt(s: string): (r: Option<int>)
    ensures r.Some? <==> LeadingDigits(Unsigned(TrimStart(s))) != []
    ensures r.Some? && !Negative(TrimStart(s)) ==> r.value == DigitsValue(LeadingDigits(Unsigned(TrimStart(s))))
    ensures r.Some? && Negative(TrimStart(s)) ==> r.value == -(DigitsValue(LeadingDigits(Unsigned(TrimStart(s)))) as int)
  {
    ParseSigned(TrimStart(s))
  }

  /** Whether the text starts with a minus sign. */
  predicate Negative(t: string)
  {
    t != [] && t[0] == '-'
  }

  /** The text after one leading sign character, if there is one. */
  function Unsigned(t: string): (u: string)
    ensures t != [] && (t[0] == '-' || t[0] == '+') ==> u == t[1..]
    ensures !(t != [] && (t[0] == '-' || t[0] == '+')) ==> u == t
  {
    if t != [] && (t[0] == '-' || t[0] == '+') then t[1..] else t
  }

  /** An optional `-` or `+`, then digits: NaN without digits, else their value, negated after a minus. */
  function ParseSigned(t: string): (r: Option<int>)
    ensures r.Some? <==> LeadingDigits(Unsigned(t)) != []
    ensures r.Some? && !Negative(t) ==> r.value == DigitsValue(LeadingDigits(Unsigned(t)))
    ensures r.Some? && Negative(t) ==> r.value == -(DigitsValue(LeadingDigits(Unsigned(t))) as int)
  {
    if t != [] && t[0] == '-' then
      match ParseDigits(t[1..])
      case None => None
      case Some(v) => Some(-v)
    else if t != [] && t[0] == '+' then ParseDigits(t[1..])
    else ParseDigits(t)
  }

  /** The value of the leading digits of `u`, or NaN when `u` does not start with a digit. */
  function ParseDigits(u: string): (r: Option<int>)
    ensures r.Some? <==> u != [] && IsDigit(u[0])
    ensures r.Some? ==> r.value == DigitsValue(LeadingDigits(u))
    ensures r.Some? ==> r.value >= 0
  {
    var ds := LeadingDigits(u);
    if ds == [] then None else Some(DigitsValue(ds))
  }

  /** `parseInt(s, 10)` takes a plus sign and stops at the first non-digit. */
  lemma ParseIntPlusExample()
    ensures ParseInt("+12 ") == Some(12)
  {
    assert TrimStart("+12 ") == "+12 ";
    assert Unsigned("+12 ") == "12 ";
    assert "12 "[1..] == "2 " && "2 "[1..] == " ";
    assert LeadingDigits("12 ") == "12" by {
      assert LeadingDigits(" ") == [];
      assert LeadingDigits("2 ") == ['2'];
    }
    assert DigitsValue("12") == 12 by {
      assert "12"[..1] == "1";
    }
  }

  /** With radix 10 a hexadecimal prefix is not read: only the `0` before the `x` counts. */
  lemma ParseIntHexExample()
    ensures ParseInt("0x1A") == Some(0)
  {
    assert TrimStart("0x1A") == "0x1A";
    assert Unsigned("0x1A") == "0x1A";
    assert "0x1A"[1..] == "x1A";
    assert LeadingDigits("0x1A") == "0" by {
      assert LeadingDigits("x1A") == [];
    }
    assert DigitsValue("0") == 0 by {
      assert "0"[..0] == [];
    }
  }

  /** A no-break space before a minus is skipped. */
  lemma ParseIntNoBreakSpaceExample()
    ensures ParseInt("\U{A0}-7z") == Some(-7)
  {
    assert "\U{A0}-7z"[1..] == "-7z";
    assert TrimStart("-7z") == "-7z";
    assert TrimStart("\U{A0}-7z") == "-7z";
    assert Negative("-7z");
    assert Unsigned("-7z") == "7z";
    assert "7z"[1..] == "z";
    assert LeadingDigits("7z") == "7" by {
      assert LeadingDigits("z") == [];
    }
    assert DigitsValue("7") == 7 by {
      assert "7"[..0] == [];
    }
  }

  /** Nothing may come between the sign and the digits. */
  lemma ParseIntSpacedSignExample()
    ensures ParseInt("- 7") == None
  {
    assert TrimStart("- 7") == "- 7";
    assert Unsigned("- 7") == " 7";
    assert LeadingDigits(" 7") == [];
  }

  /** Decimal notation of a natural number, without leading zeros. */
  function NatString(n: nat): (r: string)
    ensures r != [] && IsDigit(r[0])
    ensures |r| > 1 ==> r[0] != '0'
  {
    if n < 10 then [DigitChar(n)] else NatString(n / 10) + [DigitChar(n % 10)]
  }

  /** Decimal notation of an integer, as `String(n)` writes it for an integral number. */
  function DecimalString(n: int): string
  {
    if n < 0 then "-" + NatString(-n) else NatString(n)
  }

  lemma {:induction false} NatStringDigits(n: nat)
    ensures AllDigits(NatString(n))
  {
    if n >= 10 {
      NatStringDigits(n / 10);
    }
  }

  lemma {:induction false} NatStringValue(n: nat)
    ensures DigitsValue(NatString(n)) == n
  {
    if n >= 10 {
      var r := NatString(n);
      assert r[..|r| - 1] == NatString(n / 10);
      NatStringValue(n / 10);
    }
  }

  /** Reading digits stops exactly at the first character that is not a digit. */
  lemma {:induction false} LeadingDigitsOfDigitsThen(ds: string, rest: string)
    requires AllDigits(ds)
    requires rest == [] || !IsDigit(rest[0])
    ensures LeadingDigits(ds + rest) == ds
  {
    if ds != [] {
      assert (ds + rest)[0] == ds[0];
      assert (ds + rest)[1..] == ds[1..] + rest;
      LeadingDigitsOfDigitsThen(ds[1..], rest);
    } else {
      assert ds + rest == rest;
    }
  }

  /** `parseInt` reads back the decimal notation of any integer, whatever non-digit text follows it. */
  lemma ParseIntDecimal(n: int, rest: string)
    requires rest == [] || !IsDigit(rest[0])
    ensures ParseInt(DecimalString(n) + rest) == Some(n)
  {
    if n < 0 {
      ParseDigitsOfNatString(-n, rest);
      ParseIntNegative(NatString(-n), rest, -n);
    } else {
      var u := NatString(n) + rest;
      ParseDigitsOfNatString(n, rest);
      assert DecimalString(n) + rest == u;
      ParseIntNonNegative(u, n);
    }
  }

  /** An unsigned number is read as it stands. */
  lemma ParseIntNonNegative(u: string, v: nat)
    requires u != [] && '0' <= u[0] <= '9' && ParseDigits(u) == Some(v)
    ensures ParseInt(u) == Some(v)
  {
    assert !IsWhitespace(u[0]) && u[0] != '-' && u[0] != '+';
    assert TrimStart(u) == u;
    assert ParseSigned(u) == ParseDigits(u);
  }

  /** A leading minus sign negates the number after it. */
  lemma ParseIntNegative(ds: string, rest: string, v: nat)
    requires ParseDigits(ds + rest) == Some(v)
    ensures ParseInt(("-" + ds) + rest) == Some(-(v as int))
  {
    var s := ("-" + ds) + rest;
    assert s[0] == '-';
    assert s[1..] == ds + rest;
    assert TrimStart(s) == s;
  }

  lemma ParseDigitsOfNatString(m: nat, rest: string)
    requires rest == [] || !IsDigit(rest[0])
    ensures ParseDigits(NatString(m) + rest) == Some(m)
    ensures (NatString(m) + rest)[0] == NatString(m)[0]
  {
    NatStringDigits(m);
    NatStringValue(m);
    LeadingDigitsOfDigitsThen(NatString(m), rest);
  }

  /** Leading whitespace is skipped: prefixing any amount of it does not change what `parseInt` reads. */
  lemma ParseIntSkipsLeadingWhitespace(w: string, s: string)
    requires forall i :: 0 <= i < |w| ==> IsWhitespace(w[i])
    ensures ParseInt(w + s) == ParseInt(s)
  {
    TrimStartSkipsWhitespace(w, s);
  }

  lemma {:induction false} TrimStartSkipsWhitespace(w: string, s: string)
    requires forall i :: 0 <= i < |w| ==> IsWhitespace(w[i])
    ensures TrimStart(w + s) == TrimStart(s)
  {
    if w == [] {
      assert w + s == s;
    } else {
      assert (w + s)[0] == w[0];
      assert (w + s)[1..] == w[1..] + s;
      TrimStartSkipsWhitespace(w[1..], s);
    }
  }

  /** A string without any decimal digit parses to NaN. */
  lemma ParseIntNoDigits(s: string)
    requires forall i :: 0 <= i < |s| ==> !IsDigit(s[i])
    ensures ParseInt(s) == None
  {
  }
}
