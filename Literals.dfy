/** Parsing of dotted keys and value literals, and the order in which keys
    are sorted. Both line-format engines use this same code
    (template_specialize/environment.py and template_specialize/__init__.py
    each carry an identical copy of it). */
module Literals {
  import opened Text
  import opened Wrappers
  import opened Floats

  /** One key part: a Python int when int() accepts the text, else the text. */
  datatype Seg = Index(n: int) | Field(name: string)

  type Key = seq<Seg>

  /** A parsed value literal. A float keeps its text: floating point
      arithmetic is not modelled. */
  datatype Scalar = Bool(b: bool) | Int(i: int) | Float(token: string) | Str(s: string)

  // ---------------------------------------------------------------------
  // Python int() on ASCII text

  /** Decimal digits with single underscores between them: what int()
      accepts after the optional sign. */
  predicate IsDigitGroups(s: string) {
    && |s| > 0 && IsDigit(s[0]) && IsDigit(s[|s| - 1])
    && forall i :: 0 < i < |s| - 1 ==> GroupChar(s, i)
  }

  /** Inside a digit run, a character is a digit or an underscore between two digits. */
  predicate GroupChar(s: string, i: int)
    requires 0 < i < |s| - 1
  {
    IsDigit(s[i]) || (s[i] == '_' && IsDigit(s[i - 1]) && IsDigit(s[i + 1]))
  }

  function DigitValue(c: char): nat
    requires IsDigit(c)
  {
    (c as int) - ('0' as int)
  }

  /** The number written by the digits of s, underscores ignored. */
  function DigitsValue(s: string): nat {
    if |s| == 0 then 0
    else if IsDigit(s[|s| - 1]) then 10 * DigitsValue(s[..|s| - 1]) + DigitValue(s[|s| - 1])
    else DigitsValue(s[..|s| - 1])
  }

  /** int(s): surrounding whitespace stripped, an optional sign, then digit
      groups; None where Python raises ValueError. */
  function ParseInt(s: string): Option<int> {
    var t := Strip(s);
    if |t| > 0 && (t[0] == '+' || t[0] == '-') && IsDigitGroups(t[1..]) then
      var n: int := DigitsValue(t[1..]);
      Some(if t[0] == '-' then -n else n)
    else if IsDigitGroups(t) then Some(DigitsValue(t))
    else None
  }

  /** int() of a run of decimal digits is the number they write. */
  lemma ParseIntDigits(s: string)
    requires |s| > 0 && AllDigits(s)
    ensures ParseInt(s) == Some(DigitsValue(s))
  {
    assert IsDigit(s[0]) && IsDigit(s[|s| - 1]);
    StripNoSpace(s);
    DigitRunIsGroups(s);
    assert !(s[0] == '+' || s[0] == '-');
  }

  /** int() rejects text that starts like an identifier. */
  lemma ParseIntIdentifier(s: string)
    requires |s| > 0 && IsIdentStart(s[0]) && !IsSpace(s[|s| - 1])
    ensures ParseInt(s) == None
  {
    StripNoSpace(s);
    assert !IsDigit(s[0]);
    assert !(s[0] == '+' || s[0] == '-');
  }

  lemma {:induction false} DigitsValueAppend(s: string, n: nat)
    requires n < 10
    ensures DigitsValue(s + [DigitChar(n)]) == 10 * DigitsValue(s) + n
  {
    assert (s + [DigitChar(n)])[..|s|] == s;
  }

  lemma {:induction false} DigitsValueOfNat(n: nat)
    ensures DigitsValue(NatToString(n)) == n
    decreases n
  {
    if n < 10 {
      assert NatToString(n) == [] + [DigitChar(n)];
      DigitsValueAppend([], n);
    } else {
      DigitsValueOfNat(n / 10);
      DigitsValueAppend(NatToString(n / 10), n % 10);
    }
  }

  lemma DigitRunIsGroups(d: string)
    requires |d| > 0 && AllDigits(d)
    ensures IsDigitGroups(d)
  {
    assert IsDigit(d[0]) && IsDigit(d[|d| - 1]);
  }

  /** int(str(i)) == i: the decimal text of an integer parses back to it. */
  lemma IntRoundTrip(i: int)
    ensures ParseInt(IntToString(i)) == Some(i)
  {
    var n: nat := if i < 0 then -i else i;
    var d := NatToString(n);
    DigitsValueOfNat(n);
    DigitRunIsGroups(d);
    if i < 0 {
      var t := "-" + d;
      assert t[1..] == d;
      assert IsDigit(d[|d| - 1]) && t[|t| - 1] == d[|d| - 1];
      StripNoSpace(t);
      assert IntToString(i) == t;
    } else {
      ParseIntDigits(d);
    }
  }

  // ---------------------------------------------------------------------
  // Keys

  /** _parse_key_part: int(part) when that succeeds, else the text. */
  function ParseKeyPart(part: string): Seg {
    match ParseInt(part)
    case Some(n) => Index(n)
    case None => Field(part)
  }

  /** _parse_key: one part per piece of the text split at '.'. */
  function ParseKey(s: string): (r: Key)
    ensures |r| == Count(s, '.') + 1 == |Split(s, '.')|
    ensures forall i :: 0 <= i < |r| ==> r[i] == ParseKeyPart(Split(s, '.')[i])
  {
    SplitCount(s, '.');
    var parts := Split(s, '.');
    seq(|parts|, i requires 0 <= i < |parts| => ParseKeyPart(parts[i]))
  }

  /** A digit run becomes an index, a piece starting like an identifier
      stays a field name. */
  lemma KeyPartKinds(part: string)
    ensures |part| > 0 && AllDigits(part) ==> ParseKeyPart(part) == Index(DigitsValue(part))
    ensures |part| > 0 && IsIdentStart(part[0]) && AllWord(part) ==> ParseKeyPart(part) == Field(part)
  {
    if |part| > 0 && AllDigits(part) { ParseIntDigits(part); }
    if |part| > 0 && IsIdentStart(part[0]) && AllWord(part) { ParseIntIdentifier(part); }
  }

  /** '.'.join(str(x) for x in key): a key as the messages print it. */
  function KeyText(key: Key): string
    requires |key| > 0
  {
    Join(seq(|key|, i requires 0 <= i < |key| => SegText(key[i])), '.')
  }

  function SegText(s: Seg): string {
    match s
    case Index(n) => IntToString(n)
    case Field(f) => f
  }

  // ---------------------------------------------------------------------
  // Values

  predicate IsDigitRun(s: string) { |s| > 0 && AllDigits(s) }

  /** float(s): surrounding whitespace stripped and an optional sign, then
      `inf`, `infinity` or `nan` in any case, or a decimal with an optional
      exponent; None where Python raises ValueError. */
  function FloatOf(s: string): Option<FloatValue> {
    var t := Strip(s);
    if |t| > 0 && t[0] == '-' then
      match UnsignedFloatOf(t[1..])
      case Some(v) => Some(Negated(v))
      case None => None
    else if |t| > 0 && t[0] == '+' then UnsignedFloatOf(t[1..])
    else UnsignedFloatOf(t)
  }

  function Negated(v: FloatValue): FloatValue {
    match v
    case Finite(m, e) => Finite(-m, e)
    case Infinite(neg) => Infinite(!neg)
    case NaN => NaN
  }

  /** float() of the text after the sign. */
  function UnsignedFloatOf(b: string): Option<FloatValue> {
    var low := Lower(b);
    if low == "inf" || low == "infinity" then Some(Infinite(false))
    else if low == "nan" then Some(NaN)
    else
      match DecimalOf(b)
      case Some((m, e)) => Some(Finite(m, e))
      case None => None
  }

  /** An unsigned decimal: a mantissa, then optionally `e` or `E` and a
      signed exponent; its value as m / 10^e. */
  function DecimalOf(b: string): Option<(nat, nat)> {
    var k := IndexOf(Lower(b), 'e');
    match MantissaOf(b[..k])
    case None => None
    case Some((m, f)) =>
      if k == |b| then Some((m, f))
      else
        match ExponentOf(b[k + 1..])
        case None => None
        case Some(x) => Some(Shift(m, f, x))
  }

  /** `digits`, `digits.`, `.digits` or `digits.digits`, where digits may
      carry single underscores between them; the value as m / 10^f. */
  function MantissaOf(s: string): Option<(nat, nat)> {
    var p := IndexOf(s, '.');
    var ip := s[..p];
    var fp := if p < |s| then s[p + 1..] else "";
    if (ip == "" || IsDigitGroups(ip)) && (fp == "" || IsDigitGroups(fp)) && (ip != "" || fp != "") then
      Some((DigitsValue(ip + fp), DigitCount(fp)))
    else None
  }

  /** An optional sign and digit groups: the exponent after `e`. */
  function ExponentOf(s: string): Option<int> {
    if |s| > 0 && (s[0] == '+' || s[0] == '-') && IsDigitGroups(s[1..]) then
      var n: int := DigitsValue(s[1..]);
      Some(if s[0] == '-' then -n else n)
    else if IsDigitGroups(s) then Some(DigitsValue(s))
    else None
  }

  /** m / 10^f times 10^x, again as a mantissa over a power of ten. */
  function Shift(m: nat, f: nat, x: int): (nat, nat) {
    if x >= f then (m * Pow10(x - f), 0) else (m, f - x)
  }

  /** The number of digits in s. */
  function DigitCount(s: string): nat {
    if |s| == 0 then 0 else (if IsDigit(s[0]) then 1 else 0) + DigitCount(s[1..])
  }

  /** The text float() accepts. */
  predicate IsFloatToken(s: string) { FloatOf(s).Some? }

  predicate IsPointAt(b: string, p: int) {
    0 <= p < |b| && b[p] == '.' && AllDigits(b[..p]) && AllDigits(b[p + 1..])
  }

  /** _parse_value: true/false, a leading quote drops the first and the last
      character, then int(), then float(), else the text itself. */
  function ParseValue(s: string): Scalar {
    if s == "true" then Bool(true)
    else if s == "false" then Bool(false)
    else if |s| > 0 && s[0] == '"' then Str(if |s| >= 2 then s[1..|s| - 1] else "")
    else
      match ParseInt(s)
      case Some(i) => Int(i)
      case None => if FloatOf(s).Some? then Float(s) else Str(s)
  }

  /** Digits, a point, and more digits: the float form of the grammar. */
  predicate IsPointNumber(s: string) {
    exists p :: 0 < p < |s| && IsPointAt(s, p) && IsDigitRun(s[..p])
  }

  /** What _parse_value returns, case by case: true/false are booleans; a
      leading quote drops the first and the last character, whether or not
      the last one is a quote; otherwise int() wins, then float(), and any
      other text stays a string. The literal forms of the assignment grammar
      follow: a digit run is an int, digits with a point are a float token. */
  lemma ParseValueForms(s: string)
    ensures s == "true" ==> ParseValue(s) == Bool(true)
    ensures s == "false" ==> ParseValue(s) == Bool(false)
    ensures |s| >= 2 && s[0] == '"' ==> ParseValue(s) == Str(s[1..|s| - 1])
    ensures s == "\"" ==> ParseValue(s) == Str("")
    ensures s != "true" && s != "false" && (|s| == 0 || s[0] != '"') ==>
      && (ParseInt(s).Some? ==> ParseValue(s) == Int(ParseInt(s).value))
      && (ParseInt(s).None? && IsFloatToken(s) ==> ParseValue(s) == Float(s))
      && (ParseInt(s).None? && !IsFloatToken(s) ==> ParseValue(s) == Str(s))
    ensures IsDigitRun(s) ==> ParseValue(s) == Int(DigitsValue(s))
    ensures IsPointNumber(s) ==> ParseValue(s) == Float(s)
  {
    if IsDigitRun(s) { ParseIntDigits(s); }
    if IsPointNumber(s) { PointNumberIsFloat(s); }
  }

  /** float() strips the whitespace around its argument. */
  lemma FloatPadded(ws1: string, t: string, ws2: string)
    requires AllSpace(ws1) && AllSpace(ws2)
    requires |t| > 0 && !IsSpace(t[0]) && !IsSpace(t[|t| - 1])
    ensures FloatOf(ws1 + t + ws2) == FloatOf(t)
  {
    StripPadded(ws1, t, ws2);
    StripNoSpace(t);
  }

  /** `inf`, `infinity` and `nan` in any case, with an optional sign. */
  lemma FloatNamed(b: string)
    requires Lower(b) == "inf" || Lower(b) == "infinity" || Lower(b) == "nan"
    ensures FloatOf(b) == FloatOf("+" + b) == Some(if Lower(b) == "nan" then NaN else Infinite(false))
    ensures FloatOf("-" + b) == Some(if Lower(b) == "nan" then NaN else Infinite(true))
  {
    assert LowerChar(b[0]) == Lower(b)[0] && LowerChar(b[|b| - 1]) == Lower(b)[|b| - 1];
    StripNoSpace(b);
    StripNoSpace("+" + b);
    StripNoSpace("-" + b);
    assert ("+" + b)[1..] == b && ("-" + b)[1..] == b;
  }

  /** Text that starts with a digit is read as a decimal. */
  lemma FloatDecimal(s: string)
    requires |s| > 0 && IsDigit(s[0]) && !IsSpace(s[|s| - 1])
    ensures FloatOf(s) == match DecimalOf(s) case Some((m, e)) => Some(Finite(m, e)) case None => None
  {
    StripNoSpace(s);
    assert Lower(s)[0] == LowerChar(s[0]);
  }

  /** A decimal whose first `e` or `E` is at k: mantissa before, exponent after. */
  lemma DecimalAt(b: string, k: nat, m: nat, f: nat, x: int)
    requires k < |b| && 'e' !in Lower(b)[..k] && Lower(b)[k] == 'e'
    requires MantissaOf(b[..k]) == Some((m, f)) && ExponentOf(b[k + 1..]) == Some(x)
    ensures DecimalOf(b) == Some(Shift(m, f, x))
  {
    IndexOfAt(Lower(b), 'e', k);
  }

  /** A decimal with no `e` or `E` is its mantissa. */
  lemma DecimalPlain(b: string)
    requires 'e' !in Lower(b)
    ensures DecimalOf(b) == MantissaOf(b)
  {
    assert Lower(b)[..|b|] == Lower(b);
    IndexOfAt(Lower(b), 'e', |b|);
    assert b[..|b|] == b;
  }

  /** A digit run, as a mantissa, is the number it writes. */
  lemma MantissaDigits(d: string)
    requires IsDigitRun(d)
    ensures MantissaOf(d) == Some((DigitsValue(d), 0))
  {
    IndexOfAt(d, '.', |d|);
    assert d[..|d|] == d && d + "" == d;
    DigitRunIsGroups(d);
  }

  /** An optional sign and a digit run, as an exponent. */
  lemma ExponentDigits(sign: string, x: string)
    requires IsDigitRun(x) && (sign == "" || sign == "+" || sign == "-")
    ensures sign == "-" ==> ExponentOf(sign + x) == Some(-(DigitsValue(x) as int))
    ensures sign != "-" ==> ExponentOf(sign + x) == Some(DigitsValue(x) as int)
  {
    DigitRunIsGroups(x);
    if sign == "" {
      assert sign + x == x;
    } else {
      assert (sign + x)[0] == sign[0] && (sign + x)[1..] == x;
    }
  }

  /** No exponent mark among leading digits. */
  lemma NoMarkInDigits(s: string, n: nat)
    requires n <= |s| && AllDigits(s[..n])
    ensures 'e' !in Lower(s)[..n]
  {
    forall i | 0 <= i < n ensures Lower(s)[i] != 'e' { assert s[i] == s[..n][i]; }
  }

  /** Digits, `e` or `E` and an exponent: the mantissa times ten to the
      exponent, or over ten to its negation. ExponentDigits gives the
      exponent of an optional sign and digits. */
  lemma FloatExponentForm(d: string, c: char, x: string, v: int)
    requires IsDigitRun(d) && (c == 'e' || c == 'E') && ExponentOf(x) == Some(v)
    ensures FloatOf(d + [c] + x) == Some(
      if v >= 0 then Finite(DigitsValue(d) * Pow10(v), 0) else Finite(DigitsValue(d), -v))
  {
    var s := d + [c] + x;
    assert |x| > 0 && IsDigit(x[|x| - 1]) by {
      if !IsDigitGroups(x) { assert x[|x| - 1] == x[1..][|x| - 2]; }
    }
    ExponentText(d, c, x);
    FloatDecimal(s);
    DecimalExponent(s, d, v);
  }

  lemma ExponentText(d: string, c: char, x: string)
    requires |d| > 0 && |x| > 0
    ensures var s := d + [c] + x;
      && s[..|d|] == d && s[|d|] == c && s[|d| + 1..] == x
      && s[0] == d[0] && s[|s| - 1] == x[|x| - 1]
  {
  }

  /** A digit run, an exponent mark and an exponent, as a decimal. */
  lemma DecimalExponent(s: string, d: string, v: int)
    requires IsDigitRun(d) && |d| < |s| && s[..|d|] == d && LowerChar(s[|d|]) == 'e'
    requires ExponentOf(s[|d| + 1..]) == Some(v)
    ensures DecimalOf(s) == Some(Shift(DigitsValue(d), 0, v))
  {
    NoMarkInDigits(s, |d|);
    MantissaDigits(d);
    DecimalAt(s, |d|, DigitsValue(d), 0, v);
  }

  /** Digit groups hold digits and underscores only. */
  lemma GroupsChars(g: string)
    requires IsDigitGroups(g)
    ensures forall i :: 0 <= i < |g| ==> IsDigit(g[i]) || g[i] == '_'
  {
    forall i | 0 <= i < |g| ensures IsDigit(g[i]) || g[i] == '_' {
      if 0 < i < |g| - 1 { assert GroupChar(g, i); }
    }
  }

  /** Digit groups, a point and digit groups: the digits as a mantissa over
      ten to the number of digits after the point; underscores count for
      nothing. */
  lemma FloatGroupsPoint(ip: string, fp: string)
    requires IsDigitGroups(ip) && IsDigitGroups(fp)
    ensures FloatOf(ip + "." + fp) == Some(Finite(DigitsValue(ip + fp), DigitCount(fp)))
  {
    var s := ip + "." + fp;
    var n := |ip|;
    assert s[0] == ip[0] && s[|s| - 1] == fp[|fp| - 1];
    FloatDecimal(s);
    GroupsChars(ip);
    GroupsChars(fp);
    assert 'e' !in Lower(s) by {
      forall i | 0 <= i < |s| ensures Lower(s)[i] != 'e' {
        if i < n { assert s[i] == ip[i]; }
        else if i > n { assert s[i] == fp[i - n - 1]; }
      }
    }
    DecimalPlain(s);
    assert '.' !in s[..n] by { assert s[..n] == ip; }
    IndexOfAt(s, '.', n);
    assert s[..n] == ip && s[n + 1..] == fp;
  }

  /** float() on its own examples. */
  lemma FloatNaNCase()
    ensures FloatOf("nan") == Some(NaN)
  {
    StripNoSpace("nan");
  }

  /** An exponent mark needs digits after it. */
  lemma FloatBareExponent()
    ensures FloatOf("1e") == None
  {
    StripNoSpace("1e");
  }

  /** A point needs a digit before or after it. */
  lemma FloatBarePoint()
    ensures FloatOf(".") == None
  {
    StripNoSpace(".");
  }

  /** int() strips the whitespace around its argument. */
  lemma IntPadded(ws1: string, t: string, ws2: string)
    requires AllSpace(ws1) && AllSpace(ws2)
    requires |t| > 0 && !IsSpace(t[0]) && !IsSpace(t[|t| - 1])
    ensures ParseInt(ws1 + t + ws2) == ParseInt(t)
  {
    StripPadded(ws1, t, ws2);
    StripNoSpace(t);
  }

  /** A leading quote without a closing one still loses the last character;
      a lone quote is the empty string. */
  lemma ValueUnclosedQuote()
    ensures ParseValue("\"abc") == Str("ab")
    ensures ParseValue("\"") == Str("")
  {
  }

  /** Text that is no number stays text. */
  lemma ValueWord()
    ensures ParseValue("abc") == Str("abc")
  {
  }

  lemma ValueEmpty()
    ensures ParseValue("") == Str("")
  {
  }

  lemma ValueNegative()
    ensures ParseValue("-3") == Int(-3)
  {
    StripNoSpace("-3");
    assert "-3"[1..] == "3";
  }

  /** int() takes single underscores between digits. */
  lemma ValueUnderscores()
    ensures ParseValue("1_000") == Int(1000)
  {
    StripNoSpace("1_000");
    assert GroupChar("1_000", 1) && GroupChar("1_000", 2) && GroupChar("1_000", 3);
    assert IsDigitGroups("1_000");
    assert "1_000"[..4] == "1_00" && "1_00"[..3] == "1_0" && "1_0"[..2] == "1_" && "1_"[..1] == "1";
    assert DigitsValue("1_000") == 1000;
  }

  lemma PointNumberIsFloat(s: string)
    requires IsPointNumber(s)
    ensures ParseInt(s) == None && IsFloatToken(s)
    ensures s != "true" && s != "false" && s[0] != '"'
  {
    var p :| 0 < p < |s| && IsPointAt(s, p) && IsDigitRun(s[..p]);
    assert IsDigit(s[0]) by { assert s[0] == s[..p][0]; }
    StripNoSpace(s);
    NotDigitGroups(s, p);
    PointValue(s, p);
  }

  /** float() of digits, a point and digits is the decimal they write. */
  lemma PointValue(s: string, p: nat)
    requires 0 < p && IsPointAt(s, p)
    ensures FloatOf(s) == Some(Finite(DigitsValue(s[..p] + s[p + 1..]), |s| - p - 1))
  {
    assert IsDigit(s[0]) by { assert s[0] == s[..p][0]; }
    assert IsDigit(s[|s| - 1]) || s[|s| - 1] == '.' by {
      if p < |s| - 1 { assert s[|s| - 1] == s[p + 1..][|s| - p - 2]; }
    }
    StripNoSpace(s);
    assert Lower(s)[0] == s[0];
    assert Lower(s) != "inf" && Lower(s) != "infinity" && Lower(s) != "nan";
    NoExponentMark(s, p);
    PointIndex(s, p);
    assert s[..|s|] == s;
    DigitRunIsGroups(s[..p]);
    if p + 1 < |s| { DigitRunIsGroups(s[p + 1..]); }
    DigitCountAll(s[p + 1..]);
  }

  /** Digits around one point hold no exponent mark. */
  lemma NoExponentMark(s: string, p: nat)
    requires IsPointAt(s, p)
    ensures IndexOf(Lower(s), 'e') == |s|
  {
  }

  /** The first point of digits, a point and digits is that point. */
  lemma PointIndex(s: string, p: nat)
    requires IsPointAt(s, p)
    ensures IndexOf(s, '.') == p
  {
  }

  lemma {:induction false} DigitCountAll(s: string)
    requires AllDigits(s)
    ensures DigitCount(s) == |s|
    decreases |s|
  {
    if |s| > 0 { DigitCountAll(s[1..]); }
  }

  lemma NotDigitGroups(s: string, p: int)
    requires 0 <= p < |s| && s[p] == '.'
    ensures !IsDigitGroups(s)
  {
    if 0 < p < |s| - 1 {
      assert !GroupChar(s, p);
    }
  }

  // ---------------------------------------------------------------------
  // Key order

  /** Parts of the same kind compare as Python compares them; an int part
      meeting a string part sorts first. */
  predicate SegLess(x: Seg, y: Seg) {
    match (x, y)
    case (Index(a), Index(b)) => a < b
    case (Field(a), Field(b)) => StrLess(a, b)
    case (Index(_), Field(_)) => true
    case (Field(_), Index(_)) => false
  }

  /** EnvironmentKeyValue.__lt__ on keys: tuple comparison decided at the
      first differing part, a proper prefix first. */
  predicate KeyLess(a: Key, b: Key) {
    if |a| == 0 then |b| > 0
    else if |b| == 0 then false
    else if a[0] != b[0] then SegLess(a[0], b[0])
    else KeyLess(a[1..], b[1..])
  }

  lemma {:induction false} KeyLessIrreflexive(a: Key)
    ensures !KeyLess(a, a)
  {
    if |a| > 0 { KeyLessIrreflexive(a[1..]); }
  }

  lemma SegLessTransitive(x: Seg, y: Seg, z: Seg)
    requires SegLess(x, y) && SegLess(y, z)
    ensures SegLess(x, z)
  {
    if x.Field? && y.Field? && z.Field? { StrLessTransitive(x.name, y.name, z.name); }
  }

  lemma SegLessIrreflexive(x: Seg)
    ensures !SegLess(x, x)
  {
    if x.Field? { StrLessIrreflexive(x.name); }
  }

  lemma {:induction false} KeyLessTransitive(a: Key, b: Key, c: Key)
    requires KeyLess(a, b) && KeyLess(b, c)
    ensures KeyLess(a, c)
  {
    if |a| > 0 && |b| > 0 && |c| > 0 {
      if a[0] == b[0] && b[0] == c[0] {
        KeyLessTransitive(a[1..], b[1..], c[1..]);
      } else if a[0] != b[0] && b[0] != c[0] {
        SegLessTransitive(a[0], b[0], c[0]);
        if a[0] == c[0] { SegLessIrreflexive(a[0]); }
      }
    }
  }

  lemma {:induction false} KeyLessTotal(a: Key, b: Key)
    requires a != b
    ensures KeyLess(a, b) || KeyLess(b, a)
  {
    if |a| > 0 && |b| > 0 {
      if a[0] == b[0] {
        assert a == [a[0]] + a[1..] && b == [b[0]] + b[1..];
        KeyLessTotal(a[1..], b[1..]);
      } else if a[0].Field? && b[0].Field? {
        StrLessTotal(a[0].name, b[0].name);
      }
    }
  }

  lemma {:induction false} KeyLessAsymmetric(a: Key, b: Key)
    requires KeyLess(a, b)
    ensures !KeyLess(b, a)
  {
    if KeyLess(b, a) {
      KeyLessTransitive(a, b, a);
      KeyLessIrreflexive(a);
    }
  }

  /** At the first position where an int part meets a string part, the key
      with the int part sorts first. */
  lemma {:induction false} IndexSortsBeforeField(p: Key, n: int, f: string, a: Key, b: Key)
    ensures KeyLess(p + [Index(n)] + a, p + [Field(f)] + b)
  {
    if |p| > 0 {
      assert (p + [Index(n)] + a)[1..] == p[1..] + [Index(n)] + a;
      assert (p + [Field(f)] + b)[1..] == p[1..] + [Field(f)] + b;
      IndexSortsBeforeField(p[1..], n, f, a, b);
    }
  }

  // ---------------------------------------------------------------------
  // sorted()

  predicate SortedBy<T>(r: seq<T>, k: T -> Key) {
    forall i, j :: 0 <= i < j < |r| ==> KeyLess(k(r[i]), k(r[j]))
  }

  predicate DistinctKeys<T>(xs: seq<T>, k: T -> Key) {
    forall i, j :: 0 <= i < j < |xs| ==> k(xs[i]) != k(xs[j])
  }

  function InsertByKey<T>(x: T, xs: seq<T>, k: T -> Key): (r: seq<T>)
    ensures multiset(r) == multiset(xs) + multiset{x}
  {
    if |xs| == 0 then [x]
    else if KeyLess(k(xs[0]), k(x)) then
      assert xs == [xs[0]] + xs[1..];
      [xs[0]] + InsertByKey(x, xs[1..], k)
    else [x] + xs
  }

  /** sorted() on a list whose keys are distinct (the rest of each tuple
      then never takes part in a comparison). */
  function SortByKey<T>(xs: seq<T>, k: T -> Key): (r: seq<T>)
    ensures multiset(r) == multiset(xs)
  {
    if |xs| == 0 then []
    else
      assert xs == [xs[0]] + xs[1..];
      InsertByKey(xs[0], SortByKey(xs[1..], k), k)
  }

  lemma {:induction false} InsertSorted<T>(x: T, xs: seq<T>, k: T -> Key)
    requires SortedBy(xs, k)
    requires forall y :: y in xs ==> k(y) != k(x)
    ensures SortedBy(InsertByKey(x, xs, k), k)
  {
    if |xs| > 0 && KeyLess(k(xs[0]), k(x)) {
      SortedTail(xs, k);
      InsertSorted(x, xs[1..], k);
      InsertAfterHead(x, xs, k);
    } else if |xs| > 0 {
      assert xs[0] in xs;
      KeyLessTotal(k(x), k(xs[0]));
      SortedCons(x, xs, k);
    }
  }

  /** Putting x in front of an ascending list whose head is above x. */
  lemma SortedCons<T>(x: T, xs: seq<T>, k: T -> Key)
    requires SortedBy(xs, k) && |xs| > 0 && KeyLess(k(x), k(xs[0]))
    ensures SortedBy([x] + xs, k)
  {
    var r := [x] + xs;
    forall i, j | 0 <= i < j < |r| ensures KeyLess(k(r[i]), k(r[j])) {
      if i == 0 {
        if j > 1 { KeyLessTransitive(k(x), k(xs[0]), k(xs[j - 1])); }
      } else {
        assert r[i] == xs[i - 1] && r[j] == xs[j - 1];
      }
    }
  }

  /** Inserting past the head keeps the head first. */
  lemma InsertAfterHead<T>(x: T, xs: seq<T>, k: T -> Key)
    requires SortedBy(xs, k) && |xs| > 0 && KeyLess(k(xs[0]), k(x))
    requires SortedBy(InsertByKey(x, xs[1..], k), k)
    ensures SortedBy(InsertByKey(x, xs, k), k)
  {
    var rest := InsertByKey(x, xs[1..], k);
    InsertAboveHead(x, xs, k);
    SortedBelowAll(xs[0], rest, k);
  }

  /** Everything inserted past the head lies above it. */
  lemma InsertAboveHead<T>(x: T, xs: seq<T>, k: T -> Key)
    requires SortedBy(xs, k) && |xs| > 0 && KeyLess(k(xs[0]), k(x))
    ensures forall z :: z in InsertByKey(x, xs[1..], k) ==> KeyLess(k(xs[0]), k(z))
  {
    var rest := InsertByKey(x, xs[1..], k);
    forall z | z in rest ensures KeyLess(k(xs[0]), k(z)) {
      assert z in multiset(rest);
      if z != x {
        assert z in xs[1..];
        var j :| 0 <= j < |xs[1..]| && xs[1..][j] == z;
        assert xs[j + 1] == z;
      }
    }
  }

  /** An ascending list stays ascending behind an element below all of it. */
  lemma SortedBelowAll<T>(h: T, rest: seq<T>, k: T -> Key)
    requires SortedBy(rest, k) && forall z :: z in rest ==> KeyLess(k(h), k(z))
    ensures SortedBy([h] + rest, k)
  {
    var r := [h] + rest;
    forall i, j | 0 <= i < j < |r| ensures KeyLess(k(r[i]), k(r[j])) {
      if i == 0 { assert r[j] in rest; } else { assert r[i] == rest[i - 1] && r[j] == rest[j - 1]; }
    }
  }

  /** sorted() of a list with distinct keys is strictly ascending. */
  lemma {:induction false} SortByKeySorted<T>(xs: seq<T>, k: T -> Key)
    requires DistinctKeys(xs, k)
    ensures SortedBy(SortByKey(xs, k), k)
  {
    if |xs| > 0 {
      assert DistinctKeys(xs[1..], k) by {
        forall i, j | 0 <= i < j < |xs[1..]| ensures k(xs[1..][i]) != k(xs[1..][j]) {
          assert xs[1..][i] == xs[i + 1] && xs[1..][j] == xs[j + 1];
        }
      }
      SortByKeySorted(xs[1..], k);
      var sortedRest := SortByKey(xs[1..], k);
      forall y | y in sortedRest ensures k(y) != k(xs[0]) {
        assert y in multiset(sortedRest);
        assert y in xs[1..];
        var j :| 0 <= j < |xs[1..]| && xs[1..][j] == y;
        assert xs[j + 1] == y;
      }
      InsertSorted(xs[0], sortedRest, k);
    }
  }

  lemma SortedTail<T>(a: seq<T>, k: T -> Key)
    requires SortedBy(a, k) && |a| > 0
    ensures SortedBy(a[1..], k)
  {
    forall i, j | 0 <= i < j < |a[1..]| ensures KeyLess(k(a[1..][i]), k(a[1..][j])) {
      assert a[1..][i] == a[i + 1] && a[1..][j] == a[j + 1];
    }
  }

  lemma SortedHeads<T>(a: seq<T>, b: seq<T>, k: T -> Key)
    requires SortedBy(a, k) && SortedBy(b, k)
    requires multiset(a) == multiset(b) && |a| > 0
    ensures |b| > 0 && a[0] == b[0]
  {
    assert a[0] in multiset(b);
    assert b[0] in multiset(a);
    var i :| 0 <= i < |a| && a[i] == b[0];
    var j :| 0 <= j < |b| && b[j] == a[0];
    if i > 0 && j > 0 {
      KeyLessAsymmetric(k(a[0]), k(b[0]));
      assert false;
    }
  }

  /** Two strictly ascending lists with the same elements are equal. */
  lemma {:induction false} SortedUnique<T>(a: seq<T>, b: seq<T>, k: T -> Key)
    requires SortedBy(a, k) && SortedBy(b, k)
    requires multiset(a) == multiset(b)
    ensures a == b
  {
    if |a| > 0 {
      SortedHeads(a, b, k);
      assert a == [a[0]] + a[1..] && b == [b[0]] + b[1..];
      assert multiset(a[1..]) == multiset(a) - multiset{a[0]};
      assert multiset(b[1..]) == multiset(b) - multiset{b[0]};
      SortedTail(a, k);
      SortedTail(b, k);
      SortedUnique(a[1..], b[1..], k);
    } else {
      assert multiset(b) == multiset{};
    }
  }

  lemma DistinctKeysPermuted<T>(xs: seq<T>, ys: seq<T>, k: T -> Key)
    requires multiset(xs) == multiset(ys) && DistinctKeys(xs, k)
    ensures DistinctKeys(ys, k)
  {
    forall i, j | 0 <= i < j < |ys| ensures k(ys[i]) != k(ys[j]) {
      assert ys[i] in multiset(xs) && ys[j] in multiset(xs);
      var i' :| 0 <= i' < |xs| && xs[i'] == ys[i];
      var j' :| 0 <= j' < |xs| && xs[j'] == ys[j];
      DistinctOnce(xs, k, i');
      CountTwo(ys, i, j);
    }
  }

  /** An element found at two positions occurs at least twice. */
  lemma CountTwo<T>(ys: seq<T>, i: int, j: int)
    requires 0 <= i < j < |ys|
    ensures ys[i] == ys[j] ==> multiset(ys)[ys[i]] >= 2
  {
    assert ys == ys[..j] + ys[j..];
    assert ys[i] == ys[..j][i];
    assert ys[j..][0] == ys[j];
    assert multiset(ys) == multiset(ys[..j]) + multiset(ys[j..]);
  }

  lemma DistinctOnce<T>(xs: seq<T>, k: T -> Key, i: int)
    requires DistinctKeys(xs, k) && 0 <= i < |xs|
    ensures multiset(xs)[xs[i]] == 1
  {
    assert xs == xs[..i] + [xs[i]] + xs[i + 1..];
    forall j | 0 <= j < i ensures xs[..i][j] != xs[i] { assert xs[..i][j] == xs[j]; }
    var tail := xs[i + 1..];
    forall j | 0 <= j < |tail| ensures tail[j] != xs[i] { assert tail[j] == xs[i + 1 + j]; }
    assert multiset(xs[..i])[xs[i]] == 0;
    assert multiset(tail)[xs[i]] == 0;
  }

  /** Sorting makes declaration order irrelevant: any rearrangement of a
      list with distinct keys sorts to the same list. */
  lemma SortIgnoresOrder<T>(xs: seq<T>, ys: seq<T>, k: T -> Key)
    requires multiset(xs) == multiset(ys) && DistinctKeys(xs, k)
    ensures SortByKey(xs, k) == SortByKey(ys, k)
  {
    DistinctKeysPermuted(xs, ys, k);
    SortByKeySorted(xs, k);
    SortByKeySorted(ys, k);
    SortedUnique(SortByKey(xs, k), SortByKey(ys, k), k);
  }
}
