/**
 * A model of JavaScript's `parseFloat` for decimal notation, as the grade
 * calculator applies it to the text of its weight and score fields.
 *
 * Like `parseFloat`, `Parse` reads the text from the left: it skips leading
 * white space, reads an optional sign, a decimal mantissa (`12`, `12.`,
 * `12.5`, `.5`) and an optional exponent (`e3`, `E-2`), and stops at the
 * first character that cannot continue the literal, ignoring the rest. An
 * exponent marker not followed by digits is not part of the literal. When
 * the mantissa has no digit the result is `None`, which stands for NaN.
 * Numbers are exact reals.
 */
module ParseFloat {
  import opened Wrappers

  predicate IsDigit(c: char) { '0' <= c <= '9' }

  /** The white space and line terminators `parseFloat` skips before the literal. */
  predicate IsSpace(c: char) {
    c == '\t' || c == '\n' || c == '\U{000B}' || c == '\U{000C}' || c == '\r' || c == ' '
    || c == '\U{00A0}' || c == '\U{1680}' || ('\U{2000}' <= c <= '\U{200A}')
    || c == '\U{2028}' || c == '\U{2029}' || c == '\U{202F}' || c == '\U{205F}'
    || c == '\U{3000}' || c == '\U{FEFF}'
  }

  predicate AllDigits(s: string) { forall i | 0 <= i < |s| :: IsDigit(s[i]) }

  function DigitValue(c: char): (d: nat)
    requires IsDigit(c)
    ensures d <= 9
  {
    c as int - '0' as int
  }

  /** The number spelled by the digits `ds` written after the digits of `acc`. */
  function DigitsFrom(acc: nat, ds: string): nat
    requires AllDigits(ds)
    decreases |ds|
  {
    if ds == [] then acc else DigitsFrom(10 * acc + DigitValue(ds[0]), ds[1..])
  }

  /** The number a string of decimal digits spells in base 10. */
  function DigitsValue(ds: string): nat
    requires AllDigits(ds)
  {
    DigitsFrom(0, ds)
  }

  /** `x` times ten to the power `k`. */
  function Scale(x: real, k: int): real
    decreases if k < 0 then -k else k
  {
    if k == 0 then x
    else if k > 0 then 10.0 * Scale(x, k - 1)
    else Scale(x, k + 1) / 10.0
  }

  /** Where the scanner stands in the literal. */
  datatype Phase =
    | Lead        // skipping white space, nothing read yet
    | Signed      // a sign has been read
    | Whole       // reading the digits before the decimal point
    | Fraction    // reading the digits after the decimal point
    | ExpMark     // an `e` or `E` has been read
    | ExpSigned   // the exponent's sign has been read
    | ExpDigits   // reading the exponent's digits

  /** What has been read so far: the mantissa's digits as one integer, and the exponent. */
  datatype Reading = Reading(
    negative: bool,     // a leading minus sign
    mantissa: nat,      // every mantissa digit, before and after the point
    digits: nat,        // how many mantissa digits were read
    fraction: nat,      // how many of them follow the point
    expNegative: bool,
    exponent: nat,
    expDigits: nat)     // how many exponent digits were read

  const Start: Reading := Reading(false, 0, 0, 0, false, 0, 0)

  function AddDigit(r: Reading, c: char, afterPoint: bool): Reading
    requires IsDigit(c)
  {
    r.(mantissa := 10 * r.mantissa + DigitValue(c), digits := r.digits + 1,
       fraction := if afterPoint then r.fraction + 1 else r.fraction)
  }

  function AddExpDigit(r: Reading, c: char): Reading
    requires IsDigit(c)
  {
    r.(exponent := 10 * r.exponent + DigitValue(c), expDigits := r.expDigits + 1)
  }

  /** Reads `s` from phase `p`, one character at a time, until a character cannot continue the literal. */
  function Scan(s: string, p: Phase, r: Reading): Reading
    decreases |s|
  {
    if s == [] then r
    else
      var c, rest := s[0], s[1..];
      match p
      case Lead =>
        if IsSpace(c) then Scan(rest, Lead, r)
        else if c == '-' then Scan(rest, Signed, r.(negative := true))
        else if c == '+' then Scan(rest, Signed, r)
        else if IsDigit(c) then Scan(rest, Whole, AddDigit(r, c, false))
        else if c == '.' then Scan(rest, Fraction, r)
        else r
      case Signed =>
        if IsDigit(c) then Scan(rest, Whole, AddDigit(r, c, false))
        else if c == '.' then Scan(rest, Fraction, r)
        else r
      case Whole =>
        if IsDigit(c) then Scan(rest, Whole, AddDigit(r, c, false))
        else if c == '.' then Scan(rest, Fraction, r)
        else if c == 'e' || c == 'E' then Scan(rest, ExpMark, r)
        else r
      case Fraction =>
        if IsDigit(c) then Scan(rest, Fraction, AddDigit(r, c, true))
        else if (c == 'e' || c == 'E') && r.digits > 0 then Scan(rest, ExpMark, r)
        else r
      case ExpMark =>
        if c == '-' then Scan(rest, ExpSigned, r.(expNegative := true))
        else if c == '+' then Scan(rest, ExpSigned, r)
        else if IsDigit(c) then Scan(rest, ExpDigits, AddExpDigit(r, c))
        else r
      case ExpSigned =>
        if IsDigit(c) then Scan(rest, ExpDigits, AddExpDigit(r, c))
        else r
      case ExpDigits =>
        if IsDigit(c) then Scan(rest, ExpDigits, AddExpDigit(r, c))
        else r
  }

  /** The number a reading denotes; an exponent without digits counts as none. */
  function Value(r: Reading): Option<real> {
    if r.digits == 0 then None
    else
      var e := if r.expDigits == 0 then 0 else if r.expNegative then -(r.exponent as int) else r.exponent as int;
      var m := Scale(r.mantissa as real, e - r.fraction);
      Some(if r.negative then -m else m)
  }

  /** `parseFloat(s)`, with `None` for NaN. */
  function Parse(s: string): Option<real> {
    Value(Scan(s, Lead, Start))
  }

  // ---------------------------------------------------------------------

  /** The empty field is not a number. */
  lemma ParseEmpty()
    ensures Parse("") == None
  {
  }

  /** Reading digits in the whole part appends them to the mantissa. */
  lemma {:induction false} ScanWhole(ds: string, r: Reading)
    requires AllDigits(ds)
    ensures Scan(ds, Whole, r) == r.(mantissa := DigitsFrom(r.mantissa, ds), digits := r.digits + |ds|)
  {
    if ds != [] {
      ScanWhole(ds[1..], AddDigit(r, ds[0], false));
    }
  }

  /** A field holding only digits parses to the number they spell in base 10. */
  lemma ParseNatural(ds: string)
    requires ds != [] && AllDigits(ds)
    ensures Parse(ds) == Some(DigitsValue(ds) as real)
  {
    ScanDigits(ds, Lead, Start);
    ValueOfWhole(DigitsValue(ds), |ds|, false);
  }

  /** A minus sign in front of a digit string negates its value. */
  lemma ParseNegative(ds: string)
    requires ds != [] && AllDigits(ds)
    ensures Parse("-" + ds) == Some(-(DigitsValue(ds) as real))
  {
    ScanMinus(ds);
    ScanDigits(ds, Signed, Start.(negative := true));
    ValueOfWhole(DigitsValue(ds), |ds|, true);
  }

  /** Digits read before anything else, or right after the sign, form the whole part. */
  lemma ScanDigits(ds: string, p: Phase, r: Reading)
    requires ds != [] && AllDigits(ds)
    requires p == Lead || p == Signed
    ensures Scan(ds, p, r) == r.(mantissa := DigitsFrom(r.mantissa, ds), digits := r.digits + |ds|)
  {
    assert Scan(ds, p, r) == Scan(ds[1..], Whole, AddDigit(r, ds[0], false));
    ScanWhole(ds[1..], AddDigit(r, ds[0], false));
  }

  /** A reading of `n` whole digits, no point and no exponent denotes the integer they spell. */
  lemma ValueOfWhole(m: nat, n: nat, negative: bool)
    requires n > 0
    ensures Value(Start.(negative := negative, mantissa := m, digits := n))
         == Some(if negative then -(m as real) else m as real)
  {
    assert Scale(m as real, 0) == m as real;
  }

  lemma ScanMinus(t: string)
    ensures Scan("-" + t, Lead, Start) == Scan(t, Signed, Start.(negative := true))
  {
    assert ("-" + t)[0] == '-' && ("-" + t)[1..] == t;
  }

  /** Text after a whole number that cannot continue it (`20%`, `20 points`) is ignored. */
  lemma ParseIgnoresTrailing(ds: string, c: char, rest: string)
    requires ds != [] && AllDigits(ds)
    requires !IsDigit(c) && c != '.' && c != 'e' && c != 'E'
    ensures Parse(ds + [c] + rest) == Parse(ds)
  {
    var s := ds + [c] + rest;
    assert s[0] == ds[0] && s[1..] == ds[1..] + ([c] + rest);
    var r := AddDigit(Start, ds[0], false);
    assert Scan(s, Lead, Start) == Scan(ds[1..] + ([c] + rest), Whole, r);
    ScanWholeThen(ds[1..], [c] + rest, r);
    ScanDigits(ds, Lead, Start);
  }

  /** Reading digits in the whole part, then a character that cannot continue the literal, stops there. */
  lemma {:induction false} ScanWholeThen(ds: string, t: string, r: Reading)
    requires AllDigits(ds)
    requires t != [] && !IsDigit(t[0]) && t[0] != '.' && t[0] != 'e' && t[0] != 'E'
    ensures Scan(ds + t, Whole, r) == r.(mantissa := DigitsFrom(r.mantissa, ds), digits := r.digits + |ds|)
  {
    if ds == [] {
      assert ds + t == t;
    } else {
      assert (ds + t)[0] == ds[0] && (ds + t)[1..] == ds[1..] + t;
      ScanWholeThen(ds[1..], t, AddDigit(r, ds[0], false));
    }
  }

  /** Leading white space does not change the parsed value. */
  lemma ParseSkipsSpace(c: char, s: string)
    requires IsSpace(c)
    ensures Parse([c] + s) == Parse(s)
  {
    assert ([c] + s)[1..] == s;
  }

  /** Ten to the power `n`. */
  function Pow10(n: nat): (p: real)
    ensures p >= 1.0
  {
    if n == 0 then 1.0 else 10.0 * Pow10(n - 1)
  }

  /** Scaling down by `k` places divides by ten to the `k`. */
  lemma {:induction false} ScaleDown(x: real, k: nat)
    ensures Scale(x, -(k as int)) == x / Pow10(k)
  {
    if k > 0 {
      ScaleDown(x, k - 1);
      assert Scale(x, -(k as int)) == Scale(x, -((k - 1) as int)) / 10.0;
    }
  }

  /** Digits read after digits continue the same base-10 number. */
  lemma {:induction false} DigitsFromConcat(acc: nat, a: string, b: string)
    requires AllDigits(a) && AllDigits(b)
    ensures AllDigits(a + b)
    ensures DigitsFrom(acc, a + b) == DigitsFrom(DigitsFrom(acc, a), b)
    decreases |a|
  {
    assert forall i | 0 <= i < |a + b| :: (a + b)[i] == if i < |a| then a[i] else b[i - |a|];
    if a == [] {
      assert a + b == b;
    } else {
      assert (a + b)[0] == a[0] && (a + b)[1..] == a[1..] + b;
      DigitsFromConcat(10 * acc + DigitValue(a[0]), a[1..], b);
    }
  }

  /** Whole digits followed by a decimal point: the digits join the mantissa and the fraction begins. */
  lemma {:induction false} ScanWholeDot(ds: string, t: string, r: Reading)
    requires AllDigits(ds)
    ensures Scan(ds + ("." + t), Whole, r)
         == Scan(t, Fraction, r.(mantissa := DigitsFrom(r.mantissa, ds), digits := r.digits + |ds|))
  {
    if ds == [] {
      assert ds + ("." + t) == "." + t;
      assert ("." + t)[0] == '.' && ("." + t)[1..] == t;
    } else {
      assert (ds + ("." + t))[0] == ds[0] && (ds + ("." + t))[1..] == ds[1..] + ("." + t);
      ScanWholeDot(ds[1..], t, AddDigit(r, ds[0], false));
    }
  }

  /** Digits after the decimal point join the mantissa and are counted as fraction digits. */
  lemma {:induction false} ScanFraction(fs: string, r: Reading)
    requires AllDigits(fs)
    ensures Scan(fs, Fraction, r)
         == r.(mantissa := DigitsFrom(r.mantissa, fs), digits := r.digits + |fs|, fraction := r.fraction + |fs|)
  {
    if fs != [] {
      ScanFraction(fs[1..], AddDigit(r, fs[0], true));
    }
  }

  /** Scanning `ds.fs` reads every digit into the mantissa and counts those of `fs` as the fraction. */
  lemma ScanDecimal(ds: string, fs: string)
    requires ds != [] && AllDigits(ds) && AllDigits(fs)
    ensures AllDigits(ds + fs)
    ensures Scan(ds + "." + fs, Lead, Start)
         == Start.(mantissa := DigitsValue(ds + fs), digits := |ds| + |fs|, fraction := |fs|)
  {
    DigitsFromConcat(0, ds, fs);
    var w := Start.(mantissa := DigitsValue(ds), digits := |ds|);
    ScanToPoint(ds, fs);
    ScanFraction(fs, w);
  }

  /** Scanning `ds.` reads `ds` as the whole part and leaves the scanner in the fraction. */
  lemma ScanToPoint(ds: string, fs: string)
    requires ds != [] && AllDigits(ds)
    ensures Scan(ds + "." + fs, Lead, Start) == Scan(fs, Fraction, Start.(mantissa := DigitsValue(ds), digits := |ds|))
  {
    var t := ds[1..] + ("." + fs);
    var r := AddDigit(Start, ds[0], false);
    assert Scan(ds + "." + fs, Lead, Start) == Scan(t, Whole, r) by {
      var s := ds + "." + fs;
      assert s[0] == ds[0] && s[1..] == t;
      ScanLeadDigit(s, Start);
    }
    assert Scan(t, Whole, r) == Scan(fs, Fraction, r.(mantissa := DigitsFrom(r.mantissa, ds[1..]), digits := |ds|)) by {
      ScanWholeDot(ds[1..], fs, r);
    }
    assert DigitsFrom(r.mantissa, ds[1..]) == DigitsValue(ds) by {
      assert r.mantissa == DigitValue(ds[0]);
      DigitsValueCons(ds);
    }
  }

  lemma DigitsValueCons(ds: string)
    requires ds != [] && AllDigits(ds)
    ensures DigitsValue(ds) == DigitsFrom(DigitValue(ds[0]), ds[1..])
  {
    assert 10 * 0 + DigitValue(ds[0]) == DigitValue(ds[0]);
  }

  /** A digit read first starts the whole part. */
  lemma ScanLeadDigit(s: string, r: Reading)
    requires s != [] && IsDigit(s[0])
    ensures Scan(s, Lead, r) == Scan(s[1..], Whole, AddDigit(r, s[0], false))
  {
  }

  /** A decimal `ds.fs` parses to the digits of `ds` and `fs` read as one integer, divided by ten to the length of `fs`. */
  lemma ParseDecimal(ds: string, fs: string)
    requires ds != [] && AllDigits(ds) && AllDigits(fs)
    ensures AllDigits(ds + fs)
    ensures Parse(ds + "." + fs) == Some(DigitsValue(ds + fs) as real / Pow10(|fs|))
  {
    ScanDecimal(ds, fs);
    var m := DigitsValue(ds + fs);
    var rd := Start.(mantissa := m, digits := |ds| + |fs|, fraction := |fs|);
    assert Parse(ds + "." + fs) == Value(rd);
    assert Value(rd) == Some(m as real / Pow10(|fs|)) by {
      ValueOfDecimal(m, |ds| + |fs|, |fs|);
      ScaleDown(m as real, |fs|);
    }
  }

  /** A reading of `n` digits, the last `f` of them after the point, and no exponent. */
  lemma ValueOfDecimal(m: nat, n: nat, f: nat)
    requires n > 0
    ensures Value(Start.(mantissa := m, digits := n, fraction := f)) == Some(Scale(m as real, -(f as int)))
  {
  }
}
