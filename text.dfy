/** Text primitives the match-log reader relies on: splitting a line at a
    one-character separator (Go's strings.Split), removing a character
    (strings.ReplaceAll with an empty replacement), and the two number
    parsers (strconv.Atoi and strconv.ParseFloat), whose errors the source
    discards so that a field that does not parse reads as zero. */
module Text {

  /** Go's strings.Split(s, sep) for a single-character separator: the
      pieces between separators, so n separators give n + 1 pieces and the
      empty string gives one empty piece. */
  function Split(s: string, sep: char): (parts: seq<string>)
    ensures |parts| >= 1
    decreases |s|
  {
    if |s| == 0 then [""]
    else
      var rest := Split(s[1..], sep);
      if s[0] == sep then [""] + rest
      else [[s[0]] + rest[0]] + rest[1..]
  }

  /** No piece of a split holds the separator. */
  lemma {:induction false} SplitPiecesFree(s: string, sep: char)
    ensures forall i :: 0 <= i < |Split(s, sep)| ==> sep !in Split(s, sep)[i]
    decreases |s|
  {
    if |s| > 0 {
      SplitPiecesFree(s[1..], sep);
      var rest := Split(s[1..], sep);
      var parts := Split(s, sep);
      if s[0] != sep {
        assert parts[0] == [s[0]] + rest[0];
        forall i | 1 <= i < |parts| ensures sep !in parts[i] {
          assert parts[i] == rest[i];
        }
      }
    }
  }

  /** Go's strings.Join(parts, string(sep)), the inverse of Split. */
  function Join(parts: seq<string>, sep: char): string
    requires |parts| >= 1
    decreases |parts|
  {
    if |parts| == 1 then parts[0] else parts[0] + [sep] + Join(parts[1..], sep)
  }

  /** Joining the pieces of a split gives back the original text. */
  lemma {:induction false} JoinSplit(s: string, sep: char)
    ensures Join(Split(s, sep), sep) == s
    decreases |s|
  {
    if |s| > 0 {
      JoinSplit(s[1..], sep);
      var rest := Split(s[1..], sep);
      if s[0] != sep {
        var parts := Split(s, sep);
        assert parts[0] == [s[0]] + rest[0];
        assert parts[1..] == rest[1..];
        if |rest| > 1 {
          assert Join(rest, sep) == rest[0] + [sep] + Join(rest[1..], sep);
        }
      }
    }
  }

  /** Text without the separator is one piece. */
  lemma {:induction false} SplitNoSep(a: string, sep: char)
    requires sep !in a
    ensures Split(a, sep) == [a]
    decreases |a|
  {
    if |a| > 0 {
      SplitNoSep(a[1..], sep);
      assert [a[0]] + a[1..] == a;
    }
  }

  /** A separator after a separator-free prefix ends the first piece. */
  lemma {:induction false} SplitFirst(a: string, sep: char, b: string)
    requires sep !in a
    ensures Split(a + [sep] + b, sep) == [a] + Split(b, sep)
    decreases |a|
  {
    var s := a + [sep] + b;
    if |a| == 0 {
      assert s[1..] == b;
    } else {
      assert s[1..] == a[1..] + [sep] + b;
      SplitFirst(a[1..], sep, b);
      assert [a[0]] + a[1..] == a;
    }
  }

  /** Splitting what was joined from separator-free pieces gives back the
      pieces: with JoinSplit, Split and Join are inverse to each other. */
  lemma {:induction false} SplitJoin(parts: seq<string>, sep: char)
    requires |parts| >= 1
    requires forall i :: 0 <= i < |parts| ==> sep !in parts[i]
    ensures Split(Join(parts, sep), sep) == parts
    decreases |parts|
  {
    if |parts| == 1 {
      SplitNoSep(parts[0], sep);
    } else {
      SplitJoin(parts[1..], sep);
      SplitFirst(parts[0], sep, Join(parts[1..], sep));
      assert [parts[0]] + parts[1..] == parts;
    }
  }

  /** Go's strings.ReplaceAll(s, string(c), ""): every occurrence of c removed. */
  function RemoveAll(s: string, c: char): (r: string)
    ensures c !in r
    ensures |r| <= |s|
    decreases |s|
  {
    if |s| == 0 then ""
    else if s[0] == c then RemoveAll(s[1..], c)
    else [s[0]] + RemoveAll(s[1..], c)
  }

  /** RemoveAll keeps every other character and adds none. */
  lemma {:induction false} RemoveAllKeeps(s: string, c: char)
    ensures forall x :: x in RemoveAll(s, c) <==> x in s && x != c
    decreases |s|
  {
    if |s| > 0 {
      RemoveAllKeeps(s[1..], c);
      assert s == [s[0]] + s[1..];
    }
  }

  /** RemoveAll leaves text that does not contain the character alone. */
  lemma {:induction false} RemoveAllAbsent(s: string, c: char)
    requires c !in s
    ensures RemoveAll(s, c) == s
    decreases |s|
  {
    if |s| > 0 {
      RemoveAllAbsent(s[1..], c);
      assert [s[0]] + s[1..] == s;
    }
  }

  /** RemoveAll works piece by piece. */
  lemma {:induction false} RemoveAllConcat(a: string, b: string, c: char)
    ensures RemoveAll(a + b, c) == RemoveAll(a, c) + RemoveAll(b, c)
    decreases |a|
  {
    if |a| > 0 {
      assert (a + b)[1..] == a[1..] + b;
      RemoveAllConcat(a[1..], b, c);
    } else {
      assert a + b == b;
    }
  }

  predicate IsDigit(c: char) { '0' <= c <= '9' }

  predicate AllDigits(s: string) { forall i :: 0 <= i < |s| ==> IsDigit(s[i]) }

  function DigitValue(c: char): (d: nat)
    requires IsDigit(c)
    ensures d < 10
  {
    c as int - '0' as int
  }

  /** The decimal value of a string of digits, most significant first. */
  function DigitsValue(s: string): nat
    requires AllDigits(s)
    decreases |s|
  {
    if |s| == 0 then 0 else DigitsValue(s[..|s| - 1]) * 10 + DigitValue(s[|s| - 1])
  }

  /** The digit character of a value below ten. */
  function DigitChar(d: nat): (c: char)
    requires d < 10
    ensures IsDigit(c) && DigitValue(c) == d
  {
    ('0' as int + d) as char
  }

  /** The shortest decimal numeral of n (Go's strconv.Itoa for n >= 0). */
  function Decimal(n: nat): (s: string)
    ensures |s| >= 1 && AllDigits(s)
    decreases n
  {
    if n < 10 then [DigitChar(n)] else Decimal(n / 10) + [DigitChar(n % 10)]
  }

  /** Reading a numeral back gives the number it was written from. */
  lemma {:induction false} DigitsValueDecimal(n: nat)
    ensures DigitsValue(Decimal(n)) == n
    decreases n
  {
    var s := Decimal(n);
    if n >= 10 {
      DigitsValueDecimal(n / 10);
      assert s[..|s| - 1] == Decimal(n / 10);
      assert s[|s| - 1] == DigitChar(n % 10);
    } else {
      assert s[..|s| - 1] == [];
    }
  }

  /** An optional '+' or '-' followed by at least one digit: the numerals
      strconv.Atoi accepts. */
  predicate IsIntegerNumeral(s: string) {
    if |s| > 0 && (s[0] == '+' || s[0] == '-') then |s| > 1 && AllDigits(s[1..])
    else |s| > 0 && AllDigits(s)
  }

  /** strconv.Atoi with its error discarded: a numeral's value, 0 otherwise. */
  function Atoi(s: string): (n: int)
    ensures !IsIntegerNumeral(s) ==> n == 0
  {
    if !IsIntegerNumeral(s) then 0
    else if s[0] == '-' then -(DigitsValue(s[1..]) as int)
    else if s[0] == '+' then DigitsValue(s[1..])
    else DigitsValue(s)
  }

  /** Atoi inverts Decimal, with and without a minus sign. */
  lemma AtoiDecimal(n: nat)
    ensures Atoi(Decimal(n)) == n
    ensures Atoi("-" + Decimal(n)) == -(n as int)
  {
    DigitsValueDecimal(n);
    var m := "-" + Decimal(n);
    assert m[1..] == Decimal(n);
  }

  function Pow10(k: nat): (p: nat)
    ensures p >= 1
  {
    if k == 0 then 1 else 10 * Pow10(k - 1)
  }

  /** Unsigned decimal numeral: digits, optionally a '.' and more digits,
      with at least one digit in all. */
  predicate IsUnsignedDecimal(b: string) {
    var parts := Split(b, '.');
    (|parts| == 1 && |b| > 0 && AllDigits(b)) ||
    (|parts| == 2 && AllDigits(parts[0]) && AllDigits(parts[1]) && |parts[0]| + |parts[1]| > 0)
  }

  function UnsignedDecimalValue(b: string): (v: real)
    requires IsUnsignedDecimal(b)
    ensures v >= 0.0
  {
    var parts := Split(b, '.');
    if |parts| == 1 then DigitsValue(b) as real
    else DigitsValue(parts[0]) as real + DigitsValue(parts[1]) as real / Pow10(|parts[1]|) as real
  }

  /** A decimal numeral as a log counter is written: an optional '+' or
      '-' before an unsigned decimal. */
  predicate IsDecimalNumeral(s: string) {
    if |s| > 0 && (s[0] == '+' || s[0] == '-') then IsUnsignedDecimal(s[1..]) else IsUnsignedDecimal(s)
  }

  /** strconv.ParseFloat(s, 64) with its error discarded, on the decimal
      numerals a log counter is written in: an optional sign, digits, and
      an optional fraction; anything else reads as 0. */
  function ParseNum(s: string): (v: real)
    ensures !IsDecimalNumeral(s) ==> v == 0.0
  {
    if |s| > 0 && (s[0] == '+' || s[0] == '-') then
      if IsUnsignedDecimal(s[1..]) then
        (if s[0] == '-' then -UnsignedDecimalValue(s[1..]) else UnsignedDecimalValue(s[1..]))
      else 0.0
    else if IsUnsignedDecimal(s) then UnsignedDecimalValue(s)
    else 0.0
  }

  /** On a numeral ParseNum gives the unsigned value, negated after a '-'. */
  lemma ParseNumValue(s: string)
    requires IsDecimalNumeral(s)
    ensures s[0] == '-' ==> ParseNum(s) == -UnsignedDecimalValue(s[1..])
    ensures s[0] == '+' ==> ParseNum(s) == UnsignedDecimalValue(s[1..])
    ensures s[0] != '+' && s[0] != '-' ==> ParseNum(s) == UnsignedDecimalValue(s)
  {
  }

  /** Text that is not a numeral reads as 0: a bare sign, a lone point,
      two points, or a letter. */
  lemma ParseNumRejects()
    ensures ParseNum("abc") == 0.0 && ParseNum("-") == 0.0
    ensures ParseNum(".") == 0.0 && ParseNum("1.2.3") == 0.0
  {
    assert !IsDecimalNumeral("abc") by { assert !IsDigit("abc"[0]); }
    assert "-"[1..] == "";
    assert Split(".", '.') == ["", ""];
    var t := "1.2.3";
    assert t == "1" + ['.'] + ("2" + ['.'] + "3");
    SplitFirst("1", '.', "2" + ['.'] + "3");
    SplitFirst("2", '.', "3");
    SplitNoSep("3", '.');
  }

  /** On integer numerals ParseNum and Atoi agree. */
  lemma ParseNumAtoi(s: string)
    requires IsIntegerNumeral(s)
    ensures ParseNum(s) == Atoi(s) as real
  {
    if s[0] == '+' || s[0] == '-' {
      SplitNoSep(s[1..], '.');
    } else {
      SplitNoSep(s, '.');
    }
  }

  /** ParseNum reads back a whole number written in decimal. */
  lemma ParseNumDecimal(n: nat)
    ensures ParseNum(Decimal(n)) == n as real
    ensures ParseNum("-" + Decimal(n)) == -(n as real)
  {
    AtoiDecimal(n);
    ParseNumAtoi(Decimal(n));
    var m := "-" + Decimal(n);
    assert m[1..] == Decimal(n);
    ParseNumAtoi(m);
  }

  /** A numeral that starts with a digit carries no sign. */
  lemma ParseNumUnsigned(b: string)
    requires |b| > 0 && IsDigit(b[0]) && IsUnsignedDecimal(b)
    ensures ParseNum(b) == UnsignedDecimalValue(b)
  {
  }

  /** ParseNum reads a numeral "i.f" as i plus f scaled by its length. */
  lemma ParseNumFraction(i: nat, f: string)
    requires AllDigits(f)
    ensures ParseNum(Decimal(i) + "." + f) == i as real + DigitsValue(f) as real / Pow10(|f|) as real
  {
    var d := Decimal(i);
    var s := d + "." + f;
    assert s == d + ['.'] + f;
    SplitFirst(d, '.', f);
    SplitNoSep(f, '.');
    var parts := Split(s, '.');
    assert parts == [d, f];
    assert IsUnsignedDecimal(s);
    assert s[0] == d[0];
    ParseNumUnsigned(s);
    DigitsValueDecimal(i);
  }
}
