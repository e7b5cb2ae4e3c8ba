/**
  The pieces of Go's standard library that the converter relies on, stated as
  Dafny functions: unsigned 64-bit arithmetic (which wraps modulo 2^64),
  `strings.Split` with a one-character separator, `strconv.ParseUint(s, 10, 0)`
  on a 64-bit platform, and the `%d` verb of `fmt.Sprintf` for unsigned values.
  Go strings are byte strings; here they are `seq<char>`, which agrees with Go for
  the ASCII separators and digits these functions look at.
 */
module GoStd {

  /** 2^64, the modulus of Go's `uint64` arithmetic. */
  const Modulus: int := 0x1_0000_0000_0000_0000

  /** The largest `uint64`, which `ParseUint` also returns with a range error. */
  const MaxUint64: int := Modulus - 1

  type uint64 = x: int | 0 <= x < Modulus

  /** `a + b` on `uint64`. */
  function Add64(a: uint64, b: uint64): (r: uint64)
    ensures r == if a + b < Modulus then a + b else a + b - Modulus
  {
    (a + b) % Modulus
  }

  /** `a - b` on `uint64`. */
  function Sub64(a: uint64, b: uint64): (r: uint64)
    ensures r == if b <= a then a - b else a - b + Modulus
  {
    (a - b) % Modulus
  }

  /** `a * 2` on `uint64` (the only product the converter computes). */
  function Double64(a: uint64): (r: uint64)
    ensures r == if 2 * a < Modulus then 2 * a else 2 * a - Modulus
  {
    (a * 2) % Modulus
  }

  /** Reducing a summand first does not change the sum's reduction. */
  lemma AddMod(a: nat, b: nat)
    ensures (a % Modulus + b) % Modulus == (a + b) % Modulus
  {
    var q := a / Modulus;
    assert a == q * Modulus + a % Modulus;
    assert a + b == q * Modulus + (a % Modulus + b);
  }

  datatype Option<+T> = None | Some(value: T)

  /** The kinds of Go error value the converter can hand back. */
  datatype ErrorKind =
    | ErrSyntax         // strconv.ErrSyntax: empty input or a byte that is not a decimal digit
    | ErrRange          // strconv.ErrRange: the value does not fit in 64 bits
    | ErrNotSuccessful  // the converter's own "JSON not successful" error

  /** Go's `(T, error)` pair; `err == None` is `err == nil`. */
  datatype Ret<T> = Ret(value: T, err: Option<ErrorKind>)

  /** A Go call that either returns or panics with "index out of range". */
  datatype Call<T> = Returned(result: T) | Panicked

  // ---------------------------------------------------------------------------
  // Decimal digits

  predicate IsDigit(c: char) {
    '0' <= c <= '9'
  }

  predicate AllDigits(s: string) {
    forall i :: 0 <= i < |s| ==> IsDigit(s[i])
  }

  function DigitValue(c: char): (d: nat)
    requires IsDigit(c)
    ensures d < 10
  {
    c as int - '0' as int
  }

  function DigitChar(d: nat): (c: char)
    requires d < 10
    ensures IsDigit(c) && DigitValue(c) == d
  {
    ('0' as int + d) as char
  }

  /** The number a digit string denotes when read left to right, starting from `acc`. */
  function DecFrom(acc: nat, s: string): nat
    requires AllDigits(s)
    decreases |s|
  {
    if s == [] then acc else DecFrom(10 * acc + DigitValue(s[0]), s[1..])
  }

  /** The number a digit string denotes (leading zeros allowed). */
  function DecValue(s: string): nat
    requires AllDigits(s)
  {
    DecFrom(0, s)
  }

  /** A digit string in canonical form: non-empty, no leading zero unless it is "0". */
  predicate Canonical(s: string) {
    |s| > 0 && AllDigits(s) && (|s| > 1 ==> s[0] != '0')
  }

  /** A single digit denotes its own value. */
  lemma DecValueDigit(c: char)
    requires IsDigit(c)
    ensures AllDigits([c]) && DecValue([c]) == DigitValue(c)
  {
    assert [c][1..] == [];
    assert DecFrom(0, [c]) == DecFrom(DigitValue(c), []);
  }

  lemma {:induction false} DecFromAtLeast(acc: nat, s: string)
    requires AllDigits(s)
    ensures DecFrom(acc, s) >= acc
    ensures |s| > 0 ==> DecFrom(acc, s) >= 10 * acc + DigitValue(s[0])
    decreases |s|
  {
    if s != [] {
      DecFromAtLeast(10 * acc + DigitValue(s[0]), s[1..]);
    }
  }

  /** Appending a digit multiplies the value read so far by ten and adds the digit. */
  lemma {:induction false} DecFromSnoc(acc: nat, s: string, c: char)
    requires AllDigits(s) && IsDigit(c)
    ensures AllDigits(s + [c])
    ensures DecFrom(acc, s + [c]) == 10 * DecFrom(acc, s) + DigitValue(c)
    decreases |s|
  {
    if s == [] {
      assert [c][1..] == [];
    } else {
      assert (s + [c])[1..] == s[1..] + [c];
      DecFromSnoc(10 * acc + DigitValue(s[0]), s[1..], c);
    }
  }

  // ---------------------------------------------------------------------------
  // fmt.Sprintf("%d", n) and strconv.FormatUint(n, 10)

  /** The decimal rendering of `n`, as the `%d` verb prints an unsigned integer. */
  function FormatUint(n: nat): (s: string)
    ensures Canonical(s)
    ensures DecValue(s) == n
    decreases n
  {
    if n < 10 then
      DecValueDigit(DigitChar(n));
      [DigitChar(n)]
    else
      var prefix := FormatUint(n / 10);
      DecFromSnoc(0, prefix, DigitChar(n % 10));
      prefix + [DigitChar(n % 10)]
  }

  /** Every canonical digit string is the rendering of its own value. */
  lemma {:induction false} FormatDecValue(s: string)
    requires Canonical(s)
    ensures FormatUint(DecValue(s)) == s
    decreases |s|
  {
    if |s| > 1 {
      var prefix, c := s[..|s| - 1], s[|s| - 1];
      assert s == prefix + [c];
      DecFromSnoc(0, prefix, c);
      DecFromAtLeast(0, prefix);
      DecFromAtLeast(DigitValue(prefix[0]), prefix[1..]);
      assert DecValue(prefix) >= 1;
      FormatDecValue(prefix);
    } else {
      assert s == [s[0]];
      DecValueDigit(s[0]);
      assert DigitChar(DigitValue(s[0])) == s[0];
    }
  }

  // ---------------------------------------------------------------------------
  // strconv.ParseUint(s, 10, 0) with a 64-bit `uint`

  /** The first value whose tenfold no longer fits in 64 bits (`maxUint64/10 + 1`). */
  const Cutoff: int := MaxUint64 / 10 + 1

  /**
    Go's digit loop: each byte must be a decimal digit (ErrSyntax otherwise); the
    accumulator is checked against `Cutoff` before multiplying and against
    `MaxUint64` after adding (ErrRange, value MaxUint64). A range error ends the
    scan, so bytes after it are never looked at.
   */
  function ScanDigits(s: string, n: uint64): (r: Ret<uint64>)
    ensures r.err == None || r == Ret(0, Some(ErrSyntax)) || r == Ret(MaxUint64, Some(ErrRange))
    decreases |s|
  {
    if s == [] then Ret(n, None)
    else if !IsDigit(s[0]) then Ret(0, Some(ErrSyntax))
    else if n >= Cutoff then Ret(MaxUint64, Some(ErrRange))
    else if 10 * n + DigitValue(s[0]) > MaxUint64 then Ret(MaxUint64, Some(ErrRange))
    else ScanDigits(s[1..], 10 * n + DigitValue(s[0]))
  }

  lemma {:induction false} ScanDigitsCorrect(s: string, n: uint64)
    requires AllDigits(s)
    ensures var r := ScanDigits(s, n);
      && (r.err == None <==> DecFrom(n, s) < Modulus)
      && (r.err == None ==> r.value == DecFrom(n, s))
      && (r.err != None ==> r == Ret(MaxUint64, Some(ErrRange)))
    decreases |s|
  {
    if s != [] {
      var d := DigitValue(s[0]);
      DecFromAtLeast(10 * n + d, s[1..]);
      if n < Cutoff && 10 * n + d <= MaxUint64 {
        ScanDigitsCorrect(s[1..], 10 * n + d);
      }
    }
  }

  lemma {:induction false} ScanDigitsSyntax(s: string, n: uint64)
    requires !AllDigits(s)
    ensures ScanDigits(s, n).err != None
    decreases |s|
  {
    if IsDigit(s[0]) && n < Cutoff && 10 * n + DigitValue(s[0]) <= MaxUint64 {
      assert !AllDigits(s[1..]) by {
        var i :| 0 <= i < |s| && !IsDigit(s[i]);
        assert s[1..][i - 1] == s[i];
      }
      ScanDigitsSyntax(s[1..], 10 * n + DigitValue(s[0]));
    }
  }

  /**
    A non-digit reached while the digits before it still fit in 64 bits ends the
    scan with `(0, ErrSyntax)`, whatever follows it.
   */
  lemma {:induction false} ScanDigitsSyntaxAfter(p: string, c: char, t: string, n: uint64)
    requires AllDigits(p) && !IsDigit(c) && DecFrom(n, p) < Modulus
    ensures ScanDigits(p + [c] + t, n) == Ret(0, Some(ErrSyntax))
    decreases |p|
  {
    if p != [] {
      var d := DigitValue(p[0]);
      DecFromAtLeast(10 * n + d, p[1..]);
      assert (p + [c] + t)[1..] == p[1..] + [c] + t;
      ScanDigitsSyntaxAfter(p[1..], c, t, 10 * n + d);
    }
  }

  /** Text that `ParseUint(_, 10, 0)` accepts: decimal digits only, at least one, below 2^64. */
  predicate Uint64Text(s: string) {
    |s| > 0 && AllDigits(s) && DecValue(s) < Modulus
  }

  /**
    `strconv.ParseUint(s, 10, 0)`: succeeds exactly on a non-empty string of
    decimal digits (leading zeros allowed, no sign) whose value fits in 64 bits,
    and then yields that value.
   */
  function ParseUint(s: string): (r: Ret<uint64>)
    ensures r.err == None <==> Uint64Text(s)
    ensures r.err == None ==> r.value == DecValue(s)
    ensures r.err == None || r == Ret(0, Some(ErrSyntax)) || r == Ret(MaxUint64, Some(ErrRange))
    ensures s == [] ==> r == Ret(0, Some(ErrSyntax))
    ensures |s| > 0 && !IsDigit(s[0]) ==> r == Ret(0, Some(ErrSyntax))
    ensures |s| > 0 && AllDigits(s) && DecValue(s) >= Modulus ==> r == Ret(MaxUint64, Some(ErrRange))
  {
    if s == [] then
      Ret(0, Some(ErrSyntax))
    else
      if AllDigits(s) then ScanDigitsCorrect(s, 0); ScanDigits(s, 0)
      else ScanDigitsSyntax(s, 0); ScanDigits(s, 0)
  }

  /**
    `ParseUint` reports a syntax error, with the value 0, at the first non-digit
    when the digits before it fit in 64 bits (otherwise the range error comes
    first).
   */
  lemma SyntaxAfterPrefix(p: string, c: char, t: string)
    requires AllDigits(p) && !IsDigit(c) && DecValue(p) < Modulus
    ensures ParseUint(p + [c] + t) == Ret(0, Some(ErrSyntax))
  {
    ScanDigitsSyntaxAfter(p, c, t, 0);
  }

  /** Parsing what `%d` printed gives the number back. */
  lemma ParseFormatUint(n: uint64)
    ensures ParseUint(FormatUint(n)) == Ret(n, None)
  {
  }

  /** Formatting what was parsed gives back the text exactly when it was canonical. */
  lemma FormatParseUint(s: string)
    requires ParseUint(s).err == None
    ensures FormatUint(ParseUint(s).value) == s <==> Canonical(s)
  {
    if Canonical(s) {
      FormatDecValue(s);
    }
  }

  // ---------------------------------------------------------------------------
  // strings.Split(s, sep) with a one-character separator

  /**
    The pieces of `s` between occurrences of `sep`; an empty string gives one
    empty piece, and adjacent or outer separators give empty pieces.
   */
  function Split(s: string, sep: char): (parts: seq<string>)
    ensures |parts| >= 1
    decreases |s|
  {
    if s == [] then [[]]
    else
      var rest := Split(s[1..], sep);
      if s[0] == sep then [[]] + rest
      else [[s[0]] + rest[0]] + rest[1..]
  }

  /** Joins pieces with `sep` between them (`strings.Join`). */
  function Join(parts: seq<string>, sep: char): string
    requires |parts| >= 1
    decreases |parts|
  {
    if |parts| == 1 then parts[0] else parts[0] + [sep] + Join(parts[1..], sep)
  }

  /** How many times `c` occurs in `s`. */
  function Count(s: string, c: char): nat
    decreases |s|
  {
    if s == [] then 0 else (if s[0] == c then 1 else 0) + Count(s[1..], c)
  }

  lemma {:induction false} CountZero(s: string, c: char)
    ensures Count(s, c) == 0 <==> c !in s
    decreases |s|
  {
    if s != [] {
      CountZero(s[1..], c);
      assert c in s <==> s[0] == c || c in s[1..];
    }
  }

  /**
    Split cuts at every separator and nowhere else: there is one more piece than
    separators, no piece contains the separator, and joining restores the input.
   */
  lemma {:induction false} SplitJoin(s: string, sep: char)
    ensures |Split(s, sep)| == Count(s, sep) + 1
    ensures forall i :: 0 <= i < |Split(s, sep)| ==> sep !in Split(s, sep)[i]
    ensures Join(Split(s, sep), sep) == s
    decreases |s|
  {
    if s != [] {
      var rest := Split(s[1..], sep);
      SplitJoin(s[1..], sep);
      var parts := Split(s, sep);
      if s[0] == sep {
        assert parts[1..] == rest;
        assert s == [] + [sep] + s[1..];
      } else {
        assert parts[1..] == rest[1..];
        if |rest| == 1 {
          assert s == [s[0]] + rest[0];
        } else {
          assert rest[1..][1..] == rest[2..];
          assert Join(rest, sep) == rest[0] + [sep] + Join(rest[1..], sep);
          assert s == [s[0]] + rest[0] + [sep] + Join(rest[1..], sep);
        }
        forall i | 0 <= i < |parts| ensures sep !in parts[i] {
          if i > 0 { assert parts[i] == rest[i]; }
        }
      }
    }
  }

  /** A string without the separator is a single piece. */
  lemma {:induction false} SplitNoSep(s: string, sep: char)
    requires sep !in s
    ensures Split(s, sep) == [s]
    decreases |s|
  {
    if s != [] {
      SplitNoSep(s[1..], sep);
      assert [s[0]] + s[1..] == s;
    }
  }

  /** The first step of Split, for a non-empty string. */
  lemma SplitCons(c: char, t: string, sep: char)
    ensures Split([c] + t, sep) ==
      if c == sep then [[]] + Split(t, sep)
      else [[c] + Split(t, sep)[0]] + Split(t, sep)[1..]
  {
    assert ([c] + t)[1..] == t;
  }

  /** One step of SplitAppend: putting a character in front of the left side. */
  lemma SplitAppendStep(c: char, t: string, sep: char, b: string)
    requires Split(t + [sep] + b, sep) == Split(t, sep) + Split(b, sep)
    ensures Split([c] + t + [sep] + b, sep) == Split([c] + t, sep) + Split(b, sep)
  {
    var restA, restB := Split(t, sep), Split(b, sep);
    assert [c] + t + [sep] + b == [c] + (t + [sep] + b);
    SplitCons(c, t + [sep] + b, sep);
    SplitCons(c, t, sep);
    if c == sep {
      SeqConsAssoc([], restA, restB);
    } else {
      SeqHeadAppend([c], restA, restB);
    }
  }

  lemma SeqConsAssoc<T>(x: T, p: seq<T>, q: seq<T>)
    ensures [x] + (p + q) == ([x] + p) + q
  {
  }

  lemma SeqHeadAppend<T>(x: seq<T>, p: seq<seq<T>>, q: seq<seq<T>>)
    requires |p| >= 1
    ensures [x + (p + q)[0]] + (p + q)[1..] == ([x + p[0]] + p[1..]) + q
  {
    assert (p + q)[0] == p[0];
    assert (p + q)[1..] == p[1..] + q;
  }

  /** Splitting at a separator splits the two sides independently. */
  lemma {:induction false} SplitAppend(a: string, sep: char, b: string)
    ensures Split(a + [sep] + b, sep) == Split(a, sep) + Split(b, sep)
    decreases |a|
  {
    if a == [] {
      assert a + [sep] + b == [sep] + b;
      SplitCons(sep, b, sep);
    } else {
      SplitAppend(a[1..], sep, b);
      SplitAppendStep(a[0], a[1..], sep, b);
      assert [a[0]] + a[1..] == a;
    }
  }

  /** Split undoes Join on separator-free pieces. */
  lemma {:induction false} JoinSplit(parts: seq<string>, sep: char)
    requires |parts| >= 1
    requires forall i :: 0 <= i < |parts| ==> sep !in parts[i]
    ensures Split(Join(parts, sep), sep) == parts
    decreases |parts|
  {
    if |parts| == 1 {
      SplitNoSep(parts[0], sep);
    } else {
      JoinSplit(parts[1..], sep);
      SplitNoSep(parts[0], sep);
      SplitAppend(parts[0], sep, Join(parts[1..], sep));
      assert [parts[0]] + parts[1..] == parts;
    }
  }
}
