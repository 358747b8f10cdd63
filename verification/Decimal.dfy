/** `terminal_write_uint` of string.c: decimal printing into a buffer filled backwards. */
module Decimal {
  import opened Bits
  import opened Memory

  const ZERO: byte := 48     // '0'
  const BUFFER_SIZE: nat := 11

  predicate IsDigit(c: byte) {
    ZERO <= c < ZERO + 10
  }

  /** The number a string of digits denotes. */
  function Value(s: seq<byte>): int
    requires forall i :: 0 <= i < |s| ==> IsDigit(s[i])
  {
    if s == [] then 0 else 10 * Value(s[..|s| - 1]) + (s[|s| - 1] - ZERO as int)
  }

  /** Digits only, at least one, and no leading zero unless it is the only digit. */
  ghost predicate Canonical(s: seq<byte>) {
    && s != [] && (forall i :: 0 <= i < |s| ==> IsDigit(s[i]))
    && (|s| > 1 ==> s[0] != ZERO)
  }

  function Power10(k: nat): nat {
    if k == 0 then 1 else 10 * Power10(k - 1)
  }

  lemma {:induction false} ValueBounds(s: seq<byte>)
    requires forall i :: 0 <= i < |s| ==> IsDigit(s[i])
    ensures 0 <= Value(s) < Power10(|s|)
    ensures s != [] && s[0] != ZERO ==> Value(s) >= Power10(|s| - 1)
  {
    if s != [] {
      var t := s[..|s| - 1];
      ValueBounds(t);
      if t != [] { assert t[0] == s[0]; }
    }
  }

  /** At most one canonical string denotes a given number. */
  lemma {:induction false} CanonicalUnique(s: seq<byte>, t: seq<byte>)
    requires Canonical(s) && Canonical(t) && Value(s) == Value(t)
    ensures s == t
    decreases |s|
  {
    var s', t' := s[..|s| - 1], t[..|t| - 1];
    assert s == s' + [s[|s| - 1]] && t == t' + [t[|t| - 1]];
    if |s| > 1 { ValueBounds(s'); assert s'[0] == s[0]; PowerPositive(|s'| - 1); }
    if |t| > 1 { ValueBounds(t'); assert t'[0] == t[0]; PowerPositive(|t'| - 1); }
    if |s| > 1 && |t| > 1 {
      CanonicalUnique(s', t');
    }
  }

  lemma {:induction false} PowerPositive(k: nat)
    ensures Power10(k) > 0
  {
    if k > 0 { PowerPositive(k - 1); }
  }

  /** Prepending a digit that is worth `10^|s|` each. */
  lemma {:induction false} ValuePrepend(d: byte, s: seq<byte>)
    requires IsDigit(d) && forall i :: 0 <= i < |s| ==> IsDigit(s[i])
    ensures forall i :: 0 <= i < |[d] + s| ==> IsDigit(([d] + s)[i])
    ensures Value([d] + s) == (d as int - ZERO as int) * Power10(|s|) + Value(s)
  {
    var r := [d] + s;
    assert forall i :: 0 <= i < |r| ==> r[i] == if i == 0 then d else s[i - 1];
    if s == [] {
      assert r[..0] == [];
    } else {
      var t := s[..|s| - 1];
      ValuePrepend(d, t);
      assert r[..|r| - 1] == [d] + t;
      Distribute(d as int - ZERO as int, Power10(|t|), Value(t));
    }
  }

  lemma Distribute(d: int, p: int, v: int)
    ensures 10 * (d * p + v) == d * (10 * p) + 10 * v
  {
  }

  /** The decimal digits of a number, by repeated division. */
  function Digits(n: nat): seq<byte> {
    if n < 10 then [ZERO + n] else Digits(n / 10) + [ZERO + n % 10]
  }

  lemma {:induction false} DigitsCanonical(n: nat)
    ensures Canonical(Digits(n)) && Value(Digits(n)) == n
    ensures n > 0 ==> Digits(n)[0] != ZERO
  {
    if n < 10 {
      assert [ZERO + n][..0] == [];
    } else {
      DigitsCanonical(n / 10);
      var s := Digits(n / 10);
      assert (s + [ZERO + n % 10])[..|s|] == s;
    }
  }

  /** The loop invariant: `printed` is the low end of `n`, and `rest` is what is left of it. */
  ghost predicate Printing(n: nat, rest: nat, printed: seq<byte>) {
    && (forall j :: 0 <= j < |printed| ==> IsDigit(printed[j]))
    && n == rest * Power10(|printed|) + Value(printed)
    && (rest == 0 ==> Canonical(printed))
    && |printed| <= 10 && (rest > 0 ==> |printed| < 10)
  }

  /** Prints `n`: the text is the one canonical string of digits that denotes `n`. The writes
      stay inside the 11-byte buffer. */
  method TerminalWriteUint(n: nat) returns (text: seq<byte>)
    requires n < WORD
    ensures Canonical(text) && Value(text) == n && |text| <= BUFFER_SIZE - 1
    ensures text == Digits(n)
  {
    hide Power10, Value, Canonical, Printing, Digits;
    var buf := new byte[BUFFER_SIZE](_ => 0);
    var i := 10;
    buf[i] := 0;
    i := i - 1;
    if n == 0 {
      buf[i] := ZERO;
      i := i - 1;
      assert buf[i + 1..10] == [ZERO];
      ZeroText();
    } else {
      var rest := n;
      ghost var printed: seq<byte> := [];
      PrintStart(n);
      while rest > 0
        invariant Printing(n, rest, printed) && |printed| <= 10 && (rest > 0 ==> |printed| < 10)
        invariant i == 9 - |printed| && buf[i + 1..10] == printed
      {
        PrintStep(n, rest, printed);
        buf[i] := ZERO + rest % 10;
        assert buf[i..10] == [ZERO + rest % 10] + printed;
        printed := [ZERO + rest % 10] + printed;
        i := i - 1;
        rest := rest / 10;
      }
      PrintEnd(n, printed);
    }
    text := buf[i + 1..10];
    DigitsCanonical(n);
    CanonicalUnique(text, Digits(n));
  }

  lemma ZeroText()
    ensures Canonical([ZERO]) && Value([ZERO]) == 0
  {
    assert [ZERO][..0] == [];
  }

  lemma PrintStart(n: nat)
    requires 0 < n
    ensures Printing(n, n, [])
  {
  }

  lemma PrintEnd(n: nat, printed: seq<byte>)
    requires Printing(n, 0, printed)
    ensures Canonical(printed) && Value(printed) == n
  {
  }

  lemma PrintStep(n: nat, rest: nat, printed: seq<byte>)
    requires Printing(n, rest, printed) && rest > 0 && n < WORD
    ensures Printing(n, rest / 10, [ZERO + rest % 10] + printed)
    ensures rest / 10 > 0 ==> |printed| + 1 < 10
  {
    hide Value, Power10;
    var longer := [ZERO + rest % 10] + printed;
    NextDigit(rest, Power10(|printed|), n, printed);
    if rest / 10 > 0 { DigitsLeft(n, rest / 10, longer); }
  }

  /** A word has at most ten digits. */
  lemma DigitsLeft(n: nat, rest: nat, printed: seq<byte>)
    requires rest > 0 && |printed| <= 10 && n < WORD
    requires forall j :: 0 <= j < |printed| ==> IsDigit(printed[j])
    requires n == rest * Power10(|printed|) + Value(printed)
    ensures |printed| < 10
  {
    ValueBounds(printed);
    TenDigits();
    AtLeast(rest, Power10(|printed|));
  }

  lemma AtLeast(r: nat, p: nat)
    requires r > 0
    ensures r * p >= p
  {
  }

  lemma TenDigits()
    ensures Power10(10) > WORD
  {
    assert Power10(5) == 100_000;
    assert Power10(10) == 100_000 * Power10(5);
  }

  lemma NextDigit(rest: nat, p: nat, n: nat, printed: seq<byte>)
    requires p == Power10(|printed|) && (forall j :: 0 <= j < |printed| ==> IsDigit(printed[j]))
    requires n == rest * p + Value(printed)
    ensures var longer := [ZERO + rest % 10] + printed;
      && (forall j :: 0 <= j < |longer| ==> IsDigit(longer[j]))
      && n == rest / 10 * Power10(|longer|) + Value(longer)
  {
    var d, q := rest % 10, rest / 10;
    ValuePrepend(ZERO + d, printed);
    assert rest == 10 * q + d;
    SplitDigit(q, d, p);
  }

  lemma SplitDigit(q: int, d: int, p: int)
    ensures (10 * q + d) * p == q * (10 * p) + d * p
  {
  }
}
