/**
 The command-line check at the top of `main` in chatServer.c: the port is
 `atoi(argv[1])`, and the program prints its usage and exits with FAILURE
 unless there are at least CMDLINE_ARG_NUM arguments and the port lies in
 MIN_PORT_NUM..MAX_PORT_NUM. `args` is `argv`, program name first.
 */
module PortArgs {
  import opened ChatTypes

  /** The characters C's `isspace` accepts: blank, tab, newline, vertical tab, form feed, carriage return. */
  predicate IsSpace(c: char)
  {
    c == ' ' || '\t' <= c <= '\r'
  }

  predicate IsDigit(c: char)
  {
    '0' <= c <= '9'
  }

  predicate AllDigits(s: string)
  {
    forall i :: 0 <= i < |s| ==> IsDigit(s[i])
  }

  /** `s` without its leading white space. */
  function SkipSpaces(s: string): (t: string)
    ensures |t| <= |s| && t == s[|s| - |t|..]
    ensures t == [] || !IsSpace(t[0])
    ensures forall i :: 0 <= i < |s| - |t| ==> IsSpace(s[i])
  {
    if |s| > 0 && IsSpace(s[0]) then
      var t := SkipSpaces(s[1..]);
      assert forall i :: 1 <= i < |s| ==> s[i] == s[1..][i - 1];
      t
    else s
  }

  /** The length of the run of decimal digits at the start of `s`. */
  function DigitCount(s: string): (k: nat)
    ensures k <= |s|
    ensures forall i :: 0 <= i < k ==> IsDigit(s[i])
    ensures k == |s| || !IsDigit(s[k])
  {
    if |s| == 0 || !IsDigit(s[0]) then 0
    else
      var k := DigitCount(s[1..]);
      assert forall i :: 1 <= i < |s| ==> s[i] == s[1..][i - 1];
      1 + k
  }

  function DigitValue(c: char): nat
    requires IsDigit(c)
  {
    (c as int) - ('0' as int)
  }

  /** The number a string of decimal digits denotes, most significant digit first. */
  function DecimalValue(ds: string): nat
    requires AllDigits(ds)
  {
    if |ds| == 0 then 0
    else DecimalValue(ds[..|ds| - 1]) * 10 + DigitValue(ds[|ds| - 1])
  }

  /**
   C's `atoi`: skip white space, read an optional sign, then as many decimal
   digits as follow; anything after them is ignored, and no digits give 0.
   */
  function Atoi(s: string): int
  {
    var t := SkipSpaces(s);
    if |t| > 0 && (t[0] == '-' || t[0] == '+') then
      var v: int := DecimalValue(t[1..][..DigitCount(t[1..])]);
      if t[0] == '-' then -v else v
    else
      DecimalValue(t[..DigitCount(t)])
  }

  /**
   The port check, with the argument count checked before `argv[1]` is read:
   at least CMDLINE_ARG_NUM arguments and a port in the accepted range.
   */
  predicate ValidPortArgs(args: seq<string>)
  {
    |args| >= CMDLINE_ARG_NUM && MIN_PORT_NUM <= Atoi(args[1]) <= MAX_PORT_NUM
  }

  /**
   The port check as the source writes it: `atoi(argv[1])` runs before
   `argc` is compared with CMDLINE_ARG_NUM, so with no port argument it
   reads the NULL that ends `argv` (or past it). `None` stands for that
   undefined read; `Some(ok)` says whether the program goes on.
   */
  function PortCheckAsWritten(args: seq<string>): (r: Option<bool>)
    ensures r.None? <==> |args| < CMDLINE_ARG_NUM
  {
    if |args| < CMDLINE_ARG_NUM then None
    else
      var port := Atoi(args[1]);
      Some(!(|args| < CMDLINE_ARG_NUM || port <= MIN_PORT_NUM - 1 || port > MAX_PORT_NUM))
  }

  /** Whenever the source's check is defined, it agrees with the corrected one. */
  lemma {:induction false} PortCheckAgrees(args: seq<string>)
    requires |args| >= CMDLINE_ARG_NUM
    ensures PortCheckAsWritten(args) == Some(ValidPortArgs(args))
  {
  }

  /** The defect: run with no port, the source reads `argv[1]` instead of printing its usage. */
  lemma {:induction false} MissingPortIsUndefined()
    ensures PortCheckAsWritten(["server"]).None?
    ensures !ValidPortArgs(["server"])
  {
  }

  function DigitChar(d: nat): (c: char)
    requires d < 10
    ensures IsDigit(c) && DigitValue(c) == d
  {
    ('0' as int + d) as char
  }

  /** The decimal numeral of `n`, without leading zeros. */
  function Numeral(n: nat): (s: string)
    ensures |s| > 0 && AllDigits(s)
    ensures n > 0 ==> s[0] != '0'
  {
    if n < 10 then [DigitChar(n)] else Numeral(n / 10) + [DigitChar(n % 10)]
  }

  /** Reading a numeral gives back the number it was written from. */
  lemma {:induction false} NumeralValue(n: nat)
    ensures DecimalValue(Numeral(n)) == n
  {
    var s := Numeral(n);
    if n >= 10 {
      NumeralValue(n / 10);
      assert s[..|s| - 1] == Numeral(n / 10);
    } else {
      assert s[..|s| - 1] == [];
    }
  }

  /** The digit run at the start of `ds + rest` is exactly `ds` when `rest` does not go on with a digit. */
  lemma {:induction false} DigitRun(ds: string, rest: string)
    requires AllDigits(ds) && (rest == [] || !IsDigit(rest[0]))
    ensures DigitCount(ds + rest) == |ds|
    ensures (ds + rest)[..DigitCount(ds + rest)] == ds
  {
    assert (ds + rest)[..|ds|] == ds;
  }

  /** `atoi` of a digit string followed by non-digit text is the digits' value. */
  lemma {:induction false} AtoiOfDigits(ds: string, rest: string)
    requires |ds| > 0 && AllDigits(ds) && (rest == [] || !IsDigit(rest[0]))
    ensures Atoi(ds + rest) == DecimalValue(ds)
  {
    var t := ds + rest;
    assert t[0] == ds[0] && IsDigit(t[0]);
    assert !IsSpace(t[0]) && t[0] != '-' && t[0] != '+';
    assert SkipSpaces(t) == t;
    DigitRun(ds, rest);
    assert t[..DigitCount(t)] == ds;
  }

  /** `atoi` of a sign, then a digit string followed by non-digit text. */
  lemma {:induction false} AtoiOfSigned(sign: char, ds: string, rest: string)
    requires sign == '+' || sign == '-'
    requires |ds| > 0 && AllDigits(ds) && (rest == [] || !IsDigit(rest[0]))
    ensures Atoi([sign] + (ds + rest)) == if sign == '-' then -(DecimalValue(ds) as int) else DecimalValue(ds)
  {
    var t := [sign] + (ds + rest);
    assert t[0] == sign && !IsSpace(sign);
    assert SkipSpaces(t) == t;
    assert t[1..] == ds + rest;
    DigitRun(ds, rest);
    assert t[1..][..DigitCount(t[1..])] == ds;
  }

  /**
   `atoi` inverts the decimal numeral of a non-negative number, with or
   without a leading '+', and whatever non-digit text follows it.
   */
  lemma {:induction false} AtoiOfNumeral(n: nat, rest: string)
    requires rest == [] || !IsDigit(rest[0])
    ensures Atoi(Numeral(n) + rest) == n
    ensures Atoi("+" + (Numeral(n) + rest)) == n
  {
    var ds := Numeral(n);
    NumeralValue(n);
    AtoiOfDigits(ds, rest);
    AtoiOfSigned('+', ds, rest);
  }

  /** Negative numbers come back too: `atoi` of "-" and a numeral is its negation. */
  lemma {:induction false} AtoiOfNegative(n: nat)
    ensures Atoi("-" + Numeral(n)) == -(n as int)
  {
    NumeralValue(n);
    AtoiOfSigned('-', Numeral(n), []);
    assert ['-'] + (Numeral(n) + []) == "-" + Numeral(n);
  }

  /** A port given as a numeral is accepted exactly when it lies in 1..65536. */
  lemma {:induction false} PortRange(prog: string, port: nat)
    ensures ValidPortArgs([prog, Numeral(port)]) <==> MIN_PORT_NUM <= port <= MAX_PORT_NUM
  {
    AtoiOfNumeral(port, []);
    assert Numeral(port) + [] == Numeral(port);
  }

  /** A negative port is always refused, as is any argument list without a port. */
  lemma {:induction false} PortRefusals(prog: string, n: nat, args: seq<string>)
    requires |args| < CMDLINE_ARG_NUM
    ensures !ValidPortArgs([prog, "-" + Numeral(n)])
    ensures !ValidPortArgs(args)
  {
    AtoiOfNegative(n);
  }
}
