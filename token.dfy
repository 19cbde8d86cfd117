/** The confirm-button token `yes_<primary>_<secondary>` that carries a
    proposed colour pair from the `/random` reply to the button press, and
    the pieces of JavaScript it relies on: `String(n)`, `s.split(c)` and
    `Number(s)`. */
module Token {

  datatype Option<T> = None | Some(value: T)

  predicate IsDigit(c: char)
  {
    '0' <= c <= '9'
  }

  predicate AllDigits(s: string)
  {
    forall i :: 0 <= i < |s| ==> IsDigit(s[i])
  }

  function DigitChar(d: nat): (c: char)
    requires d < 10
    ensures IsDigit(c)
  {
    ('0' as int + d) as char
  }

  function DigitValue(c: char): nat
    requires IsDigit(c)
  {
    c as int - '0' as int
  }

  /** `String(n)` (equally `${n}`) for a non-negative integer: its decimal
      digits, with no leading zero. */
  function Decimal(n: nat): (s: string)
    ensures |s| >= 1 && AllDigits(s)
    ensures s[0] == '0' ==> n == 0
  {
    if n < 10 then [DigitChar(n)] else Decimal(n / 10) + [DigitChar(n % 10)]
  }

  /** The value of a string of decimal digits, read most significant first. */
  function DigitsValue(s: string): nat
    requires AllDigits(s)
  {
    if s == [] then 0 else DigitsValue(s[..|s| - 1]) * 10 + DigitValue(s[|s| - 1])
  }

  /** `Number(s)` on the strings the bot can meet here: a string of decimal
      digits gives its value (the empty string gives 0); any other string
      gives NaN, written `None`. */
  function ParseNumber(s: string): (r: Option<nat>)
    ensures r.Some? <==> AllDigits(s)
    ensures s == [] ==> r == Some(0)
  {
    if AllDigits(s) then Some(DigitsValue(s)) else None
  }

  /** Reading back the digits of `Decimal(n)` gives `n`. */
  lemma {:induction false} DecimalRoundTrip(n: nat)
    ensures DigitsValue(Decimal(n)) == n
    ensures ParseNumber(Decimal(n)) == Some(n)
  {
    var s := Decimal(n);
    if n >= 10 {
      DecimalRoundTrip(n / 10);
      assert s[..|s| - 1] == Decimal(n / 10);
    }
  }

  /** The parts joined back with the separator between them. */
  function Join(parts: seq<string>, sep: char): string
  {
    if parts == [] then []
    else if |parts| == 1 then parts[0]
    else parts[0] + [sep] + Join(parts[1..], sep)
  }

  /** `s.split(sep)` for a one-character separator: the maximal runs between
      separators, an empty run wherever two separators touch or one sits at
      either end. */
  function Split(s: string, sep: char): (parts: seq<string>)
    ensures |parts| >= 1
    ensures forall k :: 0 <= k < |parts| ==> sep !in parts[k]
    ensures Join(parts, sep) == s
  {
    if s == [] then [[]]
    else
      var rest := Split(s[1..], sep);
      if s[0] == sep then
        assert Join([[]] + rest, sep) == [sep] + Join(rest, sep);
        assert s == [sep] + s[1..];
        [[]] + rest
      else
        var first := [s[0]] + rest[0];
        assert s == [s[0]] + s[1..];
        assert Join([first] + rest[1..], sep) == [s[0]] + Join(rest, sep) by {
          if |rest| > 1 {
            assert ([first] + rest[1..])[1..] == rest[1..];
            assert Join(rest, sep) == rest[0] + [sep] + Join(rest[1..], sep);
          }
        }
        [first] + rest[1..]
  }

  /** Splitting a string without the separator gives the string alone. */
  lemma {:induction false} SplitNoSeparator(s: string, sep: char)
    requires sep !in s
    ensures Split(s, sep) == [s]
  {
    if s != [] {
      SplitNoSeparator(s[1..], sep);
    }
  }

  /** A separator after a separator-free prefix cuts exactly that prefix off. */
  lemma {:induction false} SplitAtFirst(a: string, b: string, sep: char)
    requires sep !in a
    ensures Split(a + [sep] + b, sep) == [a] + Split(b, sep)
  {
    if a == [] {
      assert a + [sep] + b == [sep] + b;
      assert ([sep] + b)[1..] == b;
    } else {
      assert (a + [sep] + b)[0] == a[0];
      assert (a + [sep] + b)[1..] == a[1..] + [sep] + b;
      SplitAtFirst(a[1..], b, sep);
      assert [a[0]] + a[1..] == a;
    }
  }

  predicate StartsWith(s: string, prefix: string)
  {
    |prefix| <= |s| && s[..|prefix|] == prefix
  }

  /** The custom id of the "yes" button for a proposed colour pair. */
  function EncodeConfirm(primary: nat, secondary: nat): (id: string)
    ensures StartsWith(id, "yes_") && id != "no"
  {
    "yes_" + Decimal(primary) + "_" + Decimal(secondary)
  }

  /** The button handler's reading of a custom id: it must start with
      `yes_`; parts 1 and 2 of its split on `_` go through `Number`, a missing
      part being `undefined` and so NaN. `None` when either colour is NaN. */
  function DecodeConfirm(customId: string): (r: Option<(nat, nat)>)
    ensures r.Some? <==> StartsWith(customId, "yes_") && |Split(customId, '_')| >= 3
                         && AllDigits(Split(customId, '_')[1]) && AllDigits(Split(customId, '_')[2])
  {
    if !StartsWith(customId, "yes_") then None
    else
      var parts := Split(customId, '_');
      if |parts| < 3 then None
      else
        match (ParseNumber(parts[1]), ParseNumber(parts[2]))
        case (Some(p), Some(s)) => Some((p, s))
        case _ => None
  }

  /** Decoding the token built for a colour pair gives that pair back. */
  lemma ConfirmRoundTrip(primary: nat, secondary: nat)
    ensures StartsWith(EncodeConfirm(primary, secondary), "yes_")
    ensures DecodeConfirm(EncodeConfirm(primary, secondary)) == Some((primary, secondary))
  {
    var dp, ds := Decimal(primary), Decimal(secondary);
    var t := EncodeConfirm(primary, secondary);
    assert '_' !in dp;
    assert '_' !in ds;
    assert t == "yes" + ['_'] + (dp + ['_'] + ds);
    SplitAtFirst("yes", dp + ['_'] + ds, '_');
    SplitAtFirst(dp, ds, '_');
    SplitNoSeparator(ds, '_');
    assert Split(t, '_') == ["yes", dp, ds];
    DecimalRoundTrip(primary);
    DecimalRoundTrip(secondary);
  }

  /** Distinct colour pairs get distinct tokens. */
  lemma EncodeInjective(p1: nat, s1: nat, p2: nat, s2: nat)
    requires EncodeConfirm(p1, s1) == EncodeConfirm(p2, s2)
    ensures p1 == p2 && s1 == s2
  {
    ConfirmRoundTrip(p1, s1);
    ConfirmRoundTrip(p2, s2);
  }
}
