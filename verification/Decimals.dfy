/** Numbers as decimal digits. */
module Decimals {

  function Digit(n: int): char
    requires 0 <= n <= 9
  {
    (n + 48) as char
  }

  function Decimal(n: nat): string {
    if n < 10 then [Digit(n)] else Decimal(n / 10) + [Digit(n % 10)]
  }

  predicate Digits(s: string) {
    forall i :: 0 <= i < |s| ==> '0' <= s[i] <= '9'
  }

  /** Reading digits back. */
  function Value(s: string): nat
    requires Digits(s)
  {
    if s == "" then 0 else Value(s[..|s| - 1]) * 10 + (s[|s| - 1] as int - 48)
  }

  lemma {:induction false} ValueOfDecimal(n: nat)
    ensures |Decimal(n)| >= 1 && Digits(Decimal(n)) && Value(Decimal(n)) == n
  {
    if n >= 10 {
      ValueOfDecimal(n / 10);
      var s := Decimal(n);
      assert s[..|s| - 1] == Decimal(n / 10);
    } else {
      assert Decimal(n)[..0] == "";
    }
  }

  /** Zeros in front, up to a width. */
  function Pad(s: string, width: nat): string
    decreases width - |s|
  {
    if |s| >= width then s else Pad("0" + s, width)
  }

  lemma {:induction false} ValueOfPad(s: string, width: nat)
    requires Digits(s)
    ensures Digits(Pad(s, width)) && Value(Pad(s, width)) == Value(s)
    ensures |Pad(s, width)| == if |s| >= width then |s| else width
    decreases width - |s|
  {
    if |s| < width {
      ZeroInFront(s);
      ValueOfPad("0" + s, width);
    }
  }

  lemma {:induction false} ZeroInFront(s: string)
    requires Digits(s)
    ensures Digits("0" + s) && Value("0" + s) == Value(s)
  {
    var z := "0" + s;
    if s == "" {
      assert z[..0] == "";
    } else {
      ZeroInFront(s[..|s| - 1]);
      assert z[..|z| - 1] == "0" + s[..|s| - 1];
    }
  }

  function Padded(n: nat, width: nat): string {
    Pad(Decimal(n), width)
  }

  lemma ValueOfPadded(n: nat, width: nat)
    ensures Digits(Padded(n, width)) && Value(Padded(n, width)) == n
  {
    ValueOfDecimal(n);
    ValueOfPad(Decimal(n), width);
  }

  lemma Padded2(n: nat)
    requires n < 100
    ensures |Padded(n, 2)| == 2
  {
    ValueOfDecimal(n);
    ValueOfPad(Decimal(n), 2);
    assert n >= 10 ==> |Decimal(n / 10)| == 1;
  }
}
