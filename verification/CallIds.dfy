/** Call ids: `"{:05d}".format(i)` when a chunk is submitted, `int(call_id)` when its
    byte range is looked up (lithops/invokers.py). */
module CallIds {

  const WIDTH: nat := 5

  function Digit(d: nat): char
    requires d < 10
  {
    "0123456789"[d]
  }

  function DigitValue(c: char): nat
    requires '0' <= c <= '9'
  {
    c as nat - '0' as nat
  }

  predicate AllDigits(s: string) {
    forall i :: 0 <= i < |s| ==> '0' <= s[i] <= '9'
  }

  function Decimal(n: nat): string {
    if n < 10 then [Digit(n)] else Decimal(n / 10) + [Digit(n % 10)]
  }

  function Zeros(n: nat): string {
    seq(n, i => '0')
  }

  function Format(i: nat): string {
    var d := Decimal(i);
    if |d| < WIDTH then Zeros(WIDTH - |d|) + d else d
  }

  /** `int(s)` for a string of decimal digits. */
  function ParseInt(s: string): nat
    requires AllDigits(s)
  {
    if s == "" then 0 else 10 * ParseInt(s[..|s| - 1]) + DigitValue(s[|s| - 1])
  }

  lemma {:induction false} ParseDecimal(n: nat)
    ensures AllDigits(Decimal(n)) && ParseInt(Decimal(n)) == n
  {
    if n < 10 {
      ParseLast(Decimal(n), "", Digit(n));
    } else {
      ParseDecimal(n / 10);
      ParseLast(Decimal(n), Decimal(n / 10), Digit(n % 10));
    }
  }

  /** Leading zeros do not change the value. */
  lemma {:induction false} ParsePadded(k: nat, s: string)
    requires AllDigits(s)
    ensures AllDigits(Zeros(k) + s) && ParseInt(Zeros(k) + s) == ParseInt(s)
  {
    if s == "" {
      ParseZeros(k);
      assert Zeros(k) + s == Zeros(k);
    } else {
      var front := s[..|s| - 1];
      ParsePadded(k, front);
      ParseLast(Zeros(k) + s, Zeros(k) + front, s[|s| - 1]);
    }
  }

  lemma {:induction false} ParseZeros(k: nat)
    ensures AllDigits(Zeros(k)) && ParseInt(Zeros(k)) == 0
  {
    if k > 0 {
      ParseZeros(k - 1);
      ParseLast(Zeros(k), Zeros(k - 1), '0');
    }
  }

  lemma ParseLast(t: string, front: string, last: char)
    requires t == front + [last] && AllDigits(front) && '0' <= last <= '9'
    ensures AllDigits(t) && ParseInt(t) == 10 * ParseInt(front) + DigitValue(last)
  {
    assert t[..|t| - 1] == front;
  }

  /** Looking a formatted call id up again finds the call it was made from, so
      different calls never share an id. */
  lemma ParseFormat(i: nat)
    ensures AllDigits(Format(i)) && ParseInt(Format(i)) == i && |Format(i)| >= WIDTH
  {
    ParseDecimal(i);
    var d := Decimal(i);
    if |d| < WIDTH {
      ParsePadded(WIDTH - |d|, d);
    }
  }
}
