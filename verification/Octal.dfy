/** Numeric fields of tar headers: ASCII octal digits ended by a NUL. */
module Octal {
  import opened Words

  function Pow8(n: nat): (r: nat)
    ensures r > 0
  {
    if n == 0 then 1 else 8 * Pow8(n - 1)
  }

  /** v in n octal digits, high digits lost. */
  function Digits(n: nat, v: nat): (r: Str)
    ensures |r| == n
  {
    if n == 0 then [] else Digits(n - 1, v / 8) + [(48 + v % 8) as int]
  }

  function Field(len: nat, v: nat): (r: Str)
    requires len > 0
    ensures |r| == len
  {
    Digits(len - 1, v) + [0]
  }

  /** s with the bytes from off on replaced by b. */
  function Overwrite(s: Str, off: nat, b: Str): (r: Str)
    requires off + |b| <= |s|
    ensures |r| == |s|
  {
    s[..off] + b + s[off + |b|..]
  }

  lemma {:induction false} DigitStep(i: nat, v: nat, tail: Str)
    ensures Digits(i + 1, v) + tail == Digits(i, v / 8) + ([48 + v % 8] + tail)
  {
    Assoc(Digits(i, v / 8), [48 + v % 8], tail, []);
  }

  lemma {:induction false} FieldWritten(was: Str, now: Str, off: nat, len: nat, val: nat)
    requires 2 <= len && off + len <= |was| == |now| && now[..off] == was[..off] && now[off + len..] == was[off + len..]
    requires now[off..off + len - 1] == Digits(len - 1, val) && now[off + len - 1] == 0
    ensures now == Overwrite(was, off, Field(len, val))
  {
    assert now[off..off + len] == now[off..off + len - 1] + [now[off + len - 1]];
    assert now == now[..off] + now[off..off + len] + now[off + len..];
  }

  /** write_octal: digits from the right, then the terminator. */
  method WriteOctal(a: array<byte>, off: nat, len: nat, val: nat)
    requires 2 <= len && off + len <= a.Length
    modifies a
    ensures a[..] == Overwrite(old(a[..]), off, Field(len, val))
  {
    ghost var was := a[..];
    a[off + len - 1] := 0;
    var v, i := val, len - 1;
    while i > 0
      invariant 0 <= i <= len - 1
      invariant Digits(len - 1, val) == Digits(i, v) + a[off + i..off + len - 1]
      invariant a[..off + i] == was[..off + i] && a[off + len - 1] == 0 && a[off + len..] == was[off + len..]
    {
      ghost var tail := a[off + i..off + len - 1];
      i := i - 1;
      ghost var digit: byte := 48 + v % 8;
      a[off + i] := 48 + v % 8;
      assert a[off + i..off + len - 1] == [digit] + tail;
      DigitStep(i, v, tail);
      v := v / 8;
    }
    assert Digits(len - 1, val) == a[off..off + len - 1];
    FieldWritten(was, a[..], off, len, val);
  }

  predicate IsDigit(c: byte) { 48 <= c <= 55 }

  /** The number the leading octal digits of s continue, from v. */
  function Parse(v: nat, s: Str): nat
    decreases |s|
  {
    if s == [] || !IsDigit(s[0]) then v else Parse(v * 8 + (s[0] - 48), s[1..])
  }

  /** parse_octal. */
  method ParseOctal(p: Str) returns (val: nat)
    ensures val == Parse(0, p)
  {
    val := 0;
    var i := 0;
    while i < |p| && IsDigit(p[i])
      invariant 0 <= i <= |p| && Parse(val, p[i..]) == Parse(0, p)
    {
      assert p[i..][1..] == p[i + 1..];
      val := val * 8 + (p[i] - 48);
      i := i + 1;
    }
  }

  /** The value of octal digits, from the last one. */
  function Value(digits: Str): int {
    if digits == [] then 0 else 8 * Value(digits[..|digits| - 1]) + digits[|digits| - 1] - 48
  }

  lemma {:induction false} ParseFrom(s: Str, k: nat, n: nat, v: nat)
    requires k <= n <= |s| && (forall i | 0 <= i < n :: 48 <= s[i] <= 55) && (n < |s| ==> s[n] < 48 || s[n] > 55)
    requires v == Value(s[..k])
    ensures Parse(v, s[k..]) == Value(s[..n])
    decreases n - k
  {
    if k < n {
      assert s[..k + 1][..k] == s[..k] && s[k..][1..] == s[k + 1..];
      ParseFrom(s, k + 1, n, v * 8 + (s[k] - 48));
    }
  }

  /** A number ends before the first byte that is not '0' to '7', and has the value of the digits
      before that. */
  lemma {:induction false} ParseStops(s: Str, n: nat)
    requires n <= |s| && (forall i | 0 <= i < n :: 48 <= s[i] <= 55) && (n < |s| ==> s[n] < 48 || s[n] > 55)
    ensures Parse(0, s) == Value(s[..n])
  {
    assert s[0..] == s;
    ParseFrom(s, 0, n, 0);
  }

  /** The low n octal digits of v, and v moved up n digits. */
  function Low(n: nat, v: nat): nat { if n == 0 then 0 else 8 * Low(n - 1, v / 8) + v % 8 }

  function High(n: nat, v: nat): nat { if n == 0 then v else 8 * High(n - 1, v) }

  /** High digits are lost when writing. */
  lemma {:induction false} LowDigits(n: nat, v: nat)
    ensures Digits(n, Low(n, v)) == Digits(n, v)
    decreases n
  {
    if n > 0 {
      LowDigits(n - 1, v / 8);
      assert Low(n, v) / 8 == Low(n - 1, v / 8) && Low(n, v) % 8 == v % 8;
    }
  }

  lemma {:induction false} LowExact(n: nat, v: nat)
    ensures Low(n, v) < Pow8(n) && (Low(n, v) == v <==> v < Pow8(n))
    decreases n
  {
    if n > 0 { LowExact(n - 1, v / 8); }
  }

  lemma {:induction false} ParseDigits(n: nat, v: nat, acc: nat, rest: Str)
    ensures Parse(acc, Digits(n, v) + rest) == Parse(High(n, acc) + Low(n, v), rest)
    decreases n
  {
    if n == 0 {
      assert Digits(0, v) + rest == rest;
    } else {
      var d: byte := 48 + v % 8;
      assert Digits(n, v) + rest == Digits(n - 1, v / 8) + ([d] + rest);
      ParseDigits(n - 1, v / 8, acc, [d] + rest);
      assert ([d] + rest)[1..] == rest;
    }
  }

  /** A field reads back as the number written exactly when it fits. */
  lemma {:induction false} FieldRoundTrip(len: nat, v: nat)
    requires len > 0
    ensures Parse(0, Field(len, v)) == v <==> v < Pow8(len - 1)
  {
    ParseDigits(len - 1, v, 0, [0]);
    HighZero(len - 1);
    LowExact(len - 1, v);
  }

  lemma {:induction false} HighZero(n: nat)
    ensures High(n, 0) == 0
  {
    if n > 0 { HighZero(n - 1); }
  }
}
