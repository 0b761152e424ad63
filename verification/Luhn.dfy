/** The Luhn check that filters credit-card hits (src/detect.py; ISO/IEC 7812-1, Annex B). */
module Luhn {

  type Digit = d: int | 0 <= d <= 9

  /** Every second digit from the right is doubled, with 9 taken off above 9. */
  function Weighted(d: Digit, fromRight: nat): Digit
  {
    if fromRight % 2 == 0 then d else if 2 * d > 9 then 2 * d - 9 else 2 * d
  }

  function Total(s: seq<Digit>): nat
  {
    if s == [] then 0 else Weighted(s[0], |s| - 1) + Total(s[1..])
  }

  predicate Valid(s: seq<Digit>)
  {
    Total(s) % 10 == 0
  }

  method LuhnValid(s: seq<Digit>) returns (ok: bool)
    ensures ok == Valid(s)
  {
    var total := 0;
    for i := 0 to |s|
      invariant total == Total(s[|s| - i..])
    {
      var d: int := s[|s| - 1 - i];
      if i % 2 == 1 {
        d := if d * 2 > 9 then d * 2 - 9 else d * 2;
      }
      assert d == Weighted(s[|s| - 1 - i], i);
      total := total + d;
      assert s[|s| - 1 - i..][1..] == s[|s| - i..];
    }
    assert s[0..] == s;
    ok := total % 10 == 0;
  }

  /** Doubling with the 9 taken off permutes the digits. */
  lemma WeightedInjective(a: Digit, b: Digit, i: nat)
    requires a != b
    ensures Weighted(a, i) != Weighted(b, i)
  {
  }

  lemma {:induction false} TotalUpdate(s: seq<Digit>, i: nat, d: Digit)
    requires i < |s|
    ensures Total(s[i := d]) == Total(s) - Weighted(s[i], |s| - 1 - i) + Weighted(d, |s| - 1 - i)
  {
    if i == 0 {
      assert s[i := d][1..] == s[1..];
    } else {
      assert s[i := d][1..] == s[1..][i - 1 := d];
      TotalUpdate(s[1..], i - 1, d);
    }
  }

  /** Any single wrong digit is caught. */
  lemma SingleErrorIsCaught(s: seq<Digit>, i: nat, d: Digit)
    requires i < |s| && Valid(s) && d != s[i]
    ensures !Valid(s[i := d])
  {
    TotalUpdate(s, i, d);
    WeightedInjective(s[i], d, |s| - 1 - i);
    SmallShift(Total(s), Weighted(s[i], |s| - 1 - i), Weighted(d, |s| - 1 - i));
  }

  lemma SmallShift(t: nat, a: Digit, b: Digit)
    requires t % 10 == 0 && a != b
    ensures (t - a + b) % 10 != 0
  {
    assert t == 10 * (t / 10);
  }

  function Swap(s: seq<Digit>, i: nat): seq<Digit>
    requires i + 1 < |s|
  {
    s[i := s[i + 1]][i + 1 := s[i]]
  }

  predicate ZeroNine(a: Digit, b: Digit)
  {
    (a == 0 && b == 9) || (a == 9 && b == 0)
  }

  lemma {:induction false} SwapTotal(s: seq<Digit>, i: nat)
    requires i + 1 < |s|
    ensures var a, b, k := s[i], s[i + 1], |s| - 2 - i;
            Total(Swap(s, i)) == Total(s) + (Weighted(b, k + 1) - Weighted(a, k + 1) + Weighted(a, k) - Weighted(b, k))
  {
    var a, b := s[i], s[i + 1];
    var t := s[i := b];
    assert |t| == |s| && t[i + 1] == b;
    TotalUpdate(s, i, b);
    TotalUpdate(t, i + 1, a);
    assert |s| - 1 - i == |s| - 2 - i + 1 && |t| - 1 - (i + 1) == |s| - 2 - i;
  }

  lemma AddMultiple(t: nat, d: int)
    requires t % 10 == 0
    ensures (t + d) % 10 == 0 <==> d % 10 == 0
  {
    assert t == 10 * (t / 10);
  }

  /** Swapping two neighbours is caught unless they are equal or are 0 and 9. */
  lemma SwapIsCaughtUnlessZeroNine(s: seq<Digit>, i: nat)
    requires i + 1 < |s| && Valid(s)
    ensures Valid(Swap(s, i)) <==> s[i] == s[i + 1] || ZeroNine(s[i], s[i + 1])
  {
    var a, b, k := s[i], s[i + 1], |s| - 2 - i;
    var d := Weighted(b, k + 1) - Weighted(a, k + 1) + Weighted(a, k) - Weighted(b, k);
    assert Total(Swap(s, i)) == Total(s) + d by {
      SwapTotal(s, i);
    }
    NeighbourWeights(a, b, k);
    AddMultiple(Total(s), d);
  }

  lemma NeighbourWeights(a: Digit, b: Digit, k: nat)
    ensures (Weighted(b, k + 1) - Weighted(a, k + 1) + Weighted(a, k) - Weighted(b, k)) % 10 == 0
        <==> a == b || ZeroNine(a, b)
  {
  }

  lemma {:induction false} TotalAppend(s: seq<Digit>, c: Digit)
    ensures (s != [] ==> Total(s + [c]) == Total(s + [0]) + c) && Total([c]) == c
  {
    if s != [] {
      assert (s + [c])[1..] == s[1..] + [c] && (s + [0])[1..] == s[1..] + [0];
      TotalAppend(s[1..], c);
      if |s| == 1 {
        assert s[1..] + [c] == [c] && s[1..] + [0] == [0];
        assert Total([0]) == 0;
      }
    }
  }

  function CheckDigit(prefix: seq<Digit>): Digit
  {
    (10 - Total(prefix + [0]) % 10) % 10
  }

  lemma CompletesToTen(t: nat, c: Digit)
    ensures (t + c) % 10 == 0 <==> c == (10 - t % 10) % 10
  {
    assert t == 10 * (t / 10) + t % 10;
  }

  /** Every prefix has exactly one completing check digit. */
  lemma CheckDigitUnique(prefix: seq<Digit>, c: Digit)
    ensures Valid(prefix + [c]) <==> c == CheckDigit(prefix)
  {
    TotalAppend(prefix, c);
    if prefix == [] {
      assert prefix + [c] == [c] && prefix + [0] == [0];
      TotalAppend(prefix, 0);
    }
    CompletesToTen(Total(prefix + [0]), c);
  }
}
