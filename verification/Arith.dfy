/** Positions in rows of equal length, and counting clear bits: shared by the bitmaps and tables below. */
module Arith {
  function Number(n: nat, g: nat, i: nat): nat {
    g * n + i
  }

  lemma SameParts(n: nat, q: nat, r: nat, q': nat, r': nat)
    requires r < n && r' < n && q * n + r == q' * n + r'
    ensures q == q' && r == r'
  {
    if q < q' {
      MulStep(q, q', n);
    } else if q' < q {
      MulStep(q', q, n);
    }
  }

  lemma {:induction false} MulStep(a: nat, b: nat, n: nat)
    requires a < b
    ensures a * n + n <= b * n
    decreases b
  {
    if a + 1 < b {
      MulStep(a, b - 1, n);
      assert (b - 1) * n + n == b * n;
    } else {
      assert b == a + 1 && b * n == a * n + n;
    }
  }

  lemma NumberParts(n: nat, g: nat, i: nat)
    requires i < n
    ensures Number(n, g, i) / n == g && Number(n, g, i) % n == i
  {
    var x := Number(n, g, i);
    NumberOf(n, x);
    SameParts(n, g, i, x / n, x % n);
  }

  lemma NumberOf(n: nat, r: nat)
    requires n > 0
    ensures Number(n, r / n, r % n) == r
  {
  }

  /** Clear bits of a bitmap. */
  function Clear(s: seq<bool>): nat {
    if s == [] then 0 else (if s[0] then 0 else 1) + Clear(s[1..])
  }

  lemma {:induction false} ClearAfterSet(s: seq<bool>, i: nat)
    requires i < |s|
    ensures s[i] || Clear(s) == Clear(s[i := true]) + 1
    ensures !s[i] || Clear(s[i := false]) == Clear(s) + 1
  {
    if i > 0 {
      ClearAfterSet(s[1..], i - 1);
      assert s[i := true][1..] == s[1..][i - 1 := true];
      assert s[i := false][1..] == s[1..][i - 1 := false];
    }
  }

  lemma {:induction false} ClearBound(s: seq<bool>)
    ensures Clear(s) <= |s|
  {
    if s != [] {
      ClearBound(s[1..]);
    }
  }

  lemma {:induction false} NoneClear(s: seq<bool>)
    requires forall i :: 0 <= i < |s| ==> s[i]
    ensures Clear(s) == 0
  {
    if s != [] {
      assert s[0];
      forall i | 0 <= i < |s| - 1 ensures s[1..][i] {
        assert s[i + 1];
      }
      NoneClear(s[1..]);
    }
  }

  /** `a` times `b`, as a sum: products that the prover need not multiply out. */
  function Times(a: nat, b: nat): nat {
    if a == 0 then 0 else Times(a - 1, b) + b
  }

  lemma {:induction false} TimesIs(a: nat, b: nat)
    ensures Times(a, b) == a * b
  {
    if a > 0 {
      TimesIs(a - 1, b);
      assert a * b == (a - 1) * b + b;
    }
  }

  lemma {:induction false} TimesStep(a: nat, c: nat, b: nat)
    requires a < c
    ensures Times(a, b) + b <= Times(c, b)
    decreases c
  {
    if a + 1 < c {
      TimesStep(a, c - 1, b);
    }
  }

  lemma TimesSwap(a: nat, b: nat)
    ensures Times(a, b) == Times(b, a)
  {
    TimesIs(a, b);
    TimesIs(b, a);
  }

  lemma TimesAtLeast(a: nat, b: nat)
    ensures a > 0 ==> Times(a, b) >= b
  {
    if a > 0 {
      TimesStep(0, a, b);
    }
  }
}
