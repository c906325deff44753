// Unsigned 64-bit saturating arithmetic and the ceiling-division budget shares.

module Saturating {

  const U64_MAX: nat := 0xFFFF_FFFF_FFFF_FFFF

  function Sat(n: nat): nat {
    if n > U64_MAX then U64_MAX else n
  }

  function SatAdd(a: nat, b: nat): nat {
    Sat(a + b)
  }

  function SatSub(a: nat, b: nat): nat {
    if a >= b then a - b else 0
  }

  function Min(a: nat, b: nat): nat {
    if a <= b then a else b
  }

  function Div(a: nat, k: nat): nat
    requires k > 0
  {
    a / k
  }

  /** `remaining.saturating_add(sharers.saturating_sub(1)) / sharers.max(1)`. */
  function Share(remaining: nat, sharers: nat): nat {
    Div(SatAdd(remaining, SatSub(sharers, 1)), if sharers == 0 then 1 else sharers)
  }

  lemma Quotient(a: nat, k: nat)
    requires k > 0
    ensures Div(a, k) * k <= a < (Div(a, k) + 1) * k
  {
    assert (Div(a, k) + 1) * k == Div(a, k) * k + k;
  }

  lemma {:induction false} MulMonotone(a: nat, b: nat, k: nat)
    requires a <= b
    ensures a * k <= b * k
  {
  }

  lemma Successor(a: nat, k: nat)
    ensures (a + 1) * k == a * k + k
  {
  }

  /** A quotient is determined by the multiples around the dividend. */
  lemma QuotientOrder(f: nat, s: nat, k: nat, low: nat, high: nat)
    requires f * k <= low && low <= high && high < (s + 1) * k
    ensures f <= s
  {
    if s < f {
      MulMonotone(s + 1, f, k);
      assert false;
    }
  }

  /** Quotients of dividends less than one divisor apart differ by at most one. */
  lemma CloseQuotients(f: nat, s: nat, k: nat, low: nat, high: nat)
    requires f * k <= low < (f + 1) * k
    requires s * k <= high < (s + 1) * k
    requires k > 0 && low <= high <= low + (k - 1)
    ensures f <= s <= f + 1
  {
    QuotientOrder(f, s, k, low, high);
    Successor(f + 1, k);
    QuotientOrder(s, f + 1, k, high, high);
  }

  /** Rounding up takes at most one entry more than the exact share, and only when the division leaves a rest. */
  lemma ShareRoundsUp(remaining: nat, sharers: nat)
    requires 0 < sharers <= U64_MAX && remaining <= U64_MAX
    ensures Div(remaining, sharers) <= Share(remaining, sharers) <= Div(remaining, sharers) + 1
    ensures Share(remaining, sharers) * sharers <= remaining + sharers - 1
    ensures remaining > 0 ==> Share(remaining, sharers) > 0
  {
    hide Div;
    var n: nat := SatAdd(remaining, sharers - 1);
    assert remaining <= n <= remaining + (sharers - 1);
    assert remaining > 0 ==> sharers <= n;
    Quotient(n, sharers);
    Quotient(remaining, sharers);
    CloseQuotients(Div(remaining, sharers), Div(n, sharers), sharers, remaining, n);
    if remaining > 0 {
      QuotientOrder(1, Div(n, sharers), sharers, sharers, n);
    }
  }

  /**
   * A share never exceeds what is left, is positive while something is left, and
   * leaves the other sharers at least the floor they could claim before.
   */
  lemma ShareBounds(remaining: nat, sharers: nat)
    requires 0 < sharers <= U64_MAX && remaining <= U64_MAX
    ensures Share(remaining, sharers) <= remaining
    ensures remaining > 0 ==> Share(remaining, sharers) > 0
    ensures Div(remaining, sharers) <= Share(remaining, sharers)
    ensures remaining - Share(remaining, sharers) >= Div(remaining, sharers) * (sharers - 1)
  {
    hide Div, Share;
    ShareRoundsUp(remaining, sharers);
    Quotient(remaining, sharers);
    Residue(remaining, sharers, Share(remaining, sharers), Div(remaining, sharers));
  }

  /** A share is the rest divided by the sharers and rounded up, where the sum that rounds up stops at 64 bits. */
  predicate IsShare(share: nat, left: int, sharers: nat) {
    && share * sharers <= left + sharers - 1 && share * sharers <= U64_MAX
    && (share * sharers >= left || (share + 1) * sharers > U64_MAX)
  }

  lemma ShareIsCeiling(left: nat, sharers: nat)
    requires 0 < sharers <= U64_MAX && left <= U64_MAX
    ensures IsShare(Share(left, sharers), left, sharers)
    ensures forall s: nat | IsShare(s, left, sharers) :: s == Share(left, sharers)
  {
    hide Div;
    var n: nat := SatAdd(left, sharers - 1);
    Quotient(n, sharers);
    Successor(Div(n, sharers), sharers);
    forall s: nat | IsShare(s, left, sharers) ensures s == Div(n, sharers) {
      Successor(s, sharers);
      QuotientOrder(s, Div(n, sharers), sharers, n, n);
      QuotientOrder(Div(n, sharers), s, sharers, n, n);
    }
  }

  lemma Residue(remaining: nat, sharers: nat, s: nat, f: nat)
    requires sharers > 0 && f <= s <= f + 1
    requires s * sharers <= remaining + sharers - 1 && f * sharers <= remaining
    ensures f * (sharers - 1) >= 0 && remaining >= s + f * (sharers - 1)
  {
    assert f * sharers == f * (sharers - 1) + f;
    Successor(f, sharers);
    MulMonotone(0, f, sharers - 1);
  }

  /** What remains covers the exact share of everyone left. */
  predicate Covered(remaining: nat, floor: nat, left: nat) {
    remaining >= floor * left
  }

  lemma CoveredFewer(remaining: nat, floor: nat, left: nat, fewer: nat)
    requires Covered(remaining, floor, left) && fewer <= left
    ensures Covered(remaining, floor, fewer)
  {
    MulMonotone(fewer, left, floor);
  }

  // ---- sums ----

  function Sum(s: seq<nat>): nat {
    if s == [] then 0 else Sum(s[..|s| - 1]) + s[|s| - 1]
  }

  lemma SumMore(s: seq<nat>, x: nat)
    ensures Sum(s + [x]) == Sum(s) + x
  {
    assert (s + [x])[..|s + [x]| - 1] == s;
  }

  lemma NoSum()
    ensures Sum([]) == 0
  {
  }

  lemma {:induction false} SumsGrow(s: seq<nat>, k: nat, l: nat)
    requires k <= l <= |s|
    ensures Sum(s[..k]) <= Sum(s[..l])
  {
    if k < l {
      SumsGrow(s, k, l - 1);
      assert s[..l] == s[..l - 1] + [s[l - 1]];
      SumMore(s[..l - 1], s[l - 1]);
    }
  }
}
