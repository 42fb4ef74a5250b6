/** Chains of ADD and ADF, or SUB and SBF, are exact arithmetic on numbers of any length. */
module CpuMultiword {
  import opened CpuWords
  import opened CpuArith

  // ---------- on words ----------

  /** Result words and final flags. */
  datatype Result = Result(words: seq<Reg>, flags: Flags)

  const CARRY: nat := 1    // condition code C/L

  function AddChain(f: Flags, a: seq<Reg>, b: seq<Reg>): (r: Result)
    requires |a| == |b|
    ensures |r.words| == |a|
    decreases |a|
  {
    if a == [] then Result([], f)
    else
      var n := |a| - 1;
      var p := AddChain(f, a[..n], b[..n]);
      var c := if n > 0 && p.flags.cy then 1 else 0;
      Result(p.words + [AddWord(a[n], b[n], c)], AddFlags(p.flags, a[n], b[n], c))
  }

  function SubChain(f: Flags, a: seq<Reg>, b: seq<Reg>): (r: Result)
    requires |a| == |b|
    ensures |r.words| == |a|
    decreases |a|
  {
    if a == [] then Result([], f)
    else
      var n := |a| - 1;
      var p := SubChain(f, a[..n], b[..n]);
      var c := if n > 0 && p.flags.cy then 1 else 0;
      Result(p.words + [SubWord(a[n], b[n], c)], SubFlags(p.flags, a[n], b[n], c))
  }

  /** The weight of a carry bit. */
  function Weight(carry: bool, p: nat): nat {
    if carry then p else 0
  }

  lemma WordSum(x: nat, y: nat, c: bool, z: nat, q: bool, p: nat, v: int, w: int, r: int)
    requires x + y + Weight(c, 1) == z + Weight(q, BASE)
    requires r == v + w - Weight(c, p)
    ensures r + z * p == (v + x * p) + (w + y * p) - Weight(q, BASE * p)
  {
    var k, m := Weight(c, 1), Weight(q, BASE);
    assert z == x + y + k - m;
    assert (x + y + k - m) * p == x * p + y * p + k * p - m * p;
  }

  lemma WordDifference(x: nat, y: nat, c: bool, z: nat, q: bool, p: nat, v: int, w: int, r: int)
    requires x - y - Weight(c, 1) == z - Weight(q, BASE)
    requires r == v - w + Weight(c, p)
    ensures r + z * p == (v + x * p) - (w + y * p) + Weight(q, BASE * p)
  {
    var k, m := Weight(c, 1), Weight(q, BASE);
    assert z == x - y - k + m;
    assert (x - y - k + m) * p == x * p - y * p - k * p + m * p;
  }

  lemma AddWordIs(a: Reg, b: Reg, c: nat)
    requires c <= 1
    ensures Unsigned(a) + Unsigned(b) + c ==
            Unsigned(AddWord(a, b, c)) + Weight(Unsigned(a) + Unsigned(b) + c >= BASE, BASE)
  {}

  lemma SubWordIs(a: Reg, b: Reg, c: nat)
    requires c <= 1
    ensures Unsigned(a) - Unsigned(b) - c == Unsigned(SubWord(a, b, c)) - Weight(Unsigned(a) < Unsigned(b) + c, BASE)
  {}

  /** One more word on top. */
  lemma ExtendSum(words: seq<Reg>, carry: bool, a: seq<Reg>, b: seq<Reg>, n: nat)
    requires |a| == |b| == n + 1 && |words| == n
    requires Value(words) == Value(a[..n]) + Value(b[..n]) - Weight(carry, BaseTo(n))
    ensures Value(words + [AddWord(a[n], b[n], Weight(carry, 1))]) ==
            Value(a) + Value(b) - Weight(Unsigned(a[n]) + Unsigned(b[n]) + Weight(carry, 1) >= BASE, BaseTo(n + 1))
  {
    var z := AddWord(a[n], b[n], Weight(carry, 1));
    AddWordIs(a[n], b[n], Weight(carry, 1));
    WordSum(Unsigned(a[n]), Unsigned(b[n]), carry, Unsigned(z),
        Unsigned(a[n]) + Unsigned(b[n]) + Weight(carry, 1) >= BASE, BaseTo(n),
       Value(a[..n]), Value(b[..n]), Value(words));
    ValueAppend(words, z);
  }

  /** The carry flag after an addition chain is the carry out of the top word. */
  lemma {:induction false} AddExact(f: Flags, a: seq<Reg>, b: seq<Reg>)
    requires |a| == |b| > 0
    ensures var r := AddChain(f, a, b);
            Value(r.words) == Value(a) + Value(b) - Weight(r.flags.cy, BaseTo(|a|))
    decreases |a|
  {
    var n := |a| - 1;
    var p := AddChain(f, a[..n], b[..n]);
    if n > 0 {
      AddExact(f, a[..n], b[..n]);
    }
    ExtendSum(p.words, n > 0 && p.flags.cy, a, b, n);
  }

  /** One more word on top. */
  lemma ExtendDifference(words: seq<Reg>, carry: bool, a: seq<Reg>, b: seq<Reg>, n: nat)
    requires |a| == |b| == n + 1 && |words| == n
    requires Value(words) == Value(a[..n]) - Value(b[..n]) + Weight(carry, BaseTo(n))
    ensures Value(words + [SubWord(a[n], b[n], Weight(carry, 1))]) ==
            Value(a) - Value(b) + Weight(Unsigned(a[n]) < Unsigned(b[n]) + Weight(carry, 1), BaseTo(n + 1))
  {
    var z := SubWord(a[n], b[n], Weight(carry, 1));
    SubWordIs(a[n], b[n], Weight(carry, 1));
    WordDifference(Unsigned(a[n]), Unsigned(b[n]), carry, Unsigned(z),
        Unsigned(a[n]) < Unsigned(b[n]) + Weight(carry, 1), BaseTo(n),
       Value(a[..n]), Value(b[..n]), Value(words));
    ValueAppend(words, z);
  }

  lemma {:induction false} SubExact(f: Flags, a: seq<Reg>, b: seq<Reg>)
    requires |a| == |b| > 0
    ensures var r := SubChain(f, a, b);
            Value(r.words) == Value(a) - Value(b) + Weight(r.flags.cy, BaseTo(|a|))
    decreases |a|
  {
    var n := |a| - 1;
    var p := SubChain(f, a[..n], b[..n]);
    if n > 0 {
      SubExact(f, a[..n], b[..n]);
    }
    ExtendDifference(p.words, n > 0 && p.flags.cy, a, b, n);
  }

  lemma ResidueOfSum(x: nat, r: nat, carry: bool, p: nat)
    requires r < p && r == x - Weight(carry, p)
    ensures r == x % p && (carry <==> x >= p)
  {
    Modulo(x, if carry then 1 else 0, r, p);
  }

  lemma ResidueOfDifference(x: int, r: nat, carry: bool, p: nat)
    requires x < p && r < p && r == x + Weight(carry, p)
    ensures r == x % p && (carry <==> x < 0)
  {
    Modulo(x, if carry then -1 else 0, r, p);
  }

  /** The sum modulo 2 to the 32n, and the carry flag set exactly when it did not fit. */
  lemma AddModulo(f: Flags, a: seq<Reg>, b: seq<Reg>)
    requires |a| == |b| > 0
    ensures var r := AddChain(f, a, b);
            && Value(r.words) == (Value(a) + Value(b)) % BaseTo(|a|)
            && (r.flags.cy <==> Value(a) + Value(b) >= BaseTo(|a|))
  {
    var r := AddChain(f, a, b);
    AddExact(f, a, b);
    ValueBound(r.words);
    ResidueOfSum(Value(a) + Value(b), Value(r.words), r.flags.cy, BaseTo(|a|));
  }

  /** The difference modulo 2 to the 32n, and the carry flag set exactly when a borrow was needed. */
  lemma SubModulo(f: Flags, a: seq<Reg>, b: seq<Reg>)
    requires |a| == |b| > 0
    ensures var r := SubChain(f, a, b);
            && Value(r.words) == (Value(a) - Value(b)) % BaseTo(|a|)
            && (r.flags.cy <==> Value(a) < Value(b))
  {
    var r := SubChain(f, a, b);
    SubExact(f, a, b);
    ValueBound(r.words);
    ValueBound(a);
    ResidueOfDifference(Value(a) - Value(b), Value(r.words), r.flags.cy, BaseTo(|a|));
  }

  /** Quotient and remainder are unique. */
  lemma Modulo(x: int, q: int, r: nat, p: nat)
    requires r < p && x == q * p + r
    ensures x % p == r
  {
    var d := x / p - q;
    assert x == (x / p) * p + x % p;
    assert d * p == (x / p) * p - q * p;
    if d >= 1 {
      MulMonotone(1, d, p);
    } else if d <= -1 {
      MulMonotone(d, -1, p);
    }
  }

  // ---------- the overflow flag ----------

  /** A low part below p and a multiple h of p together fit above p exactly when h fits a word. */
  lemma RangeOfTop(low: nat, h: int, p: nat)
    requires low < p
    ensures -(HALF * p) <= low + h * p < HALF * p <==> Fits(h)
  {
    if Fits(h) {
      MulMonotone(MINUS_MAX, h, p);
      MulMonotone(h, PLUS_MAX, p);
      assert PLUS_MAX * p == HALF * p - p;
    } else if h < MINUS_MAX {
      MulMonotone(h, MINUS_MAX - 1, p);
      assert (MINUS_MAX - 1) * p == -(HALF * p) - p;
    } else {
      MulMonotone(HALF, h, p);
    }
  }

  /** Is x outside the range of n-word signed numbers? */
  predicate Overflows(x: int, n: nat)
    requires n > 0
  {
    !(-(HALF * BaseTo(n - 1)) <= x < HALF * BaseTo(n - 1))
  }

  lemma TopSum(v: int, w: int, x: int, y: int, carry: bool, p: nat)
    ensures (v + x * p) + (w + y * p) == v + w - Weight(carry, p) + (x + y + Weight(carry, 1)) * p
  {
    var c := Weight(carry, 1);
    assert (x + y + c) * p == x * p + y * p + c * p;
  }

  lemma TopDifference(v: int, w: int, x: int, y: int, carry: bool, p: nat)
    ensures (v + x * p) - (w + y * p) == v - w + Weight(carry, p) + (x - y - Weight(carry, 1)) * p
  {
    var c := Weight(carry, 1);
    assert (x - y - c) * p == x * p - y * p - c * p;
  }

  lemma RangeSum(words: seq<Reg>, carry: bool, a: seq<Reg>, b: seq<Reg>, n: nat)
    requires |a| == |b| == n + 1 && |words| == n
    requires Value(words) == Value(a[..n]) + Value(b[..n]) - Weight(carry, BaseTo(n))
    ensures Fits(a[n] as int + b[n] as int + Weight(carry, 1)) <==> !Overflows(Signed(a) + Signed(b), |a|)
  {
    TopSum(Value(a[..n]), Value(b[..n]), a[n], b[n], carry, BaseTo(n));
    ValueBound(words);
    RangeOfTop(Value(words), a[n] as int + b[n] as int + Weight(carry, 1), BaseTo(n));
  }

  lemma AddLast(f: Flags, a: seq<Reg>, b: seq<Reg>, n: nat) returns (words: seq<Reg>, carry: bool)
    requires |a| == |b| == n + 1
    ensures |words| == n && Value(words) == Value(a[..n]) + Value(b[..n]) - Weight(carry, BaseTo(n))
    ensures AddChain(f, a, b).flags.ov <==> !Fits(a[n] as int + b[n] as int + Weight(carry, 1))
  {
    var p := AddChain(f, a[..n], b[..n]);
    words, carry := p.words, n > 0 && p.flags.cy;
    if n > 0 {
      AddExact(f, a[..n], b[..n]);
    }
  }

  /** The overflow flag after an addition chain is the overflow of the whole signed sum. */
  lemma AddOverflow(f: Flags, a: seq<Reg>, b: seq<Reg>)
    requires |a| == |b| > 0
    ensures AddChain(f, a, b).flags.ov <==> Overflows(Signed(a) + Signed(b), |a|)
  {
    var words, carry := AddLast(f, a, b, |a| - 1);
    RangeSum(words, carry, a, b, |a| - 1);
  }

  lemma RangeDifference(words: seq<Reg>, carry: bool, a: seq<Reg>, b: seq<Reg>, n: nat)
    requires |a| == |b| == n + 1 && |words| == n
    requires Value(words) == Value(a[..n]) - Value(b[..n]) + Weight(carry, BaseTo(n))
    ensures Fits(a[n] as int - b[n] as int - Weight(carry, 1)) <==> !Overflows(Signed(a) - Signed(b), |a|)
  {
    TopDifference(Value(a[..n]), Value(b[..n]), a[n], b[n], carry, BaseTo(n));
    ValueBound(words);
    RangeOfTop(Value(words), a[n] as int - b[n] as int - Weight(carry, 1), BaseTo(n));
  }

  lemma SubLast(f: Flags, a: seq<Reg>, b: seq<Reg>, n: nat) returns (words: seq<Reg>, carry: bool)
    requires |a| == |b| == n + 1
    ensures |words| == n && Value(words) == Value(a[..n]) - Value(b[..n]) + Weight(carry, BaseTo(n))
    ensures SubChain(f, a, b).flags.ov <==> !Fits(a[n] as int - b[n] as int - Weight(carry, 1))
  {
    var p := SubChain(f, a[..n], b[..n]);
    words, carry := p.words, n > 0 && p.flags.cy;
    if n > 0 {
      SubExact(f, a[..n], b[..n]);
    }
  }

  /** The overflow flag after a subtraction chain is the overflow of the whole signed difference. */
  lemma SubOverflow(f: Flags, a: seq<Reg>, b: seq<Reg>)
    requires |a| == |b| > 0
    ensures SubChain(f, a, b).flags.ov <==> Overflows(Signed(a) - Signed(b), |a|)
  {
    var words, carry := SubLast(f, a, b, |a| - 1);
    RangeDifference(words, carry, a, b, |a| - 1);
  }

  // ---------- the whole chain ----------

  /** ws is the sum of a and b modulo 2 to the 32n, with the carry and the signed overflow of the whole. */
  predicate IsSum(ws: seq<Reg>, f: Flags, a: seq<Reg>, b: seq<Reg>) {
    && |ws| == |a| == |b| > 0
    && Value(ws) == (Value(a) + Value(b)) % BaseTo(|a|)
    && (f.cy <==> Value(a) + Value(b) >= BaseTo(|a|))
    && (f.ov <==> Overflows(Signed(a) + Signed(b), |a|))
  }

  /** ws is the difference of a and b modulo 2 to the 32n, with the borrow and the overflow of the whole. */
  predicate IsDifference(ws: seq<Reg>, f: Flags, a: seq<Reg>, b: seq<Reg>) {
    && |ws| == |a| == |b| > 0
    && Value(ws) == (Value(a) - Value(b)) % BaseTo(|a|)
    && (f.cy <==> Value(a) < Value(b))
    && (f.ov <==> Overflows(Signed(a) - Signed(b), |a|))
  }

  lemma AddChainAdds(f: Flags, a: seq<Reg>, b: seq<Reg>)
    requires |a| == |b| > 0
    ensures IsSum(AddChain(f, a, b).words, AddChain(f, a, b).flags, a, b)
  {
    AddModulo(f, a, b);
    AddOverflow(f, a, b);
  }

  lemma SubChainSubtracts(f: Flags, a: seq<Reg>, b: seq<Reg>)
    requires |a| == |b| > 0
    ensures IsDifference(SubChain(f, a, b).words, SubChain(f, a, b).flags, a, b)
  {
    SubModulo(f, a, b);
    SubOverflow(f, a, b);
  }
}
