/** Numbers as bit strings, lowest bit first. */
module Binary {
  import opened Arithmetic

  /** Bit `z` of a number. */
  predicate BitAt(x: nat, z: nat) {
    x / Power2(z) % 2 == 1
  }

  /** The number these bits stand for. */
  function Weight(v: seq<bool>): nat {
    if |v| == 0 then 0
    else
      var n := |v| - 1;
      Weight(v[..n]) + if v[n] then Power2(n) else 0
  }

  lemma {:induction false} WeightFits(v: seq<bool>)
    ensures Weight(v) < Power2(|v|)
  {
    if |v| > 0 {
      WeightFits(v[..|v| - 1]);
    }
  }

  /** Different strings of the same length stand for different numbers. */
  lemma {:induction false} WeightUnique(v: seq<bool>, w: seq<bool>)
    requires |v| == |w| && Weight(v) == Weight(w)
    ensures v == w
  {
    if |v| > 0 {
      var n := |v| - 1;
      WeightFits(v[..n]);
      WeightFits(w[..n]);
      WeightUnique(v[..n], w[..n]);
      assert v == v[..n] + [v[n]] && w == w[..n] + [w[n]];
    }
  }

  lemma {:induction false} WeightAppend(v: seq<bool>, w: seq<bool>)
    ensures Weight(v + w) == Weight(v) + Power2(|v|) * Weight(w)
  {
    if |w| == 0 {
      assert v + w == v;
    } else {
      var n := |w| - 1;
      WeightAppend(v, w[..n]);
      assert (v + w)[..|v| + n] == v + w[..n];
      PowersAdd(|v|, n);
      assert Power2(|v|) * (Weight(w[..n]) + Power2(n)) == Power2(|v|) * Weight(w[..n]) + Power2(|v|) * Power2(n);
    }
  }

  lemma {:induction false} PowersAdd(m: nat, n: nat)
    ensures Power2(m + n) == Power2(m) * Power2(n)
  {
    if n > 0 {
      PowersAdd(m, n - 1);
      assert Power2(m) * (2 * Power2(n - 1)) == 2 * (Power2(m) * Power2(n - 1));
    }
  }

  /** One more bit of a number. */
  lemma OneMoreBit(x: nat, n: nat)
    ensures x % Power2(n + 1) == x % Power2(n) + if BitAt(x, n) then Power2(n) else 0
  {
    var p := Power2(n);
    var q, t := x / p, x % p;
    assert x == p * q + t;
    var half, b := q / 2, q % 2;
    assert p * q == 2 * p * half + p * b by {
      assert q == 2 * half + b;
      assert p * (2 * half + b) == p * (2 * half) + p * b;
      assert p * (2 * half) == 2 * p * half;
    }
    assert p * b == if b == 1 then p else 0;
    Division(2 * p, half, p * b + t);
  }

  /** The lowest bits of a number stand for its remainder. */
  lemma {:induction false} BitsWeigh(x: nat, v: seq<bool>)
    requires forall z :: 0 <= z < |v| ==> v[z] == BitAt(x, z)
    ensures Weight(v) == x % Power2(|v|)
  {
    hide BitAt;
    if |v| > 0 {
      var n := |v| - 1;
      BitsWeigh(x, v[..n]);
      OneMoreBit(x, n);
    }
  }

  /** The bits of the number that a string stands for are that string. */
  lemma BitOfWeight(v: seq<bool>, z: nat)
    requires z < |v|
    ensures BitAt(Weight(v), z) == v[z]
  {
    var w := seq(|v|, i requires 0 <= i < |v| => BitAt(Weight(v), i));
    hide BitAt;
    BitsWeigh(Weight(v), w);
    WeightFits(v);
    Division(Power2(|v|), 0, Weight(v));
    WeightUnique(v, w);
  }

  lemma {:induction false} WeightSkip(v: seq<bool>, m: nat)
    requires m <= |v| && forall z :: m <= z < |v| ==> !v[z]
    ensures Weight(v) == Weight(v[..m])
  {
    if m == |v| {
      assert v[..m] == v;
    } else {
      var n := |v| - 1;
      WeightSkip(v[..n], m);
      assert v[..n][..m] == v[..m];
    }
  }

  /** Dividing by twice a number is halving first. */
  lemma HalfFirst(x: nat, p: nat)
    requires p > 0
    ensures x / (2 * p) == x / 2 / p
  {
    var h, b := x / 2, x % 2;
    var q, t := h / p, h % p;
    assert x == 2 * (p * q + t) + b;
    assert x == 2 * p * q + (2 * t + b);
    Division(2 * p, q, 2 * t + b);
  }

  /** Bit z + 1 of a number is bit z of its half. */
  lemma BitOfHalf(x: nat, z: nat)
    ensures BitAt(x, z + 1) == BitAt(x / 2, z)
    ensures BitAt(x, 0) <==> x % 2 == 1
  {
    HalfFirst(x, Power2(z));
    assert Power2(0) == 1;
  }

  /** Clearing the `k` lowest of `n` bits. */
  lemma {:induction false} ClearLow(x: nat, k: nat, n: nat, z: nat)
    requires x < Power2(n) && k <= n && z < n
    ensures BitAt(Power2(k) * (x / Power2(k)), z) <==> z >= k && BitAt(x, z)
  {
    hide BitAt, Power2, Weight;
    var v := seq(n, i requires 0 <= i < n => BitAt(x, i));
    var low, high := v[..k], v[k..];
    assert v == low + high;
    BitsWeigh(x, v);
    Division(Power2(n), 0, x);
    WeightAppend(low, high);
    WeightFits(low);
    Division(Power2(k), Weight(high), Weight(low));
    var zeros := seq(k, _ => false);
    NoBits(zeros);
    WeightAppend(zeros, high);
    BitOfWeight(zeros + high, z);
  }

  lemma {:induction false} NoBits(v: seq<bool>)
    requires forall z :: 0 <= z < |v| ==> !v[z]
    ensures Weight(v) == 0
  {
    WeightSkip(v, 0);
  }
}
